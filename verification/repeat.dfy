/**
 * Re-running a search (`POST /api/searches/repeat`): the owner of a search
 * asks for it to be scraped again; the route deletes the search's leads,
 * resets it to 'processando' with a zero count and posts it to the scraping
 * workflow again. A failed post marks it 'erro'; the deleted leads are not
 * restored.
 */
module Repeat {
  import opened Wrappers
  import opened Text
  import opened Domain
  import opened SearchCreation

  const UNAUTHORIZED: string := "Não autorizado"
  const MISSING_SEARCH_ID: string := "ID da busca é obrigatório."
  const SEARCH_NOT_FOUND: string := "Busca não encontrada."
  const TRIGGER_FAILED: string := "Erro ao reiniciar busca no n8n."

  // ------------------------------------------------------------ callback URL

  /** The `x-forwarded-proto` and `host` request headers, None when absent. */
  datatype ForwardedHeaders = ForwardedHeaders(proto: Option<string>, host: Option<string>)

  /** This route's `getBaseUrl(request)`: `${proto || 'http'}://${host || 'localhost:3000'}`. */
  function BaseUrl(h: ForwardedHeaders): string
  {
    OrElse(h.proto, "http") + "://" + OrElse(h.host, "localhost:3000")
  }

  /**
   * For a request that reaches the site under a host without "localhost",
   * with headers that carry the URL's scheme and host, this route and the
   * create route build the same callback base.
   */
  lemma BaseUrlsAgree(u: RequestUrl, h: ForwardedHeaders)
    requires Truthy(h.proto) && u.protocol == h.proto.value + ":"
    requires h.host == Some(Host(u)) && Host(u) != ""
    requires !Contains(Host(u), "localhost")
    ensures BaseUrl(h) == CallbackBase(u)
  {
    var p := h.proto.value;
    assert "://" == ":" + "//";
    assert p + "://" + Host(u) == (p + ":") + "//" + Host(u);
  }

  /**
   * On a local host the two routes disagree: this route's callback keeps
   * "localhost" (and so does its default when the host header is absent),
   * while the create route's authority never contains it.
   */
  lemma LocalBasesDiffer(u: RequestUrl, h: ForwardedHeaders)
    requires AllDigits(u.port)
    requires h.host == Some(Host(u)) && Contains(Host(u), "localhost")
    ensures Contains(BaseUrl(h), "localhost")
    ensures Contains(BaseUrl(ForwardedHeaders(h.proto, None)), "localhost")
    ensures !Contains(CallbackHost(u), "localhost")
  {
    assert Host(u) != "";
    ContainsInfix(OrElse(h.proto, "http") + "://", Host(u), "", "localhost");
    assert BaseUrl(h) == OrElse(h.proto, "http") + "://" + Host(u) + "";
    assert Contains("localhost:3000", "localhost");
    ContainsInfix(OrElse(h.proto, "http") + "://", "localhost:3000", "", "localhost");
    assert BaseUrl(ForwardedHeaders(h.proto, None)) == OrElse(h.proto, "http") + "://" + "localhost:3000" + "";
    CallbackHostNeverLocal(u);
  }

  // ---------------------------------------------------------------- handler

  datatype RepeatRequest = RepeatRequest(searchId: Option<string>)

  /** The signed-in user (None when there is none or the lookup fails), the workflow post's outcome, and the headers. */
  datatype RepeatEnv = RepeatEnv(user: Option<Id>, trigger: TriggerOutcome, headers: ForwardedHeaders)

  /**
   * The repeat route. Without a user 401, with a falsy `search_id` 400, and
   * when the user's lookup does not single out one search 404, all without
   * writing or calling the workflow. Otherwise the search's leads go, its
   * rows are reset, the workflow is called when configured, and no search is
   * added or removed.
   */
  function RepeatSearch(st: Store, req: RepeatRequest, env: RepeatEnv): (r: TriggeredReply)
    ensures r.response.code in {200, 400, 401, 404, 500}
    ensures r.response.code == 401 <==> env.user.None?
    ensures r.response.code == 400 <==> env.user.Some? && !Truthy(req.searchId)
    ensures r.response.code == 404 <==>
      env.user.Some? && Truthy(req.searchId) && FindSearch(st.searches, req.searchId.value, env.user).None?
    ensures r.response.code in {400, 401, 404} ==> r.store == st && r.call.None?
    ensures |r.store.searches| == |st.searches|
    ensures forall l :: l in r.store.leads ==> l in st.leads
    ensures r.response.code == 500 <==> r.call.Some? && env.trigger == Unreachable
  {
    if env.user.None? then TriggeredReply(st, Response(401, Failure(UNAUTHORIZED)), None)
    else if !Truthy(req.searchId) then TriggeredReply(st, Response(400, Failure(MISSING_SEARCH_ID)), None)
    else
      var sid := req.searchId.value;
      match FindSearch(st.searches, sid, env.user)
      case None => TriggeredReply(st, Response(404, Failure(SEARCH_NOT_FOUND)), None)
      case Some(search) =>
        var leads := DeleteLeads(st.leads, SearchIdEq(sid));
        var searches := Restarted(st.searches, sid, env.trigger == Unreachable);
        var call := TriggerCall(search.id, search.term, search.city, BaseUrl(env.headers) + CALLBACK_PATH);
        match env.trigger
        case NotConfigured => TriggeredReply(Store(searches, leads), Response(200, SearchRestarted(search.id)), None)
        case Delivered => TriggeredReply(Store(searches, leads), Response(200, SearchRestarted(search.id)), Some(call))
        case Unreachable => TriggeredReply(Store(searches, leads), Response(500, Failure(TRIGGER_FAILED)), Some(call))
  }

  /**
   * The searches table after the reset `.update({ status: 'processando',
   * leads_count: 0 })`, followed by `.update({ status: 'erro' })` when the
   * workflow post failed.
   */
  function Restarted(ss: seq<Search>, sid: Id, failed: bool): seq<Search>
  {
    var reset := UpdateSearches(ss, sid, SetStatusAndCount(Processando, 0));
    if failed then UpdateSearches(reset, sid, SetStatus(Erro)) else reset
  }

  /** The reset overwrites everything an earlier reset wrote, so doing it twice is doing it once. */
  lemma RestartedTwice(ss: seq<Search>, sid: Id, failed: bool)
    ensures Restarted(Restarted(ss, sid, failed), sid, failed) == Restarted(ss, sid, failed)
    ensures forall x, owner :: FindSearch(Restarted(ss, sid, failed), x, owner).Some? == FindSearch(ss, x, owner).Some?
  {
    var once := Restarted(ss, sid, failed);
    var twice := Restarted(once, sid, failed);
    forall i | 0 <= i < |ss| ensures twice[i] == once[i] {
    }
    forall x, owner ensures FindSearch(once, x, owner).Some? == FindSearch(ss, x, owner).Some? {
      var reset := UpdateSearches(ss, sid, SetStatusAndCount(Processando, 0));
      SelectAfterUpdate(ss, sid, SetStatusAndCount(Processando, 0), x, owner);
      SelectAfterUpdate(reset, sid, SetStatus(Erro), x, owner);
    }
  }

  /** A request naming a search the signed-in user owns. */
  ghost predicate OwnedRequest(st: Store, req: RepeatRequest, env: RepeatEnv)
  {
    env.user.Some? && Truthy(req.searchId) && FindSearch(st.searches, req.searchId.value, env.user).Some?
  }

  /** The reset rows carry count 0 and 'processando', or 'erro' when the post failed. */
  lemma RestartedRows(ss: seq<Search>, sid: Id, failed: bool)
    ensures forall s :: s in Restarted(ss, sid, failed) && s.id == sid ==>
      s.leadsCount == 0 && s.status == (if failed then Erro else Processando)
  {
    var r := Restarted(ss, sid, failed);
    forall s | s in r && s.id == sid
      ensures s.leadsCount == 0 && s.status == (if failed then Erro else Processando)
    {
      var i :| 0 <= i < |r| && r[i] == s;
    }
  }

  /**
   * After a repeat the search holds no leads and its `leads_count` is 0, so
   * the count agrees with the table; leads of other searches all stay; the
   * search is 'processando', or 'erro' when the workflow was unreachable.
   */
  lemma RepeatResets(st: Store, req: RepeatRequest, env: RepeatEnv)
    requires OwnedRequest(st, req, env)
    ensures var r := RepeatSearch(st, req, env);
      var sid := req.searchId.value;
      && CountBySearch(r.store.leads, sid) == 0
      && (forall l :: l in st.leads && l.searchId != sid ==> l in r.store.leads)
      && (forall s :: s in r.store.searches && s.id == sid ==>
            s.leadsCount == 0 && s.status == (if env.trigger == Unreachable then Erro else Processando))
      && |r.store.searches| == |st.searches|
      && (forall i :: 0 <= i < |st.searches| && st.searches[i].id != sid ==> r.store.searches[i] == st.searches[i])
      && (forall i :: 0 <= i < |st.searches| && st.searches[i].id == sid ==>
            && r.store.searches[i].term == st.searches[i].term
            && r.store.searches[i].city == st.searches[i].city
            && r.store.searches[i].userId == st.searches[i].userId)
      && (env.trigger != Unreachable ==> r.response == Response(200, SearchRestarted(sid)))
  {
    var sid := req.searchId.value;
    var r := RepeatSearch(st, req, env);
    assert r.store == Store(Restarted(st.searches, sid, env.trigger == Unreachable), DeleteLeads(st.leads, SearchIdEq(sid)));
    RestartedRows(st.searches, sid, env.trigger == Unreachable);
  }

  /** The workflow, when configured, is told the search's own id, term and city. */
  lemma RepeatCalls(st: Store, req: RepeatRequest, env: RepeatEnv)
    requires OwnedRequest(st, req, env)
    ensures var r := RepeatSearch(st, req, env);
      var sid := req.searchId.value;
      var found := FindSearch(st.searches, sid, env.user).value;
      && (r.call.Some? <==> env.trigger != NotConfigured)
      && (r.call.Some? ==> r.call.value == TriggerCall(sid, found.term, found.city, BaseUrl(env.headers) + CALLBACK_PATH))
  {
  }

  /**
   * Only the owner can repeat a search: when no search with that id belongs
   * to the user the route answers 404 and nothing changes.
   */
  lemma RepeatOwnerOnly(st: Store, req: RepeatRequest, env: RepeatEnv)
    requires env.user.Some? && Truthy(req.searchId)
    requires forall s :: s in st.searches && s.id == req.searchId.value ==> s.userId != env.user.value
    ensures RepeatSearch(st, req, env).response.code == 404
    ensures RepeatSearch(st, req, env).store == st
  {
    var rows := SelectSearches(st.searches, req.searchId.value, env.user);
    assert forall s :: s !in rows;
  }

  /** Repeating twice in a row, with the same outcomes, leaves the store as repeating once. */
  lemma RepeatIdempotent(st: Store, req: RepeatRequest, env: RepeatEnv)
    ensures var once := RepeatSearch(st, req, env).store;
      RepeatSearch(once, req, env).store == once
  {
    if OwnedRequest(st, req, env) {
      var sid := req.searchId.value;
      var failed := env.trigger == Unreachable;
      var once := Store(Restarted(st.searches, sid, failed), DeleteLeads(st.leads, SearchIdEq(sid)));
      assert RepeatSearch(st, req, env).store == once;
      RestartedTwice(st.searches, sid, failed);
      DeleteLeadsAgain(st.leads, SearchIdEq(sid));
      assert OwnedRequest(once, req, env);
      assert RepeatSearch(once, req, env).store
        == Store(Restarted(once.searches, sid, failed), DeleteLeads(once.leads, SearchIdEq(sid)));
    }
  }
}
