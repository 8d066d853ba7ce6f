/**
 * Starting a search (`POST /api/searches`): an authenticated user submits a
 * term and a city; the route inserts a 'processando' search with both
 * trimmed and a zero count, then posts the search to the scraping workflow
 * with the URL the workflow must call back. When that post cannot be made
 * the search is kept and marked 'erro'.
 */
module SearchCreation {
  import opened Wrappers
  import opened Text
  import opened Grouping
  import opened Domain

  const UNAUTHORIZED: string := "Não autorizado"
  const MISSING_FIELDS: string := "Termo de busca e cidade são obrigatórios."
  const CREATE_FAILED: string := "Erro ao criar busca."
  const TRIGGER_FAILED: string := "Erro ao iniciar busca no n8n."

  // ------------------------------------------------------------ callback URL

  /**
   * The parts of `new URL(request.url)` the route reads: `protocol` with its
   * trailing ':', `hostname`, and `port`, which is '' for the scheme's
   * default port and otherwise decimal digits.
   */
  datatype RequestUrl = RequestUrl(protocol: string, hostname: string, port: string)

  /** `url.host`: the hostname, followed by ':' and the port when the port is not the default. */
  function Host(u: RequestUrl): string
  {
    if u.port == "" then u.hostname else u.hostname + ":" + u.port
  }

  /** The name a container uses for the machine it runs on. */
  const DOCKER_HOST: string := "host.docker.internal"

  const DEFAULT_PORT: string := "3000"

  /**
   * The authority of the callback URL: a host that contains "localhost" is
   * replaced by the Docker host alias, with the request's port or 3000, so
   * that a workflow running in a container can reach the site.
   */
  function CallbackHost(u: RequestUrl): string
  {
    if Contains(Host(u), "localhost") then DOCKER_HOST + ":" + (if u.port == "" then DEFAULT_PORT else u.port)
    else Host(u)
  }

  /** `getBaseUrl(request)`: `${protocol}//${authority}`. */
  function CallbackBase(u: RequestUrl): string
  {
    u.protocol + "//" + CallbackHost(u)
  }

  /**
   * The rewrite removes every "localhost": the callback authority never
   * contains it, and a host without it is passed through as it is.
   */
  lemma CallbackHostNeverLocal(u: RequestUrl)
    requires AllDigits(u.port)
    ensures !Contains(CallbackHost(u), "localhost")
    ensures !Contains(Host(u), "localhost") ==> CallbackHost(u) == Host(u)
    ensures Contains(Host(u), "localhost") && u.port != "" ==> CallbackHost(u) == DOCKER_HOST + ":" + u.port
  {
    if Contains(Host(u), "localhost") {
      var port := if u.port == "" then DEFAULT_PORT else u.port;
      assert AllDigits(port);
      DockerHostNotLocal(port);
    }
  }

  /** "host.docker.internal:" followed by digits does not contain "localhost". */
  lemma DockerHostNotLocal(port: string)
    requires AllDigits(port)
    ensures !Contains(DOCKER_HOST + ":" + port, "localhost")
  {
    var prefix := DOCKER_HOST + ":";
    var s := prefix + port;
    var sub := "localhost";
    assert |prefix| == 21;
    forall i | 0 <= i && i + |sub| <= |s| ensures !OccursAt(s, sub, i) {
      if i + 8 >= 21 {
        assert s[i + 8] == port[i + 8 - 21];
        assert IsDigit(s[i + 8]);
        assert s[i..i + |sub|][8] == s[i + 8];
        assert s[i..i + |sub|][8] != sub[8];
      } else {
        assert s[i] == prefix[i];
        assert s[i] != 'l';
        assert s[i..i + |sub|][0] != sub[0];
      }
    }
    ContainsIffOccurs(s, sub);
  }

  // ---------------------------------------------------------------- handler

  datatype CreateRequest = CreateRequest(term: Option<string>, city: Option<string>)

  /**
   * What the route gets from outside: the signed-in user (None when there is
   * none or the session lookup fails), whether the insert fails, the id the
   * database gives the new row, the outcome of the workflow post, and the
   * request URL.
   */
  datatype CreateEnv = CreateEnv(
    user: Option<Id>,
    insertFailed: bool,
    newId: Id,
    trigger: TriggerOutcome,
    url: RequestUrl)

  /** The row inserted for a request that passed validation. */
  function NewSearch(req: CreateRequest, env: CreateEnv): Search
    requires env.user.Some? && req.term.Some? && req.city.Some?
  {
    Search(env.newId, env.user.value, Trim(req.term.value), Trim(req.city.value), Processando, 0)
  }

  /**
   * The create route. Without a user it answers 401 and with a falsy term or
   * city 400, both checked before trimming; a failed insert answers 500.
   * None of these writes anything or calls the workflow. Otherwise exactly
   * one search row is appended, and leads are never touched.
   */
  function Create(st: Store, req: CreateRequest, env: CreateEnv): (r: TriggeredReply)
    ensures r.response.code in {200, 400, 401, 500}
    ensures r.response.code == 401 <==> env.user.None?
    ensures r.response.code == 400 <==> env.user.Some? && (!Truthy(req.term) || !Truthy(req.city))
    ensures env.user.Some? && Truthy(req.term) && Truthy(req.city) && env.insertFailed ==>
      r.response.code == 500 && r.store == st && r.call.None?
    ensures Accepted(req, env) ==> |r.store.searches| == |st.searches| + 1
    ensures r.store.leads == st.leads
    ensures r.response.code in {400, 401} ==> r.store == st && r.call.None?
    ensures r.store == st || |r.store.searches| == |st.searches| + 1
    ensures forall i :: 0 <= i < |st.searches| ==>
      r.store.searches[i].id == st.searches[i].id && r.store.searches[i].userId == st.searches[i].userId
    ensures r.call.Some? ==> r.store != st && r.call.value.searchId == env.newId
  {
    if env.user.None? then TriggeredReply(st, Response(401, Failure(UNAUTHORIZED)), None)
    else if !Truthy(req.term) || !Truthy(req.city) then TriggeredReply(st, Response(400, Failure(MISSING_FIELDS)), None)
    else if env.insertFailed then TriggeredReply(st, Response(500, Failure(CREATE_FAILED)), None)
    else
      var search := NewSearch(req, env);
      var searches := st.searches + [search];
      assert |searches| != |st.searches|;
      var call := TriggerCall(search.id, search.term, search.city, CallbackBase(env.url) + CALLBACK_PATH);
      match env.trigger
      case NotConfigured =>
        TriggeredReply(Store(searches, st.leads), Response(200, SearchStarted(search.id, search.status)), None)
      case Delivered =>
        TriggeredReply(Store(searches, st.leads), Response(200, SearchStarted(search.id, search.status)), Some(call))
      case Unreachable =>
        var marked := UpdateSearches(searches, search.id, SetStatus(Erro));
        TriggeredReply(Store(marked, st.leads), Response(500, Failure(TRIGGER_FAILED)), Some(call))
  }

  /** A request the route accepts: a user, a truthy term and city, and an insert that goes through. */
  predicate Accepted(req: CreateRequest, env: CreateEnv)
  {
    env.user.Some? && Truthy(req.term) && Truthy(req.city) && !env.insertFailed
  }

  /**
   * With a fresh id the accepted request appends exactly its own row: the
   * earlier rows are untouched and the new one is `NewSearch`, marked 'erro'
   * when the workflow could not be reached.
   */
  lemma CreateAppends(st: Store, req: CreateRequest, env: CreateEnv)
    requires Accepted(req, env)
    requires env.newId !in Image(st.searches, SearchId)
    ensures var r := Create(st, req, env);
      && r.store.searches[..|st.searches|] == st.searches
      && |r.store.searches| == |st.searches| + 1
      && r.store.searches[|st.searches|]
         == if env.trigger == Unreachable then NewSearch(req, env).(status := Erro) else NewSearch(req, env)
  {
    var row := NewSearch(req, env);
    var searches := st.searches + [row];
    var n := |st.searches|;
    forall i | 0 <= i < n ensures searches[i].id != env.newId {
      assert st.searches[i] in st.searches;
    }
    assert searches[..n] == st.searches && searches[n] == row;
    if env.trigger == Unreachable {
      var marked := UpdateSearches(searches, env.newId, SetStatus(Erro));
      assert marked[n] == row.(status := Erro);
      assert marked[..n] == st.searches;
    }
  }

  /**
   * An accepted request stores its term and city trimmed, owned by the user,
   * with a zero count; the workflow, when it is called, is told that very
   * search's id, term and city.
   */
  lemma CreateStoresTrimmed(st: Store, req: CreateRequest, env: CreateEnv)
    requires Accepted(req, env)
    requires env.newId !in Image(st.searches, SearchId)
    ensures var r := Create(st, req, env);
      var row := r.store.searches[|st.searches|];
      && |r.store.searches| == |st.searches| + 1
      && row.id == env.newId && row.userId == env.user.value
      && IsTrimmed(row.term) && IsTrimmed(row.city)
      && row.term == Trim(req.term.value) && row.city == Trim(req.city.value)
      && row.leadsCount == 0
      && (r.call.Some? <==> env.trigger != NotConfigured)
      && (r.call.Some? ==> r.call.value == TriggerCall(row.id, row.term, row.city, CallbackBase(env.url) + CALLBACK_PATH))
  {
    CreateAppends(st, req, env);
  }

  /**
   * The response: 'processando' with the new id when the post went out or
   * was not configured; 500 with the row kept as 'erro' when it failed.
   */
  lemma CreateResponds(st: Store, req: CreateRequest, env: CreateEnv)
    requires Accepted(req, env)
    requires env.newId !in Image(st.searches, SearchId)
    ensures var r := Create(st, req, env);
      var row := r.store.searches[|st.searches|];
      && (env.trigger == Unreachable ==> row.status == Erro && r.response.code == 500)
      && (env.trigger != Unreachable ==> row.status == Processando && r.response == Response(200, SearchStarted(row.id, Processando)))
  {
    CreateAppends(st, req, env);
  }

  /**
   * A term or city made only of white space is truthy, so it passes the
   * check, and is stored as the empty string.
   */
  lemma BlankTermStoredEmpty(st: Store, req: CreateRequest, env: CreateEnv)
    requires Accepted(req, env) && AllWhiteSpace(req.term.value)
    requires env.newId !in Image(st.searches, SearchId)
    ensures Create(st, req, env).response.code != 400
    ensures Create(st, req, env).store.searches[|st.searches|].term == ""
  {
    TrimEmptyIff(req.term.value);
    CreateStoresTrimmed(st, req, env);
  }

  /**
   * With a fresh id the new search keeps ids unique and is the one row its
   * owner's lookup by that id finds, whatever the workflow post did.
   */
  lemma CreateThenFind(st: Store, req: CreateRequest, env: CreateEnv)
    requires Valid(st) && Accepted(req, env)
    requires env.newId !in Image(st.searches, SearchId)
    ensures var r := Create(st, req, env);
      && Valid(r.store)
      && FindSearch(r.store.searches, env.newId, env.user).Some?
  {
    var r := Create(st, req, env);
    CreateAppends(st, req, env);
    var searches := st.searches + [NewSearch(req, env)];
    forall i, j | 0 <= i < j < |searches| ensures searches[i].id != searches[j].id {
      if j == |st.searches| {
        assert searches[i] in st.searches;
      }
    }
    UpdateSearchesKeepsIds(searches, env.newId, SetStatus(Erro));
    var row := r.store.searches[|st.searches|];
    assert row in r.store.searches;
    FindSearchUnique(r.store.searches, env.newId, env.user);
  }
}
