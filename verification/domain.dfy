/**
 * The persisted records the route handlers read and write, the table
 * operations they issue (filtered select, count, delete, update), and the
 * HTTP responses they return. The database is an immutable value: a handler
 * maps a store and a request to a new store and a response.
 */
module Domain {
  import opened Wrappers
  import opened Grouping

  /** Row ids and user ids are UUID text. */
  type Id = string

  /** The all-zero UUID the reset route excludes with `.neq('id', …)`. */
  const NIL_UUID: Id := "00000000-0000-0000-0000-000000000000"

  /** A search's lifecycle: 'processando', 'concluido', 'erro'. */
  datatype SearchStatus = Processando | Concluido | Erro

  /** A lead's triage status: 'novo', 'contatado', 'sem_interesse'. */
  datatype LeadStatus = Novo | Contatado | SemInteresse

  function LeadStatusName(s: LeadStatus): string
  {
    match s
    case Novo => "novo"
    case Contatado => "contatado"
    case SemInteresse => "sem_interesse"
  }

  /** The lead status a request string names, if it names one of the three. */
  function ParseLeadStatus(t: string): (r: Option<LeadStatus>)
    ensures r.Some? ==> LeadStatusName(r.value) == t
    ensures r.None? ==> forall s: LeadStatus :: LeadStatusName(s) != t
  {
    if t == "novo" then Some(Novo)
    else if t == "contatado" then Some(Contatado)
    else if t == "sem_interesse" then Some(SemInteresse)
    else None
  }

  /** A row of the `searches` table. */
  datatype Search = Search(
    id: Id,
    userId: Id,
    term: string,
    city: string,
    status: SearchStatus,
    leadsCount: nat)

  /**
   * A row of the `leads` table. `rating` keeps the delivered value as opaque
   * text; `createdAt` is the insertion timestamp the duplicate sweep orders by.
   */
  datatype Lead = Lead(
    id: Id,
    searchId: Id,
    userId: Id,
    name: string,
    phone: string,
    address: string,
    neighborhood: string,
    city: string,
    rating: Option<string>,
    website: Option<string>,
    email1: Option<string>,
    email2: Option<string>,
    status: LeadStatus,
    createdAt: int)

  datatype Store = Store(searches: seq<Search>, leads: seq<Lead>)

  function SearchId(s: Search): Id { s.id }

  function LeadId(l: Lead): Id { l.id }

  /** Primary keys: ids are unique within each table. */
  ghost predicate Valid(st: Store)
  {
    Injective(st.searches, SearchId) && Injective(st.leads, LeadId)
  }

  // ---------------------------------------------------------------- searches

  /** `.from('searches').select().eq('id', id)`, plus `.eq('user_id', owner)` when an owner is given. */
  function SelectSearches(ss: seq<Search>, id: Id, owner: Option<Id>): (r: seq<Search>)
    ensures forall s :: s in r <==> s in ss && s.id == id && (owner.Some? ==> s.userId == owner.value)
    ensures |r| <= |ss|
    decreases |ss|
  {
    if |ss| == 0 then []
    else
      var s := ss[0];
      (if s.id == id && (owner.Some? ==> s.userId == owner.value) then [s] else [])
      + SelectSearches(ss[1..], id, owner)
  }

  /** `.single()`: the row when exactly one matched; any other number of rows is an error. */
  function FindSearch(ss: seq<Search>, id: Id, owner: Option<Id>): (r: Option<Search>)
    ensures r.Some? ==> r.value in ss && r.value.id == id
    ensures r.Some? && owner.Some? ==> r.value.userId == owner.value
  {
    var rows := SelectSearches(ss, id, owner);
    if |rows| == 1 then assert rows[0] in rows; Some(rows[0]) else None
  }

  /** With unique ids the lookup finds a search exactly when one with that id (and owner) exists. */
  lemma {:induction false} FindSearchUnique(ss: seq<Search>, id: Id, owner: Option<Id>)
    requires Injective(ss, SearchId)
    ensures FindSearch(ss, id, owner).Some? <==>
      exists s :: s in ss && s.id == id && (owner.Some? ==> s.userId == owner.value)
    decreases |ss|
  {
    if |ss| > 0 {
      assert Injective(ss[1..], SearchId) by {
        forall i, j | 0 <= i < j < |ss[1..]| ensures ss[1..][i].id != ss[1..][j].id {
          assert ss[1..][i] == ss[i + 1] && ss[1..][j] == ss[j + 1];
        }
      }
      FindSearchUnique(ss[1..], id, owner);
      var rest := SelectSearches(ss[1..], id, owner);
      forall s | s in ss[1..] ensures s.id != ss[0].id {
        var k :| 0 <= k < |ss[1..]| && ss[1..][k] == s;
        assert ss[k + 1] == s;
      }
      assert |rest| > 0 ==> rest[0] in ss[1..] && rest[0].id == id;
      if exists s :: s in ss && s.id == id && (owner.Some? ==> s.userId == owner.value) {
        var s :| s in ss && s.id == id && (owner.Some? ==> s.userId == owner.value);
        if s != ss[0] {
          assert s in ss[1..];
        }
      }
    }
  }

  /** The fields a search update writes: `.update({ status })`, `.update({ leads_count })` or both. */
  datatype SearchPatch =
    | SetStatus(status: SearchStatus)
    | SetCount(leadsCount: nat)
    | SetStatusAndCount(status: SearchStatus, leadsCount: nat)

  function Patch(s: Search, p: SearchPatch): Search
  {
    match p
    case SetStatus(st) => s.(status := st)
    case SetCount(n) => s.(leadsCount := n)
    case SetStatusAndCount(st, n) => s.(status := st, leadsCount := n)
  }

  /** `.from('searches').update(p).eq('id', id)`: rows keep their place, id, owner, term and city. */
  function UpdateSearches(ss: seq<Search>, id: Id, p: SearchPatch): (r: seq<Search>)
    ensures |r| == |ss|
    ensures forall i :: 0 <= i < |ss| ==>
      r[i].id == ss[i].id && r[i].userId == ss[i].userId && r[i].term == ss[i].term && r[i].city == ss[i].city
    ensures forall i :: 0 <= i < |ss| && ss[i].id != id ==> r[i] == ss[i]
  {
    seq(|ss|, i requires 0 <= i < |ss| => if ss[i].id == id then Patch(ss[i], p) else ss[i])
  }

  /** An update keeps ids and owners, so a lookup selects as many rows after it as before. */
  lemma {:induction false} SelectAfterUpdate(ss: seq<Search>, id: Id, p: SearchPatch, x: Id, owner: Option<Id>)
    ensures |SelectSearches(UpdateSearches(ss, id, p), x, owner)| == |SelectSearches(ss, x, owner)|
    ensures FindSearch(UpdateSearches(ss, id, p), x, owner).Some? == FindSearch(ss, x, owner).Some?
    decreases |ss|
  {
    if |ss| > 0 {
      var u := UpdateSearches(ss, id, p);
      assert u[1..] == UpdateSearches(ss[1..], id, p);
      SelectAfterUpdate(ss[1..], id, p, x, owner);
    }
  }

  /** Updating searches leaves the set of ids, hence their uniqueness, intact. */
  lemma UpdateSearchesKeepsIds(ss: seq<Search>, id: Id, p: SearchPatch)
    requires Injective(ss, SearchId)
    ensures Injective(UpdateSearches(ss, id, p), SearchId)
  {
  }

  /** `.from('searches').delete().neq('id', id)`: only rows whose id equals `id` stay. */
  function DeleteSearchesIdNeq(ss: seq<Search>, id: Id): (r: seq<Search>)
    ensures forall s :: s in r <==> s in ss && s.id == id
    ensures |r| + CountSearchesIdNeq(ss, id) == |ss|
    decreases |ss|
  {
    if |ss| == 0 then []
    else (if ss[0].id == id then [ss[0]] else []) + DeleteSearchesIdNeq(ss[1..], id)
  }

  /** The number of rows `.neq('id', id)` matches in `searches`. */
  function CountSearchesIdNeq(ss: seq<Search>, id: Id): (n: nat)
    ensures n <= |ss|
    ensures n == 0 <==> forall s :: s in ss ==> s.id == id
    decreases |ss|
  {
    if |ss| == 0 then 0
    else (if ss[0].id != id then 1 else 0) + CountSearchesIdNeq(ss[1..], id)
  }

  // ------------------------------------------------------------------- leads

  /** The filters the handlers put on `leads`: `.in('id', ids)`, `.neq('id', id)`, `.eq('search_id', id)`. */
  datatype LeadFilter = IdIn(ids: set<Id>) | IdNeq(id: Id) | SearchIdEq(searchId: Id)

  predicate Selects(f: LeadFilter, l: Lead)
  {
    match f
    case IdIn(ids) => l.id in ids
    case IdNeq(id) => l.id != id
    case SearchIdEq(sid) => l.searchId == sid
  }

  /** `select('*', { count: 'exact', head: true })` under filter `f`: the number of matching rows. */
  function CountLeads(ls: seq<Lead>, f: LeadFilter): (n: nat)
    ensures n <= |ls|
    ensures n == 0 <==> forall l :: l in ls ==> !Selects(f, l)
    decreases |ls|
  {
    if |ls| == 0 then 0
    else (if Selects(f, ls[0]) then 1 else 0) + CountLeads(ls[1..], f)
  }

  /** Counting over two concatenated tables adds the counts. */
  lemma {:induction false} CountLeadsAppend(a: seq<Lead>, b: seq<Lead>, f: LeadFilter)
    ensures CountLeads(a + b, f) == CountLeads(a, f) + CountLeads(b, f)
    decreases |a|
  {
    if |a| > 0 {
      assert (a + b)[0] == a[0] && (a + b)[1..] == a[1..] + b;
      CountLeadsAppend(a[1..], b, f);
    } else {
      assert a + b == b;
    }
  }

  /** A filter that matches every row counts the whole table. */
  lemma {:induction false} CountLeadsAll(ls: seq<Lead>, f: LeadFilter)
    requires forall i :: 0 <= i < |ls| ==> Selects(f, ls[i])
    ensures CountLeads(ls, f) == |ls|
    decreases |ls|
  {
    if |ls| > 0 {
      CountLeadsAll(ls[1..], f);
    }
  }

  /** The number of leads a search owns: `.eq('search_id', id)` counted. */
  function CountBySearch(ls: seq<Lead>, searchId: Id): nat
  {
    CountLeads(ls, SearchIdEq(searchId))
  }

  /** `.from('leads').delete()` under filter `f`: exactly the unmatched rows stay, in their order. */
  function DeleteLeads(ls: seq<Lead>, f: LeadFilter): (r: seq<Lead>)
    ensures forall l :: l in r <==> l in ls && !Selects(f, l)
    ensures |r| + CountLeads(ls, f) == |ls|
    decreases |ls|
  {
    if |ls| == 0 then []
    else (if Selects(f, ls[0]) then [] else [ls[0]]) + DeleteLeads(ls[1..], f)
  }

  /** Repeating a delete with the same filter deletes nothing more. */
  lemma {:induction false} DeleteLeadsAgain(ls: seq<Lead>, f: LeadFilter)
    ensures DeleteLeads(DeleteLeads(ls, f), f) == DeleteLeads(ls, f)
  {
    var once := DeleteLeads(ls, f);
    assert forall l :: l in once ==> !Selects(f, l);
    DeleteNothing(once, f);
  }

  /** A delete that matches nothing leaves the table as it was. */
  lemma {:induction false} DeleteNothing(ls: seq<Lead>, f: LeadFilter)
    requires CountLeads(ls, f) == 0
    ensures DeleteLeads(ls, f) == ls
    decreases |ls|
  {
    if |ls| > 0 {
      DeleteNothing(ls[1..], f);
      assert !Selects(f, ls[0]);
      assert ls == [ls[0]] + ls[1..];
    }
  }

  /** Deleting rows keeps the remaining ids unique. */
  lemma {:induction false} DeleteLeadsKeepsIds(ls: seq<Lead>, f: LeadFilter)
    requires Injective(ls, LeadId)
    ensures Injective(DeleteLeads(ls, f), LeadId)
    decreases |ls|
  {
    if |ls| > 0 {
      var x, tail := ls[0], ls[1..];
      InjectiveTail(ls);
      DeleteLeadsKeepsIds(tail, f);
      var rest := DeleteLeads(tail, f);
      if !Selects(f, x) {
        forall l | l in rest ensures l.id != x.id {
          assert l in tail;
          var k :| 0 <= k < |tail| && tail[k] == l;
          assert ls[k + 1] == l;
        }
        InjectiveCons(x, rest);
      }
    }
  }

  lemma InjectiveTail(ls: seq<Lead>)
    requires |ls| > 0 && Injective(ls, LeadId)
    ensures Injective(ls[1..], LeadId)
  {
    var tail := ls[1..];
    forall i, j | 0 <= i < j < |tail| ensures tail[i].id != tail[j].id {
      assert tail[i] == ls[i + 1] && tail[j] == ls[j + 1];
    }
  }

  lemma InjectiveCons(x: Lead, rest: seq<Lead>)
    requires Injective(rest, LeadId)
    requires forall l :: l in rest ==> l.id != x.id
    ensures Injective([x] + rest, LeadId)
  {
    var r := [x] + rest;
    forall i, j | 0 <= i < j < |r| ensures r[i].id != r[j].id {
      assert r[j] == rest[j - 1];
      if i > 0 {
        assert r[i] == rest[i - 1];
      }
    }
  }

  /** Two deletes by id lists in a row delete the union of the lists. */
  lemma {:induction false} DeleteLeadsTwice(ls: seq<Lead>, a: set<Id>, b: set<Id>)
    ensures DeleteLeads(DeleteLeads(ls, IdIn(a)), IdIn(b)) == DeleteLeads(ls, IdIn(a + b))
    decreases |ls|
  {
    if |ls| > 0 {
      var x, tail := ls[0], ls[1..];
      DeleteLeadsTwice(tail, a, b);
      var rest := DeleteLeads(tail, IdIn(a));
      if x.id in a {
        assert DeleteLeads(ls, IdIn(a)) == rest;
      } else {
        assert DeleteLeads(ls, IdIn(a)) == [x] + rest;
        DeleteLeadsCons(x, rest, IdIn(b));
      }
    }
  }

  /** Deleting from a table that starts with `x` decides `x` and deletes from the rest. */
  lemma DeleteLeadsCons(x: Lead, rest: seq<Lead>, f: LeadFilter)
    ensures DeleteLeads([x] + rest, f) == (if Selects(f, x) then [] else [x]) + DeleteLeads(rest, f)
  {
    assert ([x] + rest)[1..] == rest;
  }

  // --------------------------------------------------------------- responses

  /** The JSON bodies the routes answer with. */
  datatype Body =
    | Failure(message: string)
    | SearchStarted(id: Id, searchStatus: SearchStatus)
    | SearchRestarted(id: Id)
    | LeadsSaved(count: nat)
    | LeadStatusSet(leadStatus: LeadStatus)
    | DuplicatesCleaned(duplicatesRemoved: nat, uniqueLeadsRemaining: nat)
    | DatabaseCleared(leadsDeleted: nat, searchesDeleted: nat)

  datatype Response = Response(code: int, body: Body)

  /** A handler's effect: the store after the request and the response sent. */
  datatype Reply = Reply(store: Store, response: Response)

  // ------------------------------------------------------ the scrape trigger

  /**
   * The POST to the workflow URL: not configured (the URL is unset or empty),
   * delivered, or rejected by `fetch` (a network failure; an HTTP error
   * status does not reject).
   */
  datatype TriggerOutcome = NotConfigured | Delivered | Unreachable

  /** The JSON the trigger POST carries. */
  datatype TriggerCall = TriggerCall(searchId: Id, term: string, city: string, callbackUrl: string)

  /** The path the workflow is told to post its results to. */
  const CALLBACK_PATH: string := "/api/webhooks/n8n-results"

  /** The effect of a handler that may call the trigger: the call it made, if any. */
  datatype TriggeredReply = TriggeredReply(store: Store, response: Response, call: Option<TriggerCall>)
}
