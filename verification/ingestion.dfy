/**
 * The results webhook (`POST /api/webhooks/n8n-results`): the scraping
 * workflow posts `{ search_id, leads }`, the route maps each delivered record
 * onto a lead row through a fixed set of field aliases, inserts all of them
 * in one statement and marks the search finished with `leads_count` set to
 * the length of the delivered array.
 */
module Ingestion {
  import opened Wrappers
  import opened Text
  import opened Grouping
  import opened Domain

  /** One element of the delivered `leads` array: field name to text value; a field the record lacks is absent. */
  type RawRecord = map<string, string>

  /**
   * The `leads` member of the payload: absent or null, an array of records,
   * or some other value, carried with its `length` (0 when it has none).
   */
  datatype LeadsField = Missing | Records(records: seq<RawRecord>) | NotArray(length: nat)

  datatype IngestRequest = IngestRequest(searchId: Option<string>, leads: LeadsField)

  /**
   * What the database does with the request: whether the insert of the lead
   * rows reports an error, the id it gives the k-th inserted row, and the
   * statement's timestamp, which every inserted row takes as `created_at`.
   */
  datatype IngestEnv = IngestEnv(insertFailed: bool, newId: nat -> Id, now: int)

  const UNAUTHORIZED: string := "Unauthorized"
  const MISSING_SEARCH_ID: string := "search_id é obrigatório."
  const SEARCH_NOT_FOUND: string := "Busca não encontrada."
  const SAVE_FAILED: string := "Erro ao salvar leads."

  /** `lead[name]`: the field's value, None when the record lacks it. */
  function Field(rec: RawRecord, name: string): Option<string>
  {
    if name in rec then Some(rec[name]) else None
  }

  /** Field `names[k]` is the first of `names` whose value is truthy. */
  ghost predicate PicksAt(rec: RawRecord, names: seq<string>, k: int)
  {
    && 0 <= k < |names|
    && Truthy(Field(rec, names[k]))
    && forall m :: 0 <= m < k ==> !Truthy(Field(rec, names[m]))
  }

  /** `lead[a] || lead[b] || …`: the first truthy field among `names`, None when every one is falsy. */
  function FirstTruthy(rec: RawRecord, names: seq<string>): (r: Option<string>)
    ensures r.Some? <==> exists k :: PicksAt(rec, names, k)
    ensures forall k :: PicksAt(rec, names, k) ==> r == Field(rec, names[k])
    ensures r.Some? ==> r.value != ""
    decreases |names|
  {
    if |names| == 0 then None
    else if Truthy(Field(rec, names[0])) then
      assert PicksAt(rec, names, 0);
      Field(rec, names[0])
    else
      var r := FirstTruthy(rec, names[1..]);
      assert forall k :: PicksAt(rec, names[1..], k) <==> PicksAt(rec, names, k + 1);
      assert forall k :: PicksAt(rec, names, k) ==> k > 0 && PicksAt(rec, names[1..], k - 1);
      r
  }

  /** A text column: `lead[a] || lead[b] || ''`. */
  function TextColumn(rec: RawRecord, names: seq<string>): string
  {
    match FirstTruthy(rec, names)
    case Some(v) => v
    case None => ""
  }

  /** The row inserted for one delivered record. */
  function BuildLead(rec: RawRecord, searchId: Id, userId: Id, id: Id, now: int): Lead
  {
    Lead(
      id, searchId, userId,
      TextColumn(rec, ["name", "title"]),
      TextColumn(rec, ["phone", "phoneNumber"]),
      TextColumn(rec, ["address"]),
      TextColumn(rec, ["neighborhood", "bairro"]),
      TextColumn(rec, ["city", "cidade"]),
      FirstTruthy(rec, ["rating"]),
      FirstTruthy(rec, ["website"]),
      FirstTruthy(rec, ["email_1", "email"]),
      FirstTruthy(rec, ["email_2"]),
      Novo,
      now)
  }

  /**
   * The alias table of the insert: each column takes the first non-empty of
   * its aliases, text columns fall back to '' and the others to null, and
   * every new lead starts as 'novo'.
   */
  lemma BuildLeadAliases(rec: RawRecord, searchId: Id, userId: Id, id: Id, now: int)
    ensures var l := BuildLead(rec, searchId, userId, id, now);
      && l.name == Either(Field(rec, "name"), Field(rec, "title")).GetOr("")
      && l.phone == Either(Field(rec, "phone"), Field(rec, "phoneNumber")).GetOr("")
      && l.address == Either(Field(rec, "address"), None).GetOr("")
      && l.neighborhood == Either(Field(rec, "neighborhood"), Field(rec, "bairro")).GetOr("")
      && l.city == Either(Field(rec, "city"), Field(rec, "cidade")).GetOr("")
      && l.rating == Either(Field(rec, "rating"), None)
      && l.website == Either(Field(rec, "website"), None)
      && l.email1 == Either(Field(rec, "email_1"), Field(rec, "email"))
      && l.email2 == Either(Field(rec, "email_2"), None)
      && l.status == Novo
      && l.searchId == searchId && l.userId == userId
  {
    FirstTwo(rec, "name", "title");
    FirstTwo(rec, "phone", "phoneNumber");
    FirstOne(rec, "address");
    FirstTwo(rec, "neighborhood", "bairro");
    FirstTwo(rec, "city", "cidade");
    FirstOne(rec, "rating");
    FirstOne(rec, "website");
    FirstTwo(rec, "email_1", "email");
    FirstOne(rec, "email_2");
  }

  lemma FirstTwo(rec: RawRecord, a: string, b: string)
    ensures FirstTruthy(rec, [a, b]) == Either(Field(rec, a), Field(rec, b))
  {
    if !Truthy(Field(rec, a)) && Truthy(Field(rec, b)) {
      assert PicksAt(rec, [a, b], 1);
    }
  }

  lemma FirstOne(rec: RawRecord, a: string)
    ensures FirstTruthy(rec, [a]) == Either(Field(rec, a), None)
  {
  }

  /** The rows inserted for the delivered array, in order, the k-th taking the k-th generated id. */
  function BuildLeads(records: seq<RawRecord>, searchId: Id, userId: Id, env: IngestEnv): (r: seq<Lead>)
    ensures |r| == |records|
    ensures forall k :: 0 <= k < |r| ==> r[k].searchId == searchId && r[k].userId == userId && r[k].id == env.newId(k)
    ensures forall k :: 0 <= k < |r| ==> r[k] == BuildLead(records[k], searchId, userId, env.newId(k), env.now)
  {
    var r := seq(|records|, k requires 0 <= k < |records| => BuildLead(records[k], searchId, userId, env.newId(k), env.now));
    assert forall k :: 0 <= k < |r| ==> r[k] == BuildLead(records[k], searchId, userId, env.newId(k), env.now);
    r
  }

  /** `leads?.length || 0`: the count the route stores and reports. */
  function ReportedCount(f: LeadsField): nat
  {
    match f
    case Missing => 0
    case Records(rs) => |rs|
    case NotArray(n) => n
  }

  /** `leads && Array.isArray(leads) && leads.length > 0`: whether there is anything to insert. */
  predicate HasRecords(f: LeadsField)
  {
    f.Records? && |f.records| > 0
  }

  /**
   * The webhook. A wrong secret answers 401, a falsy `search_id` 400, and a
   * search id that does not select exactly one row 404, all without writing.
   * A failed insert marks the search 'erro' and answers 500; otherwise the
   * rows are appended and the search becomes 'concluido' with the reported
   * count. Writes only ever append leads and never add or remove searches.
   */
  function Ingest(st: Store, secretMatches: bool, req: IngestRequest, env: IngestEnv): (r: Reply)
    ensures r.response.code in {200, 400, 401, 404, 500}
    ensures r.response.code == 401 <==> !secretMatches
    ensures r.response.code == 400 <==> secretMatches && !Truthy(req.searchId)
    ensures r.response.code == 404 <==>
      secretMatches && Truthy(req.searchId) && FindSearch(st.searches, req.searchId.value, None).None?
    ensures r.response.code == 500 <==>
      && secretMatches && Truthy(req.searchId) && FindSearch(st.searches, req.searchId.value, None).Some?
      && HasRecords(req.leads) && env.insertFailed
    ensures r.response.code in {400, 401, 404} ==> r.store == st
    ensures |r.store.searches| == |st.searches|
    ensures |st.leads| <= |r.store.leads| && r.store.leads[..|st.leads|] == st.leads
    ensures r.response.code != 200 ==> r.store.leads == st.leads
  {
    if !secretMatches then Reply(st, Response(401, Failure(UNAUTHORIZED)))
    else if !Truthy(req.searchId) then Reply(st, Response(400, Failure(MISSING_SEARCH_ID)))
    else
      var sid := req.searchId.value;
      match FindSearch(st.searches, sid, None)
      case None => Reply(st, Response(404, Failure(SEARCH_NOT_FOUND)))
      case Some(search) =>
        if HasRecords(req.leads) && env.insertFailed then
          Reply(st.(searches := UpdateSearches(st.searches, sid, SetStatus(Erro))), Response(500, Failure(SAVE_FAILED)))
        else
          var added := if HasRecords(req.leads) then BuildLeads(req.leads.records, sid, search.userId, env) else [];
          var count := ReportedCount(req.leads);
          assert (st.leads + added)[..|st.leads|] == st.leads;
          Reply(
            Store(UpdateSearches(st.searches, sid, SetStatusAndCount(Concluido, count)), st.leads + added),
            Response(200, LeadsSaved(count)))
  }

  /** The search a delivery is for, when the request names one that exists. */
  ghost predicate Deliverable(st: Store, req: IngestRequest)
  {
    Truthy(req.searchId) && FindSearch(st.searches, req.searchId.value, None).Some?
  }

  /** The leads a delivery inserts into `st`. */
  function Inserted(st: Store, req: IngestRequest, env: IngestEnv): seq<Lead>
    requires Deliverable(st, req)
  {
    var sid := req.searchId.value;
    if HasRecords(req.leads)
    then BuildLeads(req.leads.records, sid, FindSearch(st.searches, sid, None).value.userId, env)
    else []
  }

  /**
   * A delivery whose insert goes through appends one lead per delivered
   * record, each owned by the search's owner, and sets every row of that
   * search to 'concluido' with `leads_count` equal to the array's length,
   * however many leads the search held before; other searches are untouched.
   */
  lemma IngestSucceeds(st: Store, req: IngestRequest, env: IngestEnv)
    requires Deliverable(st, req)
    requires HasRecords(req.leads) ==> !env.insertFailed
    ensures var r := Ingest(st, true, req, env);
      && r.response == Response(200, LeadsSaved(ReportedCount(req.leads)))
      && r.store.leads == st.leads + Inserted(st, req, env)
      && |Inserted(st, req, env)| == (if HasRecords(req.leads) then |req.leads.records| else 0)
      && (forall i :: 0 <= i < |st.searches| && st.searches[i].id == req.searchId.value ==>
            r.store.searches[i].status == Concluido && r.store.searches[i].leadsCount == ReportedCount(req.leads))
      && (forall i :: 0 <= i < |st.searches| && st.searches[i].id != req.searchId.value ==>
            r.store.searches[i] == st.searches[i])
  {
  }

  /** A failed insert writes no lead, marks the search 'erro' and keeps its count. */
  lemma IngestInsertFails(st: Store, req: IngestRequest, env: IngestEnv)
    requires Deliverable(st, req) && HasRecords(req.leads) && env.insertFailed
    ensures var r := Ingest(st, true, req, env);
      && r.response.code == 500
      && r.store.leads == st.leads
      && (forall i :: 0 <= i < |st.searches| && st.searches[i].id == req.searchId.value ==>
            r.store.searches[i] == st.searches[i].(status := Erro))
      && (forall i :: 0 <= i < |st.searches| && st.searches[i].id != req.searchId.value ==>
            r.store.searches[i] == st.searches[i])
  {
  }

  /** Every inserted lead belongs to the delivered search: its lead count grows by exactly the rows inserted. */
  lemma IngestCountsForSearch(st: Store, req: IngestRequest, env: IngestEnv)
    requires Deliverable(st, req)
    requires HasRecords(req.leads) ==> !env.insertFailed
    ensures CountBySearch(Ingest(st, true, req, env).store.leads, req.searchId.value)
      == CountBySearch(st.leads, req.searchId.value) + |Inserted(st, req, env)|
  {
    var added := Inserted(st, req, env);
    CountLeadsAppend(st.leads, added, SearchIdEq(req.searchId.value));
    CountLeadsAll(added, SearchIdEq(req.searchId.value));
  }

  /**
   * No deduplication: delivering the same non-empty array twice stores its
   * records twice, while `leads_count` is overwritten with the array length
   * and so no longer matches the number of leads the search holds.
   */
  lemma RedeliveryDuplicates(st: Store, req: IngestRequest, env1: IngestEnv, env2: IngestEnv)
    requires Deliverable(st, req) && HasRecords(req.leads)
    requires !env1.insertFailed && !env2.insertFailed
    ensures var once := Ingest(st, true, req, env1).store;
      var twice := Ingest(once, true, req, env2).store;
      && CountBySearch(twice.leads, req.searchId.value)
           == CountBySearch(st.leads, req.searchId.value) + 2 * |req.leads.records|
      && forall s :: s in twice.searches && s.id == req.searchId.value ==> s.leadsCount == |req.leads.records|
  {
    var sid := req.searchId.value;
    var once := Ingest(st, true, req, env1).store;
    IngestCountsForSearch(st, req, env1);
    SelectAfterUpdate(st.searches, sid, SetStatusAndCount(Concluido, |req.leads.records|), sid, None);
    IngestCountsForSearch(once, req, env2);
    IngestSucceeds(once, req, env2);
  }

  /** The database hands out `n` ids that are distinct and not yet used by any lead. */
  ghost predicate FreshIds(st: Store, env: IngestEnv, n: nat)
  {
    && (forall k: nat :: k < n ==> env.newId(k) !in Image(st.leads, LeadId))
    && (forall j: nat, k: nat :: j < k < n ==> env.newId(j) != env.newId(k))
  }

  /** With fresh generated ids, every request keeps both tables free of repeated ids. */
  lemma IngestKeepsValid(st: Store, secretMatches: bool, req: IngestRequest, env: IngestEnv)
    requires Valid(st)
    requires req.leads.Records? ==> FreshIds(st, env, |req.leads.records|)
    ensures Valid(Ingest(st, secretMatches, req, env).store)
  {
    var r := Ingest(st, secretMatches, req, env);
    if secretMatches && Deliverable(st, req) {
      var sid := req.searchId.value;
      UpdateSearchesKeepsIds(st.searches, sid, SetStatus(Erro));
      UpdateSearchesKeepsIds(st.searches, sid, SetStatusAndCount(Concluido, ReportedCount(req.leads)));
      if HasRecords(req.leads) && !env.insertFailed {
        var added := Inserted(st, req, env);
        var all := st.leads + added;
        assert r.store.leads == all;
        forall i, j | 0 <= i < j < |all| ensures all[i].id != all[j].id {
          if j >= |st.leads| {
            assert all[j] == added[j - |st.leads|];
            if i < |st.leads| {
              assert all[i] in st.leads;
            } else {
              assert all[i] == added[i - |st.leads|];
            }
          }
        }
      }
    }
  }
}
