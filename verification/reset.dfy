/**
 * Wiping the database (`POST /api/admin/reset`): behind the shared secret,
 * the route deletes every lead and then every search whose id differs from
 * the all-zero UUID, and reports how many rows each delete removed.
 */
module Reset {
  import opened Grouping
  import opened Domain

  const UNAUTHORIZED: string := "Unauthorized"

  /**
   * Whether each delete reports an error. The route does not look at the
   * error: a failed delete removes nothing and its count, being null, is
   * reported as 0.
   */
  datatype ResetEnv = ResetEnv(leadsDeleteFailed: bool, searchesDeleteFailed: bool)

  /**
   * The reset route: 401 on a wrong secret without touching anything;
   * otherwise 200 with `leads_deleted` and `searches_deleted`, each the
   * number of rows its table lost.
   */
  function ResetAll(st: Store, secretMatches: bool, env: ResetEnv): (r: Reply)
    ensures r.response.code in {200, 401}
    ensures r.response.code == 401 <==> !secretMatches
    ensures !secretMatches ==> r.store == st
    ensures secretMatches ==>
      && r.response.body.DatabaseCleared?
      && |r.store.leads| + r.response.body.leadsDeleted == |st.leads|
      && |r.store.searches| + r.response.body.searchesDeleted == |st.searches|
    ensures forall l :: l in r.store.leads ==> l in st.leads
    ensures forall s :: s in r.store.searches ==> s in st.searches
  {
    if !secretMatches then Reply(st, Response(401, Failure(UNAUTHORIZED)))
    else
      var leads := if env.leadsDeleteFailed then st.leads else DeleteLeads(st.leads, IdNeq(NIL_UUID));
      var leadsDeleted := if env.leadsDeleteFailed then 0 else CountLeads(st.leads, IdNeq(NIL_UUID));
      var searches := if env.searchesDeleteFailed then st.searches else DeleteSearchesIdNeq(st.searches, NIL_UUID);
      var searchesDeleted := if env.searchesDeleteFailed then 0 else CountSearchesIdNeq(st.searches, NIL_UUID);
      Reply(Store(searches, leads), Response(200, DatabaseCleared(leadsDeleted, searchesDeleted)))
  }

  /**
   * A reset whose deletes succeed leaves only rows with the all-zero id, and
   * those rows survive it; with unique ids at most one lead is left.
   */
  lemma ResetEmpties(st: Store)
    requires Valid(st)
    ensures var r := ResetAll(st, true, ResetEnv(false, false)).store;
      && (forall l :: l in r.leads <==> l in st.leads && l.id == NIL_UUID)
      && (forall s :: s in r.searches <==> s in st.searches && s.id == NIL_UUID)
      && |r.leads| <= 1
  {
    var r := ResetAll(st, true, ResetEnv(false, false)).store;
    DeleteLeadsKeepsIds(st.leads, IdNeq(NIL_UUID));
    AtMostOneNil(r.leads);
  }

  /** With unique ids, a leads table whose every id is the all-zero UUID has at most one row. */
  lemma AtMostOneNil(ls: seq<Lead>)
    requires Injective(ls, LeadId)
    requires forall l :: l in ls ==> l.id == NIL_UUID
    ensures |ls| <= 1
  {
    forall i | 0 <= i < |ls| ensures ls[i].id == NIL_UUID {
      assert ls[i] in ls;
    }
    assert |ls| > 1 ==> LeadId(ls[0]) != LeadId(ls[1]);
  }

  /**
   * A second reset right after a successful one deletes nothing: it reports
   * zero rows for both tables and leaves the store as it was.
   */
  lemma ResetTwice(st: Store, env: ResetEnv)
    ensures var once := ResetAll(st, true, ResetEnv(false, false)).store;
      var again := ResetAll(once, true, env);
      && again.store == once
      && again.response.body == DatabaseCleared(0, 0)
  {
    var once := ResetAll(st, true, ResetEnv(false, false)).store;
    DeleteNothing(once.leads, IdNeq(NIL_UUID));
    DeleteSearchesNothing(once.searches, NIL_UUID);
  }

  /** A searches delete `.neq('id', id)` that matches nothing leaves the table as it was. */
  lemma {:induction false} DeleteSearchesNothing(ss: seq<Search>, id: Id)
    requires CountSearchesIdNeq(ss, id) == 0
    ensures DeleteSearchesIdNeq(ss, id) == ss
    decreases |ss|
  {
    if |ss| > 0 {
      DeleteSearchesNothing(ss[1..], id);
    }
  }

  /** The leads delete runs first: when it fails the leads are all kept and reported as 0, whatever the searches delete does. */
  lemma ResetLeadsFailed(st: Store, searchesDeleteFailed: bool)
    ensures var r := ResetAll(st, true, ResetEnv(true, searchesDeleteFailed));
      r.store.leads == st.leads && r.response.body.leadsDeleted == 0 && r.response.code == 200
  {
  }
}
