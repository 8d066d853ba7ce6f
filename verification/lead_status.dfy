/**
 * Setting a lead's triage status (`POST /api/leads/status`): the signed-in
 * user names a lead and one of the three statuses; the route updates the
 * lead only when it belongs to that user, and answers success whether or not
 * a row matched.
 */
module LeadStatusRoute {
  import opened Wrappers
  import opened Text
  import opened Domain

  const UNAUTHORIZED: string := "Unauthorized"
  const MISSING_FIELDS: string := "Missing required fields"
  const INVALID_STATUS: string := "Invalid status"
  const DATABASE_ERROR: string := "Database error"

  datatype StatusRequest = StatusRequest(leadId: Option<string>, status: Option<string>)

  /** The signed-in user (None when there is none) and whether the update reports an error. */
  datatype StatusEnv = StatusEnv(user: Option<Id>, updateFailed: bool)

  /**
   * `.from('leads').update({ status }).eq('id', id).eq('user_id', owner)`:
   * the rows with that id and owner take the new status; no other field of
   * any row and no other row changes.
   */
  function SetLeadStatus(ls: seq<Lead>, id: Id, owner: Id, s: LeadStatus): (r: seq<Lead>)
    ensures |r| == |ls|
    ensures forall i :: 0 <= i < |ls| ==> r[i].(status := ls[i].status) == ls[i]
    ensures forall i :: 0 <= i < |ls| && ls[i].id == id && ls[i].userId == owner ==> r[i].status == s
    ensures forall i :: 0 <= i < |ls| && (ls[i].id != id || ls[i].userId != owner) ==> r[i] == ls[i]
  {
    seq(|ls|, i requires 0 <= i < |ls| => if ls[i].id == id && ls[i].userId == owner then ls[i].(status := s) else ls[i])
  }

  /**
   * The status route: 401 without a user; 400 when `lead_id` or `status` is
   * falsy or the status is not one of the three; 500 when the update fails.
   * None of these writes. Searches are never touched.
   */
  function SetStatus(st: Store, req: StatusRequest, env: StatusEnv): (r: Reply)
    ensures r.response.code in {200, 400, 401, 500}
    ensures r.response.code == 401 <==> env.user.None?
    ensures r.response.code == 400 <==>
      env.user.Some? && (!Truthy(req.leadId) || !Truthy(req.status) || ParseLeadStatus(req.status.value).None?)
    ensures r.response.code == 500 <==>
      && env.user.Some? && Truthy(req.leadId) && Truthy(req.status)
      && ParseLeadStatus(req.status.value).Some? && env.updateFailed
    ensures r.response.code != 200 ==> r.store == st
    ensures r.store.searches == st.searches
    ensures |r.store.leads| == |st.leads|
  {
    if env.user.None? then Reply(st, Response(401, Failure(UNAUTHORIZED)))
    else if !Truthy(req.leadId) || !Truthy(req.status) then Reply(st, Response(400, Failure(MISSING_FIELDS)))
    else
      match ParseLeadStatus(req.status.value)
      case None => Reply(st, Response(400, Failure(INVALID_STATUS)))
      case Some(s) =>
        if env.updateFailed then Reply(st, Response(500, Failure(DATABASE_ERROR)))
        else Reply(st.(leads := SetLeadStatus(st.leads, req.leadId.value, env.user.value, s)), Response(200, LeadStatusSet(s)))
  }

  /**
   * The route succeeds exactly for a signed-in user, a truthy lead id, one
   * of 'novo', 'contatado', 'sem_interesse', and an update without error,
   * and then echoes the status it was given.
   */
  lemma SetStatusSucceedsIff(st: Store, req: StatusRequest, env: StatusEnv)
    ensures SetStatus(st, req, env).response.code == 200 <==>
      && env.user.Some?
      && Truthy(req.leadId)
      && req.status.Some?
      && (exists s: LeadStatus :: LeadStatusName(s) == req.status.value)
      && !env.updateFailed
    ensures SetStatus(st, req, env).response.code == 200 ==>
      LeadStatusName(SetStatus(st, req, env).response.body.leadStatus) == req.status.value
  {
    if req.status.Some? && exists s: LeadStatus :: LeadStatusName(s) == req.status.value {
      var s :| LeadStatusName(s) == req.status.value;
      assert req.status.value != "";
    }
  }

  /**
   * Ownership: a lead that does not belong to the signed-in user is left as
   * it was, and the route still answers success.
   */
  lemma ForeignLeadUntouched(st: Store, req: StatusRequest, env: StatusEnv, i: int)
    requires SetStatus(st, req, env).response.code == 200
    requires 0 <= i < |st.leads| && st.leads[i].userId != env.user.value
    ensures SetStatus(st, req, env).store.leads[i] == st.leads[i]
    ensures SetStatus(st, req, env).response.body == LeadStatusSet(ParseLeadStatus(req.status.value).value)
  {
  }

  /**
   * A successful request gives the user's lead the requested status and
   * changes nothing else about it; ids stay unique.
   */
  lemma OwnedLeadUpdated(st: Store, req: StatusRequest, env: StatusEnv, i: int)
    requires SetStatus(st, req, env).response.code == 200
    requires 0 <= i < |st.leads| && st.leads[i].id == req.leadId.value && st.leads[i].userId == env.user.value
    ensures LeadStatusName(SetStatus(st, req, env).store.leads[i].status) == req.status.value
    ensures SetStatus(st, req, env).store.leads[i].(status := st.leads[i].status) == st.leads[i]
  {
  }

  /** Ids stay unique: the update never touches an id. */
  lemma SetStatusKeepsValid(st: Store, req: StatusRequest, env: StatusEnv)
    requires Valid(st)
    ensures Valid(SetStatus(st, req, env).store)
  {
    var r := SetStatus(st, req, env).store;
    assert forall i :: 0 <= i < |st.leads| ==> r.leads[i].id == st.leads[i].id;
  }

  /** Sending the same request twice leaves the store as sending it once. */
  lemma SetStatusIdempotent(st: Store, req: StatusRequest, env: StatusEnv)
    ensures var once := SetStatus(st, req, env);
      SetStatus(once.store, req, env) == once
  {
    var once := SetStatus(st, req, env);
    if once.response.code == 200 {
      var twice := SetStatus(once.store, req, env);
      forall i | 0 <= i < |st.leads| ensures twice.store.leads[i] == once.store.leads[i] {
      }
    }
  }
}
