/**
 * POST /api/admin/cleanup: the duplicate sweep. It reads every lead in
 * ascending `created_at` order, keeps the first lead of each
 * (search, phone) key, deletes the others in batches of 100, and then
 * rewrites every search's `leads_count` from a real count.
 *
 * `CleanupSpec` is the reference definition of the whole request; the
 * `Cleanup` method follows the route's loops and is proved equal to it.
 */
module Cleanup {
  import opened Wrappers
  import opened Grouping
  import opened Domain

  const UNAUTHORIZED: string := "Unauthorized"

  /** The grouping key `${search_id}::${phone}`. */
  function Key(l: Lead): string
  {
    l.searchId + "::" + l.phone
  }

  /** The same phone under two different searches gives two different keys. */
  lemma KeySeparatesSearches(a: Lead, b: Lead)
    requires a.phone == b.phone && a.searchId != b.searchId
    ensures Key(a) != Key(b)
  {
    if |a.searchId| == |b.searchId| {
      var i :| 0 <= i < |a.searchId| && a.searchId[i] != b.searchId[i];
      assert Key(a)[i] == a.searchId[i] && Key(b)[i] == b.searchId[i];
    } else {
      assert |Key(a)| != |Key(b)|;
    }
  }

  ghost predicate NoColon(s: string)
  {
    forall i :: 0 <= i < |s| ==> s[i] != ':'
  }

  /** The position of the first ':' in `s`, or |s| when there is none. */
  function FirstColon(s: string): nat
    decreases |s|
  {
    if |s| == 0 || s[0] == ':' then 0 else 1 + FirstColon(s[1..])
  }

  lemma {:induction false} FirstColonOfKey(x: string, p: string)
    requires NoColon(x)
    ensures FirstColon(x + "::" + p) == |x|
    decreases |x|
  {
    if |x| > 0 {
      assert (x + "::" + p)[1..] == x[1..] + "::" + p;
      FirstColonOfKey(x[1..], p);
    }
  }

  /**
   * The textual key identifies search and phone whenever search ids contain
   * no ':' (UUIDs never do): no two different pairs are folded together.
   */
  lemma KeyIdentifiesPair(a: Lead, b: Lead)
    requires NoColon(a.searchId) && NoColon(b.searchId)
    requires Key(a) == Key(b)
    ensures a.searchId == b.searchId && a.phone == b.phone
  {
    FirstColonOfKey(a.searchId, a.phone);
    FirstColonOfKey(b.searchId, b.phone);
    var n := |a.searchId|;
    assert a.searchId == Key(a)[..n] && b.searchId == Key(b)[..n];
    assert a.phone == Key(a)[n + 2..] && b.phone == Key(b)[n + 2..];
  }

  /**
   * `scan` is what `.select(...).order('created_at', { ascending: true })`
   * returns for table `leads`: every row once, by non-decreasing creation
   * time, rows created at the same instant in any order.
   */
  ghost predicate IsScanOf(scan: seq<Lead>, leads: seq<Lead>)
  {
    && multiset(scan) == multiset(leads)
    && forall i, j :: 0 <= i < j < |scan| ==> scan[i].createdAt <= scan[j].createdAt
  }

  function IdsOf(ls: seq<Lead>): seq<Id>
  {
    seq(|ls|, i requires 0 <= i < |ls| => ls[i].id)
  }

  lemma IdsOfAppend(a: seq<Lead>, b: seq<Lead>)
    ensures IdsOf(a + b) == IdsOf(a) + IdsOf(b)
  {
  }

  /** The set of ids a list holds. */
  function Elems(ids: seq<Id>): set<Id>
  {
    set x | x in ids
  }

  /** The ids the first loop pushes onto `duplicateIds`: every lead whose key was already seen. */
  function DuplicateIds(scan: seq<Lead>): seq<Id>
  {
    IdsOf(Repeats(scan, Key))
  }

  // ------------------------------------------------------------- grouping

  /** `id` belongs to the lead at which key `k` first occurs in `scan`. */
  ghost predicate FirstWithKey(scan: seq<Lead>, k: string, id: Id)
  {
    exists i :: 0 <= i < |scan| && scan[i].id == id && Key(scan[i]) == k && !IsRepeatAt(scan, Key, i)
  }

  /** One step of the grouping loop, stated on the prefixes it has scanned. */
  lemma GroupingStep(scan: seq<Lead>, i: int)
    requires 0 <= i < |scan|
    ensures Image(scan[..i + 1], Key) == Image(scan[..i], Key) + {Key(scan[i])}
    ensures DuplicateIds(scan[..i + 1])
      == DuplicateIds(scan[..i]) + (if Key(scan[i]) in Image(scan[..i], Key) then [scan[i].id] else [])
    ensures Key(scan[i]) !in Image(scan[..i], Key) ==> FirstWithKey(scan, Key(scan[i]), scan[i].id)
  {
    var prefix := scan[..i + 1];
    assert prefix[..i] == scan[..i] && prefix[i] == scan[i];
    ImageSnoc(prefix, Key);
    var tail := if Key(scan[i]) in Image(scan[..i], Key) then [scan[i]] else [];
    IdsOfAppend(Repeats(scan[..i], Key), tail);
    if Key(scan[i]) !in Image(scan[..i], Key) {
      forall j | 0 <= j < i ensures Key(scan[j]) != Key(scan[i]) {
        assert scan[j] in scan[..i];
      }
    }
  }

  /**
   * The grouping loop: `seen` maps each key met so far to the id of the
   * lead that first carried it, and a lead whose key is already in `seen`
   * goes to `duplicateIds`.
   */
  method FindDuplicates(scan: seq<Lead>) returns (duplicateIds: seq<Id>, seen: map<string, Id>)
    ensures duplicateIds == DuplicateIds(scan)
    ensures seen.Keys == Image(scan, Key)
    ensures forall k :: k in seen ==> FirstWithKey(scan, k, seen[k])
  {
    duplicateIds := [];
    seen := map[];
    var i := 0;
    while i < |scan|
      invariant 0 <= i <= |scan|
      invariant duplicateIds == DuplicateIds(scan[..i])
      invariant seen.Keys == Image(scan[..i], Key)
      invariant forall k :: k in seen ==> FirstWithKey(scan, k, seen[k])
    {
      var lead := scan[i];
      var key := Key(lead);
      GroupingStep(scan, i);
      if key in seen {
        duplicateIds := duplicateIds + [lead.id];
      } else {
        seen := seen[key := lead.id];
      }
      i := i + 1;
    }
    assert scan[..i] == scan;
  }

  /** Within a duplicate-free scan, a lead's id is collected exactly when an earlier lead has its key. */
  lemma DuplicateIdsExactlyLater(scan: seq<Lead>, j: int)
    requires Injective(scan, LeadId)
    requires 0 <= j < |scan|
    ensures scan[j].id in DuplicateIds(scan) <==> IsRepeatAt(scan, Key, j)
  {
    var reps := Repeats(scan, Key);
    if IsRepeatAt(scan, Key, j) {
      RepeatAtIsRepeat(scan, Key, j);
      var k :| 0 <= k < |reps| && reps[k] == scan[j];
      assert DuplicateIds(scan)[k] == scan[j].id;
    }
    if scan[j].id in DuplicateIds(scan) {
      var k :| 0 <= k < |reps| && DuplicateIds(scan)[k] == scan[j].id;
      RepeatComesFromRepeatAt(scan, Key, reps[k]);
      var m :| 0 <= m < |scan| && scan[m] == reps[k] && IsRepeatAt(scan, Key, m);
      assert scan[m].id == scan[j].id;
    }
  }

  /**
   * The lead kept for a key is the first of that key in the scan, hence one
   * created no later than any other lead with the same key.
   */
  lemma KeptIsEarliest(scan: seq<Lead>, leads: seq<Lead>, i: int, j: int)
    requires IsScanOf(scan, leads) && Injective(scan, LeadId)
    requires 0 <= i < |scan| && 0 <= j < |scan|
    requires Key(scan[i]) == Key(scan[j])
    requires scan[i].id !in DuplicateIds(scan)
    ensures i <= j && scan[i].createdAt <= scan[j].createdAt
  {
    DuplicateIdsExactlyLater(scan, i);
  }

  /** Every lead is either the first of its key or a duplicate: |duplicateIds| + number of keys = leads read. */
  lemma DuplicateCount(scan: seq<Lead>)
    ensures |DuplicateIds(scan)| + |Image(scan, Key)| == |scan|
  {
    RepeatsCount(scan, Key);
  }

  // -------------------------------------------------------------- batching

  const BATCH_SIZE: nat := 100

  function Flatten(bs: seq<seq<Id>>): seq<Id>
    decreases |bs|
  {
    if |bs| == 0 then [] else bs[0] + Flatten(bs[1..])
  }

  /** `duplicateIds.slice(i, i + 100)` for i = 0, 100, 200, ...: non-empty pieces of at most 100 ids that concatenate back to the input. */
  function Batches(ids: seq<Id>): (bs: seq<seq<Id>>)
    ensures forall b :: b in bs ==> 0 < |b| <= BATCH_SIZE
    ensures Flatten(bs) == ids
    decreases |ids|
  {
    if |ids| == 0 then []
    else if |ids| <= BATCH_SIZE then [ids]
    else
      var rest := Batches(ids[BATCH_SIZE..]);
      assert ([ids[..BATCH_SIZE]] + rest)[1..] == rest;
      [ids[..BATCH_SIZE]] + rest
  }

  /** JavaScript `s.slice(start, end)` for non-negative bounds. */
  function Slice(s: seq<Id>, start: nat, end: nat): seq<Id>
  {
    var lo := if start < |s| then start else |s|;
    var hi := if end < |s| then end else |s|;
    if lo <= hi then s[lo..hi] else []
  }

  /** What is left of `s` from position `start` on. */
  function Rest(s: seq<Id>, start: nat): seq<Id>
  {
    if start < |s| then s[start..] else []
  }

  /** One iteration of the batch loop takes the first batch of what is left. */
  lemma BatchesStep(ids: seq<Id>, i: nat)
    requires i < |ids|
    ensures Batches(Rest(ids, i)) == [Slice(ids, i, i + BATCH_SIZE)] + Batches(Rest(ids, i + BATCH_SIZE))
  {
    var r := ids[i..];
    assert Rest(ids, i) == r;
    if |r| > BATCH_SIZE {
      assert r[..BATCH_SIZE] == ids[i..i + BATCH_SIZE] == Slice(ids, i, i + BATCH_SIZE);
      assert r[BATCH_SIZE..] == ids[i + BATCH_SIZE..] == Rest(ids, i + BATCH_SIZE);
      assert Batches(r) == [r[..BATCH_SIZE]] + Batches(r[BATCH_SIZE..]);
    } else {
      assert Slice(ids, i, i + BATCH_SIZE) == ids[i..|ids|] == r;
      assert Rest(ids, i + BATCH_SIZE) == [];
      assert Batches(r) == [r];
    }
  }

  /** The ids of the batches whose delete succeeded; the head of `bs` is batch number `first`. */
  function Succeeded(bs: seq<seq<Id>>, failed: set<nat>, first: nat): seq<Id>
    decreases |bs|
  {
    if |bs| == 0 then []
    else (if first in failed then [] else bs[0]) + Succeeded(bs[1..], failed, first + 1)
  }

  /** The ids the batch loop deletes when the batches numbered in `failed` report an error. */
  function DeletedIds(duplicateIds: seq<Id>, failed: set<nat>): seq<Id>
  {
    Succeeded(Batches(duplicateIds), failed, 0)
  }

  lemma {:induction false} SucceededBounds(bs: seq<seq<Id>>, failed: set<nat>, first: nat)
    ensures |Succeeded(bs, failed, first)| <= |Flatten(bs)|
    ensures (forall k :: k in failed ==> k < first || k >= first + |bs|) ==> Succeeded(bs, failed, first) == Flatten(bs)
    decreases |bs|
  {
    if |bs| > 0 {
      SucceededBounds(bs[1..], failed, first + 1);
    }
  }

  /**
   * `deleted` never exceeds the number of duplicates, and reaches it when no
   * batch fails.
   */
  lemma DeletedBounds(duplicateIds: seq<Id>, failed: set<nat>)
    ensures |DeletedIds(duplicateIds, failed)| <= |duplicateIds|
    ensures (forall k :: k in failed ==> k >= |Batches(duplicateIds)|) ==> DeletedIds(duplicateIds, failed) == duplicateIds
  {
    SucceededBounds(Batches(duplicateIds), failed, 0);
  }

  /**
   * The ids the batch loop deletes from position `i` on, the batch starting
   * there being number `batchNo`: each iteration slices 100 ids and moves on.
   */
  function Pending(ids: seq<Id>, failed: set<nat>, i: nat, batchNo: nat): seq<Id>
    decreases |ids| - i
  {
    if i >= |ids| then []
    else (if batchNo in failed then [] else Slice(ids, i, i + BATCH_SIZE))
         + Pending(ids, failed, i + BATCH_SIZE, batchNo + 1)
  }

  /** The loop's slicing visits exactly the batches `Batches` describes. */
  lemma {:induction false} PendingIsSucceeded(ids: seq<Id>, failed: set<nat>, i: nat, batchNo: nat)
    ensures Pending(ids, failed, i, batchNo) == Succeeded(Batches(Rest(ids, i)), failed, batchNo)
    decreases |ids| - i
  {
    if i < |ids| {
      PendingIsSucceeded(ids, failed, i + BATCH_SIZE, batchNo + 1);
      BatchesStep(ids, i);
      var batch := Slice(ids, i, i + BATCH_SIZE);
      var later := Batches(Rest(ids, i + BATCH_SIZE));
      assert ([batch] + later)[0] == batch && ([batch] + later)[1..] == later;
    }
  }

  /** One iteration of the batch loop keeps "deleted so far, then still to delete" equal to the whole. */
  lemma BatchIteration(ids: seq<Id>, failed: set<nat>, i: nat, batchNo: nat, done: seq<Id>, all: seq<Id>)
    requires i < |ids|
    requires done + Pending(ids, failed, i, batchNo) == all
    ensures batchNo in failed ==> done + Pending(ids, failed, i + BATCH_SIZE, batchNo + 1) == all
    ensures batchNo !in failed ==>
      (done + Slice(ids, i, i + BATCH_SIZE)) + Pending(ids, failed, i + BATCH_SIZE, batchNo + 1) == all
  {
    var later := Pending(ids, failed, i + BATCH_SIZE, batchNo + 1);
    if batchNo in failed {
      assert [] + later == later;
    } else {
      var batch := Slice(ids, i, i + BATCH_SIZE);
      assert (done + batch) + later == done + (batch + later);
    }
  }

  /** When the batch loop stops, it has deleted exactly the ids of the batches that succeeded. */
  lemma BatchLoopExit(ids: seq<Id>, failed: set<nat>, i: nat, batchNo: nat, done: seq<Id>)
    requires i >= |ids|
    requires done + Pending(ids, failed, i, batchNo) == Pending(ids, failed, 0, 0)
    ensures done == DeletedIds(ids, failed)
  {
    PendingIsSucceeded(ids, failed, 0, 0);
    assert Rest(ids, 0) == ids;
    assert done + [] == done;
  }

  lemma DeleteMore(leads: seq<Lead>, done: seq<Id>, batch: seq<Id>)
    ensures DeleteLeads(DeleteLeads(leads, IdIn(Elems(done))), IdIn(Elems(batch)))
      == DeleteLeads(leads, IdIn(Elems(done + batch)))
  {
    DeleteLeadsTwice(leads, Elems(done), Elems(batch));
    assert (Elems(done)) + (Elems(batch)) == Elems(done + batch);
  }

  /**
   * The batch loop: `for (i = 0; i < duplicateIds.length; i += 100)`, a
   * delete of `.in('id', batch)` per iteration, and `deleted += batch.length`
   * only when that delete reports no error.
   */
  method DeleteInBatches(leads: seq<Lead>, duplicateIds: seq<Id>, failed: set<nat>)
    returns (remaining: seq<Lead>, deleted: nat)
    ensures deleted == |DeletedIds(duplicateIds, failed)|
    ensures remaining == DeleteLeads(leads, IdIn(Elems(DeletedIds(duplicateIds, failed))))
  {
    remaining := leads;
    deleted := 0;
    ghost var done: seq<Id> := [];
    DeleteNothing(leads, IdIn({}));
    assert Elems(done) == {};
    var i: nat := 0;
    var batchNo: nat := 0;
    ghost var all := Pending(duplicateIds, failed, 0, 0);
    while i < |duplicateIds|
      invariant done + Pending(duplicateIds, failed, i, batchNo) == all
      invariant deleted == |done|
      invariant remaining == DeleteLeads(leads, IdIn(Elems(done)))
    {
      var batch := Slice(duplicateIds, i, i + BATCH_SIZE);
      BatchIteration(duplicateIds, failed, i, batchNo, done, all);
      if batchNo !in failed {
        DeleteMore(leads, done, batch);
        remaining := DeleteLeads(remaining, IdIn(Elems(batch)));
        deleted := deleted + |batch|;
        done := done + batch;
      }
      i := i + BATCH_SIZE;
      batchNo := batchNo + 1;
    }
    BatchLoopExit(duplicateIds, failed, i, batchNo, done);
  }

  // --------------------------------------------------------------- recount

  /** A search's row after the recount: `leads_count: count || 0`, with a null count for the searches in `countFailed`. */
  function Recounted(s: Search, leads: seq<Lead>, countFailed: set<Id>): Search
  {
    s.(leadsCount := if s.id in countFailed then 0 else CountBySearch(leads, s.id))
  }

  function RecountAll(ss: seq<Search>, leads: seq<Lead>, countFailed: set<Id>): seq<Search>
  {
    seq(|ss|, i requires 0 <= i < |ss| => Recounted(ss[i], leads, countFailed))
  }

  /** The recount loop's contract pins its result down to `RecountAll`. */
  lemma RecountIsRecountAll(searches: seq<Search>, leads: seq<Lead>, countFailed: set<Id>, updated: seq<Search>)
    requires |updated| == |searches|
    requires forall j :: 0 <= j < |searches| ==>
      updated[j].leadsCount == (if searches[j].id in countFailed then 0 else CountBySearch(leads, searches[j].id))
    requires forall j :: 0 <= j < |searches| ==> updated[j] == searches[j].(leadsCount := updated[j].leadsCount)
    ensures updated == RecountAll(searches, leads, countFailed)
  {
  }

  /**
   * The recount loop: for each search, count its leads and write the count
   * with `.update({ leads_count }).eq('id', search.id)`. Afterwards every
   * search's count is the number of leads referencing it (0 where the count
   * came back null) and nothing else about any search changed.
   */
  method RecountSearches(searches: seq<Search>, leads: seq<Lead>, countFailed: set<Id>)
    returns (updated: seq<Search>)
    ensures |updated| == |searches|
    ensures forall j :: 0 <= j < |searches| ==>
      updated[j].leadsCount == (if searches[j].id in countFailed then 0 else CountBySearch(leads, searches[j].id))
    ensures forall j :: 0 <= j < |searches| ==> updated[j] == searches[j].(leadsCount := updated[j].leadsCount)
  {
    updated := searches;
    var i := 0;
    while i < |searches|
      invariant 0 <= i <= |searches|
      invariant |updated| == |searches|
      invariant forall j :: 0 <= j < |searches| ==>
        updated[j] == if searches[j].id in Image(searches[..i], SearchId) then Recounted(searches[j], leads, countFailed) else searches[j]
    {
      var search := searches[i];
      var count := if search.id in countFailed then 0 else CountBySearch(leads, search.id);
      assert searches[..i + 1][..i] == searches[..i] && searches[..i + 1][i] == search;
      ImageSnoc(searches[..i + 1], SearchId);
      updated := UpdateSearches(updated, search.id, SetCount(count));
      i := i + 1;
    }
    assert searches[..i] == searches;
    forall j | 0 <= j < |searches| ensures searches[j].id in Image(searches, SearchId) {
      assert searches[j] in searches;
    }
  }

  // ------------------------------------------------------------- the route

  /**
   * The outcomes of the route's queries: the error of the ordered select (with
   * its message), the rows it returned, the numbers of the batches whose
   * delete failed, whether listing the searches returned no data, and the
   * searches whose count came back null.
   */
  datatype CleanupEnv = CleanupEnv(
    fetchError: Option<string>,
    scan: seq<Lead>,
    failedBatches: set<nat>,
    searchListFailed: bool,
    countFailed: set<Id>)

  /** The ids the sweep deletes: the duplicates of the scan, less those in failed batches. */
  function Gone(env: CleanupEnv): seq<Id>
  {
    DeletedIds(DuplicateIds(env.scan), env.failedBatches)
  }

  /** The leads table after the batch loop. */
  function Swept(leads: seq<Lead>, env: CleanupEnv): seq<Lead>
  {
    DeleteLeads(leads, IdIn(Elems(Gone(env))))
  }

  /** The searches table after step 3: recounted, unless listing the searches returned no data. */
  function SweptSearches(ss: seq<Search>, leads: seq<Lead>, env: CleanupEnv): seq<Search>
  {
    if env.searchListFailed then ss else RecountAll(ss, leads, env.countFailed)
  }

  /** The response body: `duplicates_removed: deleted` and `unique_leads_remaining: allLeads.length - deleted`. */
  function Report(env: CleanupEnv): Body
  {
    var gone := Gone(env);
    DeletedBounds(DuplicateIds(env.scan), env.failedBatches);
    DuplicateCount(env.scan);
    DuplicatesCleaned(|gone|, |env.scan| - |gone|)
  }

  /** The reference definition of one cleanup request. */
  function CleanupSpec(st: Store, secretMatches: bool, env: CleanupEnv): Reply
  {
    if !secretMatches then Reply(st, Response(401, Failure(UNAUTHORIZED)))
    else if env.fetchError.Some? then Reply(st, Response(500, Failure(env.fetchError.value)))
    else
      var leads := Swept(st.leads, env);
      Reply(Store(SweptSearches(st.searches, leads, env), leads), Response(200, Report(env)))
  }

  /**
   * The route as written: secret check, ordered fetch, grouping loop, batch
   * loop, recount loop. A wrong secret answers 401 and a failed fetch 500,
   * both without touching the store; otherwise the result is `CleanupSpec`.
   */
  method Cleanup(st: Store, secretMatches: bool, env: CleanupEnv) returns (r: Reply)
    ensures !secretMatches ==> r.store == st && r.response.code == 401
    ensures secretMatches && env.fetchError.Some? ==> r.store == st && r.response.code == 500
    ensures r == CleanupSpec(st, secretMatches, env)
  {
    if !secretMatches {
      return Reply(st, Response(401, Failure(UNAUTHORIZED)));
    }
    if env.fetchError.Some? {
      return Reply(st, Response(500, Failure(env.fetchError.value)));
    }
    var duplicateIds, seen := FindDuplicates(env.scan);
    var leads, deleted := DeleteInBatches(st.leads, duplicateIds, env.failedBatches);
    assert leads == Swept(st.leads, env) && deleted == |Gone(env)|;
    var searches := st.searches;
    if !env.searchListFailed {
      searches := RecountSearches(st.searches, leads, env.countFailed);
      RecountIsRecountAll(st.searches, leads, env.countFailed, searches);
    }
    assert searches == SweptSearches(st.searches, leads, env);
    assert deleted <= |env.scan| by {
      DeletedBounds(duplicateIds, env.failedBatches);
      DuplicateCount(env.scan);
    }
    var body := DuplicatesCleaned(deleted, |env.scan| - deleted);
    assert body == Report(env);
    r := Reply(Store(searches, leads), Response(200, body));
  }

  // ------------------------------------------------------------ properties

  /** Every query succeeds and the scan is a faithful ordered read of the leads. */
  ghost predicate CleanRun(st: Store, env: CleanupEnv)
  {
    && env.fetchError.None?
    && env.failedBatches == {}
    && !env.searchListFailed
    && env.countFailed == {}
    && IsScanOf(env.scan, st.leads)
  }

  /**
   * The ordered read of a table with a primary key repeats no id, which is
   * the premise `DuplicateIdsExactlyLater` and `KeptIsEarliest` take.
   */
  lemma ScanHasUniqueIds(st: Store, scan: seq<Lead>)
    requires Valid(st) && IsScanOf(scan, st.leads)
    ensures Injective(scan, LeadId)
  {
    PermutationKeys(scan, st.leads, LeadId);
  }

  /** The sweep keeps lead ids unique and search rows in place. */
  lemma CleanupKeepsValid(st: Store, secretMatches: bool, env: CleanupEnv)
    requires Valid(st)
    ensures Valid(CleanupSpec(st, secretMatches, env).store)
  {
    var r := CleanupSpec(st, secretMatches, env);
    if secretMatches && env.fetchError.None? {
      DeleteLeadsKeepsIds(st.leads, IdIn(Elems(Gone(env))));
      assert forall i :: 0 <= i < |r.store.searches| ==> r.store.searches[i].id == st.searches[i].id;
    }
  }

  /** What the sweep leaves of `leads` when every batch is deleted. */
  function Survivors(leads: seq<Lead>, scan: seq<Lead>): seq<Lead>
  {
    DeleteLeads(leads, IdIn(Elems(DuplicateIds(scan))))
  }

  /** With no failed batch the sweep deletes every duplicate. */
  lemma CleanRunLeads(st: Store, env: CleanupEnv)
    requires env.failedBatches == {}
    ensures Gone(env) == DuplicateIds(env.scan)
    ensures Swept(st.leads, env) == Survivors(st.leads, env.scan)
  {
    DeletedBounds(DuplicateIds(env.scan), env.failedBatches);
  }

  /** No two survivors of a sweep over a faithful read share a key. */
  lemma SurvivorsDistinctKeys(leads: seq<Lead>, scan: seq<Lead>)
    requires Injective(leads, LeadId) && multiset(scan) == multiset(leads)
    ensures Injective(Survivors(leads, scan), Key)
  {
    var gone := Elems(DuplicateIds(scan));
    var remaining := Survivors(leads, scan);
    PermutationKeys(scan, leads, LeadId);
    DeleteLeadsKeepsIds(leads, IdIn(gone));
    forall i, j | 0 <= i < j < |remaining|
      ensures Key(remaining[i]) != Key(remaining[j])
    {
      var x, y := remaining[i], remaining[j];
      assert x.id != y.id;
      assert x in remaining && y in remaining;
      assert x in leads && y in leads;
      assert x.id !in gone && y.id !in gone;
      assert x in multiset(scan) && y in multiset(scan);
      var a :| 0 <= a < |scan| && scan[a] == x;
      var b :| 0 <= b < |scan| && scan[b] == y;
      DuplicateIdsExactlyLater(scan, a);
      DuplicateIdsExactlyLater(scan, b);
      assert !IsRepeatAt(scan, Key, a) && !IsRepeatAt(scan, Key, b);
      assert a != b;
    }
  }

  /** Every key of the table survives the sweep, on the lead that first carried it. */
  lemma SurvivorsKeepEveryKey(leads: seq<Lead>, scan: seq<Lead>)
    requires Injective(leads, LeadId) && multiset(scan) == multiset(leads)
    ensures Image(Survivors(leads, scan), Key) == Image(scan, Key)
  {
    var remaining := Survivors(leads, scan);
    PermutationKeys(scan, leads, LeadId);
    forall k | k in Image(scan, Key) ensures k in Image(remaining, Key) {
      var x :| x in scan && Key(x) == k;
      var j :| 0 <= j < |scan| && scan[j] == x;
      FirstOccurrence(scan, Key, j);
      var i :| 0 <= i <= j && Key(scan[i]) == k && !IsRepeatAt(scan, Key, i);
      DuplicateIdsExactlyLater(scan, i);
      assert scan[i] in multiset(leads);
      assert scan[i] in remaining;
    }
    forall k | k in Image(remaining, Key) ensures k in Image(scan, Key) {
      var x :| x in remaining && Key(x) == k;
      assert x in multiset(scan);
    }
  }

  /** When every batch is deleted, no two remaining leads share a (search, phone) key. */
  lemma CleanupLeavesNoDuplicates(st: Store, env: CleanupEnv)
    requires Valid(st) && CleanRun(st, env)
    ensures Injective(CleanupSpec(st, true, env).store.leads, Key)
  {
    CleanRunLeads(st, env);
    SurvivorsDistinctKeys(st.leads, env.scan);
  }

  /**
   * When every batch is deleted, the reported `unique_leads_remaining` is the
   * number of leads actually left, which is the number of distinct keys.
   */
  lemma CleanupRemainingCount(st: Store, env: CleanupEnv)
    requires Valid(st) && CleanRun(st, env)
    ensures CleanupSpec(st, true, env).response.body.duplicatesRemoved == |DuplicateIds(env.scan)|
    ensures |CleanupSpec(st, true, env).store.leads| == CleanupSpec(st, true, env).response.body.uniqueLeadsRemaining
    ensures |CleanupSpec(st, true, env).store.leads| == |Image(st.leads, Key)|
  {
    var remaining := Survivors(st.leads, env.scan);
    CleanRunLeads(st, env);
    SurvivorsDistinctKeys(st.leads, env.scan);
    SurvivorsKeepEveryKey(st.leads, env.scan);
    InjectiveIffImageSize(remaining, Key);
    PermutationKeys(env.scan, st.leads, Key);
    DuplicateCount(env.scan);
  }

  /**
   * Idempotence: a second clean run right after a clean run finds no
   * duplicates and leaves the store exactly as the first run left it.
   */
  lemma CleanupIdempotent(st: Store, env1: CleanupEnv, env2: CleanupEnv)
    requires Valid(st) && CleanRun(st, env1)
    requires CleanRun(CleanupSpec(st, true, env1).store, env2)
    ensures DuplicateIds(env2.scan) == []
    ensures CleanupSpec(CleanupSpec(st, true, env1).store, true, env2).response.body.duplicatesRemoved == 0
    ensures CleanupSpec(CleanupSpec(st, true, env1).store, true, env2).store == CleanupSpec(st, true, env1).store
  {
    var mid := CleanupSpec(st, true, env1).store;
    SecondScanClean(st, env1, env2);
    assert Gone(env2) == [];
    assert Elems([]) == {};
    DeleteNothing(mid.leads, IdIn({}));
  }

  /** The scan a second clean run makes holds no two leads with one key. */
  lemma SecondScanClean(st: Store, env1: CleanupEnv, env2: CleanupEnv)
    requires Valid(st) && CleanRun(st, env1)
    requires CleanRun(CleanupSpec(st, true, env1).store, env2)
    ensures DuplicateIds(env2.scan) == []
  {
    var mid := CleanupSpec(st, true, env1).store;
    CleanupLeavesNoDuplicates(st, env1);
    PermutationKeys(env2.scan, mid.leads, Key);
    NoRepeatsIffInjective(env2.scan, Key);
  }
}
