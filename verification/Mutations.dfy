/** The optimistic legs of the single and the batch issue update, and their rollbacks. */
module Mutations {
  import opened IssueModel
  import opened CacheHelpers
  import opened Membership
  import opened Coordinator

  // ----- children caches

  function MergeRows(rows: seq<Issue>, ids: set<Id>, patch: Patch): seq<Issue>
  {
    seq(|rows|, i requires 0 <= i < |rows| => if rows[i].id in ids then Merge(rows[i], patch) else rows[i])
  }

  predicate HoldsAny(rows: seq<Issue>, ids: set<Id>)
  {
    exists i :: 0 <= i < |rows| && rows[i].id in ids
  }

  // ----- useUpdateIssue

  function ChangeFor(s: State, id: Id, patch: Patch): Change
  {
    var base := Lookup(s.details, id);
    Change(id, patch, IssueChangedDims(patch, base), base)
  }

  /** The children cache of the parent this write keeps in sync: patched, or pruned when the write re-parents. */
  function SyncChildren(children: map<Id, seq<Issue>>, parentId: Option<Id>, id: Id, patch: Patch): map<Id, seq<Issue>>
  {
    if parentId.None? || parentId.value !in children then children else
      var rows := children[parentId.value];
      var detached := patch.parentId.Some? && patch.parentId.value != parentId;
      children[parentId.value := if detached then Without(rows, id) else MergeRows(rows, {id}, patch)]
  }

  /** Whichever parent was resolved, failing the update restores the cache of before it. */
  lemma UpdateRollbackRestores(s: State, id: Id, patch: Patch, parentId: Option<Id>)
    ensures var ch := ChangeFor(s, id, patch);
      var s1 := Apply(s, ch);
      var s2 := s1.(children := SyncChildren(s1.children, parentId, id, patch));
      var back := Rollback(s2, id, Snapshots(s, ch), Lookup(s.details, id), PrevInbox(s, ch));
      var prev := if parentId.Some? then Lookup(s.children, parentId.value) else None;
      back.(children := RestoreChildren(back.children, parentId, prev)) == s
  {
    var ch := ChangeFor(s, id, patch);
    var s1 := Apply(s, ch);
    RollbackRestores(s, ch);
    var prev := if parentId.Some? then Lookup(s.children, parentId.value) else None;
    assert RestoreChildren(SyncChildren(s.children, parentId, id, patch), parentId, prev) == s.children;
  }

  function RestoreChildren(children: map<Id, seq<Issue>>, parentId: Option<Id>, prev: Option<seq<Issue>>)
    : map<Id, seq<Issue>>
  {
    if parentId.Some? && prev.Some? then children[parentId.value := prev.value] else children
  }

  datatype UpdateContext = UpdateContext(change: ChangeResult, prevChildren: Option<seq<Issue>>, parentId: Option<Id>)

  /** The parent whose children are kept in sync: that of the detail, else of the freshest copy met, else any whose
      loaded children hold the issue. */
  ghost predicate ResolvedParent(s: State, id: Id, patch: Patch, parentId: Option<Id>)
  {
    var ch := ChangeFor(s, id, patch);
    var seen := FirstSeen(s, BucketedListEntries(s), ch);
    if ch.base.Some? && ch.base.value.parentId.Some? then parentId == ch.base.value.parentId
    else if seen.Some? && seen.value.parentId.Some? then parentId == seen.value.parentId
    else if parentId.None? then forall p :: p in s.children ==> !HoldsAny(s.children[p], {id})
    else parentId.value in s.children && HoldsAny(s.children[parentId.value], {id})
  }

  method OnMutateUpdate(qc: QueryClient, id: Id, patch: Patch) returns (ctx: UpdateContext)
    requires qc.Valid()
    modifies qc
    ensures qc.Valid()
    ensures qc.Now() == var s1 := Apply(old(qc.Now()), ChangeFor(old(qc.Now()), id, patch));
      s1.(children := SyncChildren(s1.children, ctx.parentId, id, patch))
    ensures AsMap(ctx.change.prevLists) == Snapshots(old(qc.Now()), ChangeFor(old(qc.Now()), id, patch))
    ensures ctx.change.prevDetail == Lookup(old(qc.details), id)
    ensures ctx.change.prevInboxList == PrevInbox(old(qc.Now()), ChangeFor(old(qc.Now()), id, patch))
    ensures ctx.prevChildren == if ctx.parentId.Some? then Lookup(old(qc.children), ctx.parentId.value) else None
    ensures ResolvedParent(old(qc.Now()), id, patch, ctx.parentId)
    ensures AsSet(ctx.change.staleKeys) == StaleKeys(old(qc.Now()), ChangeFor(old(qc.Now()), id, patch))
  {
    var prevDetail := Lookup(qc.details, id);
    var change := qc.ApplyIssueChange(id, patch, IssueChangedDims(patch, prevDetail), prevDetail);
    var parentId: Option<Id> := None;
    if prevDetail.Some? { parentId := prevDetail.value.parentId; }
    if parentId.None? && change.prevIssue.Some? { parentId := change.prevIssue.value.parentId; }
    if parentId.None? && exists p :: p in qc.children.Keys && HoldsAny(qc.children[p], {id}) {
      var p :| p in qc.children.Keys && HoldsAny(qc.children[p], {id});
      parentId := Some(p);
    }
    var prevChildren: Option<seq<Issue>> := None;
    if parentId.Some? {
      prevChildren := Lookup(qc.children, parentId.value);
      qc.children := SyncChildren(qc.children, parentId, id, patch);
    }
    ctx := UpdateContext(change, prevChildren, parentId);
  }

  method OnErrorUpdate(qc: QueryClient, id: Id, ctx: UpdateContext)
    modifies qc
    ensures qc.Now() == var back := Rollback(old(qc.Now()), id, AsMap(ctx.change.prevLists), ctx.change.prevDetail,
      ctx.change.prevInboxList);
      back.(children := RestoreChildren(back.children, ctx.parentId, ctx.prevChildren))
  {
    qc.RollbackIssueChange(id, ctx.change.prevLists, ctx.change.prevDetail, ctx.change.prevInboxList);
    if ctx.parentId.Some? && ctx.prevChildren.Some? {
      qc.children := qc.children[ctx.parentId.value := ctx.prevChildren.value];
    }
  }

  /** A failed single update is invisible. */
  method UpdateThenFail(qc: QueryClient, id: Id, patch: Patch)
    requires qc.Valid()
    modifies qc
    ensures qc.Now() == old(qc.Now())
  {
    var ctx := OnMutateUpdate(qc, id, patch);
    UpdateRollbackRestores(old(qc.Now()), id, patch, ctx.parentId);
    OnErrorUpdate(qc, id, ctx);
  }

  // ----- useBatchUpdateIssues

  /** Snapshots are first-wins per list and for the inbox, last-wins per detail. */
  datatype Undo = Undo(
    prevLists: map<ListKey, ListCache>,
    prevDetailById: map<Id, Issue>,
    prevInbox: Option<seq<InboxRow>>)

  const NOTHING := Undo(map[], map[], None)

  function Remember(s: State, ch: Change, u: Undo): Undo
  {
    Undo(Snapshots(s, ch) + u.prevLists,
         if ch.id in s.details then u.prevDetailById[ch.id := s.details[ch.id]] else u.prevDetailById,
         if u.prevInbox.None? then PrevInbox(s, ch) else u.prevInbox)
  }

  function BatchState(s: State, ids: seq<Id>, patch: Patch): State
  {
    if ids == [] then s else
      var now := BatchState(s, ids[..|ids| - 1], patch);
      Apply(now, ChangeFor(now, ids[|ids| - 1], patch))
  }

  function BatchUndo(s: State, ids: seq<Id>, patch: Patch): Undo
  {
    if ids == [] then NOTHING else
      var now := BatchState(s, ids[..|ids| - 1], patch);
      Remember(now, ChangeFor(now, ids[|ids| - 1], patch), BatchUndo(s, ids[..|ids| - 1], patch))
  }

  function IdSet(ids: seq<Id>): set<Id> { set id | id in ids }

  function PatchAllChildren(children: map<Id, seq<Issue>>, ids: set<Id>, patch: Patch): map<Id, seq<Issue>>
  {
    map p | p in children :: if HoldsAny(children[p], ids) then MergeRows(children[p], ids, patch) else children[p]
  }

  function ChildrenSnapshots(children: map<Id, seq<Issue>>, ids: set<Id>): map<Id, seq<Issue>>
  {
    map p | p in children && HoldsAny(children[p], ids) :: children[p]
  }

  function RestoreBatch(s: State, u: Undo, prevChildren: map<Id, seq<Issue>>): State
  {
    s.(lists := s.lists + AsEntries(u.prevLists), details := s.details + u.prevDetailById,
       inbox := if u.prevInbox.Some? then u.prevInbox else s.inbox, children := s.children + prevChildren)
  }

  /** Every list is either as it was or has its pristine snapshot on record. */
  lemma {:induction false} FirstSnapshotIsPristine(s: State, ids: seq<Id>, patch: Patch)
    ensures var now := BatchState(s, ids, patch);
      var u := BatchUndo(s, ids, patch);
      now.lists + AsEntries(u.prevLists) == s.lists
  {
    if ids != [] {
      var init := ids[..|ids| - 1];
      FirstSnapshotIsPristine(s, init, patch);
      var mid := BatchState(s, init, patch);
      var ch := ChangeFor(mid, ids[|ids| - 1], patch);
      SnapshotStep(s, mid, ch, BatchUndo(s, init, patch).prevLists);
    }
  }

  lemma SnapshotStep(s: State, mid: State, ch: Change, prev: map<ListKey, ListCache>)
    requires mid.lists + AsEntries(prev) == s.lists
    ensures Apply(mid, ch).lists + AsEntries(Snapshots(mid, ch) + prev) == s.lists
  {
    hide OutcomeFor;
    var back := Apply(mid, ch).lists + AsEntries(Snapshots(mid, ch) + prev);
    assert back.Keys == s.lists.Keys;
    forall k | k in s.lists ensures back[k] == s.lists[k] {
      if k !in prev && !IsTouched(mid, ch, k) { UntouchedIsUnchanged(mid, ch, k); }
    }
  }

  lemma {:induction false} InboxSnapshotIsPristine(s: State, ids: seq<Id>, patch: Patch)
    ensures var now := BatchState(s, ids, patch);
      var u := BatchUndo(s, ids, patch);
      (if u.prevInbox.Some? then u.prevInbox else now.inbox) == s.inbox
  {
    if ids != [] { InboxSnapshotIsPristine(s, ids[..|ids| - 1], patch); }
  }

  lemma {:induction false} BatchDetails(s: State, ids: seq<Id>, patch: Patch)
    ensures BatchState(s, ids, patch).details ==
      map id | id in s.details :: if id in ids then Merge(s.details[id], patch) else s.details[id]
  {
    if ids != [] {
      assert ids == ids[..|ids| - 1] + [ids[|ids| - 1]];
      BatchDetails(s, ids[..|ids| - 1], patch);
    }
  }

  /** What the undo record holds of the details: a repeated id was last snapshotted after its first patch. */
  lemma {:induction false} BatchDetailSnapshots(s: State, ids: seq<Id>, patch: Patch)
    ensures BatchUndo(s, ids, patch).prevDetailById == LastSeen(s.details, ids, patch)
  {
    hide Merge, LastSeen, Snapshots, PrevInbox, IssueChangedDims;
    NothingSeen(s.details, patch);
    if ids != [] {
      var init, last := ids[..|ids| - 1], ids[|ids| - 1];
      assert ids == init + [last];
      BatchDetailSnapshots(s, init, patch);
      BatchDetails(s, init, patch);
      DetailsSnapshotted(s.details, init, last, patch);
    }
  }

  lemma NothingSeen(details: map<Id, Issue>, patch: Patch)
    ensures LastSeen(details, [], patch) == map[]
  {
  }

  /** The details as they were last seen before a patch, over a list of ids. */
  function LastSeen(details: map<Id, Issue>, ids: seq<Id>, patch: Patch): map<Id, Issue>
  {
    map id | id in details && id in ids :: if multiset(ids)[id] >= 2 then Merge(details[id], patch) else details[id]
  }

  lemma DetailsSnapshotted(details: map<Id, Issue>, init: seq<Id>, last: Id, patch: Patch)
    ensures LastSeen(details, init + [last], patch) ==
      if last !in details then LastSeen(details, init, patch)
      else LastSeen(details, init, patch)[last := if last in init then Merge(details[last], patch) else details[last]]
  {
    hide Merge;
    assert last in init <==> multiset(init)[last] >= 1;
    forall id ensures multiset(init + [last])[id] == multiset(init)[id] + if id == last then 1 else 0 { }
  }

  lemma ChildrenRestored(children: map<Id, seq<Issue>>, ids: set<Id>, patch: Patch)
    ensures PatchAllChildren(children, ids, patch) + ChildrenSnapshots(children, ids) == children
  {
  }

  /** Rolling a failed batch back restores the whole cache exactly when no id that was given twice has a
      loaded detail that the patch changes: details keep their last snapshot, everything else the first. */
  lemma BatchRollbackExactly(s: State, ids: seq<Id>, patch: Patch)
    ensures var mutated := BatchState(s, ids, patch);
      var patched := mutated.(children := PatchAllChildren(mutated.children, IdSet(ids), patch));
      RestoreBatch(patched, BatchUndo(s, ids, patch), ChildrenSnapshots(mutated.children, IdSet(ids))) == s
      <==> forall id :: id in s.details && multiset(ids)[id] >= 2 ==> Merge(s.details[id], patch) == s.details[id]
  {
    var mutated := BatchState(s, ids, patch);
    var u := BatchUndo(s, ids, patch);
    var patched := mutated.(children := PatchAllChildren(mutated.children, IdSet(ids), patch));
    var back := RestoreBatch(patched, u, ChildrenSnapshots(mutated.children, IdSet(ids)));
    FirstSnapshotIsPristine(s, ids, patch);
    InboxSnapshotIsPristine(s, ids, patch);
    BatchLeavesTheRest(s, ids, patch);
    ChildrenRestored(s.children, IdSet(ids), patch);
    assert back == s.(details := back.details);
    RestoredDetails(s, ids, patch);
  }

  lemma {:induction false} BatchLeavesTheRest(s: State, ids: seq<Id>, patch: Patch)
    ensures var now := BatchState(s, ids, patch);
      now.order == s.order && now.children == s.children && now.stale == s.stale
  {
    if ids != [] { BatchLeavesTheRest(s, ids[..|ids| - 1], patch); }
  }

  lemma RestoredDetails(s: State, ids: seq<Id>, patch: Patch)
    ensures BatchState(s, ids, patch).details + BatchUndo(s, ids, patch).prevDetailById == s.details
      <==> forall id :: id in s.details && multiset(ids)[id] >= 2 ==> Merge(s.details[id], patch) == s.details[id]
  {
    BatchDetails(s, ids, patch);
    BatchDetailSnapshots(s, ids, patch);
    var back := BatchState(s, ids, patch).details + BatchUndo(s, ids, patch).prevDetailById;
    assert back.Keys == s.details.Keys;
    forall id | id in s.details
      ensures back[id] == if multiset(ids)[id] >= 2 then Merge(s.details[id], patch) else s.details[id]
    {
      assert multiset(ids)[id] >= 2 ==> id in ids;
    }
    if back == s.details {
      forall id | id in s.details && multiset(ids)[id] >= 2 ensures Merge(s.details[id], patch) == s.details[id] {
        assert back[id] == s.details[id];
      }
    }
  }

  /** For distinct ids the rollback is exact. */
  lemma DistinctBatchRollsBack(s: State, ids: seq<Id>, patch: Patch)
    requires forall i, j :: 0 <= i < j < |ids| ==> ids[i] != ids[j]
    ensures var mutated := BatchState(s, ids, patch);
      var patched := mutated.(children := PatchAllChildren(mutated.children, IdSet(ids), patch));
      RestoreBatch(patched, BatchUndo(s, ids, patch), ChildrenSnapshots(mutated.children, IdSet(ids))) == s
  {
    DistinctOnce(ids);
    BatchRollbackExactly(s, ids, patch);
  }

  lemma {:induction false} DistinctOnce(ids: seq<Id>)
    requires forall i, j :: 0 <= i < j < |ids| ==> ids[i] != ids[j]
    ensures forall id :: multiset(ids)[id] <= 1
  {
    if ids != [] {
      var init, last := ids[..|ids| - 1], ids[|ids| - 1];
      assert ids == init + [last];
      DistinctOnce(init);
      assert last !in init;
    }
  }

  datatype BatchContext = BatchContext(undo: Undo, staleKeys: seq<ListKey>, prevChildren: map<Id, seq<Issue>>)

  function BatchStale(s: State, ids: seq<Id>, patch: Patch): set<ListKey>
  {
    if ids == [] then {} else
      var now := BatchState(s, ids[..|ids| - 1], patch);
      BatchStale(s, ids[..|ids| - 1], patch) + StaleKeys(now, ChangeFor(now, ids[|ids| - 1], patch))
  }

  lemma BatchSnoc(s: State, ids: seq<Id>, n: nat, patch: Patch)
    requires n < |ids|
    ensures var now := BatchState(s, ids[..n], patch);
      var ch := ChangeFor(now, ids[n], patch);
      && BatchState(s, ids[..n + 1], patch) == Apply(now, ch)
      && BatchUndo(s, ids[..n + 1], patch) == Remember(now, ch, BatchUndo(s, ids[..n], patch))
      && BatchStale(s, ids[..n + 1], patch) == BatchStale(s, ids[..n], patch) + StaleKeys(now, ch)
  {
    assert ids[..n + 1][..n] == ids[..n];
  }

  /** One turn of the batch loop. */
  method MutateOne(qc: QueryClient, id: Id, patch: Patch, undo: Undo, staleKeys: seq<ListKey>)
    returns (undo': Undo, staleKeys': seq<ListKey>)
    requires qc.Valid()
    modifies qc
    ensures qc.Valid()
    ensures qc.Now() == Apply(old(qc.Now()), ChangeFor(old(qc.Now()), id, patch))
    ensures undo' == Remember(old(qc.Now()), ChangeFor(old(qc.Now()), id, patch), undo)
    ensures AsSet(staleKeys') == AsSet(staleKeys) + StaleKeys(old(qc.Now()), ChangeFor(old(qc.Now()), id, patch))
  {
    var base := Lookup(qc.details, id);
    var change := qc.ApplyIssueChange(id, patch, IssueChangedDims(patch, base), base);
    var prevLists := FirstWins(undo.prevLists, change.prevLists);
    undo' := Undo(prevLists,
                  if change.prevDetail.Some? then undo.prevDetailById[id := change.prevDetail.value]
                    else undo.prevDetailById,
                  if undo.prevInbox.None? then change.prevInboxList else undo.prevInbox);
    staleKeys' := staleKeys + change.staleKeys;
  }

  method MutateAll(qc: QueryClient, ids: seq<Id>, patch: Patch) returns (undo: Undo, staleKeys: seq<ListKey>)
    requires qc.Valid()
    modifies qc
    ensures qc.Valid()
    ensures qc.Now() == BatchState(old(qc.Now()), ids, patch)
    ensures undo == BatchUndo(old(qc.Now()), ids, patch)
    ensures AsSet(staleKeys) == BatchStale(old(qc.Now()), ids, patch)
  {
    ghost var s := qc.Now();
    undo, staleKeys := NOTHING, [];
    var n := 0;
    while n < |ids|
      invariant 0 <= n <= |ids|
      invariant qc.Valid()
      invariant qc.Now() == BatchState(s, ids[..n], patch)
      invariant undo == BatchUndo(s, ids[..n], patch)
      invariant AsSet(staleKeys) == BatchStale(s, ids[..n], patch)
    {
      BatchSnoc(s, ids, n, patch);
      undo, staleKeys := MutateOne(qc, ids[n], patch, undo, staleKeys);
      n := n + 1;
    }
    assert ids[..n] == ids;
  }

  method OnMutateBatch(qc: QueryClient, ids: seq<Id>, patch: Patch) returns (ctx: BatchContext)
    requires qc.Valid()
    modifies qc
    ensures qc.Valid()
    ensures ctx.undo == BatchUndo(old(qc.Now()), ids, patch)
    ensures ctx.prevChildren == ChildrenSnapshots(old(qc.children), IdSet(ids))
    ensures AsSet(ctx.staleKeys) == BatchStale(old(qc.Now()), ids, patch)
    ensures qc.Now() == var mutated := BatchState(old(qc.Now()), ids, patch);
      mutated.(children := PatchAllChildren(mutated.children, IdSet(ids), patch))
  {
    ghost var s := qc.Now();
    var undo, staleKeys := MutateAll(qc, ids, patch);
    BatchLeavesTheRest(s, ids, patch);
    var idSet := IdSet(ids);
    ctx := BatchContext(undo, staleKeys, ChildrenSnapshots(qc.children, idSet));
    qc.children := PatchAllChildren(qc.children, idSet, patch);
  }

  lemma {:induction false} KeysOfEntries(found: seq<(ListKey, ListCache)>, k: ListKey)
    requires k in AsMap(found)
    ensures exists i :: 0 <= i < |found| && found[i].0 == k
  {
    if found[|found| - 1].0 != k { KeysOfEntries(found[..|found| - 1], k); }
  }

  lemma FirstWinsStep(known: map<ListKey, ListCache>, found: seq<(ListKey, ListCache)>, n: nat)
    requires DistinctKeys(found) && n < |found|
    ensures var r := AsMap(found[..n]) + known;
      AsMap(found[..n + 1]) + known == if found[n].0 in r then r else r[found[n].0 := found[n].1]
  {
    assert found[..n + 1][..n] == found[..n];
    if found[n].0 in AsMap(found[..n]) { KeysOfEntries(found[..n], found[n].0); }
  }

  /** Add the snapshots whose key is not on record yet. */
  method FirstWins(known: map<ListKey, ListCache>, found: seq<(ListKey, ListCache)>)
    returns (r: map<ListKey, ListCache>)
    requires DistinctKeys(found)
    ensures r == AsMap(found) + known
  {
    r := known;
    var n := 0;
    while n < |found|
      invariant 0 <= n <= |found|
      invariant r == AsMap(found[..n]) + known
    {
      FirstWinsStep(known, found, n);
      if found[n].0 !in r { r := r[found[n].0 := found[n].1]; }
      n := n + 1;
    }
    assert found[..n] == found;
  }

  method OnErrorBatch(qc: QueryClient, ctx: BatchContext)
    modifies qc
    ensures qc.Now() == RestoreBatch(old(qc.Now()), ctx.undo, ctx.prevChildren)
  {
    qc.lists := qc.lists + AsEntries(ctx.undo.prevLists);
    qc.details := qc.details + ctx.undo.prevDetailById;
    if ctx.undo.prevInbox.Some? { qc.inbox := ctx.undo.prevInbox; }
    qc.children := qc.children + ctx.prevChildren;
  }

  /** A failed batch over distinct ids is invisible. */
  method BatchThenFail(qc: QueryClient, ids: seq<Id>, patch: Patch)
    requires qc.Valid()
    requires forall i, j :: 0 <= i < j < |ids| ==> ids[i] != ids[j]
    modifies qc
    ensures qc.Now() == old(qc.Now())
  {
    var ctx := OnMutateBatch(qc, ids, patch);
    DistinctBatchRollsBack(old(qc.Now()), ids, patch);
    BatchLeavesTheRest(old(qc.Now()), ids, patch);
    OnErrorBatch(qc, ctx);
  }
}
