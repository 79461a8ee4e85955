/** Where a list can fall out of step without being flagged, and exactly when. */
module Drift {
  import opened IssueModel
  import opened CacheHelpers
  import opened Membership
  import opened Agreement
  import opened RulesTable
  import opened WsUpdates

  // ----- events without flags and without a cached copy

  const NO_FLAGS := Meta(None, None, None)

  predicate Counted(i: Issue, f: Filter, involves: Involvement)
  {
    Paginated(i.status) && FilterHolds(i, f, involves)
  }

  /** The list is judged, or nothing it counts moved. */
  predicate Harmless(data: ListCache, c: Contract, id: Id, changed: Dims, before: Issue, after: Issue,
                     involves: Involvement)
  {
    ListFilterDependsOn(c, changed) ||
    if FindIssueLocation(data, id).Some? then FilterHolds(after, c.filter, involves) || !Paginated(after.status)
    else if Counted(before, c.filter, involves) then Counted(after, c.filter, involves) && before.status == after.status
    else !Counted(after, c.filter, involves)
  }

  /** An older backend sends no flags; when no copy is cached either, the fallback reports neither an assignee
      nor a status move, and a list stays right exactly when the write was harmless to it. */
  lemma UnflaggedDeliveryExactly(data: ListCache, w: Server, w': Server, c: Contract, id: Id, patch: Patch)
    requires Agrees(data, c.filter, w) && c.scope != Some("all") && !HasEmptyPart(c.filter)
    requires id in w.issues && w'.issues == w.issues[id := Merge(w.issues[id], patch)] && w'.involves == w.involves
    requires Listed(w.issues[id]) && Listed(Merge(w.issues[id], patch)) && RealIds(Merge(w.issues[id], patch))
    ensures var changed := WsDims(None, patch, NO_FLAGS);
      var o := Reconcile(data, c, id, patch, changed, None);
      o.stale || (Agrees(o.next, c.filter, w') <==>
        Harmless(data, c, id, changed, w.issues[id], Merge(w.issues[id], patch), w.involves))
  {
    var after := Merge(w.issues[id], patch);
    var changed := WsDims(None, patch, NO_FLAGS);
    if FindIssueLocation(data, id).Some? {
      LoadedBelongs(data, w, c.filter, id);
      VerdictIsFilter(after, c, w.involves);
      if Removed(data, c, id, patch, changed) {
        RemovedAgrees(data, w, w', c.filter, id, after);
      } else {
        PatchedAgrees(data, w, w', c.filter, id, patch);
      }
    } else if !ListFilterDependsOn(c, changed) {
      UnjudgedExactly(data, w, w', c.filter, id, after);
    }
  }

  lemma UnjudgedExactly(data: ListCache, w: Server, w': Server, f: Filter, id: Id, after: Issue)
    requires Agrees(data, f, w) && FindIssueLocation(data, id).None?
    requires id in w.issues && w'.issues == w.issues[id := after] && w'.involves == w.involves
    requires Listed(w.issues[id]) && Listed(after)
    ensures Agrees(data, f, w') <==>
      if Counted(w.issues[id], f, w.involves) then Counted(after, f, w.involves) && w.issues[id].status == after.status
      else !Counted(after, f, w.involves)
  {
    var before := w.issues[id];
    AbsentAgrees(data, data, w, w', f, id, after);
    assert GetBucket(data, before.status).total == GetBucket(data, before.status).total;
    assert GetBucket(data, after.status).total == GetBucket(data, after.status).total;
  }

  // ----- a list that is ahead of the event

  /** A refetch can outrun the event it already includes. An event delivered to a list that agrees with the
      server after the write leaves it right or flagged, except where the row is unloaded and the old copy says
      it was counted here and has left: that unit is then taken a second time. */
  lemma LateDeliveryExactly(data: ListCache, w: Server, w': Server, c: Contract, id: Id, patch: Patch, changed: Dims,
                            base: Option<Issue>)
    requires Write(w, w', c, id, patch, changed, base) && Agrees(data, c.filter, w')
    requires Listed(w.issues[id]) && Listed(Merge(w.issues[id], patch))
    ensures var o := Reconcile(data, c, id, patch, changed, base);
      o.stale || (Agrees(o.next, c.filter, w') <==> !CountedTwice(data, c, id, patch, changed, base))
  {
    var after := Merge(w.issues[id], patch);
    assert w'.issues[id] == after && Merge(after, patch) == after;
    assert w'.issues == w'.issues[id := Merge(after, patch)];
    VerdictIsFilter(after, c, w.involves);
    if FindIssueLocation(data, id).Some? {
      LoadedBelongs(data, w', c.filter, id);
      PatchedAgrees(data, w', w', c.filter, id, patch);
    } else if ListFilterDependsOn(c, changed) || changed.status {
      LateOnAbsent(data, w', c, id, patch, changed, base);
    }
  }

  lemma LateOnAbsent(data: ListCache, w: Server, c: Contract, id: Id, patch: Patch, changed: Dims, base: Option<Issue>)
    requires Agrees(data, c.filter, w) && FindIssueLocation(data, id).None?
    requires ListFilterDependsOn(c, changed) || changed.status
    ensures var o := Reconcile(data, c, id, patch, changed, base);
      o.stale || (Agrees(o.next, c.filter, w) <==> !CountedTwice(data, c, id, patch, changed, base))
  {
    UnflaggedIsDecrement(data, c, id, patch, changed, base);
    if base.Some? { DecrementedAgrees(data, w, c.filter, base.value.status); }
  }

  /** What is left of the table for an unloaded row that a dependent change reaches without flagging the list. */
  lemma UnflaggedIsDecrement(data: ListCache, c: Contract, id: Id, patch: Patch, changed: Dims, base: Option<Issue>)
    requires FindIssueLocation(data, id).None? && (ListFilterDependsOn(c, changed) || changed.status)
    ensures var o := Reconcile(data, c, id, patch, changed, base);
      o.stale ||
      if CountsDown(c, patch, changed, base)
        then o.next == DecrementBucketTotal(data, base.value.status) else o.next == data
  {
  }

  /** Taking a unit from a right list makes it wrong, unless there was none to take or no column to take it from. */
  lemma DecrementedAgrees(data: ListCache, w: Server, f: Filter, s: Status)
    requires Agrees(data, f, w)
    ensures Agrees(DecrementBucketTotal(data, s), f, w) <==> !(Paginated(s) && GetBucket(data, s).total > 0)
  {
    var next := DecrementBucketTotal(data, s);
    assert forall t :: GetBucket(next, t).issues == GetBucket(data, t).issues;
    assert forall t :: t != s ==> GetBucket(next, t).total == GetBucket(data, t).total;
    assert GetBucket(next, s).total == Max(0, GetBucket(data, s).total - 1);
  }

  predicate CountedTwice(data: ListCache, c: Contract, id: Id, patch: Patch, changed: Dims, base: Option<Issue>)
  {
    && FindIssueLocation(data, id).None? && CountsDown(c, patch, changed, base)
    && Paginated(base.value.status) && GetBucket(data, base.value.status).total > 0
  }
}
