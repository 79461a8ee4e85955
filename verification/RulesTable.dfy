/** The rules table: what one issue change does to one loaded list. */
module RulesTable {
  import opened IssueModel
  import opened CacheHelpers
  import opened Membership
  import opened Agreement

  /** `touched`: the list was rewritten, so its snapshot is kept; `stale`: its key goes to the caller to refetch. */
  datatype Outcome = Outcome(next: ListCache, touched: bool, stale: bool)

  function Reconcile(data: ListCache, c: Contract, id: Id, patch: Patch, changed: Dims, base: Option<Issue>): Outcome
  {
    var loc := FindIssueLocation(data, id);
    var filterTouched := ListFilterDependsOn(c, changed);
    if loc.Some? then
      if filterTouched then
        var membership := IssueMatchesListFilter(AsPatch(Merge(loc.value.issue, patch)), c);
        if membership.No? then Outcome(RemoveIssueFromBuckets(data, id), true, false)
        else Outcome(PatchIssueInBuckets(data, id, patch), true, membership.Unknown?)
      else Outcome(PatchIssueInBuckets(data, id, patch), true, false)
    else if !filterTouched && !changed.status then Outcome(data, false, false)
    else
      var was := if base.Some? then IssueMatchesListFilter(AsPatch(base.value), c) else Unknown;
      var now := IssueMatchesListFilter(Overlay(base, patch), c);
      if was.No? && now.No? then Outcome(data, false, false)
      else if was.Yes? && now.Yes? then
        if !changed.status || patch.status.None? || base.value.status == patch.status.value
          then Outcome(data, false, false)
        else Outcome(MoveBucketTotal(data, base.value.status, patch.status.value), true, true)
      else if was.Yes? && now.No? then Outcome(DecrementBucketTotal(data, base.value.status), true, false)
      else Outcome(data, false, true)
  }

  // ----- agree or stale

  /** One committed server write to one row, seen by a list whose filter reaches the server whole. A list with a date
      range sees only a part of the server; DateRanges says what that part does under a write.
      `base` is absent or fresh, the flags cover the write, and the creator never changes. */
  ghost predicate Write(w: Server, w': Server, c: Contract, id: Id, patch: Patch, changed: Dims, base: Option<Issue>)
  {
    && id in w.issues
    && var before := w.issues[id];
       var after := Merge(before, patch);
    && w'.issues == w.issues[id := after] && w'.involves == w.involves
    && RealIds(before) && RealIds(after) && before.creatorId == after.creatorId
    && Covers(changed, before, after)
    && (base.Some? ==> base.value == before)
    && c.scope != Some("all") && !HasEmptyPart(c.filter)
  }

  /** A list without the row is judged at all. */
  predicate Judged(c: Contract, changed: Dims) { ListFilterDependsOn(c, changed) || changed.status }

  /** A row beyond the window is known to have left the list. */
  predicate CountsDown(c: Contract, patch: Patch, changed: Dims, base: Option<Issue>)
  {
    && base.Some? && Judged(c, changed)
    && IssueMatchesListFilter(AsPatch(base.value), c).Yes? && IssueMatchesListFilter(Overlay(base, patch), c).No?
  }

  /** A row beyond the window is known to have stayed in the list. */
  predicate Stays(c: Contract, patch: Patch, changed: Dims, base: Option<Issue>)
  {
    && base.Some? && Judged(c, changed)
    && IssueMatchesListFilter(AsPatch(base.value), c).Yes? && IssueMatchesListFilter(Overlay(base, patch), c).Yes?
  }

  /** The write that the table misjudges without flagging the list: the server never lists epics,
      but no rule looks at the kind of the issue. It is a condition on the table alone. The handlers of this server
      neither update an epic as an issue nor turn an issue into one, and they announce epics with events of their own,
      so no caller meets it. */
  ghost predicate Overlooked(data: ListCache, w: Server, c: Contract, id: Id, patch: Patch, changed: Dims,
                             base: Option<Issue>)
    requires id in w.issues
  {
    var before := w.issues[id];
    var after := Merge(before, patch);
    if FindIssueLocation(data, id).Some? then
      // a loaded row turned into an epic and kept
      && !Listed(after) && Paginated(after.status)
      && (ListFilterDependsOn(c, changed) ==> IssueMatchesListFilter(AsPatch(after), c).Yes?)
    else if CountsDown(c, patch, changed, base) then
      // an epic leaving the filter was never counted here
      !Listed(before) && Paginated(before.status) && GetBucket(data, before.status).total > 0
    else
      // an unloaded row became an epic, or an epic became a row, and nothing else moved
      && Listed(before) != Listed(after) && FilterHolds(before, c.filter, w.involves) && Paginated(before.status)
      && (!Judged(c, changed) || (Stays(c, patch, changed, base) && before.status == after.status))
  }

  predicate Removed(data: ListCache, c: Contract, id: Id, patch: Patch, changed: Dims)
  {
    var loc := FindIssueLocation(data, id);
    loc.Some? && ListFilterDependsOn(c, changed) &&
    IssueMatchesListFilter(AsPatch(Merge(loc.value.issue, patch)), c).No?
  }

  /** Where an application leaves the row. */
  lemma OutcomeShape(data: ListCache, c: Contract, id: Id, patch: Patch, changed: Dims, base: Option<Issue>)
    ensures var next := Reconcile(data, c, id, patch, changed, base).next;
      var loc := FindIssueLocation(data, id);
      if loc.None? then forall s :: GetBucket(next, s).issues == GetBucket(data, s).issues
      else if Removed(data, c, id, patch, changed) then next == RemoveIssueFromBuckets(data, id)
      else next == PatchIssueInBuckets(data, id, patch)
  {
    hide FindIssueLocation, IssueMatchesListFilter, ListFilterDependsOn, PatchIssueInBuckets, RemoveIssueFromBuckets;
    hide Merge, AsPatch, Overlay;
  }

  /** The client's verdict on the new row, in the words of the server. */
  lemma VerdictIsFilter(i: Issue, c: Contract, involves: Involvement)
    requires RealIds(i) && c.scope != Some("all") && !HasEmptyPart(c.filter)
    ensures IssueMatchesListFilter(AsPatch(i), c) == Yes ==> FilterHolds(i, c.filter, involves)
    ensures IssueMatchesListFilter(AsPatch(i), c) == No ==> !FilterHolds(i, c.filter, involves)
  {
    if FilterHolds(i, c.filter, involves) { NoIsWrongExactlyOnEmptyParts(i, c, involves); }
    if IssueMatchesListFilter(AsPatch(i), c) == Yes { YesIsRight(i, c, involves); }
  }

  /** A counted row makes its column's total positive: no decrement clamps. */
  lemma CountedIsPositive(w: Server, f: Filter, id: Id)
    requires id in w.issues && Belongs(w.issues[id], f, w.involves)
    ensures Count(w, f, w.issues[id].status) >= 1
  {
    assert id in Members(w, f, w.issues[id].status);
  }

  lemma RemovedAgrees(data: ListCache, w: Server, w': Server, f: Filter, id: Id, after: Issue)
    requires Agrees(data, f, w) && FindIssueLocation(data, id).Some?
    requires id in w.issues && w'.issues == w.issues[id := after] && w'.involves == w.involves
    requires !Belongs(after, f, w.involves)
    ensures Agrees(RemoveIssueFromBuckets(data, id), f, w')
  {
    var loc := FindIssueLocation(data, id).value;
    HasIdMember(GetBucket(data, loc.status).issues, id);
    LoadedIn(data, w, id, loc.status);
    RemoveKeepsFresh(data, w, w', id);
    CountedIsPositive(w, f, id);
    var next := RemoveIssueFromBuckets(data, id);
    forall s | Paginated(s) ensures GetBucket(next, s).total == Count(w', f, s) {
      CountAfterChange(w, w', f, s, id, after);
    }
  }

  /** Where the cards of a patched column come from. */
  lemma PatchedCards(data: ListCache, w: Server, id: Id, patch: Patch, s: Status)
    requires Fresh(data, w) && FindIssueLocation(data, id).Some?
    ensures id in w.issues
    ensures var after := Merge(w.issues[id], patch);
      var cards := GetBucket(PatchIssueInBuckets(data, id, patch), s).issues;
      && (s == after.status ==> after in cards)
      && (forall c :: c in cards ==> c == after || c in GetBucket(data, s).issues)
  {
    var after, moved := PatchShape(data, w, id, patch);
    if after.status == w.issues[id].status {
      InColumnCards(data, after.status, after, moved, s);
    } else {
      AcrossCards(data, w.issues[id].status, after.status, after, s);
    }
  }

  lemma AcrossCards(data: ListCache, from: Status, to: Status, after: Issue, s: Status)
    requires from != to
    ensures var cards := GetBucket(PatchAcross(data, from, to, after), s).issues;
      && (s == to ==> after in cards)
      && (forall c :: c in cards ==> c == after || c in GetBucket(data, s).issues)
  {
    InsertMembers(GetBucket(data, to).issues, after);
  }

  lemma InColumnCards(data: ListCache, t: Status, after: Issue, moved: bool, s: Status)
    requires HasId(GetBucket(data, t).issues, after.id)
    ensures var cards := GetBucket(PatchInColumn(data, t, after, moved), s).issues;
      && (s == t ==> after in cards)
      && (forall c :: c in cards ==> c == after || c in GetBucket(data, s).issues)
  {
    var issues := GetBucket(data, t).issues;
    var i := IndexOf(issues, after.id);
    assert Replaced(issues, after.id, after)[i] == after;
    InsertMembers(Without(issues, after.id), after);
  }

  /** A patch works on one column, or across two. */
  lemma PatchShape(data: ListCache, w: Server, id: Id, patch: Patch) returns (after: Issue, moved: bool)
    requires Fresh(data, w) && FindIssueLocation(data, id).Some?
    ensures id in w.issues && after == Merge(w.issues[id], patch) && after.id == id
    ensures Paginated(w.issues[id].status) && HasId(GetBucket(data, w.issues[id].status).issues, id)
    ensures PatchIssueInBuckets(data, id, patch) ==
      if after.status == w.issues[id].status then PatchInColumn(data, after.status, after, moved)
      else PatchAcross(data, w.issues[id].status, after.status, after)
  {
    var loc := FindIssueLocation(data, id).value;
    HasIdMember(GetBucket(data, loc.status).issues, id);
    LoadedIn(data, w, id, loc.status);
    after := Merge(w.issues[id], patch);
    moved := patch.position.Some? && patch.position.value != loc.issue.position;
  }

  lemma PatchedTotals(data: ListCache, w: Server, id: Id, patch: Patch, s: Status)
    requires Fresh(data, w) && FindIssueLocation(data, id).Some?
    ensures id in w.issues
    ensures var before := w.issues[id];
      var after := Merge(before, patch);
      GetBucket(PatchIssueInBuckets(data, id, patch), s).total ==
        if before.status == after.status then GetBucket(data, s).total
        else if s == before.status then Max(0, GetBucket(data, s).total - 1)
        else GetBucket(data, s).total + Bit(s == after.status)
  {
    var after, moved := PatchShape(data, w, id, patch);
    if after.status == w.issues[id].status {
      InColumnTotals(data, after.status, after, moved, s);
    } else {
      AcrossTotals(data, w.issues[id].status, after.status, after, s);
    }
  }

  lemma InColumnTotals(data: ListCache, t: Status, after: Issue, moved: bool, s: Status)
    ensures GetBucket(PatchInColumn(data, t, after, moved), s).total == GetBucket(data, s).total
  {
  }

  lemma AcrossTotals(data: ListCache, from: Status, to: Status, after: Issue, s: Status)
    requires from != to
    ensures GetBucket(PatchAcross(data, from, to, after), s).total ==
      if s == from then Max(0, GetBucket(data, s).total - 1) else GetBucket(data, s).total + Bit(s == to)
  {
  }

  /** A patched row agrees exactly when it is still a member or has left the paginated columns. */
  lemma PatchedAgrees(data: ListCache, w: Server, w': Server, f: Filter, id: Id, patch: Patch)
    requires Agrees(data, f, w) && FindIssueLocation(data, id).Some?
    requires id in w.issues && w'.issues == w.issues[id := Merge(w.issues[id], patch)] && w'.involves == w.involves
    ensures var after := Merge(w.issues[id], patch);
      Agrees(PatchIssueInBuckets(data, id, patch), f, w') <==> Belongs(after, f, w.involves) || !Paginated(after.status)
  {
    var after := Merge(w.issues[id], patch);
    var next := PatchIssueInBuckets(data, id, patch);
    PatchKeepsFresh(data, w, w', id, patch);
    PatchedCards(data, w, id, patch, after.status);
    if Belongs(after, f, w.involves) || !Paginated(after.status) {
      forall s | Paginated(s) ensures GetBucket(next, s).total == Count(w', f, s) {
        PatchedTotal(data, w, w', f, id, patch, s);
      }
      forall s, c | Paginated(s) && c in GetBucket(next, s).issues ensures Belongs(c, f, w'.involves) {
        PatchedCards(data, w, id, patch, s);
        assert FreshColumn(GetBucket(next, s).issues, s, w');
      }
    }
  }

  lemma PatchedTotal(data: ListCache, w: Server, w': Server, f: Filter, id: Id, patch: Patch, s: Status)
    requires Agrees(data, f, w) && FindIssueLocation(data, id).Some? && Paginated(s)
    requires id in w.issues && w'.issues == w.issues[id := Merge(w.issues[id], patch)] && w'.involves == w.involves
    requires var after := Merge(w.issues[id], patch); Belongs(after, f, w.involves) || !Paginated(after.status)
    ensures GetBucket(PatchIssueInBuckets(data, id, patch), s).total == Count(w', f, s)
  {
    LoadedBelongs(data, w, f, id);
    PatchedTotals(data, w, id, patch, s);
    CountedIsPositive(w, f, id);
    CountAfterChange(w, w', f, s, id, Merge(w.issues[id], patch));
  }

  lemma LoadedBelongs(data: ListCache, w: Server, f: Filter, id: Id)
    requires Agrees(data, f, w) && FindIssueLocation(data, id).Some?
    ensures id in w.issues && Belongs(w.issues[id], f, w.involves) && Paginated(w.issues[id].status)
    ensures FindIssueLocation(data, id).value.issue == w.issues[id]
  {
    var loc := FindIssueLocation(data, id).value;
    HasIdMember(GetBucket(data, loc.status).issues, id);
    LoadedIn(data, w, id, loc.status);
  }

  lemma LoadedOutcome(data: ListCache, w: Server, w': Server, c: Contract, id: Id, patch: Patch, changed: Dims,
                      base: Option<Issue>)
    requires Write(w, w', c, id, patch, changed, base) && Agrees(data, c.filter, w)
    requires FindIssueLocation(data, id).Some?
    ensures var o := Reconcile(data, c, id, patch, changed, base);
      o.stale || (Agrees(o.next, c.filter, w') <==> !Overlooked(data, w, c, id, patch, changed, base))
  {
    var before := w.issues[id];
    var after := Merge(before, patch);
    LoadedBelongs(data, w, c.filter, id);
    VerdictIsFilter(after, c, w.involves);
    if Removed(data, c, id, patch, changed) {
      RemovedAgrees(data, w, w', c.filter, id, after);
    } else {
      PatchedAgrees(data, w, w', c.filter, id, patch);
      if !ListFilterDependsOn(c, changed) {
        IndependentListsKeepMembership(before, after, c, changed, w.involves);
      }
    }
  }

  /** A list that does not hold the row agrees afterwards exactly when its totals moved with the server's. */
  lemma AbsentAgrees(data: ListCache, next: ListCache, w: Server, w': Server, f: Filter, id: Id, after: Issue)
    requires Agrees(data, f, w) && FindIssueLocation(data, id).None?
    requires id in w.issues && w'.issues == w.issues[id := after] && w'.involves == w.involves
    requires forall s :: GetBucket(next, s).issues == GetBucket(data, s).issues
    ensures Agrees(next, f, w') <==> forall s :: Paginated(s) ==>
      GetBucket(next, s).total == GetBucket(data, s).total
        - Bit(w.issues[id].status == s && Belongs(w.issues[id], f, w.involves))
        + Bit(after.status == s && Belongs(after, f, w.involves))
  {
    hide Belongs, FindIssueLocation, Count, Fresh;
    AbsentKeepsFresh(data, next, w, w', id);
    forall s { CountAfterChange(w, w', f, s, id, after); }
  }

  lemma SkippedOutcome(data: ListCache, w: Server, w': Server, f: Filter, id: Id, after: Issue)
    requires Agrees(data, f, w) && FindIssueLocation(data, id).None?
    requires id in w.issues && w'.issues == w.issues[id := after] && w'.involves == w.involves
    requires FilterHolds(w.issues[id], f, w.involves) == FilterHolds(after, f, w.involves)
    requires w.issues[id].status == after.status || !FilterHolds(w.issues[id], f, w.involves)
    ensures var before := w.issues[id];
      Agrees(data, f, w') <==>
        !(Listed(before) != Listed(after) && FilterHolds(before, f, w.involves) && Paginated(before.status))
  {
    AbsentAgrees(data, data, w, w', f, id, after);
    assert GetBucket(data, after.status).total == GetBucket(data, after.status).total;
  }

  lemma DecrementedBuckets(data: ListCache, s: Status, t: Status)
    ensures var next := DecrementBucketTotal(data, s);
      && GetBucket(next, t).issues == GetBucket(data, t).issues
      && GetBucket(next, t).total == if t == s then Max(0, GetBucket(data, t).total - 1) else GetBucket(data, t).total
  {
  }

  lemma DecrementOutcome(data: ListCache, w: Server, w': Server, f: Filter, id: Id, after: Issue)
    requires Agrees(data, f, w) && FindIssueLocation(data, id).None?
    requires id in w.issues && w'.issues == w.issues[id := after] && w'.involves == w.involves
    requires FilterHolds(w.issues[id], f, w.involves) && !FilterHolds(after, f, w.involves)
    ensures var before := w.issues[id];
      Agrees(DecrementBucketTotal(data, before.status), f, w') <==>
        !(!Listed(before) && Paginated(before.status) && GetBucket(data, before.status).total > 0)
  {
    var before := w.issues[id];
    var next := DecrementBucketTotal(data, before.status);
    forall t { DecrementedBuckets(data, before.status, t); }
    if Listed(before) { CountedIsPositive(w, f, id); }
    AbsentAgrees(data, next, w, w', f, id, after);
    assert GetBucket(next, before.status).total == Max(0, GetBucket(data, before.status).total - 1);
  }

  lemma MovedBuckets(data: ListCache, from: Status, to: Status, t: Status)
    requires from != to
    ensures var next := MoveBucketTotal(data, from, to);
      && GetBucket(next, t).issues == GetBucket(data, t).issues
      && GetBucket(next, t).total ==
           if t == from then Max(0, GetBucket(data, t).total - 1) else GetBucket(data, t).total + Bit(t == to)
  {
  }

  /** Moving one unit for an unloaded member that changed its column keeps every total exact. */
  lemma MoveOutcome(data: ListCache, w: Server, w': Server, f: Filter, id: Id, after: Issue)
    requires Agrees(data, f, w) && FindIssueLocation(data, id).None?
    requires id in w.issues && w'.issues == w.issues[id := after] && w'.involves == w.involves
    requires Belongs(w.issues[id], f, w.involves) && Belongs(after, f, w.involves)
    requires w.issues[id].status != after.status
    ensures Agrees(MoveBucketTotal(data, w.issues[id].status, after.status), f, w')
  {
    var from, to := w.issues[id].status, after.status;
    var next := MoveBucketTotal(data, from, to);
    forall t { MovedBuckets(data, from, to, t); }
    CountedIsPositive(w, f, id);
    AbsentAgrees(data, next, w, w', f, id, after);
  }

  lemma AbsentOutcome(data: ListCache, w: Server, w': Server, c: Contract, id: Id, patch: Patch, changed: Dims,
                      base: Option<Issue>)
    requires Write(w, w', c, id, patch, changed, base) && Agrees(data, c.filter, w)
    requires FindIssueLocation(data, id).None?
    ensures var o := Reconcile(data, c, id, patch, changed, base);
      o.stale || (Agrees(o.next, c.filter, w') <==> !Overlooked(data, w, c, id, patch, changed, base))
  {
    hide FilterHolds, IssueMatchesListFilter, ListFilterDependsOn, FindIssueLocation, Agrees;
    var before := w.issues[id];
    var after := Merge(before, patch);
    var o := Reconcile(data, c, id, patch, changed, base);
    VerdictIsFilter(after, c, w.involves);
    VerdictIsFilter(before, c, w.involves);
    if !ListFilterDependsOn(c, changed) {
      IndependentListsKeepMembership(before, after, c, changed, w.involves);
    }
    if o.stale {
    } else if o.touched {
      DecrementOutcome(data, w, w', c.filter, id, after);
    } else {
      SkippedOutcome(data, w, w', c.filter, id, after);
    }
  }

  /** A known member changes its column beyond the window. */
  predicate MovesUnseen(data: ListCache, c: Contract, id: Id, before: Issue, after: Issue, patch: Patch, changed: Dims,
                        base: Option<Issue>)
  {
    && FindIssueLocation(data, id).None? && Stays(c, patch, changed, base)
    && Listed(before) && Listed(after) && before.status != after.status
  }

  /** A known member that changes its column beyond the window: the list is flagged, because the row's new place
      is not known, but its totals are right at once. */
  lemma FlaggedMoveAgrees(data: ListCache, w: Server, w': Server, c: Contract, id: Id, patch: Patch, changed: Dims,
                          base: Option<Issue>)
    requires Write(w, w', c, id, patch, changed, base) && Agrees(data, c.filter, w)
    requires MovesUnseen(data, c, id, w.issues[id], Merge(w.issues[id], patch), patch, changed, base)
    ensures var o := Reconcile(data, c, id, patch, changed, base);
      o.stale && o.touched && Agrees(o.next, c.filter, w')
  {
    var before := w.issues[id];
    var after := Merge(before, patch);
    YesIsRight(before, c, w.involves);
    YesIsRight(after, c, w.involves);
    MoveOutcome(data, w, w', c.filter, id, after);
  }

  /** For every write, a list that agreed either still agrees, or is flagged stale, or the write is an
      overlooked change of an epic; and an overlooked change always breaks the agreement. A list that is only
      flagged because a member changed its column agrees as well. */
  lemma AgreeOrStaleExactly(data: ListCache, w: Server, w': Server, c: Contract, id: Id, patch: Patch, changed: Dims,
                            base: Option<Issue>)
    requires Write(w, w', c, id, patch, changed, base) && Agrees(data, c.filter, w)
    ensures var o := Reconcile(data, c, id, patch, changed, base);
      o.stale || (Agrees(o.next, c.filter, w') <==> !Overlooked(data, w, c, id, patch, changed, base))
    ensures var o := Reconcile(data, c, id, patch, changed, base);
      var before, after := w.issues[id], Merge(w.issues[id], patch);
      MovesUnseen(data, c, id, before, after, patch, changed, base) ==> o.stale && Agrees(o.next, c.filter, w')
  {
    if FindIssueLocation(data, id).Some? {
      LoadedOutcome(data, w, w', c, id, patch, changed, base);
    } else {
      AbsentOutcome(data, w, w', c, id, patch, changed, base);
      if MovesUnseen(data, c, id, w.issues[id], Merge(w.issues[id], patch), patch, changed, base) {
        FlaggedMoveAgrees(data, w, w', c, id, patch, changed, base);
      }
    }
  }

  /** Work items and subtasks, on a list that sees the row before and after: agree or stale, always. */
  lemma AgreeOrStale(data: ListCache, w: Server, w': Server, c: Contract, id: Id, patch: Patch, changed: Dims,
                     base: Option<Issue>)
    requires Write(w, w', c, id, patch, changed, base) && Agrees(data, c.filter, w)
    requires Listed(w.issues[id]) && Listed(Merge(w.issues[id], patch))
    ensures var o := Reconcile(data, c, id, patch, changed, base);
      o.stale || Agrees(o.next, c.filter, w')
  {
    AgreeOrStaleExactly(data, w, w', c, id, patch, changed, base);
  }

  // ----- which lists are flagged

  /** A list that shows the row is flagged exactly when the write touches its filter, the filter asks who is
      involved, and the rest of it holds: never for anything the client can decide. */
  lemma LoadedFlaggedExactly(data: ListCache, w: Server, w': Server, c: Contract, id: Id, patch: Patch, changed: Dims,
                             base: Option<Issue>)
    requires Write(w, w', c, id, patch, changed, base) && Agrees(data, c.filter, w)
    requires FindIssueLocation(data, id).Some?
    ensures Reconcile(data, c, id, patch, changed, base).stale <==>
      ListFilterDependsOn(c, changed) && c.filter.involvesUserId.Some?
      && FilterHolds(Merge(w.issues[id], patch), c.filter.(involvesUserId := None), w.involves)
  {
    LoadedBelongs(data, w, c.filter, id);
    UndecidableExactlyOnInvolves(Merge(w.issues[id], patch), c, w.involves);
  }

  /** The row is new to the list, or it moves to another column of it. */
  ghost predicate ArrivesOrMoves(w: Server, f: Filter, before: Issue, after: Issue)
  {
    FilterHolds(after, f, w.involves) && (!FilterHolds(before, f, w.involves) || before.status != after.status)
  }

  /** With a base copy and a filter the client can decide, a list is flagged exactly when it does not show the
      row and the row arrives in it or changes its column: what only the server can place. */
  lemma FlaggedExactly(data: ListCache, w: Server, w': Server, c: Contract, id: Id, patch: Patch, changed: Dims,
                       base: Option<Issue>)
    requires Write(w, w', c, id, patch, changed, base) && Agrees(data, c.filter, w)
    requires base.Some? && c.filter.involvesUserId.None?
    ensures Reconcile(data, c, id, patch, changed, base).stale <==>
      FindIssueLocation(data, id).None? && ArrivesOrMoves(w, c.filter, w.issues[id], Merge(w.issues[id], patch))
  {
    hide FilterHolds, IssueMatchesListFilter, ListFilterDependsOn, FindIssueLocation, Agrees;
    var before := w.issues[id];
    var after := Merge(before, patch);
    if FindIssueLocation(data, id).Some? {
      LoadedFlaggedExactly(data, w, w', c, id, patch, changed, base);
    } else {
      AbsentFlaggedExactly(data, w, w', c, id, patch, changed, base);
    }
  }

  lemma AbsentFlaggedExactly(data: ListCache, w: Server, w': Server, c: Contract, id: Id, patch: Patch, changed: Dims,
                             base: Option<Issue>)
    requires Write(w, w', c, id, patch, changed, base) && FindIssueLocation(data, id).None?
    requires base.Some? && c.filter.involvesUserId.None?
    ensures Reconcile(data, c, id, patch, changed, base).stale <==>
      ArrivesOrMoves(w, c.filter, w.issues[id], Merge(w.issues[id], patch))
  {
    hide FilterHolds, IssueMatchesListFilter, ListFilterDependsOn, FindIssueLocation;
    var before, after := w.issues[id], Merge(w.issues[id], patch);
    DecidedVerdict(before, c, w.involves);
    DecidedVerdict(after, c, w.involves);
    if !ListFilterDependsOn(c, changed) { IndependentListsKeepMembership(before, after, c, changed, w.involves); }
  }

  /** Without `involves_user_id` the client's verdict is the server's filter. */
  lemma DecidedVerdict(i: Issue, c: Contract, involves: Involvement)
    requires RealIds(i) && c.scope != Some("all") && !HasEmptyPart(c.filter) && c.filter.involvesUserId.None?
    ensures IssueMatchesListFilter(AsPatch(i), c) == if FilterHolds(i, c.filter, involves) then Yes else No
  {
    VerdictIsFilter(i, c, involves);
    UndecidableExactlyOnInvolves(i, c, involves);
  }

  /** And then, flagged or not, the list agrees with the server exactly unless a row arrives in one of its
      columns. */
  lemma DecidedAgreesExactly(data: ListCache, w: Server, w': Server, c: Contract, id: Id, patch: Patch, changed: Dims,
                             base: Option<Issue>)
    requires Write(w, w', c, id, patch, changed, base) && Agrees(data, c.filter, w)
    requires Listed(w.issues[id]) && Listed(Merge(w.issues[id], patch))
    requires base.Some? && c.filter.involvesUserId.None?
    ensures var before, after := w.issues[id], Merge(w.issues[id], patch);
      Agrees(Reconcile(data, c, id, patch, changed, base).next, c.filter, w') <==>
        !(FindIssueLocation(data, id).None? && Paginated(after.status)
          && FilterHolds(after, c.filter, w.involves) && !FilterHolds(before, c.filter, w.involves))
  {
    var before := w.issues[id];
    var after := Merge(before, patch);
    hide FilterHolds, IssueMatchesListFilter, ListFilterDependsOn, FindIssueLocation, Agrees, Reconcile;
    FlaggedExactly(data, w, w', c, id, patch, changed, base);
    AgreeOrStale(data, w, w', c, id, patch, changed, base);
    if FindIssueLocation(data, id).None? && ArrivesOrMoves(w, c.filter, before, after) {
      DecidedVerdict(before, c, w.involves);
      DecidedVerdict(after, c, w.involves);
      if FilterHolds(before, c.filter, w.involves) {
        FlaggedMoveAgrees(data, w, w', c, id, patch, changed, base);
      } else {
        FlaggedArrivalStays(data, c, id, patch, changed, base);
        ArrivalOutcome(data, w, w', c.filter, id, after);
      }
    }
  }

  lemma FlaggedArrivalStays(data: ListCache, c: Contract, id: Id, patch: Patch, changed: Dims, base: Option<Issue>)
    requires FindIssueLocation(data, id).None? && base.Some? && IssueMatchesListFilter(AsPatch(base.value), c).No?
    ensures Reconcile(data, c, id, patch, changed, base).next == data
  {
  }

  lemma ArrivalOutcome(data: ListCache, w: Server, w': Server, f: Filter, id: Id, after: Issue)
    requires Agrees(data, f, w) && FindIssueLocation(data, id).None?
    requires id in w.issues && w'.issues == w.issues[id := after] && w'.involves == w.involves
    requires !Belongs(w.issues[id], f, w.involves) && Belongs(after, f, w.involves)
    ensures Agrees(data, f, w') <==> !Paginated(after.status)
  {
    AbsentAgrees(data, data, w, w', f, id, after);
    assert GetBucket(data, after.status).total == GetBucket(data, after.status).total;
  }

  // ----- nothing clamps

  /** The write takes one unit out of this column. */
  predicate Leaves(data: ListCache, c: Contract, id: Id, before: Issue, patch: Patch, changed: Dims,
                   base: Option<Issue>, s: Status)
  {
    var after := Merge(before, patch);
    s == before.status &&
    if FindIssueLocation(data, id).Some? then Removed(data, c, id, patch, changed) || after.status != before.status
    else CountsDown(c, patch, changed, base) || (Stays(c, patch, changed, base) && after.status != before.status)
  }

  /** The write brings one unit into this column. */
  predicate Enters(data: ListCache, c: Contract, id: Id, before: Issue, patch: Patch, changed: Dims,
                   base: Option<Issue>, s: Status)
  {
    var after := Merge(before, patch);
    s == after.status && after.status != before.status &&
    if FindIssueLocation(data, id).Some? then !Removed(data, c, id, patch, changed) else Stays(c, patch, changed, base)
  }

  /** In every paginated column the total moves by whole units: the clamp at zero is never met, flagged or not. */
  lemma NothingClamps(data: ListCache, w: Server, w': Server, c: Contract, id: Id, patch: Patch, changed: Dims,
                      base: Option<Issue>, s: Status)
    requires Write(w, w', c, id, patch, changed, base) && Agrees(data, c.filter, w) && Paginated(s)
    requires Listed(w.issues[id]) && Listed(Merge(w.issues[id], patch))
    ensures var before := w.issues[id];
      GetBucket(Reconcile(data, c, id, patch, changed, base).next, s).total == GetBucket(data, s).total
        - Bit(Leaves(data, c, id, before, patch, changed, base, s))
        + Bit(Enters(data, c, id, before, patch, changed, base, s))
  {
    var before := w.issues[id];
    if FindIssueLocation(data, id).Some? {
      LoadedUnclamped(data, w, c, id, patch, changed, base, s);
    } else {
      if base.Some? && IssueMatchesListFilter(AsPatch(before), c).Yes? {
        YesIsRight(before, c, w.involves);
        CountedIsPositive(w, c.filter, id);
      }
      AbsentTotals(data, c, id, patch, changed, base, s);
    }
  }

  lemma LoadedUnclamped(data: ListCache, w: Server, c: Contract, id: Id, patch: Patch, changed: Dims,
                        base: Option<Issue>, s: Status)
    requires Agrees(data, c.filter, w) && FindIssueLocation(data, id).Some? && id in w.issues && Paginated(s)
    ensures var before := w.issues[id];
      GetBucket(Reconcile(data, c, id, patch, changed, base).next, s).total == GetBucket(data, s).total
        - Bit(Leaves(data, c, id, before, patch, changed, base, s))
        + Bit(Enters(data, c, id, before, patch, changed, base, s))
  {
    LoadedBelongs(data, w, c.filter, id);
    CountedIsPositive(w, c.filter, id);
    OutcomeShape(data, c, id, patch, changed, base);
    if !Removed(data, c, id, patch, changed) {
      PatchedTotals(data, w, id, patch, s);
    } else {
      RemovedTotals(data, w, c.filter, id, s);
    }
  }

  lemma RemovedTotals(data: ListCache, w: Server, f: Filter, id: Id, s: Status)
    requires Agrees(data, f, w) && FindIssueLocation(data, id).Some? && id in w.issues && Paginated(s)
    ensures GetBucket(RemoveIssueFromBuckets(data, id), s).total ==
      GetBucket(data, s).total - Bit(s == w.issues[id].status)
  {
    LoadedBelongs(data, w, f, id);
    CountedIsPositive(w, f, id);
    HasIdMember(GetBucket(data, FindIssueLocation(data, id).value.status).issues, id);
    LoadedIn(data, w, id, FindIssueLocation(data, id).value.status);
  }

  /** The totals of a list without the row, clamps included. */
  lemma AbsentTotals(data: ListCache, c: Contract, id: Id, patch: Patch, changed: Dims, base: Option<Issue>, s: Status)
    requires FindIssueLocation(data, id).None?
    requires base.Some? && Merge(base.value, patch).status != base.value.status ==> changed.status
    ensures base.Some? ==>
      GetBucket(Reconcile(data, c, id, patch, changed, base).next, s).total ==
        if Leaves(data, c, id, base.value, patch, changed, base, s) then Max(0, GetBucket(data, s).total - 1)
        else GetBucket(data, s).total + Bit(Enters(data, c, id, base.value, patch, changed, base, s))
    ensures base.None? ==> Reconcile(data, c, id, patch, changed, base).next == data
  {
    hide IssueMatchesListFilter, ListFilterDependsOn, DecrementBucketTotal, MoveBucketTotal, FindIssueLocation;
    if CountsDown(c, patch, changed, base) { DecrementedBuckets(data, base.value.status, s); }
    if Stays(c, patch, changed, base) && Merge(base.value, patch).status != base.value.status {
      MovedBuckets(data, base.value.status, Merge(base.value, patch).status, s);
    }
  }

  const CANCELLED := Issue("c", WorkItem, Cancelled, 1.0, None, None, "u", None, None, "")
  const REOPENED := Patch(None, Some(Todo), None, None, None, None, None, None, None)

  /** Only the column outside the paginated ones can clamp: it is never fetched, so a cancelled issue that is
      reopened is taken from a total of zero. */
  lemma ReopenedClamps()
    ensures var changed := IssueChangedDims(REOPENED, Some(CANCELLED));
      var next := Reconcile(map[], Contract(None, NO_FILTER), "c", REOPENED, changed, Some(CANCELLED)).next;
      GetBucket(map[], Cancelled).total == 0 && GetBucket(next, Cancelled).total == 0
        && GetBucket(next, Todo).total == 1
  {
    assert IssueMatchesListFilter(AsPatch(CANCELLED), Contract(None, NO_FILTER)) == Yes;
    MovedBuckets(map[], Cancelled, Todo, Cancelled);
    MovedBuckets(map[], Cancelled, Todo, Todo);
  }

  // ----- which lists are rewritten

  /** A list is rewritten, and snapshotted, exactly when it shows the row, or the row is known to leave it or to change
      its column beyond the loaded cards. */
  lemma TouchedExactly(data: ListCache, c: Contract, id: Id, patch: Patch, changed: Dims, base: Option<Issue>)
    ensures Reconcile(data, c, id, patch, changed, base).touched <==>
      || FindIssueLocation(data, id).Some?
      || CountsDown(c, patch, changed, base)
      || (Stays(c, patch, changed, base) && changed.status && patch.status.Some?
            && patch.status.value != base.value.status)
  {
    hide FindIssueLocation, IssueMatchesListFilter, ListFilterDependsOn;
  }
}
