/** Lists whose key carries a date range. The server counts only rows of the range; the coordinator drops the range
    when it reads the key. Exactly which writes such a list misses. */
module DateRanges {
  import opened IssueModel
  import opened CacheHelpers
  import opened Membership
  import opened Agreement
  import opened RulesTable
  import opened Coordinator
  import opened WsUpdates
  import opened Drift
  import opened Echo
  import opened Mutations
  import opened Lifecycle

  // ----- one write, seen through a date range

  /** One committed write to a work item, with the times it leaves behind. */
  ghost predicate TimedWrite(w: Server, w': Server, c: Contract, id: Id, patch: Patch, changed: Dims,
                             base: Option<Issue>)
  {
    && Write(w, w', c, id, patch, changed, base) && Timed(w, w', id)
    && Listed(w.issues[id]) && Listed(Merge(w.issues[id], patch))
  }

  /** What the table misses because it does not know the range. `was` and `stays`: the row is in the range before and
      after the write. */
  ghost predicate Missed(data: ListCache, w: Server, c: Contract, was: bool, stays: bool, id: Id, patch: Patch,
                         changed: Dims, base: Option<Issue>)
    requires id in w.issues
  {
    var before := w.issues[id];
    var after := Merge(before, patch);
    if was && stays then false
    else if FindIssueLocation(data, id).Some? then
      // a card that left the range and keeps its place
      !Removed(data, c, id, patch, changed) && Paginated(after.status)
    else if CountsDown(c, patch, changed, base) then
      // a row the range never counted is taken off
      !was && Paginated(before.status) && GetBucket(data, before.status).total > 0
    else if was then
      // an unloaded row left the range and is still counted
      Paginated(before.status) && FilterHolds(before, c.filter, w.involves)
    else
      // a row entered the range and is not counted
      stays && Paginated(after.status) && FilterHolds(after, c.filter, w.involves)
  }

  lemma SeenAround(w: Server, w': Server, id: Id, after: Issue, range: Option<DateRange>)
    requires id in w.issues && w'.issues == w.issues[id := after] && w'.involves == w.involves && Timed(w, w', id)
    ensures Around(InRange(w, range), InRange(w', range), id)
    ensures id in InRange(w, range).issues <==> Inside(w.stamps(id), range)
    ensures id in InRange(w', range).issues <==> Inside(w'.stamps(id), range)
    ensures id in InRange(w, range).issues ==> InRange(w, range).issues[id] == w.issues[id]
    ensures id in InRange(w', range).issues ==> InRange(w', range).issues[id] == after
  {
  }

  /** A list that does not hold the row agrees afterwards exactly when its totals moved with the counts. */
  lemma AbsentAgreesAround(data: ListCache, next: ListCache, w: Server, w': Server, f: Filter, id: Id)
    requires Agrees(data, f, w) && FindIssueLocation(data, id).None? && Around(w, w', id)
    requires forall s :: GetBucket(next, s).issues == GetBucket(data, s).issues
    ensures Agrees(next, f, w') <==> forall s :: Paginated(s) ==>
      GetBucket(next, s).total ==
        GetBucket(data, s).total - Bit(id in Members(w, f, s)) + Bit(id in Members(w', f, s))
  {
    hide Belongs, FindIssueLocation, Count, Fresh, Members;
    AbsentKeepsFresh(data, next, w, w', id);
    forall s { CountAround(w, w', f, s, id); }
  }

  /** A row inside the range before and after: the table as without a range. */
  lemma InsideOutcome(data: ListCache, w: Server, w': Server, range: Option<DateRange>, c: Contract, id: Id,
                      patch: Patch, changed: Dims, base: Option<Issue>)
    requires TimedWrite(w, w', c, id, patch, changed, base) && Agrees(data, c.filter, InRange(w, range))
    requires Inside(w.stamps(id), range) && Inside(w'.stamps(id), range)
    ensures var o := Reconcile(data, c, id, patch, changed, base);
      o.stale || Agrees(o.next, c.filter, InRange(w', range))
  {
    var v, v' := InRange(w, range), InRange(w', range);
    assert v'.issues == v.issues[id := Merge(w.issues[id], patch)];
    AgreeOrStale(data, v, v', c, id, patch, changed, base);
  }

  /** A list without the row does not notice that the row is no longer there, if it was not counted. */
  lemma UncountedMayGo(data: ListCache, w: Server, w': Server, f: Filter, id: Id)
    requires Agrees(data, f, w) && FindIssueLocation(data, id).None? && Around(w, w', id)
    requires id in w.issues && id !in w'.issues
    requires !Belongs(w.issues[id], f, w.involves) || !Paginated(w.issues[id].status)
    ensures Agrees(data, f, w')
  {
    AbsentAgreesAround(data, data, w, w', f, id);
  }

  lemma RemovedIsAbsent(data: ListCache, w: Server, id: Id)
    requires Fresh(data, w)
    ensures FindIssueLocation(RemoveIssueFromBuckets(data, id), id).None?
  {
    var loc := FindIssueLocation(data, id);
    if loc.Some? {
      forall s | Paginated(s) ensures !HasId(GetBucket(RemoveIssueFromBuckets(data, id), s).issues, id) {
        WithoutHasId(GetBucket(data, s).issues, id, id);
        if HasId(GetBucket(data, s).issues, id) { LoadedIn(data, w, id, s); }
      }
    }
  }

  lemma PatchedAwayIsAbsent(data: ListCache, w: Server, id: Id)
    requires Fresh(data, w) && id in w.issues && !Paginated(w.issues[id].status)
    ensures FindIssueLocation(data, id).None?
  {
    var loc := FindIssueLocation(data, id);
    if loc.Some? {
      HasIdMember(GetBucket(data, loc.value.status).issues, id);
      LoadedIn(data, w, id, loc.value.status);
    }
  }

  lemma RemovedCardLeaves(data: ListCache, v: Server, v': Server, f: Filter, id: Id, after: Issue)
    requires Agrees(data, f, v) && FindIssueLocation(data, id).Some? && Around(v, v', id)
    requires id in v.issues && id !in v'.issues && !Belongs(after, f, v.involves)
    ensures Agrees(RemoveIssueFromBuckets(data, id), f, v')
  {
    hide Agrees, RemoveIssueFromBuckets, Belongs, FindIssueLocation;
    var written := v.(issues := v.issues[id := after]);
    RemovedAgrees(data, v, written, f, id, after);
    assert Fresh(data, v) by { AgreesIsFresh(data, f, v); }
    RemovedIsAbsent(data, v, id);
    UncountedMayGo(RemoveIssueFromBuckets(data, id), written, v', f, id);
  }

  lemma AgreesIsFresh(data: ListCache, f: Filter, w: Server)
    requires Agrees(data, f, w)
    ensures Fresh(data, w)
  {
  }

  lemma PatchedCardLeaves(data: ListCache, v: Server, v': Server, f: Filter, id: Id, patch: Patch)
    requires Agrees(data, f, v) && FindIssueLocation(data, id).Some? && Around(v, v', id)
    requires id in v.issues && id !in v'.issues
    ensures Agrees(PatchIssueInBuckets(data, id, patch), f, v') <==> !Paginated(Merge(v.issues[id], patch).status)
  {
    hide Agrees, PatchIssueInBuckets, Belongs, FindIssueLocation;
    var after := Merge(v.issues[id], patch);
    var next := PatchIssueInBuckets(data, id, patch);
    AgreesIsFresh(data, f, v);
    LoadedBelongs(data, v, f, id);
    if Paginated(after.status) {
      PatchedCards(data, v, id, patch, after.status);
      CardIsGone(next, f, v', after);
    } else {
      var written := v.(issues := v.issues[id := after]);
      PatchedAgrees(data, v, written, f, id, patch);
      AgreesIsFresh(next, f, written);
      PatchedAwayIsAbsent(next, written, id);
      UncountedMayGo(next, written, v', f, id);
    }
  }

  lemma CardIsGone(data: ListCache, f: Filter, w: Server, card: Issue)
    requires Paginated(card.status) && card in GetBucket(data, card.status).issues && card.id !in w.issues
    ensures !Agrees(data, f, w)
  {
  }

  /** A loaded row leaves the range: right exactly when the write also takes the card out of the columns. */
  lemma LoadedLeaves(data: ListCache, v: Server, v': Server, c: Contract, id: Id, patch: Patch, changed: Dims,
                     base: Option<Issue>)
    requires Agrees(data, c.filter, v) && FindIssueLocation(data, id).Some?
    requires Around(v, v', id) && id in v.issues && id !in v'.issues
    requires RealIds(Merge(v.issues[id], patch)) && c.scope != Some("all") && !HasEmptyPart(c.filter)
    ensures var next := Reconcile(data, c, id, patch, changed, base).next;
      Agrees(next, c.filter, v') <==>
        Removed(data, c, id, patch, changed) || !Paginated(Merge(v.issues[id], patch).status)
  {
    var after := Merge(v.issues[id], patch);
    OutcomeShape(data, c, id, patch, changed, base);
    LoadedBelongs(data, v, c.filter, id);
    hide Agrees, Reconcile, FindIssueLocation, FilterHolds, RemoveIssueFromBuckets, PatchIssueInBuckets;
    if Removed(data, c, id, patch, changed) {
      VerdictIsFilter(after, c, v.involves);
      RemovedCardLeaves(data, v, v', c.filter, id, after);
    } else {
      PatchedCardLeaves(data, v, v', c.filter, id, patch);
    }
  }

  /** What is left of the table for an unloaded row that is not flagged. */
  lemma UnflaggedAbsent(data: ListCache, c: Contract, id: Id, patch: Patch, changed: Dims, base: Option<Issue>)
    requires FindIssueLocation(data, id).None?
    ensures var o := Reconcile(data, c, id, patch, changed, base);
      o.stale || o.next ==
        if CountsDown(c, patch, changed, base) then DecrementBucketTotal(data, base.value.status) else data
  {
    if Judged(c, changed) { UnflaggedIsDecrement(data, c, id, patch, changed, base); }
  }

  lemma CountedWhere(w: Server, f: Filter, id: Id)
    ensures forall s :: id in Members(w, f, s) <==>
      id in w.issues && w.issues[id].status == s && Belongs(w.issues[id], f, w.involves)
  {
  }

  /** An unloaded row outside the range before or after the write. */
  lemma AbsentMissed(data: ListCache, w: Server, w': Server, range: Option<DateRange>, c: Contract, id: Id,
                     patch: Patch, changed: Dims, base: Option<Issue>)
    requires TimedWrite(w, w', c, id, patch, changed, base) && Agrees(data, c.filter, InRange(w, range))
    requires FindIssueLocation(data, id).None?
    requires !(Inside(w.stamps(id), range) && Inside(w'.stamps(id), range))
    ensures var o := Reconcile(data, c, id, patch, changed, base);
      o.stale || (Agrees(o.next, c.filter, InRange(w', range)) <==>
        !Missed(data, w, c, Inside(w.stamps(id), range), Inside(w'.stamps(id), range), id, patch, changed, base))
  {
    hide Reconcile, Agrees, FindIssueLocation, FilterHolds, Inside, IssueMatchesListFilter;
    var before, after := w.issues[id], Merge(w.issues[id], patch);
    var v, v' := InRange(w, range), InRange(w', range);
    var o := Reconcile(data, c, id, patch, changed, base);
    SeenAround(w, w', id, after, range);
    UnflaggedAbsent(data, c, id, patch, changed, base);
    if !o.stale {
      if CountsDown(c, patch, changed, base) {
        VerdictIsFilter(before, c, w.involves);
        VerdictIsFilter(after, c, w.involves);
        CountedDown(data, v, v', c.filter, id, before, after);
      } else {
        LeftAlone(data, v, v', c.filter, id, before, after);
      }
    }
  }

  lemma CountedDown(data: ListCache, v: Server, v': Server, f: Filter, id: Id, before: Issue, after: Issue)
    requires Agrees(data, f, v) && FindIssueLocation(data, id).None? && Around(v, v', id)
    requires Belongs(before, f, v.involves) && !Belongs(after, f, v.involves)
    requires (id in v.issues ==> v.issues[id] == before) && (id in v'.issues ==> v'.issues[id] == after)
    ensures Agrees(DecrementBucketTotal(data, before.status), f, v') <==>
      !(id !in v.issues && Paginated(before.status) && GetBucket(data, before.status).total > 0)
  {
    hide Belongs, FindIssueLocation, Count, Fresh, DecrementBucketTotal, Members;
    var next := DecrementBucketTotal(data, before.status);
    forall s ensures GetBucket(next, s).issues == GetBucket(data, s).issues {
      DecrementedBuckets(data, before.status, s);
    }
    CountedWhere(v, f, id);
    CountedWhere(v', f, id);
    if id in v.issues { CountedIsPositive(v, f, id); }
    AbsentAgreesAround(data, next, v, v', f, id);
    forall s { DecrementedBuckets(data, before.status, s); }
  }

  lemma LeftAlone(data: ListCache, v: Server, v': Server, f: Filter, id: Id, before: Issue, after: Issue)
    requires Agrees(data, f, v) && FindIssueLocation(data, id).None? && Around(v, v', id)
    requires (id in v.issues ==> v.issues[id] == before) && (id in v'.issues ==> v'.issues[id] == after)
    requires id !in v.issues || id !in v'.issues
    ensures Agrees(data, f, v') <==>
      if id in v.issues then !(Paginated(before.status) && Belongs(before, f, v.involves))
      else !(id in v'.issues && Paginated(after.status) && Belongs(after, f, v.involves))
  {
    hide Belongs, Agrees;
    CountedWhere(v, f, id);
    CountedWhere(v', f, id);
    AbsentAgreesAround(data, data, v, v', f, id);
    assert GetBucket(data, before.status).total == GetBucket(data, before.status).total;
    assert GetBucket(data, after.status).total == GetBucket(data, after.status).total;
  }

  lemma LoadedMissed(data: ListCache, w: Server, w': Server, range: Option<DateRange>, c: Contract, id: Id,
                     patch: Patch, changed: Dims, base: Option<Issue>)
    requires TimedWrite(w, w', c, id, patch, changed, base) && Agrees(data, c.filter, InRange(w, range))
    requires FindIssueLocation(data, id).Some? && !Inside(w'.stamps(id), range)
    ensures Inside(w.stamps(id), range)
    ensures Agrees(Reconcile(data, c, id, patch, changed, base).next, c.filter, InRange(w', range)) <==>
      !Missed(data, w, c, true, false, id, patch, changed, base)
  {
    hide Reconcile, Agrees, FindIssueLocation, Removed, Inside, Merge;
    LoadedBelongs(data, InRange(w, range), c.filter, id);
    SeenAround(w, w', id, Merge(w.issues[id], patch), range);
    LoadedLeaves(data, InRange(w, range), InRange(w', range), c, id, patch, changed, base);
  }

  /** For every list and every date range: after a write a list that agreed is flagged, or it agrees again exactly
      when the write is not one the table misses for want of the range. Without a range it misses none. */
  lemma RangeAgreesExactly(data: ListCache, w: Server, w': Server, range: Option<DateRange>, c: Contract, id: Id,
                           patch: Patch, changed: Dims, base: Option<Issue>)
    requires TimedWrite(w, w', c, id, patch, changed, base) && Agrees(data, c.filter, InRange(w, range))
    ensures var o := Reconcile(data, c, id, patch, changed, base);
      o.stale || (Agrees(o.next, c.filter, InRange(w', range)) <==>
        !Missed(data, w, c, Inside(w.stamps(id), range), Inside(w'.stamps(id), range), id, patch, changed, base))
  {
    hide Reconcile, Agrees, FindIssueLocation, Removed, TimedWrite, Inside;
    if Inside(w.stamps(id), range) && Inside(w'.stamps(id), range) {
      InsideOutcome(data, w, w', range, c, id, patch, changed, base);
    } else if FindIssueLocation(data, id).Some? {
      LoadedInside(data, w, c.filter, range, id);
      LoadedMissed(data, w, w', range, c, id, patch, changed, base);
    } else {
      AbsentMissed(data, w, w', range, c, id, patch, changed, base);
    }
  }

  lemma LoadedInside(data: ListCache, w: Server, f: Filter, range: Option<DateRange>, id: Id)
    requires Agrees(data, f, InRange(w, range)) && FindIssueLocation(data, id).Some?
    ensures Inside(w.stamps(id), range)
  {
    LoadedBelongs(data, InRange(w, range), f, id);
  }

  /** A range over the time of creation, which no write moves: wrong exactly when an issue from outside the range is
      counted down. */
  lemma CreatedRangeExactly(data: ListCache, w: Server, w': Server, range: DateRange, c: Contract, id: Id,
                            patch: Patch, changed: Dims, base: Option<Issue>)
    requires TimedWrite(w, w', c, id, patch, changed, base) && Agrees(data, c.filter, InRange(w, Some(range)))
    requires range.field.CreatedAt?
    ensures var o := Reconcile(data, c, id, patch, changed, base);
      var before := w.issues[id];
      o.stale || (Agrees(o.next, c.filter, InRange(w', Some(range))) <==>
        !(!(range.start <= w.stamps(id).createdAt < range.end) && CountsDown(c, patch, changed, base)
          && Paginated(before.status) && GetBucket(data, before.status).total > 0))
  {
    hide Reconcile, Agrees, FindIssueLocation, Removed, CountsDown;
    RangeAgreesExactly(data, w, w', Some(range), c, id, patch, changed, base);
    if FindIssueLocation(data, id).Some? { LoadedInside(data, w, c.filter, Some(range), id); }
  }

  // ----- flags and clamps

  /** The write as the list sees it while the row is in its range. */
  lemma SeenWrite(w: Server, w': Server, range: Option<DateRange>, c: Contract, id: Id, patch: Patch, changed: Dims,
                  base: Option<Issue>) returns (written: Server)
    requires TimedWrite(w, w', c, id, patch, changed, base) && Inside(w.stamps(id), range)
    ensures Write(InRange(w, range), written, c, id, patch, changed, base)
    ensures InRange(w, range).issues[id] == w.issues[id]
  {
    var v := InRange(w, range);
    written := v.(issues := v.issues[id := Merge(w.issues[id], patch)]);
  }

  /** With a base copy and a decidable filter a list is flagged as if it had no range: exactly when it does not show
      the row and the row arrives in its filter or changes its column there. Entering or leaving the range never
      flags it. */
  lemma RangeFlagsExactly(data: ListCache, w: Server, w': Server, range: Option<DateRange>, c: Contract, id: Id,
                          patch: Patch, changed: Dims, base: Option<Issue>)
    requires TimedWrite(w, w', c, id, patch, changed, base) && Agrees(data, c.filter, InRange(w, range))
    requires base.Some? && c.filter.involvesUserId.None?
    ensures Reconcile(data, c, id, patch, changed, base).stale <==>
      FindIssueLocation(data, id).None? && ArrivesOrMoves(w, c.filter, w.issues[id], Merge(w.issues[id], patch))
  {
    hide Reconcile, Agrees, FindIssueLocation, FilterHolds, Inside;
    if FindIssueLocation(data, id).Some? {
      LoadedInside(data, w, c.filter, range, id);
      var written := SeenWrite(w, w', range, c, id, patch, changed, base);
      FlaggedExactly(data, InRange(w, range), written, c, id, patch, changed, base);
    } else {
      AbsentFlaggedExactly(data, w, w', c, id, patch, changed, base);
    }
  }

  /** In a paginated column the clamp at zero is met exactly when a row from outside the range is taken off an empty
      column. */
  lemma RangeClampsExactly(data: ListCache, w: Server, w': Server, range: Option<DateRange>, c: Contract, id: Id,
                           patch: Patch, changed: Dims, base: Option<Issue>, s: Status)
    requires TimedWrite(w, w', c, id, patch, changed, base) && Agrees(data, c.filter, InRange(w, range)) && Paginated(s)
    ensures var before := w.issues[id];
      var leaves := Leaves(data, c, id, before, patch, changed, base, s);
      GetBucket(Reconcile(data, c, id, patch, changed, base).next, s).total !=
        GetBucket(data, s).total - Bit(leaves) + Bit(Enters(data, c, id, before, patch, changed, base, s)) <==>
      !Inside(w.stamps(id), range) && leaves && GetBucket(data, s).total == 0
  {
    hide Reconcile, FindIssueLocation, Leaves, Enters, Inside;
    if Inside(w.stamps(id), range) {
      var written := SeenWrite(w, w', range, c, id, patch, changed, base);
      NothingClamps(data, InRange(w, range), written, c, id, patch, changed, base, s);
    } else {
      if FindIssueLocation(data, id).Some? { LoadedInside(data, w, c.filter, range, id); }
      OutsideTotals(data, w, c, id, patch, changed, base, s);
      assert GetBucket(data, s).total == Count(InRange(w, range), c.filter, s);
    }
  }

  lemma OutsideTotals(data: ListCache, w: Server, c: Contract, id: Id, patch: Patch, changed: Dims,
                      base: Option<Issue>, s: Status)
    requires FindIssueLocation(data, id).None? && id in w.issues && (base.Some? ==> base.value == w.issues[id])
    requires Merge(w.issues[id], patch).status != w.issues[id].status ==> changed.status
    ensures var before := w.issues[id];
      var leaves := Leaves(data, c, id, before, patch, changed, base, s);
      var enters := Enters(data, c, id, before, patch, changed, base, s);
      && !(leaves && enters)
      && GetBucket(Reconcile(data, c, id, patch, changed, base).next, s).total ==
           if leaves then Max(0, GetBucket(data, s).total - 1) else GetBucket(data, s).total + Bit(enters)
  {
    AbsentTotals(data, c, id, patch, changed, base, s);
  }

  // ----- events and runs

  /** What an event does to one list with a range. */
  ghost predicate Misses(s: State, w: Server, w': Server, k: ListKey, id: Id, patch: Patch, meta: Meta)
    requires id in w.issues && k in s.lists && s.lists[k].Bucketed?
  {
    var ch := WsChange(s, id, patch, meta);
    var was, stays := Inside(w.stamps(id), k.sort.range), Inside(w'.stamps(id), k.sort.range);
    Missed(s.lists[k].cache, w, ContractFromKey(k), was, stays, id, patch, ch.changed, ch.base)
  }

  lemma EventIsTimedWrite(s: State, w: Server, w': Server, id: Id, patch: Patch, meta: Meta, k: ListKey)
    requires InStep(s, w) && Event(w, w', id, patch, meta) && Defined(k)
    requires CachedIssue(s, id).Some? || MovesAreFlagged(meta, w.issues[id], Merge(w.issues[id], patch))
    ensures var ch := WsChange(s, id, patch, meta);
      TimedWrite(w, w', ContractFromKey(k), id, patch, ch.changed, ch.base)
  {
    CachedIsFresh(s, w, id);
    WsDimsCover(WsChange(s, id, patch, meta).base, w.issues[id], patch, meta);
  }

  /** One delivery: a list in agreement is flagged, or agrees again exactly when the event is not missed. */
  lemma DeliveryExactly(s: State, w: Server, w': Server, id: Id, patch: Patch, meta: Meta, k: ListKey)
    requires InStep(s, w) && Event(w, w', id, patch, meta)
    requires CachedIssue(s, id).Some? || MovesAreFlagged(meta, w.issues[id], Merge(w.issues[id], patch))
    requires k in s.lists && s.lists[k].Bucketed? && Defined(k) && k !in s.stale && KeyAgrees(k, s.lists[k].cache, w)
    ensures var s' := Deliver(s, id, patch, meta);
      && k in s'.lists && s'.lists[k].Bucketed?
      && (k in s'.stale || (KeyAgrees(k, s'.lists[k].cache, w') <==> !Misses(s, w, w', k, id, patch, meta)))
  {
    hide Agrees, InRange, Reconcile, Missed, InStep, Event;
    var ch := WsChange(s, id, patch, meta);
    EventIsTimedWrite(s, w, w', id, patch, meta, k);
    RangeAgreesExactly(s.lists[k].cache, w, w', k.sort.range, ContractFromKey(k), id, patch, ch.changed, ch.base);
  }

  /** The list is loaded, and agrees with the server or waits for a refetch. */
  ghost predicate Kept(s: State, w: Server, k: ListKey)
  {
    k in s.lists && s.lists[k].Bucketed? && (k in s.stale || KeyAgrees(k, s.lists[k].cache, w))
  }

  /** A step that flags the list, or is no event that the list misses. */
  ghost predicate Noticed(s: State, w: Server, step: Step, w': Server, k: ListKey)
  {
    && k in s.lists && s.lists[k].Bucketed?
    && (k in Take(s, step).stale ||
        (step.Updated? && step.id in w.issues ==> !Misses(s, w, w', k, step.id, step.patch, step.meta)))
  }

  lemma StepExactly(s: State, w: Server, step: Step, w': Server, k: ListKey)
    requires InStep(s, w) && StepOk(s, w, step, w') && Defined(k) && Kept(s, w, k)
    ensures Kept(Take(s, step), w', k) <==> Noticed(s, w, step, w', k)
    ensures k.sort.range.None? ==> Noticed(s, w, step, w', k)
  {
    hide InStep, Event, Agrees, InRange;
    match step
    case Updated(id, patch, meta) =>
      if k !in s.stale { StepDelivers(s, w, id, patch, meta, w', k); }
    case Refetched(key, cache) =>
    case PageLoaded(key, status, page, total) =>
      if key == k && k !in s.stale { PageKeepsKey(s, w, k, status, page, total); }
  }

  lemma StepDelivers(s: State, w: Server, id: Id, patch: Patch, meta: Meta, w': Server, k: ListKey)
    requires InStep(s, w) && StepOk(s, w, Updated(id, patch, meta), w') && Defined(k) && Kept(s, w, k) && k !in s.stale
    ensures id in w.issues
    ensures Kept(Take(s, Updated(id, patch, meta)), w', k) <==> Noticed(s, w, Updated(id, patch, meta), w', k)
  {
    hide InStep, KeyAgrees, Misses;
    DeliveryExactly(s, w, w', id, patch, meta, k);
  }

  lemma PageKeepsKey(s: State, w: Server, k: ListKey, status: Status, page: seq<Issue>, total: int)
    requires InStep(s, w) && PageOk(k, status, page, total, w) && Defined(k)
    requires k in s.lists && s.lists[k].Bucketed? && KeyAgrees(k, s.lists[k].cache, w)
    ensures KeyAgrees(k, AppendPage(s.lists[k].cache, status, page, total), w)
  {
    PageKeepsList(s.lists[k].cache, k, status, page, total, w);
  }

  /** Over any run a list is kept in step throughout exactly when it notices every event; without a date range it
      notices all of them. */
  lemma {:induction false} RunExactly(states: seq<State>, servers: seq<Server>, steps: seq<Step>, k: ListKey, n: nat)
    requires Run(states, servers, steps) && InStep(states[0], servers[0]) && Defined(k) && n <= |steps|
    requires Kept(states[0], servers[0], k)
    ensures InStep(states[n], servers[n])
    ensures (forall m :: 0 <= m <= n ==> Kept(states[m], servers[m], k)) <==>
      forall m :: 0 <= m < n ==> Noticed(states[m], servers[m], steps[m], servers[m + 1], k)
    ensures k.sort.range.None? ==> forall m :: 0 <= m <= n ==> Kept(states[m], servers[m], k)
    decreases n
  {
    hide InStep, Kept, Noticed, StepOk, Take;
    if n > 0 {
      RunExactly(states, servers, steps, k, n - 1);
      StepStaysInStep(states[n - 1], servers[n - 1], steps[n - 1], servers[n]);
      if Kept(states[n - 1], servers[n - 1], k) {
        StepExactly(states[n - 1], servers[n - 1], steps[n - 1], servers[n], k);
      }
    }
  }

  // ----- the own write

  /** The optimistic write: a list in agreement is reported stale, or agrees with the server that is still to come
      exactly when the write is not missed. */
  lemma OptimisticExactly(s: State, w: Server, v: Server, id: Id, patch: Patch, k: ListKey)
    requires InStep(s, w) && OwnWrite(w, v, id, patch) && Timed(w, v, id)
    requires k in s.lists && s.lists[k].Bucketed? && Defined(k) && KeyAgrees(k, s.lists[k].cache, w)
    ensures var ch := ChangeFor(s, id, patch);
      var was, stays := Inside(w.stamps(id), k.sort.range), Inside(v.stamps(id), k.sort.range);
      var next := Apply(s, ch).lists[k];
      next.Bucketed? && (k in StaleKeys(s, ch) || (KeyAgrees(k, next.cache, v) <==>
        !Missed(s.lists[k].cache, w, ContractFromKey(k), was, stays, id, patch, ch.changed, ch.base)))
  {
    hide Agrees, InRange, Reconcile, Missed;
    var ch := ChangeFor(s, id, patch);
    MutationDimsCover(w.issues[id], patch, ch.base);
    RangeAgreesExactly(s.lists[k].cache, w, v, k.sort.range, ContractFromKey(k), id, patch, ch.changed, ch.base);
  }

  /** A timely response, and any other change that cache and server already hold, keeps the list as right as it was. */
  lemma ReapplyKeepsKey(data: ListCache, v: Server, k: ListKey, id: Id, patch: Patch, changed: Dims,
                        base: Option<Issue>)
    requires Defined(k) && KeyAgrees(k, data, v)
    requires id in v.issues && Merge(v.issues[id], patch) == v.issues[id] && RealIds(v.issues[id])
    requires base.Some? ==> base.value == v.issues[id]
    ensures KeyAgrees(k, Reconcile(data, ContractFromKey(k), id, patch, changed, base).next, v)
  {
    hide Agrees, Reconcile, Inside;
    var c := ContractFromKey(k);
    if Inside(v.stamps(id), k.sort.range) {
      ReapplyAgrees(data, InRange(v, k.sort.range), c, id, patch, changed, base);
    } else {
      if FindIssueLocation(data, id).Some? { LoadedInside(data, v, c.filter, k.sort.range, id); }
      EchoOnAbsent(data, c, id, patch, changed, base);
    }
  }
}
