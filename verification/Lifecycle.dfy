/** One optimistic update from its first write to the settled cache, whatever arrives in between. */
module Lifecycle {
  import opened IssueModel
  import opened CacheHelpers
  import opened Membership
  import opened Agreement
  import opened RulesTable
  import opened Coordinator
  import opened Echo
  import opened Mutations
  import opened WsUpdates
  import opened Drift

  // ----- the legs

  /** The reconcile with the entity the server returned: base and patch are the same issue. */
  function SuccessChange(id: Id, intent: Patch, serverIssue: Issue): Change
  {
    Change(id, AsPatch(serverIssue), IssueChangedDims(intent, Some(serverIssue)), Some(serverIssue))
  }

  function Flushed(s: State, ch: Change): State { Apply(s, ch).(stale := s.stale + StaleKeys(s, ch)) }

  method OnSuccessUpdate(qc: QueryClient, id: Id, intent: Patch, serverIssue: Issue)
    requires qc.Valid()
    modifies qc
    ensures qc.Valid() && qc.Now() == Flushed(old(qc.Now()), SuccessChange(id, intent, serverIssue))
  {
    var reconcile := qc.ApplyIssueChange(id, AsPatch(serverIssue), IssueChangedDims(intent, Some(serverIssue)),
      Some(serverIssue));
    qc.InvalidateStaleListKeys(reconcile.staleKeys);
  }

  method OnSettledUpdate(qc: QueryClient, ctx: UpdateContext)
    modifies qc
    ensures qc.Now() == old(qc.Now()).(stale := old(qc.stale) + AsSet(ctx.change.staleKeys))
  {
    qc.InvalidateStaleListKeys(ctx.change.staleKeys);
  }

  /** What can happen after the optimistic write: the response, the server's event for this very write, the settling
      flush, and anything else a session consists of. */
  datatype Leg = Success | Echo(patch: Patch, meta: Meta) | Settled | Remote(step: Step)

  /** `pending` are the keys the optimistic write reported, kept back until it settles; `committed` is the row as the
      response carries it, which is the row of the moment of the commit. */
  function TakeLeg(t: State, pending: set<ListKey>, id: Id, intent: Patch, committed: Issue, leg: Leg): State
  {
    match leg
    case Success => Flushed(t, SuccessChange(id, intent, committed))
    case Echo(patch, meta) => Deliver(t, id, patch, meta)
    case Settled => t.(stale := t.stale + pending)
    case Remote(step) => Take(t, step)
  }

  predicate Shows(t: State, k: ListKey, id: Id)
  {
    k in t.lists && t.lists[k].Bucketed? && FindIssueLocation(t.lists[k].cache, id).Some?
  }

  /** A row written into this cache is seen: by the detail, or by a list that shows the issue and either keeps showing
      it or is trusted for its totals. */
  ghost predicate Seen(t: State, pending: set<ListKey>, id: Id, row: Issue)
  {
    || id in t.details
    || exists k :: Shows(t, k, id) && (Paginated(row.status) || (Exact(k) && k !in t.stale + pending))
  }

  /** No newer write to the row was delivered before the response, or the row is not seen at all. */
  ghost predicate Timely(t: State, pending: set<ListKey>, id: Id, v: Server, committed: Issue)
    requires id in v.issues
  {
    v.issues[id] == committed || !Seen(t, pending, id, committed)
  }

  /** `v` is the server with the own write in it, as far as its events were delivered. */
  ghost predicate LegOk(t: State, id: Id, v: Server, committed: Issue, leg: Leg, v': Server)
    requires id in v.issues
  {
    match leg
    case Success => v' == v && Timely(t, {}, id, v, committed)
    case Echo(patch, meta) => v' == v && Merge(v.issues[id], patch) == v.issues[id]
    case Settled => v' == v
    case Remote(step) => StepOk(t, v, step, v')
  }

  /** The response carries the row of this issue, with what was asked for in it. */
  predicate Stored(id: Id, intent: Patch, committed: Issue)
  {
    committed.id == id && Merge(committed, intent) == committed
  }

  /** The server with the write in it, as the user meant it. */
  ghost predicate OwnWrite(w: Server, v: Server, id: Id, patch: Patch)
  {
    && id in w.issues
    && var before := w.issues[id];
       var after := Merge(before, patch);
    && v.issues == w.issues[id := after] && v.involves == w.involves
    && RealIds(before) && RealIds(after) && before.creatorId == after.creatorId
    && Listed(before) && Listed(after)
  }

  /** In step with the server once the pending keys are refetched. */
  ghost predicate Ahead(t: State, pending: set<ListKey>, v: Server)
  {
    InStep(t.(stale := t.stale + pending), v)
  }

  lemma MoreStale(s: State, w: Server, more: set<ListKey>)
    requires InStep(s, w)
    ensures Ahead(s, more, w)
  {
  }

  /** The optimistic write puts the cache in step with the server that is still to come. */
  lemma OptimisticIsAhead(s: State, w: Server, v: Server, id: Id, patch: Patch)
    requires InStep(s, w) && OwnWrite(w, v, id, patch)
    ensures var ch := ChangeFor(s, id, patch); Ahead(Apply(s, ch), StaleKeys(s, ch), v)
  {
    var ch := ChangeFor(s, id, patch);
    var t := Apply(s, ch).(stale := s.stale + StaleKeys(s, ch));
    MutationDimsCover(w.issues[id], patch, ch.base);
    forall k | k in t.lists && t.lists[k].Bucketed?
      ensures Fresh(t.lists[k].cache, v)
      ensures Exact(k) && k !in t.stale ==> Agrees(t.lists[k].cache, ContractFromKey(k).filter, v)
    {
      EntryStaysInStep(s, w, v, ch, k);
    }
  }

  /** One after the other, the servers with the writes of a batch in them. */
  ghost predicate BatchWrites(servers: seq<Server>, ids: seq<Id>, patch: Patch)
  {
    && |servers| == |ids| + 1
    && forall n :: 0 <= n < |ids| ==> OwnWrite(servers[n], servers[n + 1], ids[n], patch)
  }

  /** A batch puts the cache in step with the server that has all its writes, up to the keys it keeps back. */
  lemma {:induction false} BatchIsAhead(s: State, servers: seq<Server>, ids: seq<Id>, patch: Patch)
    requires BatchWrites(servers, ids, patch) && InStep(s, servers[0])
    ensures Ahead(BatchState(s, ids, patch), BatchStale(s, ids, patch), servers[|ids|])
  {
    if ids == [] {
      NothingKeptBack(s);
    } else {
      var n := |ids| - 1;
      BatchIsAhead(s, servers[..n + 1], ids[..n], patch);
      var now, kept := BatchState(s, ids[..n], patch), BatchStale(s, ids[..n], patch);
      NextIsAhead(now, kept, servers[n], servers[n + 1], ids[n], patch);
    }
  }

  lemma NextIsAhead(now: State, kept: set<ListKey>, w: Server, v: Server, id: Id, patch: Patch)
    requires Ahead(now, kept, w) && OwnWrite(w, v, id, patch)
    ensures var ch := ChangeFor(now, id, patch); Ahead(Apply(now, ch), kept + StaleKeys(now, ch), v)
  {
    hide InStep, OwnWrite;
    var marked := now.(stale := now.stale + kept);
    var ch := ChangeFor(now, id, patch);
    assert ChangeFor(marked, id, patch) == ch && StaleKeys(marked, ch) == StaleKeys(now, ch);
    OptimisticIsAhead(marked, w, v, id, patch);
    var a, b := Apply(marked, ch), Apply(now, ch);
    assert a.stale + StaleKeys(now, ch) == b.stale + (kept + StaleKeys(now, ch));
    assert a.(stale := a.stale + StaleKeys(now, ch)) == b.(stale := b.stale + (kept + StaleKeys(now, ch)));
  }

  // ----- applying what is already in

  lemma ReapplyAgrees(data: ListCache, v: Server, c: Contract, id: Id, patch: Patch, changed: Dims, base: Option<Issue>)
    requires Agrees(data, c.filter, v) && id in v.issues && Merge(v.issues[id], patch) == v.issues[id]
    requires base.Some? ==> base.value == v.issues[id]
    requires RealIds(v.issues[id]) && c.scope != Some("all") && !HasEmptyPart(c.filter)
    ensures Agrees(Reconcile(data, c, id, patch, changed, base).next, c.filter, v)
  {
    if FindIssueLocation(data, id).None? {
      EchoOnAbsent(data, c, id, patch, changed, base);
    } else {
      LoadedBelongs(data, v, c.filter, id);
      VerdictIsFilter(v.issues[id], c, v.involves);
      assert v.issues == v.issues[id := v.issues[id]];
      PatchedAgrees(data, v, v, c.filter, id, patch);
    }
  }

  /** Applying a change whose fields the server and the cache already hold keeps the cache in step. */
  lemma ReapplyKeepsAhead(t: State, pending: set<ListKey>, v: Server, ch: Change)
    requires Ahead(t, pending, v) && ch.id in v.issues && RealIds(v.issues[ch.id])
    requires Merge(v.issues[ch.id], ch.patch) == v.issues[ch.id]
    requires ch.base.Some? ==> ch.base.value == v.issues[ch.id]
    ensures Ahead(Flushed(t, ch), pending, v)
  {
    var t' := Flushed(t, ch);
    assert v.issues == v.issues[ch.id := Merge(v.issues[ch.id], ch.patch)];
    forall k | k in t'.lists && t'.lists[k].Bucketed?
      ensures Fresh(t'.lists[k].cache, v)
      ensures Exact(k) && k !in t'.stale + pending ==> Agrees(t'.lists[k].cache, ContractFromKey(k).filter, v)
    {
      var c := ContractFromKey(k);
      OutcomeKeepsFresh(t.lists[k].cache, v, v, c, ch.id, ch.patch, ch.changed, ch.base);
      if Exact(k) && k !in t'.stale + pending {
        ReapplyAgrees(t.lists[k].cache, v, c, ch.id, ch.patch, ch.changed, ch.base);
      }
    }
  }

  // ----- the response

  /** The response of a write that stored what was asked for moves no membership dimension. */
  lemma ResponseMovesNothing(id: Id, intent: Patch, committed: Issue)
    requires Stored(id, intent, committed)
    ensures SuccessChange(id, intent, committed).changed == Dims(false, false, false)
  {
  }

  lemma ResponseOutcome(data: ListCache, c: Contract, id: Id, intent: Patch, committed: Issue)
    requires Stored(id, intent, committed)
    ensures var ch := SuccessChange(id, intent, committed);
      var o := Reconcile(data, c, id, ch.patch, ch.changed, ch.base);
      !o.stale && o.next == if FindIssueLocation(data, id).Some? then PatchIssueInBuckets(data, id, ch.patch) else data
  {
    ResponseMovesNothing(id, intent, committed);
  }

  lemma ResponseFlagsNothing(t: State, id: Id, intent: Patch, committed: Issue)
    requires Stored(id, intent, committed)
    ensures Flushed(t, SuccessChange(id, intent, committed)).stale == t.stale
  {
    forall k | k in t.lists && t.lists[k].Bucketed? {
      ResponseOutcome(t.lists[k].cache, ContractFromKey(k), id, intent, committed);
    }
  }

  lemma WithoutTheRow(data: ListCache, v: Server, id: Id, row: Issue)
    requires Fresh(data, v.(issues := v.issues[id := row])) && !Paginated(row.status)
    ensures Fresh(data, v)
  {
    forall s | Paginated(s) ensures FreshColumn(GetBucket(data, s).issues, s, v) {
      assert FreshColumn(GetBucket(data, s).issues, s, v.(issues := v.issues[id := row]));
    }
  }

  /** A card that is patched out of the paginated columns leaves the others as current as they were. */
  lemma PatchedAwayIsFresh(data: ListCache, v: Server, id: Id, row: Issue)
    requires Fresh(data, v) && FindIssueLocation(data, id).Some? && row.id == id && !Paginated(row.status)
    ensures Fresh(PatchIssueInBuckets(data, id, AsPatch(row)), v)
  {
    var from := FindIssueLocation(data, id).value.status;
    HasIdMember(GetBucket(data, from).issues, id);
    LoadedIn(data, v, id, from);
    var written := v.(issues := v.issues[id := row]);
    PatchKeepsFresh(data, v, written, id, AsPatch(row));
    WithoutTheRow(PatchIssueInBuckets(data, id, AsPatch(row)), v, id, row);
  }

  lemma UnseenIsHarmless(t: State, pending: set<ListKey>, v: Server, id: Id, intent: Patch, committed: Issue)
    requires Ahead(t, pending, v) && Stored(id, intent, committed) && !Seen(t, pending, id, committed)
    ensures Ahead(Flushed(t, SuccessChange(id, intent, committed)), pending, v)
  {
    var ch := SuccessChange(id, intent, committed);
    var t' := Flushed(t, ch);
    ResponseFlagsNothing(t, id, intent, committed);
    forall k | k in t'.lists && t'.lists[k].Bucketed?
      ensures Fresh(t'.lists[k].cache, v)
      ensures Exact(k) && k !in t'.stale + pending ==> Agrees(t'.lists[k].cache, ContractFromKey(k).filter, v)
    {
      ResponseOutcome(t.lists[k].cache, ContractFromKey(k), id, intent, committed);
      if Shows(t, k, id) { PatchedAwayIsFresh(t.lists[k].cache, v, id, committed); }
    }
  }

  /** A list that shows an outdated row after the response. */
  lemma OutdatedCard(data: ListCache, v: Server, id: Id, row: Issue)
    requires Fresh(data, v) && FindIssueLocation(data, id).Some? && row.id == id && Paginated(row.status)
    requires id in v.issues && v.issues[id] != row
    ensures !Fresh(PatchIssueInBuckets(data, id, AsPatch(row)), v)
  {
    PatchedCards(data, v, id, AsPatch(row), row.status);
    var from := FindIssueLocation(data, id).value.status;
    HasIdMember(GetBucket(data, from).issues, id);
    LoadedIn(data, v, id, from);
    assert Merge(v.issues[id], AsPatch(row)) == row;
  }

  /** A list that lost an outdated row it should still count. */
  lemma OutdatedTotal(data: ListCache, v: Server, f: Filter, id: Id, row: Issue)
    requires Agrees(data, f, v) && FindIssueLocation(data, id).Some? && row.id == id && !Paginated(row.status)
    ensures !Agrees(PatchIssueInBuckets(data, id, AsPatch(row)), f, v)
  {
    LoadedBelongs(data, v, f, id);
    CountedIsPositive(v, f, id);
    PatchedTotals(data, v, id, AsPatch(row), v.issues[id].status);
    assert Merge(v.issues[id], AsPatch(row)).status == row.status;
  }

  lemma SeenIsOutdated(t: State, pending: set<ListKey>, v: Server, id: Id, intent: Patch, committed: Issue)
    requires Ahead(t, pending, v) && Stored(id, intent, committed) && Seen(t, pending, id, committed)
    requires id in v.issues && v.issues[id].id == id && v.issues[id] != committed
    ensures !Ahead(Flushed(t, SuccessChange(id, intent, committed)), pending, v)
  {
    var ch := SuccessChange(id, intent, committed);
    var t' := Flushed(t, ch);
    ResponseFlagsNothing(t, id, intent, committed);
    if id in t.details {
      assert t'.details[id] == committed;
    } else {
      var k :| Shows(t, k, id) && (Paginated(committed.status) || (Exact(k) && k !in t.stale + pending));
      ResponseOutcome(t.lists[k].cache, ContractFromKey(k), id, intent, committed);
      assert t'.lists[k].Bucketed? && t'.lists[k].cache == PatchIssueInBuckets(t.lists[k].cache, id, ch.patch);
      if Paginated(committed.status) {
        OutdatedCard(t.lists[k].cache, v, id, committed);
      } else {
        OutdatedTotal(t.lists[k].cache, v, ContractFromKey(k).filter, id, committed);
      }
    }
  }

  /** The response keeps the cache in step exactly when it is timely. HTTP and WebSocket are not ordered against each
      other: once a newer write to the row was delivered, the response puts the older row back, unflagged. */
  lemma ResponseExactly(t: State, pending: set<ListKey>, v: Server, id: Id, intent: Patch, committed: Issue)
    requires Ahead(t, pending, v) && Stored(id, intent, committed)
    requires id in v.issues && v.issues[id].id == id && RealIds(v.issues[id])
    ensures Ahead(Flushed(t, SuccessChange(id, intent, committed)), pending, v) <==>
      Timely(t, pending, id, v, committed)
  {
    if v.issues[id] == committed {
      ReapplyKeepsAhead(t, pending, v, SuccessChange(id, intent, committed));
    } else if Seen(t, pending, id, committed) {
      SeenIsOutdated(t, pending, v, id, intent, committed);
    } else {
      UnseenIsHarmless(t, pending, v, id, intent, committed);
    }
  }

  // ----- the run

  /** Keys that are kept back do not change what an event or a fetch does. */
  lemma StaleIsOnlyAMark(t: State, more: set<ListKey>, step: Step)
    ensures var marked := t.(stale := t.stale + more);
      && Take(marked, step).(stale := {}) == Take(t, step).(stale := {})
      && Take(marked, step).stale <= Take(t, step).stale + more
  {
    if step.Updated? {
      var marked := t.(stale := t.stale + more);
      var ch := WsChange(t, step.id, step.patch, step.meta);
      assert WsChange(marked, step.id, step.patch, step.meta) == ch;
      assert StaleKeys(marked, ch) == StaleKeys(t, ch);
    }
  }

  lemma RemoteKeepsAhead(t: State, pending: set<ListKey>, v: Server, step: Step, v': Server)
    requires Ahead(t, pending, v) && StepOk(t, v, step, v')
    ensures Ahead(Take(t, step), pending, v')
  {
    var marked := t.(stale := t.stale + pending);
    if step.Updated? { assert CachedIssue(marked, step.id) == CachedIssue(t, step.id); }
    StepStaysInStep(marked, v, step, v');
    StaleIsOnlyAMark(t, pending, step);
    MoreStale(Take(marked, step), v', Take(t, step).stale + pending);
    var r := Take(t, step);
    assert Take(marked, step).stale + (r.stale + pending) == r.stale + pending;
    assert r.(stale := r.stale + pending) == Take(marked, step).(stale := r.stale + pending);
  }

  lemma LegKeepsAhead(t: State, pending: set<ListKey>, id: Id, intent: Patch, committed: Issue, v: Server, leg: Leg,
                      v': Server)
    requires id in v.issues && v.issues[id].id == id && RealIds(v.issues[id]) && Stored(id, intent, committed)
    requires Ahead(t, pending, v) && LegOk(t, id, v, committed, leg, v')
    ensures Ahead(TakeLeg(t, pending, id, intent, committed, leg), pending, v')
  {
    match leg
    case Success => ResponseExactly(t, pending, v, id, intent, committed);
    case Echo(patch, meta) =>
      CachedIsFresh(t.(stale := t.stale + pending), v, id);
      assert CachedIssue(t.(stale := t.stale + pending), id) == CachedIssue(t, id);
      ReapplyKeepsAhead(t, pending, v, WsChange(t, id, patch, meta));
    case Settled => MoreStale(t.(stale := t.stale + pending), v, pending);
    case Remote(step) => RemoteKeepsAhead(t, pending, v, step, v');
  }

  /** The states and servers of a run of legs after the optimistic write. The issue stays on the server. */
  ghost predicate LegRun(states: seq<State>, servers: seq<Server>, legs: seq<Leg>, pending: set<ListKey>,
                         id: Id, intent: Patch, committed: Issue)
  {
    && |states| == |servers| == |legs| + 1 && Stored(id, intent, committed)
    && (forall n :: 0 <= n < |servers| ==>
          id in servers[n].issues && servers[n].issues[id].id == id && RealIds(servers[n].issues[id]))
    && (forall n :: 0 <= n < |legs| ==>
          states[n + 1] == TakeLeg(states[n], pending, id, intent, committed, legs[n])
          && LegOk(states[n], id, servers[n], committed, legs[n], servers[n + 1]))
  }

  lemma {:induction false} RunIsAhead(states: seq<State>, servers: seq<Server>, legs: seq<Leg>, pending: set<ListKey>,
                                      id: Id, intent: Patch, committed: Issue, n: nat)
    requires LegRun(states, servers, legs, pending, id, intent, committed) && n <= |legs|
    requires Ahead(states[0], pending, servers[0])
    ensures Ahead(states[n], pending, servers[n])
  {
    if n > 0 {
      RunIsAhead(states, servers, legs, pending, id, intent, committed, n - 1);
      LegKeepsAhead(states[n - 1], pending, id, intent, committed, servers[n - 1], legs[n - 1], servers[n]);
    }
  }

  /** From the settling on, nothing is kept back any more. */
  lemma {:induction false} SettledStaysInStep(states: seq<State>, servers: seq<Server>, legs: seq<Leg>,
                                              pending: set<ListKey>,
                                              id: Id, intent: Patch, committed: Issue, settled: nat, n: nat)
    requires LegRun(states, servers, legs, pending, id, intent, committed) && settled < n <= |legs|
    requires Ahead(states[0], pending, servers[0]) && legs[settled].Settled?
    ensures InStep(states[n], servers[n])
  {
    if n == settled + 1 {
      RunIsAhead(states, servers, legs, pending, id, intent, committed, settled);
    } else {
      SettledStaysInStep(states, servers, legs, pending, id, intent, committed, settled, n - 1);
      var t, v := states[n - 1], servers[n - 1];
      NothingKeptBack(t);
      if legs[n - 1].Settled? {
        MoreStale(t, v, pending);
      } else {
        LegKeepsAhead(t, {}, id, intent, committed, v, legs[n - 1], servers[n]);
        assert TakeLeg(t, {}, id, intent, committed, legs[n - 1]) == states[n];
        NothingKeptBack(states[n]);
      }
    }
  }

  lemma NothingKeptBack(t: State)
    ensures t.(stale := t.stale + {}) == t
  {
    assert t.stale + {} == t.stale;
  }

  /** An update that succeeds: whatever the order and number of the timely response, the echoes of its event, the
      settling flush, other events, refetches and loaded pages, once it has settled the cache is in step. */
  lemma OwnWriteSettles(s: State, w: Server, id: Id, patch: Patch, committed: Issue,
                        states: seq<State>, servers: seq<Server>, legs: seq<Leg>, settled: nat)
    requires InStep(s, w)
    requires LegRun(states, servers, legs, StaleKeys(s, ChangeFor(s, id, patch)), id, patch, committed)
    requires OwnWrite(w, servers[0], id, patch)
    requires states[0] == Apply(s, ChangeFor(s, id, patch)).(children := states[0].children)
    requires settled < |legs| && legs[settled].Settled?
    ensures InStep(states[|legs|], servers[|legs|])
  {
    OptimisticIsAhead(s, w, servers[0], id, patch);
    SettledStaysInStep(states, servers, legs, StaleKeys(s, ChangeFor(s, id, patch)), id, patch, committed, settled,
      |legs|);
  }

  /** And a response that comes after the settling flush, as it may, leaves the cache in step exactly when no newer
      write to a row it sees was delivered before. */
  lemma ResponseSettlesExactly(s: State, w: Server, id: Id, patch: Patch, committed: Issue,
                               states: seq<State>, servers: seq<Server>, legs: seq<Leg>, settled: nat)
    requires InStep(s, w)
    requires LegRun(states, servers, legs, StaleKeys(s, ChangeFor(s, id, patch)), id, patch, committed)
    requires OwnWrite(w, servers[0], id, patch)
    requires states[0] == Apply(s, ChangeFor(s, id, patch)).(children := states[0].children)
    requires settled < |legs| && legs[settled].Settled?
    ensures var t, v := states[|legs|], servers[|legs|];
      InStep(TakeLeg(t, {}, id, patch, committed, Success), v) <==> Timely(t, {}, id, v, committed)
  {
    OwnWriteSettles(s, w, id, patch, committed, states, servers, legs, settled);
    var t, v := states[|legs|], servers[|legs|];
    NothingKeptBack(t);
    NothingKeptBack(TakeLeg(t, {}, id, patch, committed, Success));
    ResponseExactly(t, {}, v, id, patch, committed);
  }

  // ----- a server that writes something else

  /** When the server stores other values than the ones asked for, the reconcile of the response leaves every list
      that does not hold the row as it is, unflagged if the filter is decidable. Such a list is right afterwards
      exactly when the row counts in the same column, or not at all, under both values. */
  lemma CoercedWriteExactly(data: ListCache, v: Server, v': Server, c: Contract, id: Id, intent: Patch,
                            serverIssue: Issue)
    requires Agrees(data, c.filter, v) && FindIssueLocation(data, id).None?
    requires id in v.issues && v'.issues == v.issues[id := serverIssue] && v'.involves == v.involves
    requires Listed(v.issues[id]) && Listed(serverIssue)
    requires c.scope != Some("all") && c.filter.involvesUserId.None?
    ensures var ch := SuccessChange(id, intent, serverIssue);
      var o := Reconcile(data, c, id, ch.patch, ch.changed, ch.base);
      && o == Outcome(data, false, false)
      && (Agrees(o.next, c.filter, v') <==>
            if Counted(v.issues[id], c.filter, v.involves)
            then Counted(serverIssue, c.filter, v.involves) && v.issues[id].status == serverIssue.status
            else !Counted(serverIssue, c.filter, v.involves))
  {
    UnjudgedExactly(data, v, v', c.filter, id, serverIssue);
    DecidableVerdict(serverIssue, c);
    assert Merge(serverIssue, AsPatch(serverIssue)) == serverIssue;
  }

  lemma DecidableVerdict(i: Issue, c: Contract)
    requires c.scope != Some("all") && c.filter.involvesUserId.None?
    ensures IssueMatchesListFilter(AsPatch(i), c) != Unknown
  {
  }
}
