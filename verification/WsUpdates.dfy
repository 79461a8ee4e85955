/** The remote leg: `issue:updated` events fed through the coordinator, and whole runs of them. */
module WsUpdates {
  import opened IssueModel
  import opened CacheHelpers
  import opened Membership
  import opened Agreement
  import opened RulesTable
  import opened Coordinator

  /** The flags of one event; `None` is a flag an older backend does not send. */
  datatype Meta = Meta(assigneeChanged: Option<bool>, statusChanged: Option<bool>, projectChanged: Option<bool>)

  function FirstBoard(order: seq<ListKey>): Option<ListKey>
  {
    if order == [] then None else if order[0].Board? then Some(order[0]) else FirstBoard(order[1..])
  }

  /** The cached entity an event is compared with: the detail, else the card in the first board list. */
  function CachedIssue(s: State, id: Id): Option<Issue>
  {
    if id in s.details then Some(s.details[id]) else
      var k := FirstBoard(s.order);
      if k.None? || k.value !in s.lists then None else CardIn(s.lists[k.value], id)
  }

  /** The detail when there is one; else the card of the first board that is loaded, when that board shows it. */
  lemma CachedIssueIs(s: State, id: Id, n: nat)
    requires n < |s.order| && s.order[n].Board? && forall m :: 0 <= m < n ==> !s.order[m].Board?
    ensures id in s.details ==> CachedIssue(s, id) == Some(s.details[id])
    ensures id !in s.details && s.order[n] in s.lists ==> CachedIssue(s, id) == CardIn(s.lists[s.order[n]], id)
  {
    FirstBoardIs(s.order, n);
  }

  lemma {:induction false} FirstBoardIs(order: seq<ListKey>, n: nat)
    requires n < |order| && order[n].Board? && forall m :: 0 <= m < n ==> !order[m].Board?
    ensures FirstBoard(order) == Some(order[n])
  {
    if n > 0 { FirstBoardIs(order[1..], n - 1); }
  }

  function WsDims(cached: Option<Issue>, patch: Patch, meta: Meta): Dims
  {
    Dims(
      if meta.assigneeChanged.Some? then meta.assigneeChanged.value else
        cached.Some? && ((patch.assigneeId.Some? && patch.assigneeId.value != cached.value.assigneeId) ||
                         (patch.assigneeType.Some? && patch.assigneeType.value != cached.value.assigneeType)),
      if meta.projectChanged.Some? then meta.projectChanged.value else
        patch.projectId.Some? && patch.projectId.value != (if cached.Some? then cached.value.projectId else None),
      if meta.statusChanged.Some? then meta.statusChanged.value else
        cached.Some? && patch.status.Some? && patch.status.value != cached.value.status)
  }

  function WsChange(s: State, id: Id, patch: Patch, meta: Meta): Change
  {
    var cached := CachedIssue(s, id);
    Change(id, patch, WsDims(cached, patch, meta), cached)
  }

  /** The coordinator pass of one event and the immediate flush of its stale keys. */
  function Deliver(s: State, id: Id, patch: Patch, meta: Meta): State
  {
    var ch := WsChange(s, id, patch, meta);
    Apply(s, ch).(stale := s.stale + StaleKeys(s, ch))
  }

  method OnIssueUpdated(qc: QueryClient, id: Id, patch: Patch, meta: Meta)
    requires qc.Valid()
    modifies qc
    ensures qc.Valid()
    ensures qc.Now() == Deliver(old(qc.Now()), id, patch, meta)
  {
    var cached := Lookup(qc.details, id);
    var first := FirstBoard(qc.order);
    if cached.None? && first.Some? && first.value in qc.lists {
      cached := CardIn(qc.lists[first.value], id);
    }
    var change := qc.ApplyIssueChange(id, patch, WsDims(cached, patch, meta), cached);
    qc.InvalidateStaleListKeys(change.staleKeys);
  }

  // ----- what one delivery keeps

  /** Lists whose totals the server defines: not the client-side union of my:all, and every filter field sent. */
  predicate Defined(k: ListKey)
  {
    var c := ContractFromKey(k);
    c.scope != Some("all") && !HasEmptyPart(c.filter)
  }

  /** Of those, the lists whose whole query the coordinator reads: no date range. */
  predicate Exact(k: ListKey) { Defined(k) && k.sort.range.None? }

  /** The list under this key agrees with the server: with the rows of its date range. */
  ghost predicate KeyAgrees(k: ListKey, data: ListCache, w: Server)
  {
    Agrees(data, ContractFromKey(k).filter, InRange(w, k.sort.range))
  }

  /** Without a date range a list sees the whole server. */
  lemma NoRange(w: Server)
    ensures InRange(w, None) == w
  {
    assert InRange(w, None).issues == w.issues;
  }

  /** Cached entities are current, and every exact list agrees with the server or is waiting for a refetch. Lists with a
      date range have a theory of their own in DateRanges. */
  ghost predicate InStep(s: State, w: Server)
  {
    && (forall id :: id in s.details ==> id in w.issues && w.issues[id] == s.details[id])
    && (forall k :: k in s.lists && s.lists[k].Bucketed? ==> Fresh(s.lists[k].cache, w))
    && (forall k :: k in s.lists && s.lists[k].Bucketed? && Exact(k) && k !in s.stale ==>
          Agrees(s.lists[k].cache, ContractFromKey(k).filter, w))
  }

  /** A flag that is sent never hides a move. */
  ghost predicate Truthful(meta: Meta, before: Issue, after: Issue)
  {
    && (meta.assigneeChanged == Some(false) ==>
      before.assigneeId == after.assigneeId && before.assigneeType == after.assigneeType)
    && (meta.projectChanged == Some(false) ==> before.projectId == after.projectId)
    && (meta.statusChanged == Some(false) ==> before.status == after.status)
  }

  /** A flag that is not sent belongs to a dimension that did not move. */
  predicate MovesAreFlagged(meta: Meta, before: Issue, after: Issue)
  {
    && (meta.assigneeChanged.None? ==>
      before.assigneeId == after.assigneeId && before.assigneeType == after.assigneeType)
    && (meta.projectChanged.None? ==> before.projectId == after.projectId)
    && (meta.statusChanged.None? ==> before.status == after.status)
  }

  /** A write leaves the times of the other rows alone, and never the time its row was created. */
  ghost predicate Timed(w: Server, w': Server, id: Id)
  {
    w'.stamps(id).createdAt == w.stamps(id).createdAt && forall k :: k != id ==> w'.stamps(k) == w.stamps(k)
  }

  /** One committed write to a work item that keeps its creator, with truthful flags. */
  ghost predicate Event(w: Server, w': Server, id: Id, patch: Patch, meta: Meta)
  {
    && id in w.issues && Timed(w, w', id)
    && var before := w.issues[id];
       var after := Merge(before, patch);
    && w'.issues == w.issues[id := after] && w'.involves == w.involves
    && RealIds(before) && RealIds(after) && before.creatorId == after.creatorId
    && Listed(before) && Listed(after)
    && Truthful(meta, before, after)
  }

  lemma CardIsFresh(cache: ListCache, w: Server, id: Id)
    requires Fresh(cache, w)
    ensures var c := CardIn(Bucketed(cache), id); c.Some? ==> id in w.issues && w.issues[id] == c.value
  {
    var loc := FindIssueLocation(cache, id);
    if loc.Some? {
      HasIdMember(GetBucket(cache, loc.value.status).issues, id);
      LoadedIn(cache, w, id, loc.value.status);
    }
  }

  lemma CachedIsFresh(s: State, w: Server, id: Id)
    requires InStep(s, w)
    ensures var c := CachedIssue(s, id); c.Some? ==> id in w.issues && w.issues[id] == c.value
  {
    var k := FirstBoard(s.order);
    if k.Some? && k.value in s.lists && s.lists[k.value].Bucketed? { CardIsFresh(s.lists[k.value].cache, w, id); }
  }

  /** Truthful flags cover every membership dimension that moved, as long as a flag is missing only where nothing
      moved or where a cached copy is there to diff against. */
  lemma WsDimsCover(cached: Option<Issue>, before: Issue, patch: Patch, meta: Meta)
    requires Truthful(meta, before, Merge(before, patch))
    requires cached.Some? ==> cached.value == before
    requires cached.Some? || MovesAreFlagged(meta, before, Merge(before, patch))
    ensures Covers(WsDims(cached, patch, meta), before, Merge(before, patch))
  {
  }

  lemma OutcomeKeepsFresh(data: ListCache, w: Server, w': Server, c: Contract, id: Id, patch: Patch, changed: Dims,
                          base: Option<Issue>)
    requires Fresh(data, w) && id in w.issues && w'.issues == w.issues[id := Merge(w.issues[id], patch)]
    ensures Fresh(Reconcile(data, c, id, patch, changed, base).next, w')
  {
    OutcomeShape(data, c, id, patch, changed, base);
    if FindIssueLocation(data, id).None? {
      AbsentKeepsFresh(data, Reconcile(data, c, id, patch, changed, base).next, w, w', id);
    } else if Removed(data, c, id, patch, changed) {
      RemoveKeepsFresh(data, w, w', id);
    } else {
      PatchKeepsFresh(data, w, w', id, patch);
    }
  }

  lemma EntryStaysInStep(s: State, w: Server, w': Server, ch: Change, k: ListKey)
    requires k in s.lists && s.lists[k].Bucketed? && Fresh(s.lists[k].cache, w)
    requires Exact(k) && k !in s.stale ==> Agrees(s.lists[k].cache, ContractFromKey(k).filter, w)
    requires ch.id in w.issues && w'.issues == w.issues[ch.id := Merge(w.issues[ch.id], ch.patch)]
    requires Listed(w.issues[ch.id]) && Listed(Merge(w.issues[ch.id], ch.patch))
    requires Exact(k) ==> Write(w, w', ContractFromKey(k), ch.id, ch.patch, ch.changed, ch.base)
    ensures var next := ApplyToEntry(k, s.lists[k], ch);
      && next.Bucketed? && Fresh(next.cache, w')
      && (Exact(k) && k !in s.stale + StaleKeys(s, ch) ==> Agrees(next.cache, ContractFromKey(k).filter, w'))
  {
    var data := s.lists[k].cache;
    var c := ContractFromKey(k);
    OutcomeKeepsFresh(data, w, w', c, ch.id, ch.patch, ch.changed, ch.base);
    if Exact(k) && k !in s.stale && !IsStale(s, ch, k) {
      AgreeOrStale(data, w, w', c, ch.id, ch.patch, ch.changed, ch.base);
    }
  }

  /** Delivering an event in order keeps the whole cache in step with the server. */
  lemma DeliveryStaysInStep(s: State, w: Server, w': Server, id: Id, patch: Patch, meta: Meta)
    requires InStep(s, w) && Event(w, w', id, patch, meta)
    requires CachedIssue(s, id).Some? || MovesAreFlagged(meta, w.issues[id], Merge(w.issues[id], patch))
    ensures InStep(Deliver(s, id, patch, meta), w')
  {
    var ch := WsChange(s, id, patch, meta);
    var s' := Deliver(s, id, patch, meta);
    CachedIsFresh(s, w, id);
    WsDimsCover(ch.base, w.issues[id], patch, meta);
    forall k | k in s'.lists && s'.lists[k].Bucketed?
      ensures Fresh(s'.lists[k].cache, w')
      ensures Exact(k) && k !in s'.stale ==> Agrees(s'.lists[k].cache, ContractFromKey(k).filter, w')
    {
      EntryStaysInStep(s, w, w', ch, k);
    }
  }

  /** Which lists one delivery flags: of the lists in step whose filter the client can decide, exactly those that do
      not show the row while it arrives in them or changes its column. */
  lemma DeliveryFlagsExactly(s: State, w: Server, w': Server, id: Id, patch: Patch, meta: Meta, k: ListKey)
    requires InStep(s, w) && Event(w, w', id, patch, meta) && CachedIssue(s, id).Some?
    requires k in s.lists && s.lists[k].Bucketed? && Exact(k) && k !in s.stale
    requires ContractFromKey(k).filter.involvesUserId.None?
    ensures k in Deliver(s, id, patch, meta).stale <==>
      && FindIssueLocation(s.lists[k].cache, id).None?
      && ArrivesOrMoves(w, ContractFromKey(k).filter, w.issues[id], w'.issues[id])
  {
    var ch := WsChange(s, id, patch, meta);
    CachedIsFresh(s, w, id);
    WsDimsCover(ch.base, w.issues[id], patch, meta);
    FlaggedExactly(s.lists[k].cache, w, w', ContractFromKey(k), id, patch, ch.changed, ch.base);
  }

  // ----- runs

  /** What a run is made of. A refetch or a loaded page brings rows and totals of the server as it is. */
  datatype Step =
    | Updated(id: Id, patch: Patch, meta: Meta)
    | Refetched(key: ListKey, cache: ListCache)
    | PageLoaded(key: ListKey, status: Status, page: seq<Issue>, total: int)

  function NewRows(have: seq<Issue>, page: seq<Issue>): seq<Issue>
  {
    if page == [] then [] else
      NewRows(have, page[..|page| - 1]) +
      (if HasId(have, page[|page| - 1].id) then [] else [page[|page| - 1]])
  }

  /** Append the rows of a page that are not loaded yet and take the server's total. */
  function AppendPage(data: ListCache, status: Status, page: seq<Issue>, total: int): ListCache
  {
    var b := GetBucket(data, status);
    data[status := Bucket(b.issues + NewRows(b.issues, page), total)]
  }

  function Take(s: State, step: Step): State
  {
    match step
    case Updated(id, patch, meta) => Deliver(s, id, patch, meta)
    case Refetched(key, cache) =>
      if key in s.lists && s.lists[key].Bucketed?
        then s.(lists := s.lists[key := Bucketed(cache)], stale := s.stale - {key}) else s
    case PageLoaded(key, status, page, total) =>
      if key in s.lists && s.lists[key].Bucketed?
      then s.(lists := s.lists[key := Bucketed(AppendPage(s.lists[key].cache, status, page, total))]) else s
  }

  /** A fetched page: distinct current members of one paginated column, in the date range of the key. */
  ghost predicate PageOk(key: ListKey, status: Status, page: seq<Issue>, total: int, w: Server)
  {
    && Paginated(status) && FreshColumn(page, status, w)
    && (Defined(key) ==> PageAgrees(ContractFromKey(key).filter, status, page, total, InRange(w, key.sort.range)))
  }

  ghost predicate PageAgrees(f: Filter, status: Status, page: seq<Issue>, total: int, w: Server)
  {
    && FreshColumn(page, status, w) && total == Count(w, f, status)
    && forall c :: c in page ==> Belongs(c, f, w.involves)
  }

  ghost predicate StepOk(s: State, w: Server, step: Step, w': Server)
  {
    match step
    case Updated(id, patch, meta) =>
      Event(w, w', id, patch, meta) && (CachedIssue(s, id).Some? || MovesAreFlagged(meta, w.issues[id], w'.issues[id]))
    case Refetched(key, cache) =>
      w' == w && Fresh(cache, w) && (Defined(key) ==> KeyAgrees(key, cache, w))
    case PageLoaded(key, status, page, total) => w' == w && PageOk(key, status, page, total, w)
  }

  ghost predicate Run(states: seq<State>, servers: seq<Server>, steps: seq<Step>)
  {
    && |states| == |servers| == |steps| + 1
    && forall n :: 0 <= n < |steps| ==>
         states[n + 1] == Take(states[n], steps[n]) && StepOk(states[n], servers[n], steps[n], servers[n + 1])
  }

  lemma {:induction false} NewRowsAreNew(have: seq<Issue>, page: seq<Issue>, s: Status, w: Server)
    requires FreshColumn(have, s, w) && FreshColumn(page, s, w)
    ensures FreshColumn(have + NewRows(have, page), s, w)
    ensures forall c :: c in NewRows(have, page) ==> c in page
  {
    if page != [] {
      var init, last := page[..|page| - 1], page[|page| - 1];
      assert page == init + [last];
      assert FreshColumn(init, s, w);
      NewRowsAreNew(have, init, s, w);
      var before := have + NewRows(have, init);
      if HasId(have, last.id) { assert have + NewRows(have, page) == before; }
      if !HasId(have, last.id) {
        assert have + NewRows(have, page) == before + [last];
        forall i | 0 <= i < |before| ensures before[i].id != last.id {
          if i >= |have| {
            assert NewRows(have, init)[i - |have|] in init;
            var j :| 0 <= j < |init| && init[j] == before[i];
            assert page[j] == init[j];
          }
        }
      }
    }
  }

  /** Where a page row is new. */
  predicate IsNew(have: seq<Issue>, row: Issue) { !HasId(have, row.id) }

  /** Loading a page keeps the loaded cards in front and adds behind them exactly the page's new rows, in the page's
      order; the total is the page's, and the other columns stay. */
  lemma PageExtends(data: ListCache, status: Status, page: seq<Issue>, total: int)
    ensures var was, now := GetBucket(data, status), GetBucket(AppendPage(data, status, page, total), status);
      && |was.issues| <= |now.issues| && now.issues[..|was.issues|] == was.issues && now.total == total
      && (forall id :: HasId(now.issues, id) <==> HasId(was.issues, id) || HasId(page, id))
      && (forall c :: c in now.issues[|was.issues|..] <==> c in page && IsNew(was.issues, c))
      && (forall s :: s != status ==>
            GetBucket(AppendPage(data, status, page, total), s) == GetBucket(data, s))
  {
    var have := GetBucket(data, status).issues;
    NewRowsAre(have, page);
    var now := have + NewRows(have, page);
    assert now[|have|..] == NewRows(have, page);
    forall id ensures HasId(now, id) <==> HasId(have, id) || HasId(page, id) {
      HasIdMember(now, id);
      HasIdMember(have, id);
      HasIdMember(page, id);
    }
  }

  lemma {:induction false} NewRowsAre(have: seq<Issue>, page: seq<Issue>)
    ensures forall c :: c in NewRows(have, page) <==> c in page && IsNew(have, c)
  {
    if page != [] {
      NewRowsAre(have, page[..|page| - 1]);
      assert page == page[..|page| - 1] + [page[|page| - 1]];
    }
  }

  /** Pages of one list fit together, even when the page overlaps what is loaded: from the first `n` rows to the first
      `m`. */
  lemma PagesFit(data: ListCache, status: Status, list: seq<Issue>, from: nat, n: nat, m: nat, total: int)
    requires DistinctIds(list) && from <= n <= m <= |list| && GetBucket(data, status).issues == list[..n]
    ensures GetBucket(AppendPage(data, status, list[from..m], total), status).issues == list[..m]
  {
    NewRowsOfSlice(list, from, n, m);
    assert list[..n] + list[n..m] == list[..m];
  }

  lemma {:induction false} NewRowsOfSlice(list: seq<Issue>, from: nat, n: nat, m: nat)
    requires DistinctIds(list) && from <= n <= |list| && from <= m <= |list|
    ensures NewRows(list[..n], list[from..m]) == if n <= m then list[n..m] else []
    decreases m
  {
    hide NewRows, DistinctIds, HasId;
    if from == m {
      NoNewRows(list[..n]);
      assert list[from..m] == [];
    } else {
      NewRowsOfSlice(list, from, n, m - 1);
      OneMoreRow(list, from, n, m);
      SliceHolds(list, n, m - 1);
      if n < m {
        assert list[n..m] == list[n..m - 1] + [list[m - 1]];
      } else {
        assert n == m ==> list[n..m] == [];
      }
    }
  }

  lemma NoNewRows(have: seq<Issue>)
    ensures NewRows(have, []) == []
  {
  }

  lemma OneMoreRow(list: seq<Issue>, from: nat, n: nat, m: nat)
    requires n <= |list| && from < m <= |list|
    ensures NewRows(list[..n], list[from..m]) ==
      NewRows(list[..n], list[from..m - 1]) + (if HasId(list[..n], list[m - 1].id) then [] else [list[m - 1]])
  {
    hide HasId, NewRows;
    assert list[from..m] == list[from..m - 1] + [list[m - 1]];
    NewRowsSnoc(list[..n], list[from..m - 1], list[m - 1]);
  }

  lemma NewRowsSnoc(have: seq<Issue>, page: seq<Issue>, row: Issue)
    ensures NewRows(have, page + [row]) == NewRows(have, page) + (if HasId(have, row.id) then [] else [row])
  {
    assert (page + [row])[..|page|] == page;
  }

  lemma SliceHolds(list: seq<Issue>, n: nat, k: nat)
    requires DistinctIds(list) && n <= |list| && k < |list|
    ensures HasId(list[..n], list[k].id) <==> k < n
  {
    if k < n { assert list[..n][k] == list[k]; }
  }

  lemma PageKeepsFresh(data: ListCache, status: Status, page: seq<Issue>, total: int, w: Server)
    requires Fresh(data, w) && Paginated(status) && FreshColumn(page, status, w)
    ensures Fresh(AppendPage(data, status, page, total), w)
  {
    NewRowsAreNew(GetBucket(data, status).issues, page, status, w);
    forall s | Paginated(s) ensures FreshColumn(GetBucket(AppendPage(data, status, page, total), s).issues, s, w) {
      assert FreshColumn(GetBucket(data, s).issues, s, w);
    }
  }

  lemma PageKeepsAgreement(data: ListCache, f: Filter, status: Status, page: seq<Issue>, total: int, w: Server)
    requires Agrees(data, f, w) && Paginated(status) && PageAgrees(f, status, page, total, w)
    ensures Agrees(AppendPage(data, status, page, total), f, w)
  {
    var next := AppendPage(data, status, page, total);
    PageKeepsFresh(data, status, page, total, w);
    NewRowsAreNew(GetBucket(data, status).issues, page, status, w);
    forall s, c | Paginated(s) && c in GetBucket(next, s).issues ensures Belongs(c, f, w.involves) {
      assert c in GetBucket(data, s).issues || c in page;
    }
  }

  /** One more page keeps a list current, and in agreement with the server in its date range. */
  lemma PageKeepsList(data: ListCache, key: ListKey, status: Status, page: seq<Issue>, total: int, w: Server)
    requires Fresh(data, w) && PageOk(key, status, page, total, w)
    ensures var next := AppendPage(data, status, page, total);
      Fresh(next, w) && (Defined(key) && KeyAgrees(key, data, w) ==> KeyAgrees(key, next, w))
  {
    PageKeepsFresh(data, status, page, total, w);
    if Defined(key) && KeyAgrees(key, data, w) {
      PageKeepsAgreement(data, ContractFromKey(key).filter, status, page, total, InRange(w, key.sort.range));
    }
  }

  /** A refetch ends the waiting of the list it loads, and of no other. */
  lemma RefetchSettles(s: State, key: ListKey, cache: ListCache)
    requires key in s.lists && s.lists[key].Bucketed?
    ensures var r := Take(s, Refetched(key, cache));
      && r.lists[key] == Bucketed(cache) && r.stale == s.stale - {key}
      && forall k :: k != key ==> (k in r.lists <==> k in s.lists) && (k in s.lists ==> r.lists[k] == s.lists[k])
  {
  }

  lemma StepStaysInStep(s: State, w: Server, step: Step, w': Server)
    requires InStep(s, w) && StepOk(s, w, step, w')
    ensures InStep(Take(s, step), w')
  {
    NoRange(w);
    match step
    case Updated(id, patch, meta) => DeliveryStaysInStep(s, w, w', id, patch, meta);
    case Refetched(key, cache) =>
    case PageLoaded(key, status, page, total) =>
      if key in s.lists && s.lists[key].Bucketed? {
        PageKeepsList(s.lists[key].cache, key, status, page, total, w);
      }
  }

  /** Over any run of in-order events, refetches and loaded pages the cache stays in step; whenever nothing
      waits for a refetch, every exact list agrees with the server. */
  lemma {:induction false} RunStaysInStep(states: seq<State>, servers: seq<Server>, steps: seq<Step>)
    requires Run(states, servers, steps) && InStep(states[0], servers[0])
    ensures InStep(states[|steps|], servers[|steps|])
    ensures states[|steps|].stale == {} ==>
      forall k :: k in states[|steps|].lists && states[|steps|].lists[k].Bucketed? && Exact(k) ==>
        Agrees(states[|steps|].lists[k].cache, ContractFromKey(k).filter, servers[|steps|])
    decreases |steps|
  {
    if steps != [] {
      var n := |steps| - 1;
      RunStaysInStep(states[..n + 1], servers[..n + 1], steps[..n]);
      StepStaysInStep(states[n], servers[n], steps[n], servers[n + 1]);
    }
  }
}
