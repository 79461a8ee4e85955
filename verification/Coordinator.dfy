/** The query cache of one workspace and the coordinator that writes an issue change through it. */
module Coordinator {
  import opened IssueModel
  import opened CacheHelpers
  import opened Membership
  import opened RulesTable

  /** The last segment of a list key. The date range travels with the order, but it belongs to the query. */
  datatype Sort = Sort(order: string, range: Option<DateRange>)

  datatype ListKey =
    | Board(sort: Sort)
    | My(scope: string, filter: Filter, sort: Sort)
    | MyGroups(scope: string, sort: Sort)

  /** Grouped boards live under the same key prefix but have no status buckets. */
  datatype Cached = Bucketed(cache: ListCache) | Grouped

  datatype InboxRow = InboxRow(id: Id, issueId: Option<Id>, issueStatus: Option<Status>)

  /** What the coordinator reads off a key: scope and filter, but not the date range. */
  function ContractFromKey(k: ListKey): Contract
  {
    match k
    case Board(_) => Contract(None, NO_FILTER)
    case My(scope, filter, _) => Contract(Some(scope), filter)
    case MyGroups(scope, _) => Contract(Some("assignee-groups"), NO_FILTER)
  }

  /** A value of the whole cache; `order` is the insertion order of the list entries. */
  datatype State = State(
    order: seq<ListKey>,
    lists: map<ListKey, Cached>,
    details: map<Id, Issue>,
    inbox: Option<seq<InboxRow>>,
    children: map<Id, seq<Issue>>,
    stale: set<ListKey>)

  function Lookup<K, V>(m: map<K, V>, k: K): Option<V> { if k in m then Some(m[k]) else None }

  // ----- the coordinator as a function on states

  datatype Change = Change(id: Id, patch: Patch, changed: Dims, base: Option<Issue>)

  function OutcomeFor(k: ListKey, data: ListCache, ch: Change): Outcome
  {
    Reconcile(data, ContractFromKey(k), ch.id, ch.patch, ch.changed, ch.base)
  }

  function ApplyToEntry(k: ListKey, entry: Cached, ch: Change): Cached
  {
    if entry.Bucketed? then Bucketed(OutcomeFor(k, entry.cache, ch).next) else entry
  }

  function PatchInboxIssueStatus(rows: seq<InboxRow>, id: Id, status: Status): seq<InboxRow>
  {
    seq(|rows|, i requires 0 <= i < |rows| =>
      if rows[i].issueId == Some(id) then rows[i].(issueStatus := Some(status)) else rows[i])
  }

  function InboxAfter(inbox: Option<seq<InboxRow>>, ch: Change): Option<seq<InboxRow>>
  {
    if inbox.Some? && ch.patch.status.Some? then Some(PatchInboxIssueStatus(inbox.value, ch.id, ch.patch.status.value))
    else inbox
  }

  function Apply(s: State, ch: Change): State
  {
    s.(lists := map k | k in s.lists :: ApplyToEntry(k, s.lists[k], ch),
       details := if ch.id in s.details then s.details[ch.id := Merge(s.details[ch.id], ch.patch)] else s.details,
       inbox := InboxAfter(s.inbox, ch))
  }

  predicate IsTouched(s: State, ch: Change, k: ListKey)
  {
    k in s.lists && s.lists[k].Bucketed? && OutcomeFor(k, s.lists[k].cache, ch).touched
  }

  predicate IsStale(s: State, ch: Change, k: ListKey)
  {
    k in s.lists && s.lists[k].Bucketed? && OutcomeFor(k, s.lists[k].cache, ch).stale
  }

  /** The snapshots one change takes: every rewritten list as it was. */
  function Snapshots(s: State, ch: Change): map<ListKey, ListCache>
  {
    map k | k in s.lists && IsTouched(s, ch, k) :: s.lists[k].cache
  }

  function StaleKeys(s: State, ch: Change): set<ListKey>
  {
    set k | k in s.lists && IsStale(s, ch, k)
  }

  function AsEntries(prev: map<ListKey, ListCache>): map<ListKey, Cached>
  {
    map k | k in prev :: Bucketed(prev[k])
  }

  function Rollback(s: State, id: Id, prevLists: map<ListKey, ListCache>, prevDetail: Option<Issue>,
                    prevInbox: Option<seq<InboxRow>>): State
  {
    s.(lists := s.lists + AsEntries(prevLists),
       details := if prevDetail.Some? then s.details[id := prevDetail.value] else s.details,
       inbox := if prevInbox.Some? then prevInbox else s.inbox)
  }

  function PrevInbox(s: State, ch: Change): Option<seq<InboxRow>>
  {
    if ch.patch.status.Some? then s.inbox else None
  }

  /** A list that was not rewritten reads as before. */
  lemma UntouchedIsUnchanged(s: State, ch: Change, k: ListKey)
    requires k in s.lists && !IsTouched(s, ch, k)
    ensures Apply(s, ch).lists[k] == s.lists[k]
  {
  }

  /** Undoing a change restores every list, the detail and the inbox to what they were. */
  lemma RollbackRestores(s: State, ch: Change)
    ensures Rollback(Apply(s, ch), ch.id, Snapshots(s, ch), Lookup(s.details, ch.id), PrevInbox(s, ch)) == s
  {
    hide OutcomeFor, PatchInboxIssueStatus, Merge;
    var back := Rollback(Apply(s, ch), ch.id, Snapshots(s, ch), Lookup(s.details, ch.id), PrevInbox(s, ch));
    forall k | k in s.lists ensures back.lists[k] == s.lists[k] {
      if !IsTouched(s, ch, k) { UntouchedIsUnchanged(s, ch, k); }
    }
    assert back.lists == s.lists;
  }

  /** In the inbox exactly the rows of the changed issue take its status, at their places, and only when the patch
      carries one. */
  lemma InboxFollowsStatus(s: State, ch: Change)
    ensures Apply(s, ch).inbox.Some? <==> s.inbox.Some?
    ensures PrevInbox(s, ch) == if ch.patch.status.Some? then s.inbox else None
    ensures s.inbox.Some? ==>
      var was, now := s.inbox.value, Apply(s, ch).inbox.value;
      && |now| == |was|
      && forall i :: 0 <= i < |was| ==>
           && now[i].id == was[i].id && now[i].issueId == was[i].issueId
           && now[i].issueStatus ==
                if was[i].issueId == Some(ch.id) && ch.patch.status.Some? then ch.patch.status else was[i].issueStatus
  {
  }

  // ----- the cache object

  datatype ChangeResult = ChangeResult(
    prevLists: seq<(ListKey, ListCache)>,
    prevDetail: Option<Issue>,
    prevInboxList: Option<seq<InboxRow>>,
    staleKeys: seq<ListKey>,
    prevIssue: Option<Issue>)

  function AsMap(entries: seq<(ListKey, ListCache)>): map<ListKey, ListCache>
  {
    if entries == [] then map[] else
      var last := entries[|entries| - 1];
      AsMap(entries[..|entries| - 1])[last.0 := last.1]
  }

  function AsSet(keys: seq<ListKey>): set<ListKey> { set k | k in keys }

  function CardIn(entry: Cached, id: Id): Option<Issue>
  {
    if entry.Grouped? then None else
      var loc := FindIssueLocation(entry.cache, id);
      if loc.Some? then Some(loc.value.issue) else None
  }

  /** The base, or else the first loaded copy of the issue met while walking these keys. */
  function FirstSeen(s: State, keys: seq<ListKey>, ch: Change): Option<Issue>
  {
    if keys == [] then ch.base else
      var earlier := FirstSeen(s, keys[..|keys| - 1], ch);
      var k := keys[|keys| - 1];
      if earlier.Some? || k !in s.lists then earlier else CardIn(s.lists[k], ch.id)
  }

  lemma WalkSnoc(s: State, ch: Change, keys: seq<ListKey>, n: nat)
    requires n < |keys|
    ensures WalkTo(s, ch, keys[..n + 1]) == WalkStep(ch, WalkTo(s, ch, keys[..n]), keys[n])
    ensures FirstSeen(s, keys[..n + 1], ch) ==
      var earlier := FirstSeen(s, keys[..n], ch);
      if earlier.Some? || keys[n] !in s.lists then earlier else CardIn(s.lists[keys[n]], ch.id)
  {
    assert keys[..n + 1][..n] == keys[..n];
  }

  function Selected(s: State, keys: seq<ListKey>, board: bool): seq<ListKey>
  {
    if keys == [] then [] else
      var k := keys[|keys| - 1];
      Selected(s, keys[..|keys| - 1], board) +
      (if k.Board? == board && k in s.lists && s.lists[k].Bucketed? then [k] else [])
  }

  /** Boards first, then every my-list, each in insertion order; grouped entries are left out. */
  function BucketedListEntries(s: State): seq<ListKey>
  {
    Selected(s, s.order, true) + Selected(s, s.order, false)
  }

  ghost predicate Distinct<T(!new)>(xs: seq<T>) { forall i, j :: 0 <= i < j < |xs| ==> xs[i] != xs[j] }

  ghost predicate ValidState(s: State)
  {
    Distinct(s.order) && AsSet(s.order) == s.lists.Keys
  }

  lemma {:induction false} SelectedKeys(s: State, keys: seq<ListKey>, board: bool)
    requires Distinct(keys)
    ensures Distinct(Selected(s, keys, board))
    ensures forall k :: k in Selected(s, keys, board) <==>
      k in keys && k.Board? == board && k in s.lists && s.lists[k].Bucketed?
  {
    if keys != [] {
      SelectedKeys(s, keys[..|keys| - 1], board);
      var last := keys[|keys| - 1];
      assert keys == keys[..|keys| - 1] + [last];
    }
  }

  lemma EntriesAreTheBucketedLists(s: State)
    requires ValidState(s)
    ensures Distinct(BucketedListEntries(s))
    ensures forall k :: k in BucketedListEntries(s) <==> k in s.lists && s.lists[k].Bucketed?
  {
    SelectedKeys(s, s.order, true);
    SelectedKeys(s, s.order, false);
    assert forall k :: k in s.lists <==> k in AsSet(s.order);
    var a, b := Selected(s, s.order, true), Selected(s, s.order, false);
    assert forall i :: 0 <= i < |a| ==> a[i] in a;
    assert forall i :: 0 <= i < |b| ==> b[i] in b;
  }

  /** The walk comes to `k` before `l` because it meets boards first, and lists of one kind in the order they were
      loaded. */
  ghost predicate ComesFirst(order: seq<ListKey>, k: ListKey, l: ListKey)
  {
    if k.Board? == l.Board? then Before(order, k, l) else k.Board?
  }

  lemma BoardsComeFirst(s: State)
    ensures var keys := BucketedListEntries(s);
      forall i, j :: 0 <= i < j < |keys| ==> ComesFirst(s.order, keys[i], keys[j])
  {
    hide Before, Selected;
    SelectedInOrder(s, s.order, true);
    SelectedInOrder(s, s.order, false);
    SelectedMembers(s, s.order, true);
    SelectedMembers(s, s.order, false);
    var boards, others := Selected(s, s.order, true), Selected(s, s.order, false);
    assert forall i :: 0 <= i < |boards| ==> boards[i] in boards;
    assert forall i :: 0 <= i < |others| ==> others[i] in others;
    var keys := BucketedListEntries(s);
    forall i, j | 0 <= i < j < |keys| ensures ComesFirst(s.order, keys[i], keys[j]) {
      if j < |boards| {
        assert keys[i] == boards[i] && keys[j] == boards[j];
      } else if i >= |boards| {
        assert keys[i] == others[i - |boards|] && keys[j] == others[j - |boards|];
      } else {
        assert keys[i] == boards[i] && keys[j] == others[j - |boards|];
      }
    }
  }

  ghost predicate Before(order: seq<ListKey>, k: ListKey, l: ListKey)
  {
    exists i, j :: 0 <= i < j < |order| && order[i] == k && order[j] == l
  }

  lemma BeforeAt(order: seq<ListKey>, i: nat, j: nat)
    requires i < j < |order|
    ensures Before(order, order[i], order[j])
  {
  }

  lemma BeforeInPrefix(order: seq<ListKey>, k: ListKey, l: ListKey)
    requires order != [] && Before(order[..|order| - 1], k, l)
    ensures Before(order, k, l)
  {
    var init := order[..|order| - 1];
    var i, j :| 0 <= i < j < |init| && init[i] == k && init[j] == l;
    BeforeAt(order, i, j);
  }

  lemma {:induction false} SelectedMembers(s: State, keys: seq<ListKey>, board: bool)
    ensures forall k :: k in Selected(s, keys, board) ==> k.Board? == board && k in keys
  {
    if keys != [] {
      SelectedMembers(s, keys[..|keys| - 1], board);
      assert keys == keys[..|keys| - 1] + [keys[|keys| - 1]];
    }
  }

  ghost predicate InOrder(order: seq<ListKey>, keys: seq<ListKey>)
  {
    forall i, j :: 0 <= i < j < |keys| ==> Before(order, keys[i], keys[j])
  }

  lemma {:induction false} SelectedInOrder(s: State, keys: seq<ListKey>, board: bool)
    ensures InOrder(keys, Selected(s, keys, board))
  {
    if keys != [] {
      var init := keys[..|keys| - 1];
      SelectedInOrder(s, init, board);
      SelectedMembers(s, init, board);
      SnocInOrder(keys, Selected(s, init, board));
    }
  }

  lemma SnocInOrder(order: seq<ListKey>, keys: seq<ListKey>)
    requires order != [] && InOrder(order[..|order| - 1], keys) && forall k :: k in keys ==> k in order[..|order| - 1]
    ensures InOrder(order, keys) && InOrder(order, keys + [order[|order| - 1]])
  {
    hide Before;
    var last, more := |order| - 1, keys + [order[|order| - 1]];
    forall i, j | 0 <= i < j < |more| ensures Before(order, more[i], more[j]) {
      assert more[i] == keys[i] && keys[i] in keys;
      if j < |keys| {
        BeforeInPrefix(order, keys[i], keys[j]);
      } else {
        var p :| 0 <= p < last && order[..last][p] == keys[i];
        BeforeAt(order, p, last);
      }
    }
    forall i, j | 0 <= i < j < |keys| ensures Before(order, keys[i], keys[j]) {
      assert more[i] == keys[i] && more[j] == keys[j];
    }
  }

  /** The freshest earlier copy: the base when there is one, else the card of the first list that shows the issue. */
  lemma {:induction false} FirstSeenIs(s: State, keys: seq<ListKey>, ch: Change)
    requires forall k :: k in keys ==> k in s.lists
    ensures ch.base.Some? ==> FirstSeen(s, keys, ch) == ch.base
    ensures ch.base.None? && FirstSeen(s, keys, ch).None? ==> forall k :: k in keys ==> CardIn(s.lists[k], ch.id).None?
    ensures ch.base.None? && FirstSeen(s, keys, ch).Some? ==>
      exists n :: 0 <= n < |keys| && FirstSeen(s, keys, ch) == CardIn(s.lists[keys[n]], ch.id)
        && forall m :: 0 <= m < n ==> CardIn(s.lists[keys[m]], ch.id).None?
  {
    if keys != [] {
      var init, last := keys[..|keys| - 1], |keys| - 1;
      assert keys == init + [keys[last]];
      FirstSeenIs(s, init, ch);
      assert forall m :: 0 <= m < last ==> keys[m] == init[m] && init[m] in init;
    }
  }

  lemma AsSetAppend(keys: seq<ListKey>, k: ListKey)
    ensures AsSet(keys + [k]) == AsSet(keys) + {k}
  {
  }

  /** What the walk over the loaded lists has written and collected. */
  datatype Walk = Walk(lists: map<ListKey, Cached>, prevLists: seq<(ListKey, ListCache)>, staleKeys: seq<ListKey>)

  /** One list: judge it, keep its snapshot when it is rewritten, report its key when it may have drifted. */
  function WalkStep(ch: Change, w: Walk, k: ListKey): Walk
  {
    if k !in w.lists || !w.lists[k].Bucketed? then w else
      var data := w.lists[k].cache;
      var o := OutcomeFor(k, data, ch);
      Walk(if o.touched then w.lists[k := Bucketed(o.next)] else w.lists,
           if o.touched then w.prevLists + [(k, data)] else w.prevLists,
           if o.stale then w.staleKeys + [k] else w.staleKeys)
  }

  function WalkTo(s: State, ch: Change, keys: seq<ListKey>): Walk
  {
    if keys == [] then Walk(s.lists, [], [])
    else WalkStep(ch, WalkTo(s, ch, keys[..|keys| - 1]), keys[|keys| - 1])
  }

  /** The walk of ApplyIssueChange after the entries in `done`. */
  ghost predicate Walked(s: State, ch: Change, done: seq<ListKey>, w: Walk)
  {
    && ListsWalked(s, ch, done, w.lists)
    && SnapshotsWalked(s, ch, done, w.prevLists)
    && KeysWalked(s, ch, done, w.staleKeys)
  }

  ghost predicate ListsWalked(s: State, ch: Change, done: seq<ListKey>, lists: map<ListKey, Cached>)
  {
    lists == (map k | k in s.lists :: if k in done then ApplyToEntry(k, s.lists[k], ch) else s.lists[k])
  }

  ghost predicate SnapshotsWalked(s: State, ch: Change, done: seq<ListKey>, prevLists: seq<(ListKey, ListCache)>)
  {
    AsMap(prevLists) == (map k | k in s.lists && k in done && IsTouched(s, ch, k) :: s.lists[k].cache)
  }

  ghost predicate KeysWalked(s: State, ch: Change, done: seq<ListKey>, staleKeys: seq<ListKey>)
  {
    AsSet(staleKeys) == (set k | k in s.lists && k in done && IsStale(s, ch, k))
  }

  lemma WalkOne(s: State, ch: Change, done: seq<ListKey>, k: ListKey, w: Walk)
    requires Walked(s, ch, done, w)
    requires k in s.lists && s.lists[k].Bucketed? && k !in done
    ensures Walked(s, ch, done + [k], WalkStep(ch, w, k))
  {
    hide ListsWalked, SnapshotsWalked, KeysWalked, OutcomeFor;
    WalkLists(s, ch, done, k, w.lists);
    WalkSnapshots(s, ch, done, k, w.prevLists);
    WalkKeys(s, ch, done, k, w.staleKeys);
  }

  lemma {:induction false} WalkIsWalked(s: State, ch: Change, keys: seq<ListKey>)
    requires Distinct(keys) && forall k :: k in keys ==> k in s.lists && s.lists[k].Bucketed?
    ensures Walked(s, ch, keys, WalkTo(s, ch, keys))
  {
    if keys != [] {
      var init, k := keys[..|keys| - 1], keys[|keys| - 1];
      assert keys == init + [k];
      WalkIsWalked(s, ch, init);
      assert k in keys && k !in init;
      WalkOne(s, ch, init, k, WalkTo(s, ch, init));
    }
  }

  /** The walk over all entries writes exactly what Apply says and collects every snapshot and stale key. */
  lemma WalkIsApply(s: State, ch: Change)
    requires ValidState(s)
    ensures var w := WalkTo(s, ch, BucketedListEntries(s));
      w.lists == Apply(s, ch).lists && AsMap(w.prevLists) == Snapshots(s, ch) && AsSet(w.staleKeys) == StaleKeys(s, ch)
  {
    EntriesAreTheBucketedLists(s);
    var keys := BucketedListEntries(s);
    WalkIsWalked(s, ch, keys);
    WalkedAll(s, ch, keys, WalkTo(s, ch, keys));
  }

  lemma WalkedAll(s: State, ch: Change, keys: seq<ListKey>, w: Walk)
    requires Walked(s, ch, keys, w)
    requires forall k :: k in keys <==> k in s.lists && s.lists[k].Bucketed?
    ensures w.lists == Apply(s, ch).lists && AsMap(w.prevLists) == Snapshots(s, ch)
      && AsSet(w.staleKeys) == StaleKeys(s, ch)
  {
    var lists := Apply(s, ch).lists;
    forall k | k in s.lists ensures w.lists[k] == lists[k] {
      if k !in keys { assert !s.lists[k].Bucketed?; }
    }
    assert w.lists == lists;
  }

  lemma WalkLists(s: State, ch: Change, done: seq<ListKey>, k: ListKey, lists: map<ListKey, Cached>)
    requires k in s.lists && k !in done && ListsWalked(s, ch, done, lists)
    ensures k in lists && lists[k] == s.lists[k]
    ensures ListsWalked(s, ch, done + [k],
                        if IsTouched(s, ch, k) then lists[k := ApplyToEntry(k, s.lists[k], ch)] else lists)
  {
    if !IsTouched(s, ch, k) { UntouchedIsUnchanged(s, ch, k); }
  }

  lemma WalkSnapshots(s: State, ch: Change, done: seq<ListKey>, k: ListKey, prevLists: seq<(ListKey, ListCache)>)
    requires k in s.lists && s.lists[k].Bucketed? && k !in done
    requires SnapshotsWalked(s, ch, done, prevLists)
    ensures SnapshotsWalked(s, ch, done + [k],
                            if IsTouched(s, ch, k) then prevLists + [(k, s.lists[k].cache)] else prevLists)
  {
    assert (prevLists + [(k, s.lists[k].cache)])[..|prevLists|] == prevLists;
  }

  lemma WalkKeys(s: State, ch: Change, done: seq<ListKey>, k: ListKey, staleKeys: seq<ListKey>)
    requires k in s.lists && KeysWalked(s, ch, done, staleKeys)
    ensures KeysWalked(s, ch, done + [k], if IsStale(s, ch, k) then staleKeys + [k] else staleKeys)
  {
    AsSetAppend(staleKeys, k);
  }

  ghost predicate DistinctKeys(entries: seq<(ListKey, ListCache)>)
  {
    forall i, j :: 0 <= i < j < |entries| ==> entries[i].0 != entries[j].0
  }

  /** No list is snapshotted twice by one change. */
  lemma {:induction false} OneSnapshotPerList(s: State, ch: Change, keys: seq<ListKey>)
    requires Distinct(keys)
    ensures var prev := WalkTo(s, ch, keys).prevLists;
      DistinctKeys(prev) && forall i :: 0 <= i < |prev| ==> prev[i].0 in keys
  {
    if keys != [] {
      var init, k := keys[..|keys| - 1], keys[|keys| - 1];
      assert keys == init + [k];
      OneSnapshotPerList(s, ch, init);
      var before, after := WalkTo(s, ch, init).prevLists, WalkTo(s, ch, keys).prevLists;
      assert k !in init;
      assert after == before || (|after| == |before| + 1 && after[..|before|] == before && after[|before|].0 == k);
    }
  }

  class QueryClient {
    var order: seq<ListKey>
    var lists: map<ListKey, Cached>
    var details: map<Id, Issue>
    var inbox: Option<seq<InboxRow>>
    var children: map<Id, seq<Issue>>
    var stale: set<ListKey>

    ghost function Now(): State
      reads this
    {
      State(order, lists, details, inbox, children, stale)
    }

    ghost predicate Valid()
      reads this
    {
      ValidState(Now())
    }

    /** Write one issue change through every loaded list, the detail and the inbox projection. */
    method ApplyIssueChange(id: Id, patch: Patch, changed: Dims, baseIssue: Option<Issue>) returns (r: ChangeResult)
      requires Valid()
      modifies this
      ensures Now() == Apply(old(Now()), Change(id, patch, changed, baseIssue))
      ensures AsMap(r.prevLists) == Snapshots(old(Now()), Change(id, patch, changed, baseIssue))
        && DistinctKeys(r.prevLists)
      ensures AsSet(r.staleKeys) == StaleKeys(old(Now()), Change(id, patch, changed, baseIssue))
      ensures r.prevInboxList == PrevInbox(old(Now()), Change(id, patch, changed, baseIssue))
      ensures Valid()
      ensures r.prevDetail == Lookup(old(details), id)
      ensures r.prevIssue ==
        var seen := FirstSeen(old(Now()), BucketedListEntries(old(Now())), Change(id, patch, changed, baseIssue));
        if seen.Some? then seen else Lookup(old(details), id)
    {
      ghost var s := Now();
      var ch := Change(id, patch, changed, baseIssue);
      var prevLists, staleKeys, prevIssue := ApplyToLists(ch);
      var prevDetail := Lookup(details, id);
      if prevDetail.Some? {
        details := details[id := Merge(prevDetail.value, patch)];
        if prevIssue.None? { prevIssue := prevDetail; }
      }
      var prevInboxList: Option<seq<InboxRow>> := None;
      if patch.status.Some? {
        prevInboxList := inbox;
        if inbox.Some? { inbox := Some(PatchInboxIssueStatus(inbox.value, id, patch.status.value)); }
      }
      assert lists.Keys == s.lists.Keys;
      r := ChangeResult(prevLists, prevDetail, prevInboxList, staleKeys, prevIssue);
    }

    /** One entry: rewrite it and keep its snapshot, report its key, as the rules table says. */
    method ApplyToList(k: ListKey, ch: Change, prevLists: seq<(ListKey, ListCache)>, staleKeys: seq<ListKey>)
      returns (prevLists': seq<(ListKey, ListCache)>, staleKeys': seq<ListKey>)
      requires k in lists && lists[k].Bucketed?
      modifies this`lists
      ensures Walk(lists, prevLists', staleKeys') == WalkStep(ch, Walk(old(lists), prevLists, staleKeys), k)
    {
      prevLists', staleKeys' := prevLists, staleKeys;
      var data := lists[k].cache;
      var o := OutcomeFor(k, data, ch);
      if o.stale { staleKeys' := staleKeys + [k]; }
      if o.touched {
        prevLists' := prevLists + [(k, data)];
        lists := lists[k := Bucketed(o.next)];
      }
    }

    method FirstCopy(prevIssue: Option<Issue>, k: ListKey, id: Id) returns (r: Option<Issue>)
      requires k in lists && lists[k].Bucketed?
      ensures r == if prevIssue.Some? then prevIssue else CardIn(lists[k], id)
    {
      r := prevIssue;
      var loc := FindIssueLocation(lists[k].cache, id);
      if loc.Some? && r.None? { r := Some(loc.value.issue); }
    }

    /** One turn of the walk, `n` entries after the state `s` it began in. */
    method WalkEntry(ghost s: State, entries: seq<ListKey>, n: nat, ch: Change,
                     prevLists: seq<(ListKey, ListCache)>, staleKeys: seq<ListKey>, prevIssue: Option<Issue>)
      returns (prevLists': seq<(ListKey, ListCache)>, staleKeys': seq<ListKey>, prevIssue': Option<Issue>)
      requires ValidState(s) && entries == BucketedListEntries(s) && n < |entries|
      requires Walk(lists, prevLists, staleKeys) == WalkTo(s, ch, entries[..n])
      requires prevIssue == FirstSeen(s, entries[..n], ch)
      modifies this`lists
      ensures Walk(lists, prevLists', staleKeys') == WalkTo(s, ch, entries[..n + 1])
      ensures prevIssue' == FirstSeen(s, entries[..n + 1], ch)
    {
      NotYetWalked(s, ch, n);
      WalkSnoc(s, ch, entries, n);
      prevIssue' := FirstCopy(prevIssue, entries[n], ch.id);
      prevLists', staleKeys' := ApplyToList(entries[n], ch, prevLists, staleKeys);
    }

    /** The walk: each entry is read as it was when the walk began, since no entry is met twice. */
    method WalkEntries(ghost s: State, entries: seq<ListKey>, ch: Change)
      returns (prevLists: seq<(ListKey, ListCache)>, staleKeys: seq<ListKey>, prevIssue: Option<Issue>)
      requires ValidState(s) && entries == BucketedListEntries(s) && lists == s.lists
      modifies this`lists
      ensures Walk(lists, prevLists, staleKeys) == WalkTo(s, ch, entries)
      ensures prevIssue == FirstSeen(s, entries, ch)
    {
      prevLists, staleKeys, prevIssue := [], [], ch.base;
      var n := 0;
      while n < |entries|
        invariant 0 <= n <= |entries|
        invariant Walk(lists, prevLists, staleKeys) == WalkTo(s, ch, entries[..n])
        invariant prevIssue == FirstSeen(s, entries[..n], ch)
      {
        prevLists, staleKeys, prevIssue := WalkEntry(s, entries, n, ch, prevLists, staleKeys, prevIssue);
        n := n + 1;
      }
      assert entries[..n] == entries;
    }

    method ApplyToLists(ch: Change)
      returns (prevLists: seq<(ListKey, ListCache)>, staleKeys: seq<ListKey>, prevIssue: Option<Issue>)
      requires Valid()
      modifies this`lists
      ensures lists == Apply(old(Now()), ch).lists
      ensures AsMap(prevLists) == Snapshots(old(Now()), ch) && DistinctKeys(prevLists)
      ensures AsSet(staleKeys) == StaleKeys(old(Now()), ch)
      ensures prevIssue == FirstSeen(old(Now()), BucketedListEntries(old(Now())), ch)
    {
      ghost var s := Now();
      var entries := BucketedListEntries(State(order, lists, details, inbox, children, stale));
      prevLists, staleKeys, prevIssue := WalkEntries(s, entries, ch);
      WalkIsApply(s, ch);
      EntriesAreTheBucketedLists(s);
      OneSnapshotPerList(s, ch, entries);
    }

    /** Put back the snapshots of one change. */
    method RollbackIssueChange(id: Id, prevLists: seq<(ListKey, ListCache)>, prevDetail: Option<Issue>,
                               prevInboxList: Option<seq<InboxRow>>)
      modifies this`lists, this`details, this`inbox
      ensures Now() == Rollback(old(Now()), id, AsMap(prevLists), prevDetail, prevInboxList)
    {
      var n := 0;
      while n < |prevLists|
        invariant 0 <= n <= |prevLists|
        invariant lists == old(lists) + AsEntries(AsMap(prevLists[..n]))
        invariant details == old(details) && inbox == old(inbox)
      {
        RestoreSnoc(old(lists), prevLists, n);
        lists := lists[prevLists[n].0 := Bucketed(prevLists[n].1)];
        n := n + 1;
      }
      assert prevLists[..n] == prevLists;
      if prevDetail.Some? { details := details[id := prevDetail.value]; }
      if prevInboxList.Some? { inbox := prevInboxList; }
    }

    /** Mark every reported key stale once, whatever repeats the report holds. */
    method InvalidateStaleListKeys(staleKeys: seq<ListKey>)
      modifies this`stale
      ensures stale == old(stale) + AsSet(staleKeys)
    {
      var seen: set<ListKey> := {};
      var n := 0;
      while n < |staleKeys|
        invariant 0 <= n <= |staleKeys|
        invariant seen == AsSet(staleKeys[..n])
        invariant stale == old(stale) + seen
      {
        assert staleKeys[..n + 1] == staleKeys[..n] + [staleKeys[n]];
        if staleKeys[n] !in seen {
          seen := seen + {staleKeys[n]};
          stale := stale + {staleKeys[n]};
        }
        n := n + 1;
      }
      assert staleKeys[..n] == staleKeys;
    }

    /** An optimistic change that fails leaves no trace. */
    method ApplyThenFail(id: Id, patch: Patch, changed: Dims, baseIssue: Option<Issue>)
      requires Valid()
      modifies this
      ensures Now() == old(Now())
    {
      var r := ApplyIssueChange(id, patch, changed, baseIssue);
      RollbackRestores(old(Now()), Change(id, patch, changed, baseIssue));
      RollbackIssueChange(id, r.prevLists, r.prevDetail, r.prevInboxList);
    }
  }

  lemma RestoreSnoc(lists: map<ListKey, Cached>, prevLists: seq<(ListKey, ListCache)>, n: nat)
    requires n < |prevLists|
    ensures lists + AsEntries(AsMap(prevLists[..n + 1])) ==
      (lists + AsEntries(AsMap(prevLists[..n])))[prevLists[n].0 := Bucketed(prevLists[n].1)]
  {
    assert prevLists[..n + 1][..n] == prevLists[..n];
  }

  lemma NotYetWalked(s: State, ch: Change, n: nat)
    requires ValidState(s) && n < |BucketedListEntries(s)|
    ensures var keys := BucketedListEntries(s);
      var lists := WalkTo(s, ch, keys[..n]).lists;
      keys[n] in s.lists && s.lists[keys[n]].Bucketed? && keys[n] in lists && lists[keys[n]] == s.lists[keys[n]]
  {
    EntriesAreTheBucketedLists(s);
    var keys := BucketedListEntries(s);
    assert keys[n] in keys && keys[n] !in keys[..n];
    WalkIsWalked(s, ch, keys[..n]);
  }
}
