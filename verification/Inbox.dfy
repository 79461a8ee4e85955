/** Inbox deduplication: one row per target, an unread action before newer chatter. */
module Inbox {
  import opened IssueModel

  datatype ItemType = QuickCreateDone | QuickCreateFailed | OtherType(name: string)

  datatype Severity = ActionRequired | Attention | Info

  /** `prompt` is the original prompt with whitespace runs collapsed and ends trimmed. */
  datatype Details = Details(prompt: Option<string>, agentId: Option<string>, commentId: Option<string>, rest: string)

  datatype Item = Item(
    id: string,
    kind: ItemType,
    severity: Severity,
    actorId: Option<string>,
    issueId: Option<string>,
    targetType: Option<string>,
    targetId: Option<string>,
    read: bool,
    archived: bool,
    createdAt: int,
    details: Option<Details>,
    content: string)

  function Coalesce<T>(a: Option<T>, b: Option<T>): Option<T> { if a.Some? then a else b }

  function PromptOf(i: Item): Option<string> { if i.details.Some? then i.details.value.prompt else None }

  function CommentOf(i: Item): Option<string> { if i.details.Some? then i.details.value.commentId else None }

  predicate IsQuickResult(i: Item) { i.kind.QuickCreateDone? || i.kind.QuickCreateFailed? }

  // ----- grouping

  function QuickKey(i: Item): Option<string>
  {
    if !IsQuickResult(i) || !Truthy(PromptOf(i)) then None else
      var agent := Coalesce(Coalesce(i.details.value.agentId, i.actorId), Some("")).value;
      Some("quick-create:" + agent + ":" + PromptOf(i).value)
  }

  datatype Latest = Latest(issueId: string, createdAt: int)

  /** Per quick-create key the target of the newest successful attempt. */
  function LearnQuickKey(known: map<string, Latest>, i: Item): map<string, Latest>
  {
    var target := TargetOf(i);
    if !i.kind.QuickCreateDone? || !Truthy(target) || QuickKey(i).None? then known else
      var k := QuickKey(i).value;
      if k !in known || i.createdAt > known[k].createdAt then known[k := Latest(target.value, i.createdAt)] else known
  }

  function QuickTargets(items: seq<Item>): map<string, Latest>
  {
    if items == [] then map[] else LearnQuickKey(QuickTargets(items[..|items| - 1]), items[|items| - 1])
  }

  function TargetOf(i: Item): Option<string> { Coalesce(i.targetId, i.issueId) }

  /** A successful attempt that names what it made. */
  predicate Teaches(i: Item, k: string)
  {
    i.kind.QuickCreateDone? && Truthy(TargetOf(i)) && QuickKey(i) == Some(k)
  }

  /** A key is routed exactly when some attempt of it succeeded, and then to what the newest of them made; of several
      equally new ones to what the first in the list made. */
  lemma {:induction false} RoutedToNewest(items: seq<Item>, k: string)
    ensures k in QuickTargets(items) <==> exists i :: i in items && Teaches(i, k)
    ensures k in QuickTargets(items) ==> exists n :: 0 <= n < |items| && RoutesTo(items, k, n)
  {
    if items != [] {
      var init, last := items[..|items| - 1], items[|items| - 1];
      assert items == init + [last];
      RoutedToNewest(init, k);
      assert forall i :: i in items <==> i in init || i == last;
      LearnsNewest(init, last, k);
    }
  }

  /** The n-th item is the one whose target the key has. */
  ghost predicate RoutesTo(items: seq<Item>, k: string, n: nat)
    requires n < |items|
  {
    && Teaches(items[n], k) && k in QuickTargets(items)
    && QuickTargets(items)[k] == Latest(TargetOf(items[n]).value, items[n].createdAt)
    && (forall m :: 0 <= m < |items| && Teaches(items[m], k) ==> items[m].createdAt <= items[n].createdAt)
    && (forall m :: 0 <= m < n && Teaches(items[m], k) ==> items[m].createdAt < items[n].createdAt)
  }

  lemma LearnsNewest(init: seq<Item>, last: Item, k: string)
    requires k in QuickTargets(init) ==> exists n :: 0 <= n < |init| && RoutesTo(init, k, n)
    requires k !in QuickTargets(init) ==> forall i :: i in init ==> !Teaches(i, k)
    ensures k in QuickTargets(init + [last]) <==> k in QuickTargets(init) || Teaches(last, k)
    ensures k in QuickTargets(init + [last]) ==>
      exists n :: 0 <= n < |init + [last]| && RoutesTo(init + [last], k, n)
  {
    hide QuickKey;
    var items := init + [last];
    assert items[..|items| - 1] == init && items[|init|] == last;
    if k in QuickTargets(init) {
      var n :| 0 <= n < |init| && RoutesTo(init, k, n);
      assert items[n] == init[n];
      if Teaches(last, k) && last.createdAt > init[n].createdAt {
        assert RoutesTo(items, k, |init|);
      } else {
        assert RoutesTo(items, k, n);
      }
    } else if Teaches(last, k) {
      forall m | 0 <= m < |init| ensures !Teaches(items[m], k) { assert items[m] == init[m] && init[m] in init; }
      assert RoutesTo(items, k, |init|);
    }
  }

  function TypeOf(i: Item): string { if i.targetType.Some? then i.targetType.value else "issue" }

  function KeyOf(i: Item, quick: map<string, Latest>): string
  {
    var qk := QuickKey(i);
    if qk.Some? && qk.value in quick then quick[qk.value].issueId
    else if Truthy(i.targetId) then TypeOf(i) + ":" + i.targetId.value
    else if i.issueId.Some? then i.issueId.value
    else if qk.Some? then qk.value
    else i.id
  }

  function Where(items: seq<Item>, p: Item -> bool): seq<Item>
  {
    if items == [] then [] else
      Where(items[..|items| - 1], p) + (if p(items[|items| - 1]) then [items[|items| - 1]] else [])
  }

  function Active(items: seq<Item>): seq<Item> { Where(items, (i: Item) => !i.archived) }

  function GroupOf(items: seq<Item>, quick: map<string, Latest>, k: string): seq<Item>
  {
    Where(items, (i: Item) => KeyOf(i, quick) == k)
  }

  /** The keys in order of first appearance. */
  function KeysInOrder(items: seq<Item>, quick: map<string, Latest>): seq<string>
  {
    if items == [] then [] else
      var earlier := KeysInOrder(items[..|items| - 1], quick);
      var k := KeyOf(items[|items| - 1], quick);
      if k in earlier then earlier else earlier + [k]
  }

  // ----- newest first, stable

  function InsertNewestFirst(sorted: seq<Item>, i: Item): seq<Item>
  {
    if sorted == [] || sorted[|sorted| - 1].createdAt >= i.createdAt then sorted + [i]
    else InsertNewestFirst(sorted[..|sorted| - 1], i) + [sorted[|sorted| - 1]]
  }

  function NewestFirst(items: seq<Item>): seq<Item>
  {
    if items == [] then [] else InsertNewestFirst(NewestFirst(items[..|items| - 1]), items[|items| - 1])
  }

  ghost predicate SortedNewestFirst(items: seq<Item>)
  {
    forall i, j :: 0 <= i < j < |items| ==> items[i].createdAt >= items[j].createdAt
  }

  lemma {:induction false} InsertKeepsMultiset(sorted: seq<Item>, i: Item)
    ensures multiset(InsertNewestFirst(sorted, i)) == multiset(sorted) + multiset{i}
  {
    if sorted != [] && sorted[|sorted| - 1].createdAt < i.createdAt {
      InsertKeepsMultiset(sorted[..|sorted| - 1], i);
      assert sorted == sorted[..|sorted| - 1] + [sorted[|sorted| - 1]];
    }
  }

  lemma {:induction false} NewestFirstPermutes(items: seq<Item>)
    ensures multiset(NewestFirst(items)) == multiset(items)
    ensures |NewestFirst(items)| == |items|
  {
    if items != [] {
      NewestFirstPermutes(items[..|items| - 1]);
      InsertKeepsMultiset(NewestFirst(items[..|items| - 1]), items[|items| - 1]);
      assert items == items[..|items| - 1] + [items[|items| - 1]];
    }
    assert |NewestFirst(items)| == |multiset(NewestFirst(items))| == |multiset(items)| == |items|;
  }

  lemma {:induction false} InsertKeepsSorted(sorted: seq<Item>, i: Item)
    requires SortedNewestFirst(sorted)
    ensures SortedNewestFirst(InsertNewestFirst(sorted, i))
  {
    if sorted != [] && sorted[|sorted| - 1].createdAt < i.createdAt {
      var init, last := sorted[..|sorted| - 1], sorted[|sorted| - 1];
      InsertKeepsSorted(init, i);
      InsertKeepsMultiset(init, i);
      var r := InsertNewestFirst(init, i);
      forall j | 0 <= j < |r| ensures r[j].createdAt >= last.createdAt {
        assert r[j] in multiset(r);
        assert r[j] == i || r[j] in init;
      }
    }
  }

  lemma {:induction false} NewestFirstSorts(items: seq<Item>)
    ensures SortedNewestFirst(NewestFirst(items))
  {
    if items != [] {
      NewestFirstSorts(items[..|items| - 1]);
      InsertKeepsSorted(NewestFirst(items[..|items| - 1]), items[|items| - 1]);
    }
  }

  lemma {:induction false} WhereMembers(items: seq<Item>, p: Item -> bool)
    ensures forall i :: i in Where(items, p) <==> i in items && p(i)
  {
    if items != [] {
      assert items == items[..|items| - 1] + [items[|items| - 1]];
      WhereMembers(items[..|items| - 1], p);
    }
  }

  lemma WhereSnoc(items: seq<Item>, i: Item, p: Item -> bool)
    ensures Where(items + [i], p) == Where(items, p) + (if p(i) then [i] else [])
  {
    assert (items + [i])[..|items|] == items;
  }

  lemma InsertedLast(sorted: seq<Item>, i: Item, p: Item -> bool)
    requires SortedNewestFirst(sorted) && (sorted == [] || sorted[|sorted| - 1].createdAt >= i.createdAt)
    ensures InsertNewestFirst(Where(sorted, p), i) == Where(sorted, p) + [i]
  {
    var w := Where(sorted, p);
    if w != [] {
      WhereMembers(sorted, p);
      assert w[|w| - 1] in w;
      var j :| 0 <= j < |sorted| && sorted[j] == w[|w| - 1];
    }
  }

  lemma {:induction false} WhereOfInsert(sorted: seq<Item>, i: Item, p: Item -> bool)
    requires SortedNewestFirst(sorted)
    ensures Where(InsertNewestFirst(sorted, i), p) ==
      if p(i) then InsertNewestFirst(Where(sorted, p), i) else Where(sorted, p)
  {
    if sorted == [] || sorted[|sorted| - 1].createdAt >= i.createdAt {
      WhereSnoc(sorted, i, p);
      InsertedLast(sorted, i, p);
    } else {
      var init, last := sorted[..|sorted| - 1], sorted[|sorted| - 1];
      WhereOfInsert(init, i, p);
      WhereSnoc(InsertNewestFirst(init, i), last, p);
      if p(last) {
        InsertBeforeLast(Where(init, p), last, i);
        assert Where(sorted, p) == Where(init, p) + [last];
      } else {
        assert Where(sorted, p) == Where(init, p);
      }
    }
  }

  lemma InsertBeforeLast(init: seq<Item>, last: Item, i: Item)
    requires last.createdAt < i.createdAt
    ensures InsertNewestFirst(init + [last], i) == InsertNewestFirst(init, i) + [last]
  {
    assert (init + [last])[..|init|] == init;
  }

  lemma SortSnoc(items: seq<Item>, i: Item)
    ensures NewestFirst(items + [i]) == InsertNewestFirst(NewestFirst(items), i)
  {
    assert (items + [i])[..|items|] == items;
  }

  /** Sorting and selecting commute, because the sort is stable. */
  lemma {:induction false} WhereOfSort(items: seq<Item>, p: Item -> bool)
    ensures Where(NewestFirst(items), p) == NewestFirst(Where(items, p))
  {
    if items != [] {
      var init, last := items[..|items| - 1], items[|items| - 1];
      WhereOfSort(init, p);
      NewestFirstSorts(init);
      WhereOfInsert(NewestFirst(init), last, p);
      if p(last) { SortSnoc(Where(init, p), last); } else { assert Where(items, p) == Where(init, p); }
    }
  }

  // ----- one row

  predicate UnreadAction(i: Item) { !i.read && i.severity.ActionRequired? }

  function Find(items: seq<Item>, p: Item -> bool): Option<Item>
  {
    if items == [] then None else if p(items[0]) then Some(items[0]) else Find(items[1..], p)
  }

  function Candidates(sorted: seq<Item>): seq<Item>
  {
    var newestQuick := Find(sorted, IsQuickResult);
    if newestQuick.Some? && newestQuick.value.kind.QuickCreateDone?
    then Where(sorted, (i: Item) => !i.kind.QuickCreateFailed?) else sorted
  }

  function Surfaced(sorted: seq<Item>): Item
    requires sorted != []
  {
    var action := Find(Candidates(sorted), UnreadAction);
    if action.Some? then action.value else sorted[0]
  }

  function CommentAnchor(sorted: seq<Item>): Option<string>
    requires sorted != []
  {
    var s := Surfaced(sorted);
    if CommentOf(s).Some? then CommentOf(s)
    else if s.severity.ActionRequired? then None
    else
      var holder := Find(sorted, (i: Item) => Truthy(CommentOf(i)));
      if holder.Some? then CommentOf(holder.value) else None
  }

  function WithComment(i: Item, comment: string): Item
  {
    var d := if i.details.Some? then i.details.value else Details(None, None, None, "");
    i.(details := Some(d.(commentId := Some(comment))))
  }

  function Row(group: seq<Item>): Item
    requires group != []
  {
    NewestFirstPermutes(group);
    var sorted := NewestFirst(group);
    var s := Surfaced(sorted);
    var anchor := CommentAnchor(sorted);
    if Truthy(anchor) && CommentOf(s) != anchor then WithComment(s, anchor.value) else s
  }

  // ----- the whole list

  lemma {:induction false} KeysAreGroups(items: seq<Item>, quick: map<string, Latest>)
    ensures forall k :: k in KeysInOrder(items, quick) <==> exists i :: i in items && KeyOf(i, quick) == k
    ensures forall a, b :: 0 <= a < b < |KeysInOrder(items, quick)| ==>
      KeysInOrder(items, quick)[a] != KeysInOrder(items, quick)[b]
  {
    if items != [] {
      var n := |items| - 1;
      assert items == items[..n] + [items[n]];
      KeysAreGroups(items[..n], quick);
    }
  }

  lemma GroupIsNotEmpty(items: seq<Item>, quick: map<string, Latest>, k: string)
    requires k in KeysInOrder(items, quick)
    ensures GroupOf(items, quick, k) != []
  {
    KeysAreGroups(items, quick);
    var i :| i in items && KeyOf(i, quick) == k;
    WhereMembers(items, (i: Item) => KeyOf(i, quick) == k);
    assert i in GroupOf(items, quick, k);
  }

  function RowOf(items: seq<Item>, quick: map<string, Latest>, k: string): Item
    requires k in KeysInOrder(items, quick)
  {
    GroupIsNotEmpty(items, quick, k);
    Row(GroupOf(items, quick, k))
  }

  function RowsFor(items: seq<Item>, quick: map<string, Latest>, keys: seq<string>): (rows: seq<Item>)
    requires forall k :: k in keys ==> k in KeysInOrder(items, quick)
    ensures |rows| == |keys|
  {
    seq(|keys|, n requires 0 <= n < |keys| => assert keys[n] in keys; RowOf(items, quick, keys[n]))
  }

  function Deduplicate(items: seq<Item>): seq<Item>
  {
    var active := Active(items);
    var quick := QuickTargets(active);
    NewestFirst(RowsFor(active, quick, KeysInOrder(active, quick)))
  }

  // ----- what a row is

  lemma {:induction false} FindIsMember(items: seq<Item>, p: Item -> bool)
    ensures var r := Find(items, p);
      if r.Some? then r.value in items && p(r.value) else forall i :: i in items ==> !p(i)
  {
    if items != [] { FindIsMember(items[1..], p); }
  }

  lemma SurfacedIsMember(sorted: seq<Item>)
    requires sorted != []
    ensures Surfaced(sorted) in sorted
  {
    FindIsMember(Candidates(sorted), UnreadAction);
    WhereMembers(sorted, (i: Item) => !i.kind.QuickCreateFailed?);
  }

  /** Equal but for the comment anchor. */
  predicate SameButComment(r: Item, i: Item)
  {
    r == i || (r.details.Some? && r.details.value.commentId.Some?
      && r == WithComment(i, r.details.value.commentId.value))
  }

  lemma RowIsMember(group: seq<Item>) returns (i: Item)
    requires group != []
    ensures i in group && SameButComment(Row(group), i)
  {
    NewestFirstPermutes(group);
    i := Surfaced(NewestFirst(group));
    SurfacedIsMember(NewestFirst(group));
    assert i in multiset(NewestFirst(group));
    assert i in multiset(group);
  }

  lemma CommentKeepsKey(r: Item, i: Item, quick: map<string, Latest>)
    requires SameButComment(r, i)
    ensures KeyOf(r, quick) == KeyOf(i, quick)
  {
  }

  ghost predicate FromItems(items: seq<Item>, r: Item) { exists i :: i in items && SameButComment(r, i) }

  lemma RowOfKey(items: seq<Item>, quick: map<string, Latest>, k: string)
    requires k in KeysInOrder(items, quick)
    ensures KeyOf(RowOf(items, quick, k), quick) == k && FromItems(items, RowOf(items, quick, k))
  {
    GroupIsNotEmpty(items, quick, k);
    var i := RowIsMember(GroupOf(items, quick, k));
    WhereMembers(items, (i: Item) => KeyOf(i, quick) == k);
    CommentKeepsKey(RowOf(items, quick, k), i, quick);
  }

  lemma RowsForKeys(items: seq<Item>, quick: map<string, Latest>, keys: seq<string>)
    requires forall k :: k in keys ==> k in KeysInOrder(items, quick)
    ensures forall n :: 0 <= n < |keys| ==> KeyOf(RowsFor(items, quick, keys)[n], quick) == keys[n]
    ensures forall r :: r in RowsFor(items, quick, keys) ==> FromItems(items, r)
  {
    forall k | k in keys { RowOfKey(items, quick, k); }
  }

  ghost predicate DistinctKeys(rows: seq<Item>, quick: map<string, Latest>)
  {
    forall a, b :: 0 <= a < b < |rows| ==> KeyOf(rows[a], quick) != KeyOf(rows[b], quick)
  }

  lemma {:induction false} AtMostOnce(rows: seq<Item>, quick: map<string, Latest>, r: Item)
    requires DistinctKeys(rows, quick)
    ensures multiset(rows)[r] <= 1
  {
    if rows != [] {
      var n := |rows| - 1;
      assert rows == rows[..n] + [rows[n]];
      AtMostOnce(rows[..n], quick, r);
      if r == rows[n] { assert r !in rows[..n]; }
    }
  }

  /** A permutation of rows with distinct keys has distinct keys. */
  lemma PermutedKeys(rows: seq<Item>, perm: seq<Item>, quick: map<string, Latest>)
    requires DistinctKeys(rows, quick) && multiset(perm) == multiset(rows)
    ensures DistinctKeys(perm, quick)
  {
    forall a, b | 0 <= a < b < |perm| ensures KeyOf(perm[a], quick) != KeyOf(perm[b], quick) {
      if perm[a] == perm[b] {
        TwiceInSeq(perm, a, b);
        AtMostOnce(rows, quick, perm[a]);
      } else {
        assert perm[a] in multiset(perm) && perm[b] in multiset(perm);
        var i :| 0 <= i < |rows| && rows[i] == perm[a];
        var j :| 0 <= j < |rows| && rows[j] == perm[b];
      }
    }
  }

  /** One row per key of an active item, newest first, each row an active item up to a backfilled anchor. */
  lemma OneRowPerKey(items: seq<Item>)
    ensures var quick := QuickTargets(Active(items));
      var rows := Deduplicate(items);
      && SortedNewestFirst(rows)
      && DistinctKeys(rows, quick)
      && (forall r :: r in rows ==> exists i :: i in items && !i.archived && SameButComment(r, i))
      && (forall i :: i in items && !i.archived ==> exists r :: r in rows && KeyOf(r, quick) == KeyOf(i, quick))
  {
    var active := Active(items);
    var quick := QuickTargets(active);
    WhereMembers(items, (i: Item) => !i.archived);
    RowsOfActive(active, quick);
    forall i | i in items && !i.archived
      ensures exists r :: r in Deduplicate(items) && KeyOf(r, quick) == KeyOf(i, quick)
    {
      assert i in active;
    }
  }

  lemma RowsOfActive(active: seq<Item>, quick: map<string, Latest>)
    ensures var rows := NewestFirst(RowsFor(active, quick, KeysInOrder(active, quick)));
      && SortedNewestFirst(rows) && DistinctKeys(rows, quick)
      && (forall r :: r in rows ==> FromItems(active, r))
      && (forall i :: i in active ==> exists r :: r in rows && KeyOf(r, quick) == KeyOf(i, quick))
  {
    var keys := KeysInOrder(active, quick);
    var pre := RowsFor(active, quick, keys);
    KeysAreGroups(active, quick);
    RowsForKeys(active, quick, keys);
    NewestFirstPermutes(pre);
    NewestFirstSorts(pre);
    PermutedKeys(pre, NewestFirst(pre), quick);
    SameMembers(NewestFirst(pre), pre);
    forall i | i in active ensures exists r :: r in pre && KeyOf(r, quick) == KeyOf(i, quick) {
      RowForItem(active, quick, i);
    }
  }

  lemma RowForItem(active: seq<Item>, quick: map<string, Latest>, i: Item)
    requires i in active
    ensures exists r :: r in RowsFor(active, quick, KeysInOrder(active, quick)) && KeyOf(r, quick) == KeyOf(i, quick)
  {
    var keys := KeysInOrder(active, quick);
    KeyListed(active, quick, i);
    RowsForKeys(active, quick, keys);
    var rows := RowsFor(active, quick, keys);
    var n :| 0 <= n < |keys| && keys[n] == KeyOf(i, quick);
    assert rows[n] in rows && KeyOf(rows[n], quick) == KeyOf(i, quick);
  }

  lemma {:induction false} KeyListed(items: seq<Item>, quick: map<string, Latest>, i: Item)
    requires i in items
    ensures KeyOf(i, quick) in KeysInOrder(items, quick)
  {
    if i != items[|items| - 1] { KeyListed(items[..|items| - 1], quick, i); }
  }

  lemma SameMembers(a: seq<Item>, b: seq<Item>)
    requires multiset(a) == multiset(b)
    ensures forall i :: i in a <==> i in b
  {
    forall i ensures i in a <==> i in b {
      assert i in a <==> i in multiset(a);
      assert i in b <==> i in multiset(b);
    }
  }

  // ----- which item a row shows, and which comment it opens

  lemma {:induction false} FindIsNewest(sorted: seq<Item>, p: Item -> bool)
    requires SortedNewestFirst(sorted)
    ensures Find(sorted, p).Some? ==> forall i :: i in sorted && p(i) ==> i.createdAt <= Find(sorted, p).value.createdAt
  {
    if sorted != [] && !p(sorted[0]) {
      assert SortedNewestFirst(sorted[1..]);
      FindIsNewest(sorted[1..], p);
    }
  }

  lemma SortedGroup(group: seq<Item>)
    ensures SortedNewestFirst(NewestFirst(group)) && (group != [] ==> NewestFirst(group) != [])
    ensures forall i :: i in NewestFirst(group) <==> i in group
  {
    NewestFirstSorts(group);
    NewestFirstPermutes(group);
    SameMembers(NewestFirst(group), group);
  }

  /** The newest quick-create result of the group is a success. */
  predicate RetryWon(group: seq<Item>)
  {
    var results := NewestFirst(Where(group, IsQuickResult));
    results != [] && results[0].kind.QuickCreateDone?
  }

  /** Which items are shown before newer ones. */
  function Contender(group: seq<Item>): Item -> bool { if RetryWon(group) then Pending else UnreadAction }

  lemma SurfacedIs(group: seq<Item>)
    requires group != [] && NewestFirst(group) != []
    ensures var sorted, pick := NewestFirst(group), Find(NewestFirst(group), Contender(group));
      Surfaced(sorted) == (if pick.Some? then pick.value else sorted[0])
  {
    ActionIs(NewestFirst(group));
    FindInSorted(group, IsQuickResult);
  }

  lemma ShownIsContender(group: seq<Item>)
    requires group != [] && NewestFirst(group) != [] && UnreadAction(Surfaced(NewestFirst(group)))
    ensures Find(NewestFirst(group), Contender(group)) == Some(Surfaced(NewestFirst(group)))
  {
    ActionIs(NewestFirst(group));
    FindInSorted(group, IsQuickResult);
    ShownActionWasPicked(NewestFirst(group));
  }

  /** The row shows an unread action exactly when the group has one that is not a failed attempt, or is one while no
      newer attempt succeeded. Among several the newest is shown, in the order of the sort; without any, the newest
      item. */
  lemma SurfacedExactly(group: seq<Item>)
    requires group != [] && NewestFirst(group) != []
    ensures var s, first := Surfaced(NewestFirst(group)), NewestFirst(Where(group, Contender(group)));
      && s == (if first != [] then first[0] else NewestFirst(group)[0])
      && (!s.read && s.severity.ActionRequired? <==>
            exists i :: i in group && !i.read && i.severity.ActionRequired?
              && (i.kind.QuickCreateFailed? ==> !RetryWon(group)))
  {
    hide Surfaced;
    var sorted := NewestFirst(group);
    SortedGroup(group);
    SurfacedIs(group);
    FindInSorted(group, Contender(group));
    FindIsMember(sorted, Contender(group));
    if UnreadAction(Surfaced(sorted)) { ShownIsContender(group); }
  }

  /** Nothing newer than the row is of its rank. */
  lemma SurfacedIsNewest(group: seq<Item>)
    requires group != [] && NewestFirst(group) != []
    ensures var s := Surfaced(NewestFirst(group));
      && s in group
      && (UnreadAction(s) ==> forall i :: i in group && Contender(group)(i) ==> i.createdAt <= s.createdAt)
      && (!UnreadAction(s) ==> forall i :: i in group ==> i.createdAt <= s.createdAt)
  {
    hide Surfaced, RetryWon;
    var sorted := NewestFirst(group);
    SortedGroup(group);
    SurfacedIs(group);
    FindIsMember(sorted, Contender(group));
    FindIsNewest(sorted, Contender(group));
    if UnreadAction(Surfaced(sorted)) { ShownIsContender(group); }
  }

  predicate HasComment(i: Item) { Truthy(CommentOf(i)) }

  ghost predicate NewestComment(group: seq<Item>, h: Item)
  {
    h in group && HasComment(h) && forall i :: i in group && HasComment(i) ==> i.createdAt <= h.createdAt
  }

  /** The row keeps the item it shows. */
  predicate KeepsItem(s: Item) { s.severity.ActionRequired? || CommentOf(s).Some? }

  lemma RowShape(group: seq<Item>)
    requires group != [] && NewestFirst(group) != []
    ensures var s, h := Surfaced(NewestFirst(group)), Find(NewestFirst(group), HasComment);
      Row(group) == if KeepsItem(s) || h.None? then s else WithComment(s, Or(CommentOf(h.value), ""))
  {
    var sorted := NewestFirst(group);
    FindIsMember(sorted, HasComment);
    if !KeepsItem(Surfaced(sorted)) { AnchorIs(sorted); }
  }

  /** A row differs from the item it shows only when that item is no action and carries no comment itself; then it
      opens the newest comment of its group, and stays as it is when there is none. */
  lemma AnchorExactly(group: seq<Item>)
    requires group != [] && NewestFirst(group) != []
    ensures var s, r := Surfaced(NewestFirst(group)), Row(group);
      if KeepsItem(s) || forall i :: i in group ==> !HasComment(i) then r == s
      else exists h :: NewestComment(group, h) && r == WithComment(s, CommentOf(h).value)
  {
    hide Row, Surfaced, WithComment;
    var sorted := NewestFirst(group);
    SortedGroup(group);
    FindIsMember(sorted, HasComment);
    FindIsNewest(sorted, HasComment);
    RowShape(group);
    var h := Find(sorted, HasComment);
    if h.Some? { assert NewestComment(group, h.value); }
  }

  lemma AnchorIs(sorted: seq<Item>)
    requires sorted != [] && !Surfaced(sorted).severity.ActionRequired? && CommentOf(Surfaced(sorted)).None?
    ensures CommentAnchor(sorted) == var h := Find(sorted, HasComment); if h.Some? then CommentOf(h.value) else None
  {
    FindSame(sorted, (i: Item) => Truthy(CommentOf(i)), HasComment);
  }

  lemma {:induction false} FindSame(items: seq<Item>, p: Item -> bool, q: Item -> bool)
    requires forall i :: p(i) == q(i)
    ensures Find(items, p) == Find(items, q)
  {
    if items != [] { FindSame(items[1..], p, q); }
  }

  // ----- one row per key is not one row per target

  function Route(i: Item, quick: map<string, Latest>): Option<string>
  {
    var k := QuickKey(i);
    if k.Some? && k.value in quick then Some(quick[k.value].issueId) else None
  }

  /** Two items about the same target, where an attempt that led anywhere led to that target. They share a row
      exactly when both or neither are results of such an attempt: the result of a quick create and any other
      notification about the issue it created always make two rows. */
  lemma SameTargetSameRowExactly(a: Item, b: Item, quick: map<string, Latest>)
    requires Truthy(a.targetId) && a.targetId == b.targetId && a.targetType == b.targetType
    requires Route(a, quick).Some? ==> Route(a, quick) == a.targetId
    requires Route(b, quick).Some? ==> Route(b, quick) == b.targetId
    ensures KeyOf(a, quick) == KeyOf(b, quick) <==> (Route(a, quick).Some? <==> Route(b, quick).Some?)
  {
    var typed := TypeOf(a) + ":" + a.targetId.value;
    assert |typed| > |a.targetId.value|;
  }

  // ----- what a key tells apart

  /** What a quick create is an attempt at: somebody's prompt. */
  datatype Attempt = Attempt(agent: string, prompt: string)

  /** The agent of the details, else the actor of the notification, else nobody. */
  function AgentOf(i: Item): string
  {
    if i.details.Some? && i.details.value.agentId.Some? then i.details.value.agentId.value
    else if i.actorId.Some? then i.actorId.value else ""
  }

  function AttemptOf(i: Item): Option<Attempt>
  {
    if (i.kind.QuickCreateDone? || i.kind.QuickCreateFailed?) && Truthy(PromptOf(i))
    then Some(Attempt(AgentOf(i), PromptOf(i).value)) else None
  }

  /** What an item is about, not yet written as a string. */
  datatype Label = Plainly(id: string) | Typed(kind: string, id: string) | Tried(attempt: Attempt)

  /** A routed attempt is about what it made; else an item is about its target, its issue, its attempt, or itself. */
  function LabelOf(i: Item, quick: map<string, Latest>): Label
  {
    if Route(i, quick).Some? then Plainly(Route(i, quick).value)
    else if Truthy(i.targetId) then Typed(if i.targetType.Some? then i.targetType.value else "issue", i.targetId.value)
    else if i.issueId.Some? then Plainly(i.issueId.value)
    else if AttemptOf(i).Some? then Tried(AttemptOf(i).value)
    else Plainly(i.id)
  }

  predicate ColonFree(s: string) { ':' !in s }

  /** Ids, target types and agents without colons; prompts are free text. */
  predicate Plain(l: Label)
  {
    match l
    case Plainly(id) => ColonFree(id)
    case Typed(kind, id) => ColonFree(kind) && ColonFree(id)
    case Tried(attempt) => ColonFree(attempt.agent)
  }

  function Written(l: Label): string
  {
    match l
    case Plainly(id) => id
    case Typed(kind, id) => kind + ":" + id
    case Tried(attempt) => "quick-create:" + attempt.agent + ":" + attempt.prompt
  }

  /** Text before the first colon and text behind it. */
  lemma SplitAtColon(a: string, x: string, b: string, y: string)
    requires ColonFree(a) && ColonFree(b) && a + ":" + x == b + ":" + y
    ensures a == b && x == y
  {
    var s := a + ":" + x;
    FirstColon(a, x);
    FirstColon(b, y);
    assert |a| == |b|;
    assert a == s[..|a|] && x == s[|a| + 1..];
    assert b == s[..|b|] && y == s[|b| + 1..];
  }

  lemma FirstColon(a: string, x: string)
    requires ColonFree(a)
    ensures var s := a + ":" + x; s[|a|] == ':' && forall i :: 0 <= i < |a| ==> s[i] != ':'
  {
  }

  lemma AttemptIsWritten(a: Attempt)
    ensures Written(Tried(a)) == "quick-create" + ":" + (a.agent + ":" + a.prompt)
    ensures ColonFree("quick-create")
  {
    assert "quick-create:" == "quick-create" + ":";
  }

  /** Two quick-create results have the same key exactly when they are attempts of the same agent at the same prompt. */
  lemma QuickKeyExactly(a: Item, b: Item)
    requires AttemptOf(a).Some? && AttemptOf(b).Some? && ColonFree(AgentOf(a)) && ColonFree(AgentOf(b))
    ensures QuickKey(a).Some? && QuickKey(b).Some?
    ensures QuickKey(a) == QuickKey(b) <==> AgentOf(a) == AgentOf(b) && PromptOf(a) == PromptOf(b)
  {
    KeyIsWritten(a);
    KeyIsWritten(b);
    hide QuickKey;
    if QuickKey(a) == QuickKey(b) { WrittenApart(Tried(AttemptOf(a).value), Tried(AttemptOf(b).value)); }
  }

  lemma KeyIsWritten(i: Item)
    ensures QuickKey(i) == if AttemptOf(i).Some? then Some(Written(Tried(AttemptOf(i).value))) else None
  {
  }

  lemma WrittenApart(l: Label, m: Label)
    requires Plain(l) && Plain(m) && Written(l) == Written(m)
    ensures l == m
  {
    if l.Tried? { AttemptIsWritten(l.attempt); }
    if m.Tried? { AttemptIsWritten(m.attempt); }
    if l.Plainly? || m.Plainly? {
      ColonShows(l);
      ColonShows(m);
    } else if l.Tried? && m.Tried? {
      var x, y := l.attempt.agent + ":" + l.attempt.prompt, m.attempt.agent + ":" + m.attempt.prompt;
      SplitAtColon("quick-create", x, "quick-create", y);
      SplitAtColon(l.attempt.agent, l.attempt.prompt, m.attempt.agent, m.attempt.prompt);
    } else if l.Tried? {
      NoTargetIsTried(m, l.attempt);
    } else if m.Tried? {
      NoTargetIsTried(l, m.attempt);
    } else {
      SplitAtColon(l.kind, l.id, m.kind, m.id);
    }
  }

  lemma NoTargetIsTried(l: Label, attempt: Attempt)
    requires l.Typed? && Plain(l)
    ensures Written(l) != Written(Tried(attempt))
  {
    AttemptIsWritten(attempt);
    var behind := attempt.agent + ":" + attempt.prompt;
    assert behind[|attempt.agent|] == ':';
    if Written(l) == Written(Tried(attempt)) { SplitAtColon(l.kind, l.id, "quick-create", behind); }
  }

  lemma ColonShows(l: Label)
    requires Plain(l)
    ensures ColonFree(Written(l)) <==> l.Plainly?
  {
    match l
    case Plainly(id) =>
    case Typed(kind, id) => assert Written(l)[|kind|] == ':';
    case Tried(attempt) => assert Written(l)[|"quick-create"|] == ':';
  }

  /** Two items share a row exactly when they are about the same thing, in the order of the labels. */
  lemma SameRowExactly(a: Item, b: Item, quick: map<string, Latest>)
    requires Plain(LabelOf(a, quick)) && Plain(LabelOf(b, quick))
    ensures KeyOf(a, quick) == KeyOf(b, quick) <==> LabelOf(a, quick) == LabelOf(b, quick)
  {
    KeyOfIsWritten(a, quick);
    KeyOfIsWritten(b, quick);
    hide KeyOf, LabelOf;
    if KeyOf(a, quick) == KeyOf(b, quick) { WrittenApart(LabelOf(a, quick), LabelOf(b, quick)); }
  }

  lemma KeyOfIsWritten(i: Item, quick: map<string, Latest>)
    ensures KeyOf(i, quick) == Written(LabelOf(i, quick))
  {
    KeyIsWritten(i);
  }

  /** An attempt that succeeded and says what it made. */
  predicate Succeeded(i: Item, attempt: Attempt)
  {
    i.kind.QuickCreateDone? && AttemptOf(i) == Some(attempt) && Truthy(Made(i))
  }

  function Made(i: Item): Option<string> { if i.targetId.Some? then i.targetId else i.issueId }

  /** Agents of attempts have no colon. */
  predicate PlainAgents(items: seq<Item>)
  {
    forall i :: i in items && AttemptOf(i).Some? ==> ColonFree(AgentOf(i))
  }

  /** An item is routed exactly when it is an attempt of an agent at a prompt, and one of that agent at that prompt
      succeeded; and then to what the newest of these made. A failure of another prompt goes nowhere. */
  lemma RoutedExactly(items: seq<Item>, i: Item)
    requires i in items && PlainAgents(items)
    ensures Route(i, QuickTargets(items)).Some? <==>
      AttemptOf(i).Some? && exists j :: j in items && Succeeded(j, AttemptOf(i).value)
    ensures Route(i, QuickTargets(items)).Some? ==>
      exists j :: j in items && Succeeded(j, AttemptOf(i).value) && Made(j) == Route(i, QuickTargets(items))
        && forall k :: k in items && Succeeded(k, AttemptOf(i).value) ==> k.createdAt <= j.createdAt
  {
    KeyIsWritten(i);
    if AttemptOf(i).Some? {
      var k := QuickKey(i).value;
      forall j | j in items ensures Teaches(j, k) <==> Succeeded(j, AttemptOf(i).value) { TeachesExactly(i, j); }
      RoutedToNewest(items, k);
      if k in QuickTargets(items) {
        var n :| 0 <= n < |items| && RoutesTo(items, k, n);
        assert items[n] in items;
        forall j | j in items && Succeeded(j, AttemptOf(i).value) ensures j.createdAt <= items[n].createdAt {
          var m :| 0 <= m < |items| && items[m] == j;
        }
      }
    }
  }

  lemma TeachesExactly(i: Item, j: Item)
    requires AttemptOf(i).Some? && ColonFree(AgentOf(i)) && (AttemptOf(j).Some? ==> ColonFree(AgentOf(j)))
    ensures QuickKey(i).Some?
    ensures Teaches(j, QuickKey(i).value) <==> Succeeded(j, AttemptOf(i).value)
  {
    KeyIsWritten(i);
    KeyIsWritten(j);
    if AttemptOf(j).Some? { QuickKeyExactly(i, j); }
  }

  /** One agent failed at one prompt and succeeded at another: the failure keeps a row of its own. */
  lemma OtherPromptStaysApart(failed: Item, done: Item)
    requires failed.kind.QuickCreateFailed? && AttemptOf(failed).Some?
    requires !Truthy(failed.targetId) && failed.issueId.None?
    requires done.kind.QuickCreateDone? && AttemptOf(done).Some?
    requires Truthy(done.targetId) && ColonFree(done.targetId.value)
    requires AgentOf(failed) == AgentOf(done) && ColonFree(AgentOf(done)) && PromptOf(failed) != PromptOf(done)
    ensures var quick := QuickTargets([failed, done]);
      Route(done, quick) == done.targetId && KeyOf(failed, quick) != KeyOf(done, quick)
  {
    hide QuickTargets, KeyOf, Route;
    var items := [failed, done];
    RoutedExactly(items, failed);
    RoutedExactly(items, done);
    assert Succeeded(done, AttemptOf(done).value) && done in items;
    SameRowExactly(failed, done, QuickTargets(items));
  }

  const CREATED := Item("1", QuickCreateDone, Info, None, Some("x"), Some("issue"), Some("x"), false, false, 1,
                        Some(Details(Some("fix it"), None, None, "")), "created")
  const COMMENTED := Item("2", OtherType("comment"), Info, None, Some("x"), Some("issue"), Some("x"), false, false, 2,
    None, "commented")

  lemma ExampleTargets()
    ensures Active([CREATED, COMMENTED]) == [CREATED, COMMENTED]
    ensures Route(CREATED, QuickTargets([CREATED, COMMENTED])) == Some("x")
  {
    ExampleActive();
    ExampleLearned();
    QuickSnoc([], CREATED);
    QuickSnoc([CREATED], COMMENTED);
    hide LearnQuickKey, QuickKey, Active;
    assert [] + [CREATED] == [CREATED] && [CREATED] + [COMMENTED] == [CREATED, COMMENTED];
  }

  lemma ExampleLearned()
    ensures forall known :: LearnQuickKey(known, COMMENTED) == known
    ensures Route(CREATED, LearnQuickKey(map[], CREATED)) == Some("x")
  {
  }

  lemma QuickSnoc(items: seq<Item>, i: Item)
    ensures QuickTargets(items + [i]) == LearnQuickKey(QuickTargets(items), i)
  {
    assert (items + [i])[..|items|] == items;
  }

  lemma ExampleActive()
    ensures Active([CREATED, COMMENTED]) == [CREATED, COMMENTED]
  {
    var live := (i: Item) => !i.archived;
    WhereSnoc([], CREATED, live);
    WhereSnoc([CREATED], COMMENTED, live);
    assert [] + [CREATED] == [CREATED] && [CREATED] + [COMMENTED] == [CREATED, COMMENTED];
  }

  /** Items about one target alone, with two that have different keys, make two rows for it. */
  lemma TwoRowsForTarget(items: seq<Item>, a: Item, b: Item, target: string) returns (r: Item, q: Item)
    requires a in items && b in items && !a.archived && !b.archived
    requires KeyOf(a, QuickTargets(Active(items))) != KeyOf(b, QuickTargets(Active(items)))
    requires forall i :: i in items ==> i.targetId == Some(target)
    ensures r in Deduplicate(items) && q in Deduplicate(items) && r != q && r.targetId == q.targetId == Some(target)
  {
    hide KeyOf, Deduplicate, QuickTargets, Active;
    r := RowWithKey(items, a);
    q := RowWithKey(items, b);
    var i := ItemOfRow(items, r);
    var j := ItemOfRow(items, q);
  }

  lemma RowWithKey(items: seq<Item>, i: Item) returns (r: Item)
    requires i in items && !i.archived
    ensures r in Deduplicate(items) && KeyOf(r, QuickTargets(Active(items))) == KeyOf(i, QuickTargets(Active(items)))
  {
    hide KeyOf, Deduplicate, QuickTargets, Active, SameButComment;
    OneRowPerKey(items);
    r :| r in Deduplicate(items) && KeyOf(r, QuickTargets(Active(items))) == KeyOf(i, QuickTargets(Active(items)));
  }

  lemma ItemOfRow(items: seq<Item>, r: Item) returns (i: Item)
    requires r in Deduplicate(items)
    ensures i in items && !i.archived && SameButComment(r, i)
  {
    hide KeyOf, Deduplicate, QuickTargets, Active, SameButComment;
    OneRowPerKey(items);
    i :| i in items && !i.archived && SameButComment(r, i);
  }

  /** An issue made by a quick create and then commented on: two rows for one issue. */
  lemma CreatedIssueHasTwoRows() returns (r: Item, q: Item)
    ensures r in Deduplicate([CREATED, COMMENTED]) && q in Deduplicate([CREATED, COMMENTED])
    ensures r != q && r.targetId == q.targetId == Some("x")
  {
    hide KeyOf, Deduplicate, QuickTargets, Active;
    ExampleTargets();
    SameTargetSameRowExactly(CREATED, COMMENTED, QuickTargets([CREATED, COMMENTED]));
    r, q := TwoRowsForTarget([CREATED, COMMENTED], CREATED, COMMENTED, "x");
  }

  // ----- an action stays surfaced

  lemma {:induction false} FindSnoc(items: seq<Item>, i: Item, p: Item -> bool)
    ensures Find(items + [i], p) == if Find(items, p).Some? then Find(items, p) else if p(i) then Some(i) else None
  {
    if items == [] {
      assert Find([i][1..], p) == None;
    } else {
      assert (items + [i])[1..] == items[1..] + [i];
      FindSnoc(items[1..], i, p);
    }
  }

  lemma {:induction false} FindIsHead(items: seq<Item>, p: Item -> bool)
    ensures Find(items, p) == if Where(items, p) == [] then None else Some(Where(items, p)[0])
  {
    if items != [] {
      var init, last := items[..|items| - 1], items[|items| - 1];
      assert items == init + [last];
      FindIsHead(init, p);
      FindSnoc(init, last, p);
    }
  }

  lemma {:induction false} WhereTwice(items: seq<Item>, p: Item -> bool, q: Item -> bool, both: Item -> bool)
    requires forall i :: both(i) <==> p(i) && q(i)
    ensures Where(Where(items, p), q) == Where(items, both)
  {
    if items != [] {
      var init, last := items[..|items| - 1], items[|items| - 1];
      WhereTwice(init, p, q, both);
      if p(last) { WhereSnoc(Where(init, p), last, q); } else { assert Where(items, p) == Where(init, p); }
    }
  }

  lemma {:induction false} WhereConcat(a: seq<Item>, b: seq<Item>, p: Item -> bool)
    ensures Where(a + b, p) == Where(a, p) + Where(b, p)
  {
    if b == [] {
      assert a + b == a;
    } else {
      var init, last := b[..|b| - 1], b[|b| - 1];
      assert a + b == (a + init) + [last];
      WhereSnoc(a + init, last, p);
      WhereConcat(a, init, p);
    }
  }

  lemma WhereIgnores(a: seq<Item>, x: seq<Item>, b: seq<Item>, p: Item -> bool)
    requires forall i :: i in x ==> !p(i)
    ensures Where(a + x + b, p) == Where(a + b, p)
  {
    WhereConcat(a + x, b, p);
    WhereConcat(a, x, p);
    WhereConcat(a, b, p);
    WhereNone(x, p);
  }

  lemma {:induction false} WhereNone(items: seq<Item>, p: Item -> bool)
    requires forall i :: i in items ==> !p(i)
    ensures Where(items, p) == []
  {
    if items != [] { WhereNone(items[..|items| - 1], p); }
  }

  lemma FindInSorted(items: seq<Item>, p: Item -> bool)
    ensures var picked := NewestFirst(Where(items, p));
      Find(NewestFirst(items), p) == if picked == [] then None else Some(picked[0])
  {
    FindIsHead(NewestFirst(items), p);
    WhereOfSort(items, p);
  }

  /** What a predicate picks is not affected by items it does not pick. */
  lemma FindIgnores(a: seq<Item>, x: seq<Item>, b: seq<Item>, p: Item -> bool)
    requires forall i :: i in x ==> !p(i)
    ensures Find(NewestFirst(a + x + b), p) == Find(NewestFirst(a + b), p)
  {
    WhereIgnores(a, x, b, p);
    FindInSorted(a + x + b, p);
    FindInSorted(a + b, p);
  }

  function Action(sorted: seq<Item>): Option<Item> { Find(Candidates(sorted), UnreadAction) }

  predicate Pending(i: Item) { !i.kind.QuickCreateFailed? && UnreadAction(i) }

  lemma ActionIs(sorted: seq<Item>)
    ensures var quick := Find(sorted, IsQuickResult);
      var won := quick.Some? && quick.value.kind.QuickCreateDone?;
      Action(sorted) == if won then Find(sorted, Pending) else Find(sorted, UnreadAction)
  {
    var notFailed := (i: Item) => !i.kind.QuickCreateFailed?;
    WhereTwice(sorted, notFailed, UnreadAction, Pending);
    FindIsHead(Where(sorted, notFailed), UnreadAction);
    FindIsHead(sorted, Pending);
  }

  /** If the row shows an unread action, it was picked as one. */
  lemma ShownActionWasPicked(sorted: seq<Item>)
    requires sorted != [] && UnreadAction(Surfaced(sorted))
    ensures Action(sorted) == Some(Surfaced(sorted))
  {
    FindIsMember(Candidates(sorted), UnreadAction);
    WhereMembers(sorted, (i: Item) => !i.kind.QuickCreateFailed?);
    if Action(sorted).None? && sorted[0].kind.QuickCreateFailed? {
      assert Find(sorted, IsQuickResult) == Some(sorted[0]);
    }
  }

  /** A group that shows an unread action keeps its row when other items that are neither actions nor
      quick-create results join it anywhere. */
  lemma GroupKeepsAction(a: seq<Item>, x: seq<Item>, b: seq<Item>)
    requires a + b != [] && UnreadAction(Surfaced(NewestFirst(a + b))) && NewestFirst(a + b) != []
    requires forall i :: i in x ==> !i.severity.ActionRequired? && !IsQuickResult(i)
    ensures a + x + b != [] && Row(a + x + b) == Row(a + b)
  {
    NewestFirstPermutes(a + x + b);
    FindIgnores(a, x, b, IsQuickResult);
    FindIgnores(a, x, b, UnreadAction);
    FindIgnores(a, x, b, Pending);
    ActionIs(NewestFirst(a + b));
    ActionIs(NewestFirst(a + x + b));
    ShownActionWasPicked(NewestFirst(a + b));
  }

  lemma {:induction false} QuickTargetsIgnore(a: seq<Item>, x: Item, b: seq<Item>)
    requires !IsQuickResult(x)
    ensures QuickTargets(a + [x] + b) == QuickTargets(a + b)
  {
    hide QuickTargets, LearnQuickKey;
    if b == [] {
      assert a + [x] + b == a + [x] && a + b == a;
      QuickSnoc(a, x);
      NotLearned(QuickTargets(a), x);
    } else {
      var init, last := b[..|b| - 1], b[|b| - 1];
      QuickTargetsIgnore(a, x, init);
      QuickSnoc(a + [x] + init, last);
      QuickSnoc(a + init, last);
      assert a + [x] + b == (a + [x] + init) + [last] && a + b == (a + init) + [last];
    }
  }

  lemma NotLearned(known: map<string, Latest>, x: Item)
    requires !IsQuickResult(x)
    ensures LearnQuickKey(known, x) == known
  {
  }

  /** A new item that is neither action-required nor a quick-create result, wherever it arrives, leaves alone the
      row of every group that already shows an unread action. */
  lemma ActionStaysSurfaced(a: seq<Item>, x: Item, b: seq<Item>, k: string)
    requires !x.archived && !x.severity.ActionRequired? && !IsQuickResult(x)
    requires var active := Active(a + b);
      && GroupOf(active, QuickTargets(active), k) != []
      && NewestFirst(GroupOf(active, QuickTargets(active), k)) != []
      && UnreadAction(Surfaced(NewestFirst(GroupOf(active, QuickTargets(active), k))))
    ensures var active, active' := Active(a + b), Active(a + [x] + b);
      && GroupOf(active', QuickTargets(active'), k) != []
      && Row(GroupOf(active', QuickTargets(active'), k)) == Row(GroupOf(active, QuickTargets(active), k))
  {
    hide KeyOf, QuickTargets, Row, Surfaced, NewestFirst, Active;
    ActiveParts(a, x, b);
    var l, r := Active(a), Active(b);
    QuickTargetsIgnore(l, x, r);
    var quick := QuickTargets(l + r);
    var mine := (i: Item) => KeyOf(i, quick) == k;
    GroupParts(l, x, r, quick, k);
    WhereMembers([x], mine);
    GroupKeepsAction(Where(l, mine), Where([x], mine), Where(r, mine));
  }

  lemma ActiveParts(a: seq<Item>, x: Item, b: seq<Item>)
    requires !x.archived
    ensures Active(a + b) == Active(a) + Active(b)
    ensures Active(a + [x] + b) == Active(a) + [x] + Active(b)
  {
    var live := (i: Item) => !i.archived;
    WhereConcat(a, b, live);
    WhereConcat(a + [x], b, live);
    WhereSnoc(a, x, live);
  }

  lemma GroupParts(l: seq<Item>, x: Item, r: seq<Item>, quick: map<string, Latest>, k: string)
    ensures var mine := (i: Item) => KeyOf(i, quick) == k;
      && GroupOf(l + r, quick, k) == Where(l, mine) + Where(r, mine)
      && GroupOf(l + [x] + r, quick, k) == Where(l, mine) + Where([x], mine) + Where(r, mine)
  {
    hide KeyOf;
    var mine := (i: Item) => KeyOf(i, quick) == k;
    WhereConcat(l, r, mine);
    WhereConcat(l + [x], r, mine);
    WhereConcat(l, [x], mine);
  }

  lemma RowShowsAction(group: seq<Item>)
    requires group != [] && NewestFirst(group) != []
    ensures UnreadAction(Row(group)) <==> UnreadAction(Surfaced(NewestFirst(group)))
  {
  }

  lemma RowIsListed(active: seq<Item>, quick: map<string, Latest>, k: string)
    requires k in KeysInOrder(active, quick)
    ensures RowOf(active, quick, k) in NewestFirst(RowsFor(active, quick, KeysInOrder(active, quick)))
  {
    hide RowOf;
    var keys := KeysInOrder(active, quick);
    var n :| 0 <= n < |keys| && keys[n] == k;
    var rows := RowsFor(active, quick, keys);
    assert rows[n] == RowOf(active, quick, k) && rows[n] in rows;
    SortedGroup(rows);
  }

  lemma ListedHasKey(active: seq<Item>, quick: map<string, Latest>, r: Item) returns (k: string)
    requires r in NewestFirst(RowsFor(active, quick, KeysInOrder(active, quick)))
    ensures k in KeysInOrder(active, quick) && r == RowOf(active, quick, k)
  {
    hide RowOf;
    var keys := KeysInOrder(active, quick);
    var rows := RowsFor(active, quick, keys);
    SortedGroup(rows);
    var n :| 0 <= n < |rows| && rows[n] == r;
    k := keys[n];
  }

  /** In the list itself: every row that shows an unread action is still there, unchanged, after such an arrival. */
  lemma ActionRowsStay(a: seq<Item>, x: Item, b: seq<Item>, r: Item)
    requires !x.archived && !x.severity.ActionRequired? && !IsQuickResult(x)
    requires r in Deduplicate(a + b) && UnreadAction(r)
    ensures r in Deduplicate(a + [x] + b)
  {
    hide Row, Surfaced;
    var active, active' := Active(a + b), Active(a + [x] + b);
    var quick, quick' := QuickTargets(active), QuickTargets(active');
    var k := ListedHasKey(active, quick, r);
    GroupIsNotEmpty(active, quick, k);
    var group := GroupOf(active, quick, k);
    SortedGroup(group);
    RowShowsAction(group);
    ActionStaysSurfaced(a, x, b, k);
    SomeKey(active', quick', k);
    RowIsListed(active', quick', k);
  }

  lemma SomeKey(active: seq<Item>, quick: map<string, Latest>, k: string)
    requires GroupOf(active, quick, k) != []
    ensures k in KeysInOrder(active, quick)
  {
    var group := GroupOf(active, quick, k);
    WhereMembers(active, (i: Item) => KeyOf(i, quick) == k);
    assert group[0] in group;
    KeyListed(active, quick, group[0]);
  }

  // ----- the method

  method QuickCreateIssueKeys(active: seq<Item>) returns (quick: map<string, Latest>)
    ensures quick == QuickTargets(active)
  {
    quick := map[];
    var n := 0;
    while n < |active|
      invariant 0 <= n <= |active|
      invariant quick == QuickTargets(active[..n])
    {
      assert active[..n + 1][..n] == active[..n];
      var item := active[n];
      var target := Coalesce(item.targetId, item.issueId);
      if item.kind.QuickCreateDone? && Truthy(target) && Truthy(PromptOf(item)) {
        var quickKey := QuickKey(item).value;
        if quickKey !in quick || item.createdAt > quick[quickKey].createdAt {
          quick := quick[quickKey := Latest(target.value, item.createdAt)];
        }
      }
      n := n + 1;
    }
    assert active[..n] == active;
  }

  ghost predicate GroupedSoFar(groups: map<string, seq<Item>>, seen: seq<Item>, quick: map<string, Latest>)
  {
    forall k :: (if k in groups then groups[k] else []) == GroupOf(seen, quick, k)
  }

  lemma GroupOne(groups: map<string, seq<Item>>, active: seq<Item>, n: nat, quick: map<string, Latest>)
    requires n < |active| && GroupedSoFar(groups, active[..n], quick)
    ensures var key := KeyOf(active[n], quick);
      GroupedSoFar(groups[key := (if key in groups then groups[key] else []) + [active[n]]], active[..n + 1], quick)
  {
    var key := KeyOf(active[n], quick);
    var groups' := groups[key := (if key in groups then groups[key] else []) + [active[n]]];
    forall k ensures (if k in groups' then groups'[k] else []) == GroupOf(active[..n + 1], quick, k) {
      GroupSnoc(active, n, quick, k);
    }
  }

  lemma EmptyGroups(quick: map<string, Latest>)
    ensures GroupedSoFar(map[], [], quick)
  {
  }

  /** The groups, and their keys in insertion order. */
  method GroupItems(active: seq<Item>, quick: map<string, Latest>)
    returns (keys: seq<string>, groups: map<string, seq<Item>>)
    ensures keys == KeysInOrder(active, quick)
    ensures forall k :: k in keys <==> k in groups
    ensures forall k :: k in groups ==> groups[k] == GroupOf(active, quick, k)
  {
    hide KeyOf, GroupOf;
    keys, groups := [], map[];
    var n := 0;
    EmptyGroups(quick);
    while n < |active|
      invariant 0 <= n <= |active|
      invariant keys == KeysInOrder(active[..n], quick)
      invariant forall k :: k in keys <==> k in groups
      invariant GroupedSoFar(groups, active[..n], quick)
    {
      assert active[..n + 1][..n] == active[..n];
      GroupOne(groups, active, n, quick);
      var key := KeyOf(active[n], quick);
      var group := if key in groups then groups[key] else [];
      if key !in groups { keys := keys + [key]; }
      groups := groups[key := group + [active[n]]];
      n := n + 1;
    }
    assert active[..n] == active;
  }

  lemma GroupSnoc(active: seq<Item>, n: nat, quick: map<string, Latest>, k: string)
    requires n < |active|
    ensures GroupOf(active[..n + 1], quick, k) ==
      GroupOf(active[..n], quick, k) + (if KeyOf(active[n], quick) == k then [active[n]] else [])
  {
    assert active[..n + 1][..n] == active[..n];
  }

  lemma RowsSnoc(items: seq<Item>, quick: map<string, Latest>, keys: seq<string>, n: nat)
    requires (forall k :: k in keys ==> k in KeysInOrder(items, quick)) && n < |keys|
    ensures forall k :: k in keys[..n] || k in keys[..n + 1] ==> k in keys
    ensures keys[n] in keys
    ensures RowsFor(items, quick, keys[..n + 1]) == RowsFor(items, quick, keys[..n]) + [RowOf(items, quick, keys[n])]
  {
    hide RowOf, KeysInOrder;
  }

  /** The deduplicated list of web and mobile alike. */
  method DeduplicateInboxItems(items: seq<Item>) returns (rows: seq<Item>)
    ensures rows == Deduplicate(items)
  {
    var active := Active(items);
    var quick := QuickCreateIssueKeys(active);
    var keys, groups := GroupItems(active, quick);
    var merged: seq<Item> := [];
    var n := 0;
    while n < |keys|
      invariant 0 <= n <= |keys| && (forall k :: k in keys[..n] ==> k in keys)
      invariant merged == RowsFor(active, quick, keys[..n])
    {
      assert keys[n] in keys;
      GroupIsNotEmpty(active, quick, keys[n]);
      RowsSnoc(active, quick, keys, n);
      merged := merged + [Row(groups[keys[n]])];
      n := n + 1;
    }
    assert keys[..n] == keys;
    rows := NewestFirst(merged);
  }

  // ----- what empty strings mean

  /** An empty target, prompt or comment counts as none. */
  lemma EmptyCountsAsNone(i: Item, quick: map<string, Latest>)
    ensures PromptOf(i) == Some("") ==> AttemptOf(i).None? && Route(i, quick).None?
    ensures i.targetId == Some("") && Route(i, quick).None? && i.issueId.Some? ==> KeyOf(i, quick) == i.issueId.value
    ensures CommentOf(i) == Some("") ==> !HasComment(i)
  {
  }
}
