/** What a write leaves alone: the other cards of every column, the other children of every parent. Said by places, so
    that a card can neither vanish, nor change, nor pass another one. */
module WhatStays {
  import opened IssueModel
  import opened CacheHelpers
  import opened Membership
  import opened RulesTable
  import opened Coordinator
  import opened Mutations

  // ----- columns, by places

  /** How many cards with another id stand before place `i`. */
  function Rank(cards: seq<Issue>, id: Id, i: nat): nat
    requires i <= |cards|
  {
    if i == 0 then 0 else Rank(cards, id, i - 1) + (if cards[i - 1].id == id then 0 else 1)
  }

  /** Every card with another id is still there, unchanged, with as many of its kind before it. */
  ghost predicate Keeps(a: seq<Issue>, b: seq<Issue>, id: Id)
  {
    forall i :: 0 <= i < |a| && a[i].id != id ==>
      exists k :: 0 <= k < |b| && b[k] == a[i] && Rank(b, id, k) == Rank(a, id, i)
  }

  /** The two columns hold exactly the same cards with other ids, in the same order. */
  ghost predicate SameOthers(a: seq<Issue>, b: seq<Issue>, id: Id) { Keeps(a, b, id) && Keeps(b, a, id) }

  lemma {:induction false} RankOfTail(cards: seq<Issue>, id: Id, i: nat)
    requires 0 < i <= |cards|
    ensures Rank(cards, id, i) == (if cards[0].id == id then 0 else 1) + Rank(cards[1..], id, i - 1)
  {
    if i > 1 { RankOfTail(cards, id, i - 1); }
  }

  lemma {:induction false} WithoutAt(cards: seq<Issue>, id: Id, i: nat)
    requires i < |cards| && cards[i].id != id
    ensures Rank(cards, id, i) < |Without(cards, id)| && Without(cards, id)[Rank(cards, id, i)] == cards[i]
  {
    hide Without, Rank;
    WithoutStep(cards, id);
    if i == 0 {
      RankAtStart(cards, id);
    } else {
      RankOfTail(cards, id, i);
      WithoutAt(cards[1..], id, i - 1);
    }
  }

  lemma {:induction false} WithoutFrom(cards: seq<Issue>, id: Id, n: nat) returns (i: nat)
    requires n < |Without(cards, id)|
    ensures i < |cards| && cards[i].id != id && cards[i] == Without(cards, id)[n] && Rank(cards, id, i) == n
  {
    hide Without, Rank;
    WithoutStep(cards, id);
    var first := if cards[0].id == id then 0 else 1;
    if n < first {
      i := 0;
      RankAtStart(cards, id);
    } else {
      var j := WithoutFrom(cards[1..], id, n - first);
      i := j + 1;
      RankOfTail(cards, id, i);
    }
  }

  lemma WithoutStep(cards: seq<Issue>, id: Id)
    ensures cards == [] ==> Without(cards, id) == []
    ensures cards != [] ==>
      Without(cards, id) == (if cards[0].id == id then [] else [cards[0]]) + Without(cards[1..], id)
  {
  }

  lemma RankAtStart(cards: seq<Issue>, id: Id)
    ensures Rank(cards, id, 0) == 0
  {
  }

  lemma SameFilterKeeps(a: seq<Issue>, b: seq<Issue>, id: Id)
    requires Without(a, id) == Without(b, id)
    ensures Keeps(a, b, id)
  {
    forall i | 0 <= i < |a| && a[i].id != id
      ensures exists k :: 0 <= k < |b| && b[k] == a[i] && Rank(b, id, k) == Rank(a, id, i)
    {
      WithoutAt(a, id, i);
      var k := WithoutFrom(b, id, Rank(a, id, i));
    }
  }

  lemma SameFilter(a: seq<Issue>, b: seq<Issue>, id: Id)
    requires Without(a, id) == Without(b, id)
    ensures SameOthers(a, b, id)
  {
    SameFilterKeeps(a, b, id);
    SameFilterKeeps(b, a, id);
  }

  lemma {:induction false} WithoutTwice(cards: seq<Issue>, id: Id)
    ensures Without(Without(cards, id), id) == Without(cards, id)
  {
    if cards != [] { WithoutTwice(cards[1..], id); }
  }

  lemma {:induction false} WithoutConcat(a: seq<Issue>, b: seq<Issue>, id: Id)
    ensures Without(a + b, id) == Without(a, id) + Without(b, id)
  {
    if a == [] {
      assert a + b == b;
    } else {
      assert (a + b)[1..] == a[1..] + b;
      WithoutConcat(a[1..], b, id);
    }
  }

  lemma WithoutInserted(cards: seq<Issue>, card: Issue)
    ensures Without(InsertByPosition(cards, card), card.id) == Without(cards, card.id)
  {
    var k := SlotFor(cards, card.position);
    var front, back := cards[..k], cards[k..];
    NothingButTheCard(card);
    hide Without, SlotFor;
    assert cards == front + back && InsertByPosition(cards, card) == (front + [card]) + back;
    WithoutConcat(front, back, card.id);
    WithoutConcat(front + [card], back, card.id);
    WithoutConcat(front, [card], card.id);
    assert Without(front, card.id) + [] == Without(front, card.id);
  }

  lemma NothingButTheCard(card: Issue)
    ensures Without([card], card.id) == []
  {
  }

  lemma {:induction false} WithoutReplaced(cards: seq<Issue>, id: Id, merged: Issue)
    requires merged.id == id
    ensures Without(Replaced(cards, id, merged), id) == Without(cards, id)
  {
    if cards != [] {
      assert Replaced(cards, id, merged)[1..] == Replaced(cards[1..], id, merged);
      WithoutReplaced(cards[1..], id, merged);
    }
  }

  // ----- one list

  /** In every column, the cancelled one included. */
  ghost predicate OthersStand(data: ListCache, next: ListCache, id: Id)
  {
    forall s :: SameOthers(GetBucket(data, s).issues, GetBucket(next, s).issues, id)
  }

  lemma SameColumn(cards: seq<Issue>, id: Id)
    ensures SameOthers(cards, cards, id)
  {
  }

  /** Taking a card out leaves every other card in its place among the others. */
  lemma RemoveLeavesOthers(data: ListCache, id: Id)
    ensures OthersStand(data, RemoveIssueFromBuckets(data, id), id)
    ensures FindIssueLocation(data, id).Some? ==>
      var s := FindIssueLocation(data, id).value.status;
      !HasId(GetBucket(RemoveIssueFromBuckets(data, id), s).issues, id)
  {
    hide Without, Keeps, FindIssueLocation;
    forall s ensures SameOthers(GetBucket(data, s).issues, GetBucket(RemoveIssueFromBuckets(data, id), s).issues, id) {
      WithoutTwice(GetBucket(data, s).issues, id);
      SameFilter(GetBucket(data, s).issues, Without(GetBucket(data, s).issues, id), id);
      SameFilter(GetBucket(data, s).issues, GetBucket(data, s).issues, id);
    }
    if FindIssueLocation(data, id).Some? {
      WithoutHasId(GetBucket(data, FindIssueLocation(data, id).value.status).issues, id, id);
    }
  }

  /** So does patching one, into whatever column and place. */
  lemma PatchLeavesOthers(data: ListCache, id: Id, patch: Patch)
    ensures OthersStand(data, PatchIssueInBuckets(data, id, patch), id)
  {
    hide Without, Keeps, FindIssueLocation, InsertByPosition, Replaced;
    var loc := FindIssueLocation(data, id);
    forall s
      ensures SameOthers(GetBucket(data, s).issues, GetBucket(PatchIssueInBuckets(data, id, patch), s).issues, id)
    {
      var cards := GetBucket(data, s).issues;
      SameFilter(cards, cards, id);
      if loc.Some? { PatchedColumnsFilter(cards, id, Merge(loc.value.issue, patch)); }
    }
  }

  lemma PatchedColumnsFilter(cards: seq<Issue>, id: Id, merged: Issue)
    requires merged.id == id
    ensures SameOthers(cards, Replaced(cards, id, merged), id)
    ensures SameOthers(cards, InsertByPosition(Without(cards, id), merged), id)
    ensures SameOthers(cards, InsertByPosition(cards, merged), id)
    ensures SameOthers(cards, Without(cards, id), id)
  {
    hide Without, Keeps, InsertByPosition, Replaced;
    WithoutReplaced(cards, id, merged);
    SameFilter(cards, Replaced(cards, id, merged), id);
    WithoutInserted(Without(cards, id), merged);
    WithoutTwice(cards, id);
    SameFilter(cards, InsertByPosition(Without(cards, id), merged), id);
    WithoutInserted(cards, merged);
    SameFilter(cards, InsertByPosition(cards, merged), id);
    SameFilter(cards, Without(cards, id), id);
  }

  /** Whatever the rules table does to a list, the other cards stay. */
  lemma ReconcileLeavesOthers(data: ListCache, c: Contract, id: Id, patch: Patch, changed: Dims, base: Option<Issue>)
    ensures OthersStand(data, Reconcile(data, c, id, patch, changed, base).next, id)
  {
    hide Keeps, PatchIssueInBuckets, RemoveIssueFromBuckets, FindIssueLocation;
    OutcomeShape(data, c, id, patch, changed, base);
    RemoveLeavesOthers(data, id);
    PatchLeavesOthers(data, id, patch);
    forall s { SameFilter(GetBucket(data, s).issues, GetBucket(data, s).issues, id); }
  }

  /** A patch that moves the card neither to another column nor to another position leaves every card at its place, and
      the card itself where it was. */
  lemma StillPatchKeepsPlaces(data: ListCache, id: Id, patch: Patch, s: Status, i: nat)
    requires var loc := FindIssueLocation(data, id);
      loc.Some? ==>
        && Or(patch.status, loc.value.status) == loc.value.status
        && Or(patch.position, loc.value.issue.position) == loc.value.issue.position
    requires i < |GetBucket(data, s).issues|
    ensures var loc, was, now := FindIssueLocation(data, id), GetBucket(data, s).issues,
                                 GetBucket(PatchIssueInBuckets(data, id, patch), s).issues;
      && |now| == |was|
      && now[i] == if loc.Some? && s == loc.value.status && was[i].id == id then Merge(loc.value.issue, patch)
                   else was[i]
  {
  }

  /** A patch that moves the card puts it behind the cards that do not come after its new position, before the first
      one that does. */
  lemma MovedCardStandsByPosition(data: ListCache, id: Id, patch: Patch) returns (i: nat)
    requires FindIssueLocation(data, id).Some?
    requires var loc := FindIssueLocation(data, id).value;
      Or(patch.status, loc.status) != loc.status || Or(patch.position, loc.issue.position) != loc.issue.position
    ensures var loc := FindIssueLocation(data, id).value;
      var merged := Merge(loc.issue, patch);
      var now := GetBucket(PatchIssueInBuckets(data, id, patch), Or(patch.status, loc.status)).issues;
      && i < |now| && now[i] == merged
      && (forall j :: 0 <= j < i ==> now[j].position <= merged.position)
      && (i + 1 < |now| ==> now[i + 1].position > merged.position)
  {
    var loc := FindIssueLocation(data, id).value;
    var merged := Merge(loc.issue, patch);
    var cards := GetBucket(data, Or(patch.status, loc.status)).issues;
    i := InsertedAt(if Or(patch.status, loc.status) == loc.status then Without(cards, id) else cards, merged);
  }

  lemma InsertedAt(cards: seq<Issue>, card: Issue) returns (i: nat)
    ensures var now := InsertByPosition(cards, card);
      && i < |now| && now[i] == card
      && (forall j :: 0 <= j < i ==> now[j].position <= card.position)
      && (i + 1 < |now| ==> now[i + 1].position > card.position)
  {
    i := SlotFor(cards, card.position);
  }

  // ----- the children of the parents

  /** The optimistic write and the children: only the resolved parent's cache is written. When the write names another
      parent, the row leaves it and the others keep their order; otherwise the row is patched at its place. */
  lemma ChildrenAfterUpdate(children: map<Id, seq<Issue>>, parentId: Option<Id>, id: Id, patch: Patch, p: Id)
    requires p in children
    ensures var after := SyncChildren(children, parentId, id, patch);
      && after.Keys == children.Keys
      && if parentId != Some(p) then after[p] == children[p]
         else if patch.parentId.Some? && patch.parentId.value != Some(p) then
           SameOthers(children[p], after[p], id) && !HasId(after[p], id)
         else RowsPatched(children[p], after[p], {id}, patch)
  {
    hide Keeps, Without;
    WithoutTwice(children[p], id);
    SameFilter(children[p], Without(children[p], id), id);
    WithoutHasId(children[p], id, id);
  }

  /** Every row at its place: the written ones patched, the others as they were. */
  ghost predicate RowsPatched(was: seq<Issue>, now: seq<Issue>, ids: set<Id>, patch: Patch)
  {
    && |now| == |was|
    && forall i :: 0 <= i < |was| ==> now[i] == if was[i].id in ids then Merge(was[i], patch) else was[i]
  }

  /** A batch patches the rows it writes in the caches of all parents, and nothing else. */
  lemma ChildrenAfterBatch(children: map<Id, seq<Issue>>, ids: set<Id>, patch: Patch)
    ensures var after := PatchAllChildren(children, ids, patch);
      after.Keys == children.Keys && forall p :: p in children ==> RowsPatched(children[p], after[p], ids, patch)
  {
  }
}
