/** What any sequence of patches, removals and additions keeps of one list. */
module BucketInvariants {
  import opened IssueModel
  import opened CacheHelpers

  datatype Op = PatchOp(id: Id, patch: Patch) | RemoveOp(id: Id) | AddOp(issue: Issue)

  function Take(resp: ListCache, op: Op): ListCache
  {
    match op
    case PatchOp(id, patch) => PatchIssueInBuckets(resp, id, patch)
    case RemoveOp(id) => RemoveIssueFromBuckets(resp, id)
    case AddOp(issue) => AddIssueToBuckets(resp, issue)
  }

  /** Additions are of ids no other column holds; the helper itself only looks at the issue's own column. */
  predicate Allowed(resp: ListCache, op: Op)
  {
    op.AddOp? ==> ElsewhereAbsent(resp, op.issue)
  }

  predicate ElsewhereAbsent(resp: ListCache, issue: Issue)
  {
    var loc := FindIssueLocation(resp, issue.id);
    loc.None? || loc.value.status == issue.status || !Paginated(issue.status)
  }

  function TakeAll(resp: ListCache, ops: seq<Op>): ListCache
  {
    if ops == [] then resp else Take(TakeAll(resp, ops[..|ops| - 1]), ops[|ops| - 1])
  }

  ghost predicate AllAllowed(resp: ListCache, ops: seq<Op>)
  {
    forall n :: 0 <= n < |ops| ==> Allowed(TakeAll(resp, ops[..n]), ops[n])
  }

  ghost predicate Invariant(resp: ListCache) { BucketsOk(resp) && OneBucketPerId(resp) }

  // ----- columns

  lemma ColumnLoses(issues: seq<Issue>, total: int, s: Status, id: Id)
    requires ColumnOk(issues, total, s) && HasId(issues, id)
    ensures total >= 1 && ColumnOk(Without(issues, id), total - 1, s)
  {
    WithoutDistinct(issues, id);
    WithoutLength(issues, id);
  }

  lemma ColumnGains(issues: seq<Issue>, total: int, s: Status, card: Issue)
    requires ColumnOk(issues, total, s) && !HasId(issues, card.id) && card.status == s
    ensures ColumnOk(InsertByPosition(issues, card), total + 1, s)
  {
    InsertDistinct(issues, card);
    InsertMembers(issues, card);
    InsertIndex(issues, card, 0);
  }

  lemma ColumnReplaces(issues: seq<Issue>, total: int, s: Status, card: Issue)
    requires ColumnOk(issues, total, s) && card.status == s
    ensures ColumnOk(Replaced(issues, card.id, card), total, s)
  {
    var r := Replaced(issues, card.id, card);
    forall i, j | 0 <= i < j < |r| ensures r[i].id != r[j].id { assert issues[i].id != issues[j].id; }
  }

  lemma ColumnReinserts(issues: seq<Issue>, total: int, s: Status, card: Issue)
    requires ColumnOk(issues, total, s) && HasId(issues, card.id) && card.status == s
    ensures ColumnOk(InsertByPosition(Without(issues, card.id), card), total, s)
  {
    ColumnLoses(issues, total, s, card.id);
    WithoutHasId(issues, card.id, card.id);
    ColumnGains(Without(issues, card.id), total - 1, s, card);
  }

  // ----- one operation

  /** The found card, its column and the card after the patch. */
  lemma Found(resp: ListCache, id: Id)
    requires BucketsOk(resp) && FindIssueLocation(resp, id).Some?
    ensures var loc := FindIssueLocation(resp, id).value;
      Paginated(loc.status) && loc.issue.status == loc.status && HasId(GetBucket(resp, loc.status).issues, id)
  {
    var loc := FindIssueLocation(resp, id).value;
    HasIdMember(GetBucket(resp, loc.status).issues, id);
    assert ColumnOk(GetBucket(resp, loc.status).issues, GetBucket(resp, loc.status).total, loc.status);
  }

  lemma InColumnKeeps(resp: ListCache, s: Status, card: Issue, moved: bool)
    requires Invariant(resp) && Paginated(s) && card.status == s && HasId(GetBucket(resp, s).issues, card.id)
    ensures Invariant(PatchInColumn(resp, s, card, moved))
  {
    var b := GetBucket(resp, s);
    var next := PatchInColumn(resp, s, card, moved);
    assert ColumnOk(b.issues, b.total, s);
    ColumnReplaces(b.issues, b.total, s, card);
    ColumnReinserts(b.issues, b.total, s, card);
    assert forall t :: t != s ==> GetBucket(next, t) == GetBucket(resp, t);
    forall k ensures HasId(GetBucket(next, s).issues, k) <==> HasId(b.issues, k) {
      if moved {
        InsertHasId(Without(b.issues, card.id), card, k);
        WithoutHasId(b.issues, card.id, k);
      } else {
        ReplacedHasId(b.issues, card, k);
      }
    }
    SameIdsSameLocation(resp, next);
  }

  lemma ReplacedHasId(issues: seq<Issue>, card: Issue, k: Id)
    ensures HasId(Replaced(issues, card.id, card), k) <==> HasId(issues, k)
  {
    var r := Replaced(issues, card.id, card);
    if HasId(issues, k) {
      var i :| 0 <= i < |issues| && issues[i].id == k;
      assert r[i].id == k;
    }
  }

  lemma SameIdsSameLocation(resp: ListCache, next: ListCache)
    requires OneBucketPerId(resp)
    requires forall s, k :: HasId(GetBucket(next, s).issues, k) ==> HasId(GetBucket(resp, s).issues, k)
    ensures OneBucketPerId(next)
  {
  }

  lemma AcrossKeeps(resp: ListCache, from: Status, to: Status, card: Issue)
    requires Invariant(resp) && Paginated(from) && from != to && card.status == to
    requires HasId(GetBucket(resp, from).issues, card.id)
    ensures Invariant(PatchAcross(resp, from, to, card))
  {
    var a := GetBucket(resp, from);
    var b := GetBucket(resp, to);
    var next := PatchAcross(resp, from, to, card);
    assert ColumnOk(a.issues, a.total, from);
    ColumnLoses(a.issues, a.total, from, card.id);
    if Paginated(to) {
      assert ColumnOk(b.issues, b.total, to);
      ColumnGains(b.issues, b.total, to, card);
    }
    assert forall t :: t != from && t != to ==> GetBucket(next, t) == GetBucket(resp, t);
    forall s, k { AcrossHasId(resp, from, to, card, s, k); }
  }

  lemma AcrossHasId(resp: ListCache, from: Status, to: Status, card: Issue, s: Status, k: Id)
    requires OneBucketPerId(resp) && Paginated(from) && from != to && HasId(GetBucket(resp, from).issues, card.id)
    ensures HasId(GetBucket(PatchAcross(resp, from, to, card), s).issues, k) && Paginated(s) ==>
      if k == card.id then s == to else HasId(GetBucket(resp, s).issues, k)
  {
    hide HasId, Without, InsertByPosition;
    InsertHasId(GetBucket(resp, to).issues, card, k);
    WithoutHasId(GetBucket(resp, from).issues, card.id, k);
  }

  lemma PatchKeepsInvariant(resp: ListCache, id: Id, patch: Patch)
    requires Invariant(resp)
    ensures Invariant(PatchIssueInBuckets(resp, id, patch))
  {
    var loc := FindIssueLocation(resp, id);
    if loc.Some? {
      Found(resp, id);
      var card := loc.value.issue;
      var merged := Merge(card, patch);
      if merged.status == loc.value.status {
        InColumnKeeps(resp, merged.status, merged, patch.position.Some? && patch.position.value != card.position);
      } else {
        AcrossKeeps(resp, loc.value.status, merged.status, merged);
      }
    }
  }

  lemma RemoveKeepsInvariant(resp: ListCache, id: Id)
    requires Invariant(resp)
    ensures Invariant(RemoveIssueFromBuckets(resp, id))
  {
    var loc := FindIssueLocation(resp, id);
    if loc.Some? {
      Found(resp, id);
      var s := loc.value.status;
      var b := GetBucket(resp, s);
      var next := RemoveIssueFromBuckets(resp, id);
      assert ColumnOk(b.issues, b.total, s);
      ColumnLoses(b.issues, b.total, s, id);
      assert forall t :: t != s ==> GetBucket(next, t) == GetBucket(resp, t);
      forall k { WithoutHasId(b.issues, id, k); }
      SameIdsSameLocation(resp, next);
    }
  }

  lemma AppendHasId(issues: seq<Issue>, card: Issue, k: Id)
    ensures HasId(issues + [card], k) <==> k == card.id || HasId(issues, k)
  {
    HasIdMember(issues, k);
    HasIdMember(issues + [card], k);
  }

  /** An addition keeps ids to one column exactly when no other column already holds the id. */
  lemma AddKeepsInvariantExactly(resp: ListCache, issue: Issue)
    requires Invariant(resp)
    ensures Invariant(AddIssueToBuckets(resp, issue)) <==> ElsewhereAbsent(resp, issue)
  {
    var s := issue.status;
    var loc := FindIssueLocation(resp, issue.id);
    if loc.Some? { Found(resp, issue.id); }
    if !HasId(GetBucket(resp, s).issues, issue.id) {
      AppendKeepsBuckets(resp, issue);
      forall t, k { AppendedHasId(resp, issue, t, k); }
      if ElsewhereAbsent(resp, issue) { AppendKeepsOneBucket(resp, issue); }
    }
  }

  lemma AppendKeepsOneBucket(resp: ListCache, issue: Issue)
    requires OneBucketPerId(resp) && !HasId(GetBucket(resp, issue.status).issues, issue.id)
    requires FindIssueLocation(resp, issue.id).None? || !Paginated(issue.status)
    ensures OneBucketPerId(AddIssueToBuckets(resp, issue))
  {
    forall t, k { AppendedHasId(resp, issue, t, k); }
  }

  lemma AppendKeepsBuckets(resp: ListCache, issue: Issue)
    requires BucketsOk(resp) && !HasId(GetBucket(resp, issue.status).issues, issue.id)
    ensures BucketsOk(AddIssueToBuckets(resp, issue))
  {
    var s := issue.status;
    var b := GetBucket(resp, s);
    var next := AddIssueToBuckets(resp, issue);
    if Paginated(s) { assert ColumnOk(b.issues, b.total, s); }
    assert forall t :: t != s ==> GetBucket(next, t) == GetBucket(resp, t);
    assert forall c :: c in b.issues + [issue] ==> c in b.issues || c == issue;
  }

  lemma AppendedHasId(resp: ListCache, issue: Issue, t: Status, k: Id)
    requires !HasId(GetBucket(resp, issue.status).issues, issue.id)
    ensures HasId(GetBucket(AddIssueToBuckets(resp, issue), t).issues, k) <==>
      HasId(GetBucket(resp, t).issues, k) || (t == issue.status && k == issue.id)
  {
    AppendHasId(GetBucket(resp, t).issues, issue, k);
  }

  lemma {:induction false} InvariantOverRuns(resp: ListCache, ops: seq<Op>)
    requires Invariant(resp) && AllAllowed(resp, ops)
    ensures Invariant(TakeAll(resp, ops))
  {
    if ops != [] {
      var n := |ops| - 1;
      assert forall m :: 0 <= m <= n ==> ops[..n][..m] == ops[..m];
      InvariantOverRuns(resp, ops[..n]);
      var now := TakeAll(resp, ops[..n]);
      assert Allowed(now, ops[n]);
      match ops[n]
      case PatchOp(id, patch) => PatchKeepsInvariant(now, id, patch);
      case RemoveOp(id) => RemoveKeepsInvariant(now, id);
      case AddOp(issue) => AddKeepsInvariantExactly(now, issue);
    }
  }

  // ----- order and totals under a patch

  lemma PatchKeepsColumnsSorted(resp: ListCache, id: Id, patch: Patch)
    requires BucketsOk(resp) && ColumnsSorted(resp)
    ensures ColumnsSorted(PatchIssueInBuckets(resp, id, patch))
  {
    var loc := FindIssueLocation(resp, id);
    if loc.Some? {
      Found(resp, id);
      var card := loc.value.issue;
      var merged := Merge(card, patch);
      if merged.status == loc.value.status {
        InColumnSorted(resp, merged.status, card, merged);
      } else {
        AcrossSorted(resp, loc.value.status, merged.status, merged);
      }
    }
  }

  lemma InColumnSorted(resp: ListCache, s: Status, card: Issue, merged: Issue)
    requires ColumnsSorted(resp) && Paginated(s) && DistinctIds(GetBucket(resp, s).issues)
    requires card in GetBucket(resp, s).issues && merged.id == card.id
    ensures ColumnsSorted(PatchInColumn(resp, s, merged, merged.position != card.position))
  {
    var issues := GetBucket(resp, s).issues;
    if merged.position == card.position {
      ReplacedSorted(issues, s, card, merged);
    } else {
      WithoutSorted(issues, merged.id);
      InsertSorted(Without(issues, merged.id), merged);
    }
  }

  lemma AcrossSorted(resp: ListCache, from: Status, to: Status, card: Issue)
    requires ColumnsSorted(resp) && Paginated(from) && from != to
    ensures ColumnsSorted(PatchAcross(resp, from, to, card))
  {
    var next := PatchAcross(resp, from, to, card);
    WithoutSorted(GetBucket(resp, from).issues, card.id);
    forall s | Paginated(s) ensures SortedByPosition(GetBucket(next, s).issues) {
      assert SortedByPosition(GetBucket(resp, s).issues);
      if s == to {
        InsertSorted(GetBucket(resp, to).issues, card);
        assert GetBucket(next, s).issues == InsertByPosition(GetBucket(resp, to).issues, card);
      }
    }
  }

  lemma ReplacedSorted(issues: seq<Issue>, s: Status, card: Issue, merged: Issue)
    requires DistinctIds(issues) && SortedByPosition(issues)
    requires card in issues && merged.id == card.id && merged.position == card.position
    ensures SortedByPosition(Replaced(issues, merged.id, merged))
  {
    var k :| 0 <= k < |issues| && issues[k] == card;
    var r := Replaced(issues, merged.id, merged);
    assert forall i :: 0 <= i < |issues| && i != k ==> issues[i].id != card.id;
    assert forall i :: 0 <= i < |issues| ==> r[i].position == issues[i].position;
  }

  /** A patch moves cards and units of total between columns but creates and destroys none. */
  lemma PatchConservesTotals(resp: ListCache, id: Id, patch: Patch)
    requires BucketsOk(resp)
    ensures Sum(PatchIssueInBuckets(resp, id, patch)) == Sum(resp)
  {
    var loc := FindIssueLocation(resp, id);
    if loc.Some? {
      Found(resp, id);
      var from := loc.value.status;
      var merged := Merge(loc.value.issue, patch);
      if merged.status == from {
        InColumnConserves(resp, from, merged, patch.position.Some? && patch.position.value != loc.value.issue.position);
      } else {
        FoundTotal(resp, from, id);
        AcrossConserves(resp, from, merged.status, merged);
      }
    }
  }

  lemma FoundTotal(resp: ListCache, s: Status, id: Id)
    requires BucketsOk(resp) && Paginated(s) && HasId(GetBucket(resp, s).issues, id)
    ensures GetBucket(resp, s).total >= 1
  {
    assert ColumnOk(GetBucket(resp, s).issues, GetBucket(resp, s).total, s);
  }

  lemma SumAfterWrite(resp: ListCache, s: Status, b: Bucket)
    ensures Sum(resp[s := b]) == Sum(resp) - GetBucket(resp, s).total + b.total
  {
    match s {
      case Backlog => case Todo => case InProgress => case InReview => case Done => case Blocked => case Cancelled =>
    }
  }

  lemma InColumnConserves(resp: ListCache, s: Status, card: Issue, moved: bool)
    ensures Sum(PatchInColumn(resp, s, card, moved)) == Sum(resp)
  {
    var b := GetBucket(resp, s);
    SumAfterWrite(resp, s, Bucket(Replaced(b.issues, card.id, card), b.total));
    SumAfterWrite(resp, s, Bucket(InsertByPosition(Without(b.issues, card.id), card), b.total));
  }

  lemma AcrossConserves(resp: ListCache, from: Status, to: Status, card: Issue)
    requires from != to && GetBucket(resp, from).total >= 1
    ensures Sum(PatchAcross(resp, from, to, card)) == Sum(resp)
  {
    hide Sum, Without, InsertByPosition;
    var a := GetBucket(resp, from);
    var b := GetBucket(resp, to);
    var lost := Bucket(Without(a.issues, card.id), Max(0, a.total - 1));
    SumAfterWrite(resp, from, lost);
    SumAfterWrite(resp[from := lost], to, Bucket(InsertByPosition(b.issues, card), b.total + 1));
    assert GetBucket(resp[from := lost], to) == b;
  }

  // ----- totals of any list

  /** Whatever a list holds, even a card its total does not count, no helper makes a total negative. */
  ghost predicate NoneNegative(resp: ListCache) { forall s :: GetBucket(resp, s).total >= 0 }

  lemma TotalsStayNonNegative(resp: ListCache, id: Id, patch: Patch, from: Status, to: Status, issue: Issue)
    requires NoneNegative(resp)
    ensures NoneNegative(RemoveIssueFromBuckets(resp, id)) && NoneNegative(PatchIssueInBuckets(resp, id, patch))
    ensures NoneNegative(MoveBucketTotal(resp, from, to)) && NoneNegative(DecrementBucketTotal(resp, from))
    ensures NoneNegative(AddIssueToBuckets(resp, issue))
  {
    PatchNonNegative(resp, id, patch);
    OthersNonNegative(resp, id, from, to, issue);
  }

  lemma OthersNonNegative(resp: ListCache, id: Id, from: Status, to: Status, issue: Issue)
    requires NoneNegative(resp)
    ensures NoneNegative(RemoveIssueFromBuckets(resp, id)) && NoneNegative(AddIssueToBuckets(resp, issue))
    ensures NoneNegative(MoveBucketTotal(resp, from, to)) && NoneNegative(DecrementBucketTotal(resp, from))
  {
    hide FindIssueLocation, Without, HasId;
    forall s ensures GetBucket(RemoveIssueFromBuckets(resp, id), s).total >= 0 { assert GetBucket(resp, s).total >= 0; }
    forall s ensures GetBucket(AddIssueToBuckets(resp, issue), s).total >= 0 { assert GetBucket(resp, s).total >= 0; }
    forall s ensures GetBucket(MoveBucketTotal(resp, from, to), s).total >= 0 { assert GetBucket(resp, s).total >= 0; }
    forall s ensures GetBucket(DecrementBucketTotal(resp, from), s).total >= 0 { assert GetBucket(resp, s).total >= 0; }
  }

  lemma PatchNonNegative(resp: ListCache, id: Id, patch: Patch)
    requires NoneNegative(resp)
    ensures NoneNegative(PatchIssueInBuckets(resp, id, patch))
  {
    hide PatchInColumn, PatchAcross;
    var loc := FindIssueLocation(resp, id);
    if loc.Some? {
      var merged, to := Merge(loc.value.issue, patch), Or(patch.status, loc.value.status);
      InColumnNonNegative(resp, loc.value.status, merged, true);
      InColumnNonNegative(resp, loc.value.status, merged, false);
      AcrossNonNegative(resp, loc.value.status, to, merged);
    }
  }

  lemma InColumnNonNegative(resp: ListCache, s: Status, merged: Issue, moved: bool)
    requires NoneNegative(resp)
    ensures NoneNegative(PatchInColumn(resp, s, merged, moved))
  {
    hide Without, InsertByPosition, Replaced;
    forall t ensures GetBucket(PatchInColumn(resp, s, merged, moved), t).total >= 0 {
      assert GetBucket(resp, t).total >= 0;
    }
  }

  lemma AcrossNonNegative(resp: ListCache, from: Status, to: Status, merged: Issue)
    requires NoneNegative(resp)
    ensures NoneNegative(PatchAcross(resp, from, to, merged))
  {
    hide Without, InsertByPosition;
    forall t ensures GetBucket(PatchAcross(resp, from, to, merged), t).total >= 0 {
      assert GetBucket(resp, t).total >= 0;
    }
  }

  /** An addition puts the card behind its column and counts it once, unless the column has it. */
  lemma AddGoesBehind(resp: ListCache, issue: Issue, s: Status)
    ensures var was, now := GetBucket(resp, s), GetBucket(AddIssueToBuckets(resp, issue), s);
      if s != issue.status || HasId(was.issues, issue.id) then now == was
      else now.total == was.total + 1 && |now.issues| == |was.issues| + 1 && now.issues[|was.issues|] == issue
             && forall i :: 0 <= i < |was.issues| ==> now.issues[i] == was.issues[i]
  {
  }
}
