/** The pure helpers that search and rewrite one bucketed list. */
module CacheHelpers {
  import opened IssueModel

  const EMPTY_BUCKET := Bucket([], 0)

  function GetBucket(resp: ListCache, s: Status): Bucket
  {
    if s in resp then resp[s] else EMPTY_BUCKET
  }

  function Max(a: int, b: int): int { if a < b then b else a }

  // ----- sequences of cards

  predicate HasId(issues: seq<Issue>, id: Id)
  {
    exists i :: 0 <= i < |issues| && issues[i].id == id
  }

  predicate DistinctIds(issues: seq<Issue>)
  {
    forall i, j :: 0 <= i < j < |issues| ==> issues[i].id != issues[j].id
  }

  predicate SortedByPosition(issues: seq<Issue>)
  {
    forall i, j :: 0 <= i < j < |issues| ==> issues[i].position <= issues[j].position
  }

  /** Index of the first card with this id, or the length when there is none. */
  function IndexOf(issues: seq<Issue>, id: Id): (i: nat)
    ensures i <= |issues|
    ensures i < |issues| ==> issues[i].id == id
    ensures forall j :: 0 <= j < i ==> issues[j].id != id
    ensures i < |issues| <==> HasId(issues, id)
  {
    if issues == [] || issues[0].id == id then 0 else
      var k := IndexOf(issues[1..], id);
      assert forall j :: 1 <= j < k + 1 ==> issues[j] == issues[1..][j - 1];
      k + 1
  }

  /** The cards whose id is not `id`, in order. */
  function Without(issues: seq<Issue>, id: Id): (r: seq<Issue>)
    ensures forall c :: c in r <==> c in issues && c.id != id
  {
    if issues == [] then [] else
      var rest := Without(issues[1..], id);
      if issues[0].id == id then rest else [issues[0]] + rest
  }

  lemma {:induction false} WithoutAbsent(issues: seq<Issue>, id: Id)
    ensures |Without(issues, id)| <= |issues|
    ensures !HasId(issues, id) ==> Without(issues, id) == issues
  {
    if issues != [] {
      WithoutAbsent(issues[1..], id);
      if !HasId(issues, id) { assert !HasId(issues[1..], id); }
    }
  }

  lemma HeadIsApart(issues: seq<Issue>, c: Issue)
    requires issues != [] && DistinctIds(issues) && c in issues[1..]
    ensures c.id != issues[0].id
  {
    var j :| 0 <= j < |issues[1..]| && issues[1..][j] == c;
    assert issues[j + 1] == c;
  }

  lemma {:induction false} WithoutDistinct(issues: seq<Issue>, id: Id)
    requires DistinctIds(issues)
    ensures DistinctIds(Without(issues, id))
  {
    if issues != [] {
      var tail := issues[1..];
      var rest := Without(tail, id);
      WithoutDistinct(tail, id);
      forall i | 0 <= i < |rest| ensures rest[i].id != issues[0].id {
        assert rest[i] in rest;
        HeadIsApart(issues, rest[i]);
      }
    }
  }

  lemma {:induction false} WithoutLength(issues: seq<Issue>, id: Id)
    requires DistinctIds(issues) && HasId(issues, id)
    ensures |Without(issues, id)| == |issues| - 1
  {
    var tail := issues[1..];
    if issues[0].id == id {
      forall i | 0 <= i < |tail| ensures tail[i].id != id { HeadIsApart(issues, tail[i]); }
      WithoutAbsent(tail, id);
    } else {
      var i :| 0 <= i < |issues| && issues[i].id == id;
      assert tail[i - 1].id == id;
      WithoutLength(tail, id);
    }
  }

  lemma HeadIsLeast(issues: seq<Issue>, c: Issue)
    requires SortedByPosition(issues) && issues != [] && c in issues[1..]
    ensures issues[0].position <= c.position
  {
    var j :| 0 <= j < |issues[1..]| && issues[1..][j] == c;
    assert issues[j + 1] == c;
  }

  lemma {:induction false} WithoutSorted(issues: seq<Issue>, id: Id)
    requires SortedByPosition(issues)
    ensures SortedByPosition(Without(issues, id))
  {
    if issues != [] {
      var tail := issues[1..];
      var rest := Without(tail, id);
      WithoutSorted(tail, id);
      forall c | c in rest ensures issues[0].position <= c.position { HeadIsLeast(issues, c); }
      assert forall i :: 0 <= i < |rest| ==> rest[i] in rest;
    }
  }

  /** Every card with this id replaced by `merged`, slots kept. */
  function Replaced(issues: seq<Issue>, id: Id, merged: Issue): (r: seq<Issue>)
  {
    seq(|issues|, i requires 0 <= i < |issues| => if issues[i].id == id then merged else issues[i])
  }

  /** Index of the first card placed after `p`, or the length when there is none. */
  function SlotFor(issues: seq<Issue>, p: real): (i: nat)
    ensures i <= |issues|
    ensures i < |issues| ==> issues[i].position > p
    ensures forall j :: 0 <= j < i ==> issues[j].position <= p
  {
    if issues == [] || issues[0].position > p then 0 else
      var k := SlotFor(issues[1..], p);
      assert forall j :: 1 <= j < k + 1 ==> issues[j] == issues[1..][j - 1];
      k + 1
  }

  /** Insert at the slot `position ASC` implies; the rest of the column keeps its order. */
  function InsertByPosition(issues: seq<Issue>, card: Issue): (r: seq<Issue>)
  {
    var k := SlotFor(issues, card.position);
    issues[..k] + [card] + issues[k..]
  }

  lemma InsertIndex(issues: seq<Issue>, card: Issue, i: nat)
    requires i <= |issues|
    ensures |InsertByPosition(issues, card)| == |issues| + 1
    ensures var k := SlotFor(issues, card.position);
      InsertByPosition(issues, card)[i] == if i < k then issues[i] else if i == k then card else issues[i - 1]
  {
  }

  lemma InsertMembers(issues: seq<Issue>, card: Issue)
    ensures forall c :: c in InsertByPosition(issues, card) <==> c == card || c in issues
  {
    var k := SlotFor(issues, card.position);
    assert issues == issues[..k] + issues[k..];
  }

  lemma InsertDistinct(issues: seq<Issue>, card: Issue)
    requires DistinctIds(issues) && !HasId(issues, card.id)
    ensures DistinctIds(InsertByPosition(issues, card))
  {
    var r := InsertByPosition(issues, card);
    InsertIndex(issues, card, 0);
    forall i, j | 0 <= i < j < |r| ensures r[i].id != r[j].id {
      InsertIndex(issues, card, i);
      InsertIndex(issues, card, j);
    }
  }

  lemma InsertSorted(issues: seq<Issue>, card: Issue)
    requires SortedByPosition(issues)
    ensures SortedByPosition(InsertByPosition(issues, card))
  {
    var r := InsertByPosition(issues, card);
    InsertIndex(issues, card, 0);
    forall i, j | 0 <= i < j < |r| ensures r[i].position <= r[j].position {
      InsertIndex(issues, card, i);
      InsertIndex(issues, card, j);
    }
  }

  // ----- one list

  datatype Location = Location(status: Status, issue: Issue)

  /** The search behind FindIssueLocation, from the n-th paginated status on. */
  function FindFrom(resp: ListCache, id: Id, n: nat): (loc: Option<Location>)
    requires n <= |PAGINATED_STATUSES|
    ensures loc.Some? ==>
      && loc.value.issue.id == id && Paginated(loc.value.status)
      && loc.value.issue in GetBucket(resp, loc.value.status).issues
    ensures loc.None? <==>
      forall k :: n <= k < |PAGINATED_STATUSES| ==> !HasId(GetBucket(resp, PAGINATED_STATUSES[k]).issues, id)
    decreases |PAGINATED_STATUSES| - n
  {
    if n == |PAGINATED_STATUSES| then None else
      var s := PAGINATED_STATUSES[n];
      var issues := GetBucket(resp, s).issues;
      var i := IndexOf(issues, id);
      if i < |issues| then Some(Location(s, issues[i])) else FindFrom(resp, id, n + 1)
  }

  /** Which paginated bucket holds `id`, if any. The cancelled bucket is never searched. */
  function FindIssueLocation(resp: ListCache, id: Id): (loc: Option<Location>)
    ensures loc.Some? ==>
      && loc.value.issue.id == id && Paginated(loc.value.status)
      && loc.value.issue in GetBucket(resp, loc.value.status).issues
    ensures loc.None? <==> forall s :: Paginated(s) ==> !HasId(GetBucket(resp, s).issues, id)
  {
    assert forall s :: Paginated(s) ==> s in PAGINATED_STATUSES by {
      assert PAGINATED_STATUSES[0] == Backlog && PAGINATED_STATUSES[1] == Todo && PAGINATED_STATUSES[2] == InProgress;
      assert PAGINATED_STATUSES[3] == InReview && PAGINATED_STATUSES[4] == Done && PAGINATED_STATUSES[5] == Blocked;
    }
    FindFrom(resp, id, 0)
  }

  /** The search finds the first card with the id in the first column that has one. */
  lemma {:induction false} FoundFirst(resp: ListCache, id: Id, n: nat) returns (k: nat, i: nat)
    requires n <= |PAGINATED_STATUSES| && FindFrom(resp, id, n).Some?
    ensures n <= k < |PAGINATED_STATUSES|
    ensures var cards := GetBucket(resp, PAGINATED_STATUSES[k]).issues;
      && i < |cards| && FindFrom(resp, id, n) == Some(Location(PAGINATED_STATUSES[k], cards[i]))
      && forall j :: 0 <= j < i ==> cards[j].id != id
    ensures forall j :: n <= j < k ==> !HasId(GetBucket(resp, PAGINATED_STATUSES[j]).issues, id)
    decreases |PAGINATED_STATUSES| - n
  {
    if HasId(GetBucket(resp, PAGINATED_STATUSES[n]).issues, id) {
      k, i := n, IndexOf(GetBucket(resp, PAGINATED_STATUSES[n]).issues, id);
    } else {
      k, i := FoundFirst(resp, id, n + 1);
    }
  }

  function AddIssueToBuckets(resp: ListCache, issue: Issue): ListCache
  {
    var bucket := GetBucket(resp, issue.status);
    if HasId(bucket.issues, issue.id) then resp
    else resp[issue.status := Bucket(bucket.issues + [issue], bucket.total + 1)]
  }

  function RemoveIssueFromBuckets(resp: ListCache, id: Id): ListCache
  {
    var loc := FindIssueLocation(resp, id);
    if loc.None? then resp else
      var bucket := GetBucket(resp, loc.value.status);
      resp[loc.value.status := Bucket(Without(bucket.issues, id), Max(0, bucket.total - 1))]
  }

  function MoveBucketTotal(resp: ListCache, from: Status, to: Status): ListCache
  {
    if from == to then resp else
      var a := GetBucket(resp, from);
      var b := GetBucket(resp, to);
      resp[from := Bucket(a.issues, Max(0, a.total - 1))][to := Bucket(b.issues, b.total + 1)]
  }

  function DecrementBucketTotal(resp: ListCache, s: Status): ListCache
  {
    var b := GetBucket(resp, s);
    resp[s := Bucket(b.issues, Max(0, b.total - 1))]
  }

  function PatchIssueInBuckets(resp: ListCache, id: Id, patch: Patch): ListCache
  {
    var loc := FindIssueLocation(resp, id);
    if loc.None? then resp else
      var card := loc.value.issue;
      var merged := Merge(card, patch);
      var nextStatus := Or(patch.status, loc.value.status);
      if nextStatus == loc.value.status then
        PatchInColumn(resp, loc.value.status, merged, patch.position.Some? && patch.position.value != card.position)
      else
        PatchAcross(resp, loc.value.status, nextStatus, merged)
  }

  /** Same column: keep the slot, or lift the card out and re-insert it where its new position puts it. */
  function PatchInColumn(resp: ListCache, s: Status, merged: Issue, positionChanged: bool): ListCache
  {
    var b := GetBucket(resp, s);
    if !positionChanged then resp[s := Bucket(Replaced(b.issues, merged.id, merged), b.total)]
    else resp[s := Bucket(InsertByPosition(Without(b.issues, merged.id), merged), b.total)]
  }

  function PatchAcross(resp: ListCache, from: Status, to: Status, merged: Issue): ListCache
  {
    var a := GetBucket(resp, from);
    var b := GetBucket(resp, to);
    resp[from := Bucket(Without(a.issues, merged.id), Max(0, a.total - 1))]
        [to := Bucket(InsertByPosition(b.issues, merged), b.total + 1)]
  }

  // ----- what every helper keeps

  /** Each card sits once, under its own status, and no bucket holds more cards than its total. */
  ghost predicate BucketsOk(resp: ListCache)
  {
    forall s :: Paginated(s) ==>
      ColumnOk(GetBucket(resp, s).issues, GetBucket(resp, s).total, s)
  }

  ghost predicate ColumnOk(issues: seq<Issue>, total: int, s: Status)
  {
    DistinctIds(issues) && |issues| <= total && forall c :: c in issues ==> c.status == s
  }

  /** No id is loaded in two paginated buckets. */
  ghost predicate OneBucketPerId(resp: ListCache)
  {
    forall s, t, id :: Paginated(s) && Paginated(t) ==>
      HasId(GetBucket(resp, s).issues, id) && HasId(GetBucket(resp, t).issues, id) ==> s == t
  }

  ghost predicate ColumnsSorted(resp: ListCache)
  {
    forall s :: Paginated(s) ==> SortedByPosition(GetBucket(resp, s).issues)
  }

  lemma InsertHasId(issues: seq<Issue>, card: Issue, k: Id)
    ensures HasId(InsertByPosition(issues, card), k) <==> k == card.id || HasId(issues, k)
  {
    InsertMembers(issues, card);
    HasIdMember(issues, k);
    HasIdMember(InsertByPosition(issues, card), k);
  }

  lemma HasIdMember(issues: seq<Issue>, k: Id)
    ensures HasId(issues, k) <==> exists c :: c in issues && c.id == k
  {
    if HasId(issues, k) {
      var i :| 0 <= i < |issues| && issues[i].id == k;
      assert issues[i] in issues;
    }
  }

  lemma WithoutHasId(issues: seq<Issue>, id: Id, k: Id)
    ensures HasId(Without(issues, id), k) <==> k != id && HasId(issues, k)
  {
    HasIdMember(issues, k);
    HasIdMember(Without(issues, id), k);
  }

  function Sum(resp: ListCache): int
  {
    GetBucket(resp, Backlog).total + GetBucket(resp, Todo).total + GetBucket(resp, InProgress).total +
    GetBucket(resp, InReview).total + GetBucket(resp, Done).total + GetBucket(resp, Blocked).total +
    GetBucket(resp, Cancelled).total
  }
}
