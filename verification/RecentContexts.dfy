/** The recently visited contexts: bounded, newest-first buckets with eviction of whole workspaces. */
module RecentContexts {

  datatype Kind = IssueContext | ProjectContext

  /** `details` stands for label, subtitle, statuses and icon, which the store only passes on. */
  datatype Entry = Entry(kind: Kind, id: string, details: string, visitedAt: nat)

  const MAX_RECENT_CONTEXTS := 20
  const MAX_WORKSPACES := 50

  /** `keys` are the workspace ids in the order they were inserted. */
  datatype Store = Store(keys: seq<string>, buckets: map<string, seq<Entry>>)

  predicate SameKey(e: Entry, kind: Kind, id: string) { e.kind == kind && e.id == id }

  function WithoutKey(bucket: seq<Entry>, kind: Kind, id: string): seq<Entry>
  {
    if bucket == [] then [] else
      (if SameKey(bucket[0], kind, id) then [] else [bucket[0]]) + WithoutKey(bucket[1..], kind, id)
  }

  function BucketOf(s: Store, wsId: string): seq<Entry> { if wsId in s.buckets then s.buckets[wsId] else [] }

  function NextBucket(bucket: seq<Entry>, entry: Entry): seq<Entry>
  {
    var all := [entry] + WithoutKey(bucket, entry.kind, entry.id);
    if |all| <= MAX_RECENT_CONTEXTS then all else all[..MAX_RECENT_CONTEXTS]
  }

  function Put(s: Store, wsId: string, bucket: seq<Entry>): Store
  {
    Store(if wsId in s.buckets then s.keys else s.keys + [wsId], s.buckets[wsId := bucket])
  }

  function WithoutWorkspace(keys: seq<string>, wsId: string): seq<string>
  {
    if keys == [] then [] else
      WithoutWorkspace(keys[..|keys| - 1], wsId) + (if keys[|keys| - 1] == wsId then [] else [keys[|keys| - 1]])
  }

  function Drop(s: Store, wsId: string): Store { Store(WithoutWorkspace(s.keys, wsId), s.buckets - {wsId}) }

  function HeadTime(s: Store, wsId: string): nat
  {
    var bucket := BucketOf(s, wsId);
    if bucket == [] then 0 else bucket[0].visitedAt
  }

  /** The workspace among the first `n` with the oldest head; the earlier one on a tie. */
  function Oldest(s: Store, n: nat): string
    requires 0 < n <= |s.keys|
  {
    if n == 1 then s.keys[0] else
      var oldest := Oldest(s, n - 1);
      if HeadTime(s, s.keys[n - 1]) < HeadTime(s, oldest) then s.keys[n - 1] else oldest
  }

  function Recorded(s: Store, wsId: string, entry: Entry): Store
  {
    var next := Put(s, wsId, NextBucket(BucketOf(s, wsId), entry));
    if |next.keys| > MAX_WORKSPACES then Drop(next, Oldest(next, |next.keys|)) else next
  }

  function Forgotten(s: Store, wsId: string, kind: Kind, id: string): Store
  {
    var bucket := BucketOf(s, wsId);
    var rest := WithoutKey(bucket, kind, id);
    if wsId !in s.buckets || |rest| == |bucket| then s
    else if rest == [] then Drop(s, wsId)
    else Put(s, wsId, rest)
  }

  function Pruned(s: Store, active: set<string>): Store
  {
    Store(Allowed(s.keys, active), map k | k in s.buckets && k in active :: s.buckets[k])
  }

  function Allowed(keys: seq<string>, active: set<string>): seq<string>
  {
    if keys == [] then [] else
      Allowed(keys[..|keys| - 1], active) + (if keys[|keys| - 1] in active then [keys[|keys| - 1]] else [])
  }

  class RecentContextStore {
    var byWorkspace: Store

    constructor ()
      ensures byWorkspace == Store([], map[])
    {
      byWorkspace := Store([], map[]);
    }

    method RecordVisit(wsId: string, kind: Kind, id: string, details: string, now: nat)
      modifies this
      ensures byWorkspace == Recorded(old(byWorkspace), wsId, Entry(kind, id, details, now))
    {
      var bucket := BucketOf(byWorkspace, wsId);
      var updated := Entry(kind, id, details, now);
      var nextByWorkspace := Put(byWorkspace, wsId, NextBucket(bucket, updated));
      if |nextByWorkspace.keys| > MAX_WORKSPACES {
        nextByWorkspace := Drop(nextByWorkspace, Oldest(nextByWorkspace, |nextByWorkspace.keys|));
      }
      byWorkspace := nextByWorkspace;
    }

    method ForgetContext(wsId: string, kind: Kind, id: string)
      modifies this
      ensures byWorkspace == Forgotten(old(byWorkspace), wsId, kind, id)
    {
      if wsId !in byWorkspace.buckets { return; }
      var bucket := byWorkspace.buckets[wsId];
      var nextBucket := WithoutKey(bucket, kind, id);
      if |nextBucket| == |bucket| { return; }
      byWorkspace := if |nextBucket| == 0 then Drop(byWorkspace, wsId) else Put(byWorkspace, wsId, nextBucket);
    }

    method PruneWorkspaces(activeWsIds: seq<string>)
      requires Indexed(byWorkspace)
      modifies this
      ensures byWorkspace == Pruned(old(byWorkspace), set w | w in activeWsIds)
    {
      ghost var active := set w | w in activeWsIds;
      var changed := false;
      var next := Store([], map[]);
      var n := 0;
      while n < |byWorkspace.keys|
        invariant 0 <= n <= |byWorkspace.keys| && byWorkspace == old(byWorkspace)
        invariant next == PrunedTo(byWorkspace, active, n)
        invariant !changed ==> forall i :: 0 <= i < n ==> byWorkspace.keys[i] in active
      {
        var wsId := byWorkspace.keys[n];
        if wsId in activeWsIds {
          next := Put(next, wsId, byWorkspace.buckets[wsId]);
        } else {
          changed := true;
        }
        n := n + 1;
      }
      PrunedToAll(byWorkspace, active);
      if changed {
        byWorkspace := next;
      } else {
        AllActive(byWorkspace, active);
      }
    }
  }

  function PrunedTo(s: Store, active: set<string>, n: nat): Store
    requires n <= |s.keys| && forall k :: k in s.keys ==> k in s.buckets
  {
    if n == 0 then Store([], map[]) else
      var rest, k := PrunedTo(s, active, n - 1), s.keys[n - 1];
      if k in active then Put(rest, k, s.buckets[k]) else rest
  }

  // ----- the invariant

  ghost predicate Indexed(s: Store)
  {
    && (forall i, j :: 0 <= i < j < |s.keys| ==> s.keys[i] != s.keys[j])
    && (forall k :: k in s.buckets <==> k in s.keys)
  }

  ghost predicate DistinctEntries(b: seq<Entry>)
  {
    forall i, j :: 0 <= i < j < |b| ==> !SameKey(b[i], b[j].kind, b[j].id)
  }

  ghost predicate NewestFirst(b: seq<Entry>) { forall i, j :: 0 <= i < j < |b| ==> b[i].visitedAt >= b[j].visitedAt }

  /** A bucket at time `clock`. */
  ghost predicate GoodBucket(b: seq<Entry>, clock: nat)
  {
    && 0 < |b| <= 20 && DistinctEntries(b) && NewestFirst(b) && b[0].visitedAt <= clock
  }

  ghost predicate Good(s: Store, clock: nat)
  {
    && Indexed(s) && |s.keys| <= 50
    && (forall k :: k in s.buckets ==> GoodBucket(s.buckets[k], clock))
  }

  lemma {:induction false} WithoutKeyMembers(b: seq<Entry>, kind: Kind, id: string)
    ensures forall e :: e in WithoutKey(b, kind, id) <==> e in b && !SameKey(e, kind, id)
    ensures |WithoutKey(b, kind, id)| <= |b|
  {
    if b != [] {
      WithoutKeyMembers(b[1..], kind, id);
      assert b == [b[0]] + b[1..];
    }
  }

  lemma ConsDistinct(e: Entry, b: seq<Entry>)
    requires DistinctEntries(b) && forall x :: x in b ==> !SameKey(e, x.kind, x.id)
    ensures DistinctEntries([e] + b)
  {
    var r := [e] + b;
    forall i, j | 0 <= i < j < |r| ensures !SameKey(r[i], r[j].kind, r[j].id) {
      assert r[j] == b[j - 1] && b[j - 1] in b;
      if i > 0 { assert r[i] == b[i - 1]; }
    }
  }

  lemma ConsNewest(e: Entry, b: seq<Entry>)
    requires NewestFirst(b) && forall x :: x in b ==> e.visitedAt >= x.visitedAt
    ensures NewestFirst([e] + b)
  {
    var r := [e] + b;
    forall i, j | 0 <= i < j < |r| ensures r[i].visitedAt >= r[j].visitedAt {
      assert r[j] == b[j - 1] && b[j - 1] in b;
      if i > 0 { assert r[i] == b[i - 1]; }
    }
  }

  lemma {:induction false} WithoutKeyDistinct(b: seq<Entry>, kind: Kind, id: string)
    requires DistinctEntries(b)
    ensures DistinctEntries(WithoutKey(b, kind, id))
  {
    if b != [] {
      WithoutKeyDistinct(b[1..], kind, id);
      WithoutKeyMembers(b[1..], kind, id);
      if !SameKey(b[0], kind, id) { ConsDistinct(b[0], WithoutKey(b[1..], kind, id)); }
    }
  }

  lemma {:induction false} WithoutKeyNewest(b: seq<Entry>, kind: Kind, id: string)
    requires NewestFirst(b)
    ensures NewestFirst(WithoutKey(b, kind, id))
  {
    if b != [] {
      WithoutKeyNewest(b[1..], kind, id);
      WithoutKeyMembers(b[1..], kind, id);
      if !SameKey(b[0], kind, id) { ConsNewest(b[0], WithoutKey(b[1..], kind, id)); }
    }
  }

  lemma NextBucketGood(b: seq<Entry>, entry: Entry, clock: nat)
    requires b == [] || GoodBucket(b, clock)
    requires clock <= entry.visitedAt
    ensures GoodBucket(NextBucket(b, entry), entry.visitedAt)
  {
    var rest := WithoutKey(b, entry.kind, entry.id);
    WithoutKeyMembers(b, entry.kind, entry.id);
    WithoutKeyDistinct(b, entry.kind, entry.id);
    WithoutKeyNewest(b, entry.kind, entry.id);
    ConsDistinct(entry, rest);
    ConsNewest(entry, rest);
  }

  lemma {:induction false} WithoutWorkspaceMembers(keys: seq<string>, wsId: string)
    ensures forall k :: k in WithoutWorkspace(keys, wsId) <==> k in keys && k != wsId
  {
    if keys != [] {
      WithoutWorkspaceMembers(keys[..|keys| - 1], wsId);
      assert keys == keys[..|keys| - 1] + [keys[|keys| - 1]];
    }
  }

  lemma {:induction false} DropIndexed(keys: seq<string>, wsId: string)
    requires forall i, j :: 0 <= i < j < |keys| ==> keys[i] != keys[j]
    ensures var r := WithoutWorkspace(keys, wsId);
      && (forall i, j :: 0 <= i < j < |r| ==> r[i] != r[j])
      && |r| == if wsId in keys then |keys| - 1 else |keys|
  {
    if keys != [] {
      var init := keys[..|keys| - 1];
      DropIndexed(init, wsId);
      WithoutWorkspaceMembers(init, wsId);
      assert keys == init + [keys[|keys| - 1]] && keys[|keys| - 1] !in init;
    }
  }

  lemma DropGood(s: Store, wsId: string, clock: nat)
    requires Indexed(s) && forall k :: k in s.buckets ==> GoodBucket(s.buckets[k], clock)
    requires wsId in s.keys && |s.keys| <= MAX_WORKSPACES + 1
    ensures Good(Drop(s, wsId), clock)
  {
    DropIndexed(s.keys, wsId);
    WithoutWorkspaceMembers(s.keys, wsId);
  }

  lemma {:induction false} AllowedAll(keys: seq<string>, active: set<string>)
    requires forall i :: 0 <= i < |keys| ==> keys[i] in active
    ensures Allowed(keys, active) == keys
  {
    if keys != [] { AllowedAll(keys[..|keys| - 1], active); }
  }

  lemma {:induction false} PrunedToKeys(s: Store, active: set<string>, n: nat)
    requires Indexed(s) && n <= |s.keys|
    ensures PrunedTo(s, active, n).keys == Allowed(s.keys[..n], active)
    ensures forall k :: k in PrunedTo(s, active, n).buckets ==> k in s.keys[..n]
  {
    if n > 0 {
      PrunedToKeys(s, active, n - 1);
      assert s.keys[..n] == s.keys[..n - 1] + [s.keys[n - 1]];
      assert s.keys[n - 1] !in s.keys[..n - 1];
    }
  }

  function Kept(s: Store, active: set<string>, keys: seq<string>): map<string, seq<Entry>>
  {
    map k | k in s.buckets && k in active && k in keys :: s.buckets[k]
  }

  lemma {:induction false} PrunedToBuckets(s: Store, active: set<string>, n: nat)
    requires Indexed(s) && n <= |s.keys|
    ensures PrunedTo(s, active, n).buckets == Kept(s, active, s.keys[..n])
  {
    if n > 0 {
      PrunedToBuckets(s, active, n - 1);
      assert s.keys[..n] == s.keys[..n - 1] + [s.keys[n - 1]];
      KeptSnoc(s, active, s.keys[..n - 1], s.keys[n - 1]);
    }
  }

  lemma KeptSnoc(s: Store, active: set<string>, keys: seq<string>, k: string)
    requires k in s.buckets
    ensures Kept(s, active, keys + [k]) == if k in active
      then Kept(s, active, keys)[k := s.buckets[k]] else Kept(s, active, keys)
  {
  }

  lemma PrunedToAll(s: Store, active: set<string>)
    requires Indexed(s)
    ensures PrunedTo(s, active, |s.keys|) == Pruned(s, active)
  {
    PrunedToKeys(s, active, |s.keys|);
    PrunedToBuckets(s, active, |s.keys|);
    assert s.keys[..|s.keys|] == s.keys;
  }

  lemma AllActive(s: Store, active: set<string>)
    requires Indexed(s) && forall i :: 0 <= i < |s.keys| ==> s.keys[i] in active
    ensures Pruned(s, active) == s
  {
    AllowedAll(s.keys, active);
    assert Pruned(s, active).buckets == s.buckets;
  }

  lemma {:induction false} AllowedMembers(keys: seq<string>, active: set<string>)
    ensures forall k :: k in Allowed(keys, active) <==> k in keys && k in active
    ensures |Allowed(keys, active)| <= |keys|
  {
    if keys != [] {
      AllowedMembers(keys[..|keys| - 1], active);
      assert keys == keys[..|keys| - 1] + [keys[|keys| - 1]];
    }
  }

  lemma {:induction false} AllowedDistinct(keys: seq<string>, active: set<string>)
    requires forall i, j :: 0 <= i < j < |keys| ==> keys[i] != keys[j]
    ensures var r := Allowed(keys, active); forall i, j :: 0 <= i < j < |r| ==> r[i] != r[j]
  {
    if keys != [] {
      var init := keys[..|keys| - 1];
      AllowedDistinct(init, active);
      AllowedMembers(init, active);
      assert keys[|keys| - 1] !in init;
    }
  }

  // ----- every operation keeps it

  lemma {:induction false} OldestIsOldest(s: Store, n: nat)
    requires 0 < n <= |s.keys|
    ensures Oldest(s, n) in s.keys[..n]
    ensures forall i :: 0 <= i < n ==> HeadTime(s, Oldest(s, n)) <= HeadTime(s, s.keys[i])
  {
    assert s.keys[n - 1] in s.keys[..n];
    if n > 1 {
      OldestIsOldest(s, n - 1);
      assert forall k :: k in s.keys[..n - 1] ==> k in s.keys[..n];
    }
  }

  lemma PutGood(s: Store, wsId: string, bucket: seq<Entry>, clock: nat, now: nat)
    requires Good(s, clock) && clock <= now && GoodBucket(bucket, now)
    ensures var p := Put(s, wsId, bucket);
      && Indexed(p) && (forall k :: k in p.buckets ==> GoodBucket(p.buckets[k], now))
      && |p.keys| <= |s.keys| + 1
      && (wsId in s.buckets ==> p.keys == s.keys)
  {
  }

  lemma RecordKeepsGood(s: Store, wsId: string, entry: Entry, clock: nat)
    requires Good(s, clock) && clock <= entry.visitedAt
    ensures Good(Recorded(s, wsId, entry), entry.visitedAt)
  {
    NextBucketGood(BucketOf(s, wsId), entry, clock);
    PutGood(s, wsId, NextBucket(BucketOf(s, wsId), entry), clock, entry.visitedAt);
    var p := Put(s, wsId, NextBucket(BucketOf(s, wsId), entry));
    if |p.keys| > MAX_WORKSPACES {
      OldestIsOldest(p, |p.keys|);
      assert p.keys[..|p.keys|] == p.keys;
      DropGood(p, Oldest(p, |p.keys|), entry.visitedAt);
    }
  }

  lemma {:induction false} WithoutKeyHead(b: seq<Entry>, kind: Kind, id: string, clock: nat)
    requires forall e :: e in b ==> e.visitedAt <= clock
    ensures var r := WithoutKey(b, kind, id); r != [] ==> r[0].visitedAt <= clock
  {
    WithoutKeyMembers(b, kind, id);
    var r := WithoutKey(b, kind, id);
    if r != [] { assert r[0] in r; }
  }

  lemma ForgetKeepsGood(s: Store, wsId: string, kind: Kind, id: string, clock: nat)
    requires Good(s, clock)
    ensures Good(Forgotten(s, wsId, kind, id), clock)
  {
    if wsId in s.buckets {
      var b := s.buckets[wsId];
      WithoutKeyMembers(b, kind, id);
      WithoutKeyDistinct(b, kind, id);
      WithoutKeyNewest(b, kind, id);
      WithoutKeyHead(b, kind, id, clock);
      if WithoutKey(b, kind, id) == [] {
        DropGood(s, wsId, clock);
      } else {
        PutGood(s, wsId, WithoutKey(b, kind, id), clock, clock);
      }
    }
  }

  lemma PruneKeepsGood(s: Store, active: set<string>, clock: nat)
    requires Good(s, clock)
    ensures Good(Pruned(s, active), clock)
  {
    AllowedMembers(s.keys, active);
    AllowedDistinct(s.keys, active);
  }

  datatype Action =
    | Record(wsId: string, entry: Entry)
    | Forget(wsId: string, kind: Kind, id: string)
    | Prune(active: set<string>)

  function Step(s: Store, action: Action): Store
  {
    match action
    case Record(wsId, entry) => Recorded(s, wsId, entry)
    case Forget(wsId, kind, id) => Forgotten(s, wsId, kind, id)
    case Prune(active) => Pruned(s, active)
  }

  function Run(actions: seq<Action>): Store
  {
    if actions == [] then Store([], map[]) else Step(Run(actions[..|actions| - 1]), actions[|actions| - 1])
  }

  /** The last reading of the clock. */
  function Clock(actions: seq<Action>): nat
  {
    if actions == [] then 0 else
      var last := actions[|actions| - 1];
      if last.Record? then last.entry.visitedAt else Clock(actions[..|actions| - 1])
  }

  ghost predicate ClockNeverGoesBack(actions: seq<Action>)
  {
    actions != [] ==>
      && ClockNeverGoesBack(actions[..|actions| - 1])
      && Clock(actions[..|actions| - 1]) <= Clock(actions)
  }

  /** Every run keeps at most 50 workspaces, each with 1 to 20 distinct contexts, newest first. */
  lemma {:induction false} GoodOverRuns(actions: seq<Action>)
    requires ClockNeverGoesBack(actions)
    ensures Good(Run(actions), Clock(actions))
  {
    if actions != [] {
      var before, last := actions[..|actions| - 1], actions[|actions| - 1];
      GoodOverRuns(before);
      match last
      case Record(wsId, entry) => RecordKeepsGood(Run(before), wsId, entry, Clock(before));
      case Forget(wsId, kind, id) => ForgetKeepsGood(Run(before), wsId, kind, id, Clock(before));
      case Prune(active) => PruneKeepsGood(Run(before), active, Clock(before));
    }
  }

  // ----- who is evicted

  lemma {:induction false} LastIsOldestExactly(s: Store, n: nat)
    requires 1 < n <= |s.keys| && forall i, j :: 0 <= i < j < |s.keys| ==> s.keys[i] != s.keys[j]
    ensures Oldest(s, n) == s.keys[n - 1] <==>
      forall i :: 0 <= i < n - 1 ==> HeadTime(s, s.keys[n - 1]) < HeadTime(s, s.keys[i])
  {
    OldestIsOldest(s, n - 1);
    var o := Oldest(s, n - 1);
    var j :| 0 <= j < n - 1 && s.keys[j] == o;
    assert s.keys[j] != s.keys[n - 1];
  }

  /** The workspace just visited is thrown out again exactly when it was new, 50 others were kept and all of them
      carry a later time than this visit: only a clock that went back can do that. */
  lemma VisitedIsEvictedExactly(s: Store, wsId: string, entry: Entry)
    requires Indexed(s) && |s.keys| <= MAX_WORKSPACES
    ensures wsId !in Recorded(s, wsId, entry).buckets <==>
      (&& wsId !in s.buckets && |s.keys| == 50
       && forall k :: k in s.keys ==> entry.visitedAt < HeadTime(s, k))
  {
    var p := Put(s, wsId, NextBucket(BucketOf(s, wsId), entry));
    if |p.keys| > MAX_WORKSPACES { NewIsOldestExactly(s, wsId, entry); }
  }

  lemma NewIsOldestExactly(s: Store, wsId: string, entry: Entry)
    requires Indexed(s) && wsId !in s.buckets && |s.keys| > 0
    ensures var p := Put(s, wsId, NextBucket(BucketOf(s, wsId), entry));
      Oldest(p, |p.keys|) == wsId <==> forall k :: k in s.keys ==> entry.visitedAt < HeadTime(s, k)
  {
    var p := Put(s, wsId, NextBucket(BucketOf(s, wsId), entry));
    assert HeadTime(p, wsId) == entry.visitedAt;
    assert forall i :: 0 <= i < |s.keys| ==> p.keys[i] == s.keys[i] && HeadTime(p, p.keys[i]) == HeadTime(s, s.keys[i]);
    LastIsOldestExactly(p, |p.keys|);
  }

  lemma HeadWithinClock(s: Store, k: string, clock: nat)
    requires Good(s, clock) && k in s.keys
    ensures HeadTime(s, k) <= clock
  {
    assert GoodBucket(s.buckets[k], clock);
  }

  lemma VisitedSurvives(s: Store, wsId: string, entry: Entry, clock: nat)
    requires Good(s, clock) && clock <= entry.visitedAt
    ensures wsId in Recorded(s, wsId, entry).buckets
    ensures BucketOf(Recorded(s, wsId, entry), wsId) == NextBucket(BucketOf(s, wsId), entry)
    ensures NextBucket(BucketOf(s, wsId), entry)[..1] == [entry]
  {
    VisitedIsEvictedExactly(s, wsId, entry);
    if |s.keys| == MAX_WORKSPACES { HeadWithinClock(s, s.keys[0], clock); }
  }

  lemma OldestHead(s: Store, k: string)
    requires Indexed(s) && k in s.keys
    ensures Oldest(s, |s.keys|) in s.keys
    ensures HeadTime(s, Oldest(s, |s.keys|)) <= HeadTime(s, k)
  {
    OldestIsOldest(s, |s.keys|);
    assert s.keys[..|s.keys|] == s.keys;
    var i :| 0 <= i < |s.keys| && s.keys[i] == k;
  }

  /** Any other workspace leaves only when the store is full, and then it is one whose last visit is the oldest. */
  lemma EvictedIsStalest(s: Store, wsId: string, entry: Entry, gone: string, kept: string)
    requires Indexed(s) && |s.keys| <= MAX_WORKSPACES
    requires gone in s.buckets && gone != wsId && gone !in Recorded(s, wsId, entry).buckets
    requires kept in s.buckets && kept != wsId && kept != gone
    ensures |s.keys| == 50 && wsId !in s.buckets
    ensures HeadTime(s, gone) <= HeadTime(s, kept)
    ensures BucketOf(Recorded(s, wsId, entry), kept) == s.buckets[kept]
  {
    var p := Put(s, wsId, NextBucket(BucketOf(s, wsId), entry));
    hide NextBucket, Oldest;
    assert kept in p.keys && Indexed(p);
    OldestHead(p, kept);
    assert HeadTime(p, gone) == HeadTime(s, gone) && HeadTime(p, kept) == HeadTime(s, kept);
  }

  // ----- what a bucket forgets

  lemma HeadKeyIsApart(b: seq<Entry>, kind: Kind, id: string, e: Entry)
    requires DistinctEntries(b) && b != [] && SameKey(b[0], kind, id) && e in b[1..]
    ensures !SameKey(e, kind, id)
  {
    var i :| 0 <= i < |b[1..]| && b[1..][i] == e;
    assert b[i + 1] == e;
  }

  lemma {:induction false} WithoutKeyLength(b: seq<Entry>, kind: Kind, id: string)
    requires DistinctEntries(b)
    ensures |WithoutKey(b, kind, id)| == if (exists e :: e in b && SameKey(e, kind, id)) then |b| - 1 else |b|
    ensures (forall e :: e in b ==> !SameKey(e, kind, id)) ==> WithoutKey(b, kind, id) == b
  {
    if b != [] {
      WithoutKeyLength(b[1..], kind, id);
      assert b == [b[0]] + b[1..];
      if SameKey(b[0], kind, id) {
        forall e | e in b[1..] ensures !SameKey(e, kind, id) { HeadKeyIsApart(b, kind, id, e); }
        assert b[0] in b;
      }
    }
  }

  /** A visit makes its bucket forget another context exactly when that was the last of twenty and the visited one is
      new. */
  lemma VisitForgetsExactly(b: seq<Entry>, entry: Entry, i: nat, clock: nat)
    requires GoodBucket(b, clock) && i < |b| && !SameKey(b[i], entry.kind, entry.id)
    ensures b[i] !in NextBucket(b, entry) <==>
      i == 19 && forall e :: e in b ==> !SameKey(e, entry.kind, entry.id)
  {
    var rest := WithoutKey(b, entry.kind, entry.id);
    WithoutKeyLength(b, entry.kind, entry.id);
    WithoutKeyMembers(b, entry.kind, entry.id);
    assert b[i] in b && b[i] in rest;
    assert b[i] != entry;
    var next := NextBucket(b, entry);
    if |rest| < MAX_RECENT_CONTEXTS {
      assert next == [entry] + rest;
    } else {
      assert rest == b && next == [entry] + b[..MAX_RECENT_CONTEXTS - 1];
    }
  }

  // ----- what a forget, a visit and a prune do to the rest

  /** The one list in the order of the other. */
  ghost predicate InOrderOf(a: seq<string>, b: seq<string>)
  {
    forall i, j :: 0 <= i < j < |a| ==> Precedes(b, a[i], a[j])
  }

  ghost predicate Precedes(b: seq<string>, x: string, y: string)
  {
    exists p, q :: 0 <= p < q < |b| && b[p] == x && b[q] == y
  }

  lemma PrecedesAt(b: seq<string>, p: nat, q: nat)
    requires p < q < |b|
    ensures Precedes(b, b[p], b[q])
  {
  }

  lemma {:induction false} WithoutWorkspaceInOrder(keys: seq<string>, wsId: string)
    ensures InOrderOf(WithoutWorkspace(keys, wsId), keys)
  {
    if keys != [] {
      var init := keys[..|keys| - 1];
      WithoutWorkspaceInOrder(init, wsId);
      WithoutWorkspaceMembers(init, wsId);
      SnocInOrder(WithoutWorkspace(init, wsId), keys, keys[|keys| - 1] != wsId);
    }
  }

  lemma {:induction false} AllowedInOrder(keys: seq<string>, active: set<string>)
    ensures InOrderOf(Allowed(keys, active), keys)
  {
    if keys != [] {
      var init := keys[..|keys| - 1];
      AllowedInOrder(init, active);
      AllowedMembers(init, active);
      SnocInOrder(Allowed(init, active), keys, keys[|keys| - 1] in active);
    }
  }

  lemma SnocInOrder(a: seq<string>, keys: seq<string>, more: bool)
    requires keys != [] && InOrderOf(a, keys[..|keys| - 1]) && forall k :: k in a ==> k in keys[..|keys| - 1]
    ensures InOrderOf(if more then a + [keys[|keys| - 1]] else a, keys)
  {
    hide Precedes;
    var last, r := |keys| - 1, if more then a + [keys[|keys| - 1]] else a;
    forall i, j | 0 <= i < j < |r| ensures Precedes(keys, r[i], r[j]) {
      assert r[i] == a[i] && a[i] in a;
      if j < |a| {
        PrecedesInPrefix(keys, a[i], a[j]);
      } else {
        var p :| 0 <= p < last && keys[..last][p] == a[i];
        PrecedesAt(keys, p, last);
      }
    }
  }

  lemma PrecedesInPrefix(keys: seq<string>, x: string, y: string)
    requires keys != [] && Precedes(keys[..|keys| - 1], x, y)
    ensures Precedes(keys, x, y)
  {
    var init := keys[..|keys| - 1];
    var p, q :| 0 <= p < q < |init| && init[p] == x && init[q] == y;
    PrecedesAt(keys, p, q);
  }

  lemma {:induction false} WithoutKeyIs(b: seq<Entry>, kind: Kind, id: string, i: nat)
    requires DistinctEntries(b) && i < |b| && SameKey(b[i], kind, id)
    ensures WithoutKey(b, kind, id) == b[..i] + b[i + 1..]
  {
    if i == 0 {
      forall e | e in b[1..] ensures !SameKey(e, kind, id) { HeadKeyIsApart(b, kind, id, e); }
      WithoutKeyLength(b[1..], kind, id);
      assert b[..0] + b[1..] == b[1..];
    } else {
      WithoutKeyIs(b[1..], kind, id, i - 1);
      assert !SameKey(b[0], kind, id);
      assert b[..i] + b[i + 1..] == [b[0]] + (b[1..][..i - 1] + b[1..][i..]);
    }
  }

  /** Forgetting a context takes out exactly that one, with its workspace when it was the last of it; a context that is
      not there changes nothing; no other workspace changes, and all keep their order. */
  lemma ForgetMeans(s: Store, wsId: string, kind: Kind, id: string, clock: nat, i: nat)
    requires Good(s, clock) && wsId in s.buckets && i <= |s.buckets[wsId]|
    requires forall j :: 0 <= j < i ==> !SameKey(s.buckets[wsId][j], kind, id)
    requires i < |s.buckets[wsId]| ==> SameKey(s.buckets[wsId][i], kind, id)
    ensures var b, r := s.buckets[wsId], Forgotten(s, wsId, kind, id);
      if i == |b| then r == s
      else
        && BucketOf(r, wsId) == b[..i] + b[i + 1..] && (wsId in r.buckets <==> |b| > 1)
        && (forall k :: k != wsId ==> (k in r.buckets <==> k in s.buckets) && BucketOf(r, k) == BucketOf(s, k))
        && InOrderOf(r.keys, s.keys)
  {
    hide WithoutKey, WithoutWorkspace, InOrderOf, GoodBucket;
    var b := s.buckets[wsId];
    RestIs(b, kind, id, clock, i);
    if i < |b| {
      assert |b[..i] + b[i + 1..]| == |b| - 1;
      WithoutWorkspaceInOrder(s.keys, wsId);
      SameOrder(s.keys);
    }
  }

  lemma SameOrder(keys: seq<string>)
    ensures InOrderOf(keys, keys)
  {
    forall i, j | 0 <= i < j < |keys| { PrecedesAt(keys, i, j); }
  }

  lemma RestIs(b: seq<Entry>, kind: Kind, id: string, clock: nat, i: nat)
    requires GoodBucket(b, clock) && i <= |b|
    requires forall j :: 0 <= j < i ==> !SameKey(b[j], kind, id)
    requires i < |b| ==> SameKey(b[i], kind, id)
    ensures WithoutKey(b, kind, id) == if i == |b| then b else b[..i] + b[i + 1..]
  {
    if i == |b| {
      WithoutKeyLength(b, kind, id);
    } else {
      WithoutKeyIs(b, kind, id, i);
    }
  }

  /** A visit moves the context to the front of its bucket, or puts it there and forgets the twentieth. */
  lemma VisitMeans(b: seq<Entry>, entry: Entry, i: nat)
    requires DistinctEntries(b) && i <= |b| <= MAX_RECENT_CONTEXTS
    requires forall j :: 0 <= j < i ==> !SameKey(b[j], entry.kind, entry.id)
    requires i < |b| ==> SameKey(b[i], entry.kind, entry.id)
    ensures NextBucket(b, entry) == [entry] +
      if i < |b| then b[..i] + b[i + 1..] else b[..if |b| < 20 then |b| else 19]
  {
    WithoutKeyLength(b, entry.kind, entry.id);
    if i == |b| {
      assert forall e :: e in b ==> !SameKey(e, entry.kind, entry.id);
    } else {
      WithoutKeyIs(b, entry.kind, entry.id, i);
    }
  }

  /** Pruning keeps the buckets of the active workspaces as they are, in their order, and no other. */
  lemma PruneMeans(s: Store, active: set<string>)
    requires Indexed(s)
    ensures var r := Pruned(s, active);
      && (forall k :: k in r.buckets <==> k in s.buckets && k in active)
      && (forall k :: k in r.buckets ==> r.buckets[k] == s.buckets[k])
      && (forall k :: k in r.keys <==> k in r.buckets) && InOrderOf(r.keys, s.keys)
  {
    AllowedMembers(s.keys, active);
    AllowedInOrder(s.keys, active);
  }
}
