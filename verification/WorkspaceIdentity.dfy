/** Which workspace is active: two coalesced microtasks on a slug change, and storage namespaced by slug. */
module WorkspaceIdentity {
  import opened IssueModel

  datatype Task = Notify | Rehydrate

  /** `received`, `ran`, `subscribedAt` and `registeredAt` are what an observer sees: the slug each subscriber was
      last called with, and at which slug change each rehydrate function last ran or each party joined. */
  datatype State = State(
    slug: Option<string>,
    wsId: Option<string>,
    subscribers: set<nat>,
    rehydrateFns: seq<nat>,
    pendingNotify: bool,
    pendingRehydrate: bool,
    queue: seq<Task>,
    changes: nat,
    received: map<nat, Option<string>>,
    ran: map<nat, nat>,
    subscribedAt: map<nat, nat>,
    registeredAt: map<nat, nat>)

  datatype Op =
    | SetCurrent(slug: Option<string>, wsId: Option<string>)
    | Subscribe(id: nat)
    | Unsubscribe(id: nat)
    | Register(fn: nat)
    | RunMicrotask

  function FnSet(fns: seq<nat>): set<nat> { set f | f in fns }

  function SetCurrentWorkspace(s: State, slug: Option<string>, wsId: Option<string>): State
  {
    if s.slug == slug then s.(wsId := wsId)
    else RehydrateQueued(NotifyQueued(s.(slug := slug, wsId := wsId, changes := s.changes + 1)))
  }

  function NotifyQueued(s: State): State
  {
    if s.pendingNotify then s else s.(pendingNotify := true, queue := s.queue + [Notify])
  }

  function RehydrateQueued(s: State): State
  {
    if s.pendingRehydrate then s else s.(pendingRehydrate := true, queue := s.queue + [Rehydrate])
  }

  function RunTask(s: State, t: Task): State
  {
    match t
    case Notify => s.(pendingNotify := false, received := map id | id in s.received.Keys + s.subscribers ::
                        if id in s.subscribers then s.slug else s.received[id])
    case Rehydrate => s.(pendingRehydrate := false, ran := map f | f in s.ran.Keys + FnSet(s.rehydrateFns) ::
                           if f in s.rehydrateFns then s.changes else s.ran[f])
  }

  function Take(s: State, op: Op): State
  {
    match op
    case SetCurrent(slug, wsId) => SetCurrentWorkspace(s, slug, wsId)
    case Subscribe(id) =>
      if id in s.subscribers then s
      else s.(subscribers := s.subscribers + {id}, subscribedAt := s.subscribedAt[id := s.changes])
    case Unsubscribe(id) => s.(subscribers := s.subscribers - {id})
    case Register(f) =>
      s.(rehydrateFns := s.rehydrateFns + [f],
         registeredAt := if f in s.registeredAt then s.registeredAt else s.registeredAt[f := s.changes])
    case RunMicrotask =>
      if s.queue == [] then s else RunTask(s.(queue := s.queue[1..]), s.queue[0])
  }

  const START := State(None, None, {}, [], false, false, [], 0, map[], map[], map[], map[])

  function TakeAll(ops: seq<Op>): State
  {
    if ops == [] then START else Take(TakeAll(ops[..|ops| - 1]), ops[|ops| - 1])
  }

  /** A pending flag is up exactly while its one task is queued, in whatever order the two were queued. */
  ghost predicate FlagsMatchQueue(s: State)
  {
    if s.pendingNotify && s.pendingRehydrate then s.queue == [Notify, Rehydrate] || s.queue == [Rehydrate, Notify]
    else if s.pendingNotify then s.queue == [Notify]
    else if s.pendingRehydrate then s.queue == [Rehydrate]
    else s.queue == []
  }

  ghost predicate Joined(s: State)
  {
    && s.subscribers <= s.subscribedAt.Keys && FnSet(s.rehydrateFns) == s.registeredAt.Keys
    && (forall id :: id in s.subscribers ==> s.subscribedAt[id] <= s.changes)
    && (forall f :: f in s.registeredAt ==> s.registeredAt[f] <= s.changes)
  }

  /** With no notification pending, every subscriber of before the last change was last told the current slug. */
  ghost predicate Told(s: State)
    requires Joined(s)
  {
    !s.pendingNotify ==> forall id :: id in s.subscribers && s.subscribedAt[id] < s.changes ==>
      id in s.received && s.received[id] == s.slug
  }

  /** With no rehydration pending, every function of before the last change has run since. */
  ghost predicate Rehydrated(s: State)
    requires Joined(s)
  {
    !s.pendingRehydrate ==> forall f :: f in s.registeredAt && s.registeredAt[f] < s.changes ==>
      f in s.ran && s.ran[f] == s.changes
  }

  ghost predicate Invariant(s: State) { FlagsMatchQueue(s) && Joined(s) && Told(s) && Rehydrated(s) }

  lemma TakeKeepsFlags(s: State, op: Op)
    requires FlagsMatchQueue(s)
    ensures FlagsMatchQueue(Take(s, op))
  {
  }

  lemma TakeKeepsJoined(s: State, op: Op)
    requires Joined(s)
    ensures Joined(Take(s, op))
  {
    match op
    case SetCurrent(slug, wsId) => SetKeepsJoined(s, slug, wsId);
    case Subscribe(id) => SubscribeKeepsJoined(s, id);
    case Unsubscribe(id) =>
    case Register(f) => RegisterKeepsJoined(s, f);
    case RunMicrotask => TaskKeepsJoined(s);
  }

  lemma SetKeepsJoined(s: State, slug: Option<string>, wsId: Option<string>)
    requires Joined(s)
    ensures Joined(Take(s, SetCurrent(slug, wsId)))
  {
    hide FnSet, RunTask, Take;
    SetKeepsParties(s, slug, wsId);
  }

  lemma SetKeepsParties(s: State, slug: Option<string>, wsId: Option<string>)
    ensures var r := Take(s, SetCurrent(slug, wsId));
      && r.subscribers == s.subscribers && r.rehydrateFns == s.rehydrateFns && r.changes >= s.changes
      && r.subscribedAt == s.subscribedAt && r.registeredAt == s.registeredAt
  {
    hide RunTask, FnSet, NotifyQueued, RehydrateQueued;
    if s.slug != slug {
      var moved := s.(slug := slug, wsId := wsId, changes := s.changes + 1);
      QueueKeepsParties(moved);
      QueueKeepsParties(NotifyQueued(moved));
    }
  }

  lemma QueueKeepsParties(s: State)
    ensures SameParties(s, NotifyQueued(s)) && SameParties(s, RehydrateQueued(s))
  {
  }

  ghost predicate SameParties(s: State, r: State)
  {
    && r.subscribers == s.subscribers && r.rehydrateFns == s.rehydrateFns && r.changes == s.changes
    && r.subscribedAt == s.subscribedAt && r.registeredAt == s.registeredAt
  }

  lemma SubscribeKeepsJoined(s: State, id: nat)
    requires Joined(s)
    ensures Joined(Take(s, Subscribe(id)))
  {
    hide FnSet;
  }

  lemma TaskKeepsJoined(s: State)
    requires Joined(s)
    ensures Joined(Take(s, RunMicrotask))
  {
    hide FnSet;
  }

  lemma RegisterKeepsJoined(s: State, f: nat)
    requires Joined(s)
    ensures Joined(Take(s, Register(f)))
  {
    assert FnSet(s.rehydrateFns + [f]) == FnSet(s.rehydrateFns) + {f};
  }

  lemma TakeKeepsTold(s: State, op: Op)
    requires Joined(s) && Told(s) && FlagsMatchQueue(s)
    ensures Joined(Take(s, op)) && Told(Take(s, op))
  {
    hide FnSet;
    TakeKeepsJoined(s, op);
  }

  lemma TakeKeepsRehydrated(s: State, op: Op)
    requires Joined(s) && Rehydrated(s) && FlagsMatchQueue(s)
    ensures Joined(Take(s, op)) && Rehydrated(Take(s, op))
  {
    TakeKeepsJoined(s, op);
    if op.RunMicrotask? {
      TaskKeepsRehydrated(s);
    } else {
      hide FnSet, RunTask;
    }
  }

  lemma TaskKeepsRehydrated(s: State)
    requires Joined(s) && Rehydrated(s) && FlagsMatchQueue(s)
    ensures Joined(Take(s, RunMicrotask)) && Rehydrated(Take(s, RunMicrotask))
  {
    TaskKeepsJoined(s);
    assert forall f :: f in s.rehydrateFns <==> f in FnSet(s.rehydrateFns);
  }

  lemma {:induction false} EveryStateKeepsInvariant(ops: seq<Op>)
    ensures Invariant(TakeAll(ops))
  {
    if ops != [] {
      var s, op := TakeAll(ops[..|ops| - 1]), ops[|ops| - 1];
      EveryStateKeepsInvariant(ops[..|ops| - 1]);
      TakeKeepsFlags(s, op);
      TakeKeepsTold(s, op);
      TakeKeepsRehydrated(s, op);
    }
  }

  /** In every reachable state at most one notification and one rehydration are pending; once the queue is empty,
      everyone who subscribed before the last slug change was last told the current slug, and every function
      registered before it has rehydrated since. */
  lemma ReachableStates(ops: seq<Op>)
    ensures var s := TakeAll(ops);
      && multiset(s.queue)[Notify] <= 1 && multiset(s.queue)[Rehydrate] <= 1
      && Joined(s)
      && (s.queue == [] ==>
           && (forall id :: id in s.subscribers && s.subscribedAt[id] < s.changes ==>
             id in s.received && s.received[id] == s.slug)
           && (forall f :: f in s.rehydrateFns && s.registeredAt[f] < s.changes ==>
             f in s.ran && s.ran[f] == s.changes))
  {
    EveryStateKeepsInvariant(ops);
    var s := TakeAll(ops);
    assert forall f :: f in s.rehydrateFns ==> f in FnSet(s.rehydrateFns);
  }

  /** The queue drains: two microtasks after the last change nothing is pending. */
  lemma TwoTasksDrain(ops: seq<Op>)
    ensures Take(Take(TakeAll(ops), RunMicrotask), RunMicrotask).queue == []
  {
    EveryStateKeepsInvariant(ops);
  }

  // ----- namespaced storage

  predicate ColonFree(s: string) { ':' !in s }

  function Namespaced(key: string, slug: string): string { key + ":" + slug }

  /** The empty slug counts as no workspace. */
  predicate HasWorkspace(slug: Option<string>) { slug.Some? && slug.value != "" }

  /** What one slug's store holds under a key. */
  function View(adapter: map<string, string>, slug: string, key: string): Option<string>
  {
    var k := Namespaced(key, slug);
    if k in adapter then Some(adapter[k]) else None
  }

  datatype StorageOp = Switch(slug: Option<string>) | SetItem(key: string, value: string) | RemoveItem(key: string)

  datatype Storage = Storage(slug: Option<string>, adapter: map<string, string>)

  function Store(s: Storage, op: StorageOp): Storage
  {
    match op
    case Switch(slug) => s.(slug := slug)
    case SetItem(key, value) =>
      if HasWorkspace(s.slug) then s.(adapter := s.adapter[Namespaced(key, s.slug.value) := value]) else s
    case RemoveItem(key) =>
      if HasWorkspace(s.slug) then s.(adapter := s.adapter - {Namespaced(key, s.slug.value)}) else s
  }

  function StoreAll(s: Storage, ops: seq<StorageOp>): Storage
  {
    if ops == [] then s else Store(StoreAll(s, ops[..|ops| - 1]), ops[|ops| - 1])
  }

  /** The reference: one map per slug, written only while that slug is current. */
  function OwnStep(slug: string, cur: Option<string>, mine: map<string, string>, op: StorageOp): map<string, string>
  {
    match op
    case Switch(_) => mine
    case SetItem(key, value) => if cur == Some(slug) then mine[key := value] else mine
    case RemoveItem(key) => if cur == Some(slug) then mine - {key} else mine
  }

  function Current(start: Option<string>, ops: seq<StorageOp>): Option<string>
  {
    if ops == [] then start else
      var op := ops[|ops| - 1];
      if op.Switch? then op.slug else Current(start, ops[..|ops| - 1])
  }

  function OwnMap(slug: string, start: Option<string>, mine: map<string, string>, ops: seq<StorageOp>)
    : map<string, string>
  {
    if ops == [] then mine else
      var init := ops[..|ops| - 1];
      OwnStep(slug, Current(start, init), OwnMap(slug, start, mine, init), ops[|ops| - 1])
  }

  /** Two slugs can reach one physical key exactly when one ends in a colon and the other. */
  predicate Tangled(s: string, t: string)
  {
    s == t || EndsWithColon(s, t) || EndsWithColon(t, s)
  }

  predicate EndsWithColon(s: string, t: string)
  {
    |s| > |t| && s[|s| - |t| - 1..] == ":" + t
  }

  lemma CollisionExactly(s: string, t: string)
    ensures Tangled(s, t) <==> exists k, l :: Namespaced(k, s) == Namespaced(l, t)
  {
    if s == t { assert Namespaced("", s) == Namespaced("", t); }
    if EndsWithColon(s, t) { Collides(s, t); }
    if EndsWithColon(t, s) { Collides(t, s); }
    if k, l :| Namespaced(k, s) == Namespaced(l, t) {
      if |s| == |t| {
        SameLengthSlugs(k, s, l, t);
      } else if |s| > |t| {
        LongerSlug(k, s, l, t);
      } else {
        LongerSlug(l, t, k, s);
      }
    }
  }

  lemma Collides(s: string, t: string)
    requires EndsWithColon(s, t)
    ensures exists k, l :: Namespaced(k, s) == Namespaced(l, t)
    ensures exists k, l :: Namespaced(k, t) == Namespaced(l, s)
  {
    var front := s[..|s| - |t| - 1];
    assert s == front + (":" + t);
    assert Namespaced("", s) == Namespaced(":" + front, t);
  }

  lemma SameLengthSlugs(k: string, s: string, l: string, t: string)
    requires Namespaced(k, s) == Namespaced(l, t) && |s| == |t|
    ensures k == l && s == t
  {
    assert |Namespaced(k, s)| == |k| + 1 + |s| && |Namespaced(l, t)| == |l| + 1 + |t|;
    assert Namespaced(k, s)[|k| + 1..] == s && Namespaced(l, t)[|l| + 1..] == t;
    assert Namespaced(k, s)[..|k|] == k && Namespaced(l, t)[..|l|] == l;
  }

  lemma LongerSlug(k: string, s: string, l: string, t: string)
    requires Namespaced(k, s) == Namespaced(l, t) && |s| > |t|
    ensures EndsWithColon(s, t)
  {
    var n := Namespaced(k, s);
    assert n[|k| + 1..] == s;
    assert n[|l|..] == ":" + t;
    assert s[|l| - |k| - 1..] == n[|l|..];
  }

  /** Colon-free slugs never share a key. */
  lemma ColonFreeApart(k: string, s: string, l: string, t: string)
    requires ColonFree(s) && ColonFree(t) && Namespaced(k, s) == Namespaced(l, t)
    ensures k == l && s == t
  {
    if |s| > |t| { LongerSlug(k, s, l, t); NoColon(s, t); }
    if |t| > |s| { LongerSlug(l, t, k, s); NoColon(t, s); }
    SameLengthSlugs(k, s, l, t);
  }

  lemma NoColon(s: string, t: string)
    requires ColonFree(s)
    ensures !EndsWithColon(s, t)
  {
    if |s| > |t| { assert s[|s| - |t| - 1] in s; }
  }

  predicate ColonFreeOps(ops: seq<StorageOp>)
  {
    forall i :: 0 <= i < |ops| && ops[i].Switch? && ops[i].slug.Some? ==> ColonFree(ops[i].slug.value)
  }

  lemma {:induction false} CurrentIs(s: Storage, ops: seq<StorageOp>)
    requires ColonFreeOps(ops) && (s.slug.Some? ==> ColonFree(s.slug.value))
    ensures StoreAll(s, ops).slug == Current(s.slug, ops)
    ensures Current(s.slug, ops).Some? ==> ColonFree(Current(s.slug, ops).value)
  {
    if ops != [] { CurrentIs(s, ops[..|ops| - 1]); }
  }

  function Reads(m: map<string, string>, key: string): Option<string> { if key in m then Some(m[key]) else None }

  lemma OneMapStep(before: Storage, op: StorageOp, slug: string, mine: map<string, string>, key: string)
    requires slug != "" && ColonFree(slug) && (before.slug.Some? ==> ColonFree(before.slug.value))
    requires View(before.adapter, slug, key) == Reads(mine, key)
    ensures View(Store(before, op).adapter, slug, key) == Reads(OwnStep(slug, before.slug, mine, op), key)
  {
    if !op.Switch? && HasWorkspace(before.slug) {
      if Namespaced(op.key, before.slug.value) == Namespaced(key, slug) {
        ColonFreeApart(op.key, before.slug.value, key, slug);
      }
    }
  }

  /** Over any run that switches between colon-free slugs the one physical adapter behaves, for each slug, as a map
      of its own: nothing written under another slug, or under none, is ever read. */
  lemma {:induction false} OneMapPerSlug(s: Storage, ops: seq<StorageOp>, slug: string, mine: map<string, string>,
                                         key: string)
    requires slug != "" && ColonFree(slug) && ColonFreeOps(ops) && (s.slug.Some? ==> ColonFree(s.slug.value))
    requires View(s.adapter, slug, key) == Reads(mine, key)
    ensures View(StoreAll(s, ops).adapter, slug, key) == Reads(OwnMap(slug, s.slug, mine, ops), key)
  {
    if ops != [] {
      var init := ops[..|ops| - 1];
      OneMapPerSlug(s, init, slug, mine, key);
      CurrentIs(s, init);
      OneMapStep(StoreAll(s, init), ops[|ops| - 1], slug, OwnMap(slug, s.slug, mine, init), key);
    }
  }

  // ----- the module as an object

  class Workspace {
    var slug: Option<string>
    var wsId: Option<string>
    var subscribers: set<nat>
    var rehydrateFns: seq<nat>
    var pendingNotify: bool
    var pendingRehydrate: bool
    var queue: seq<Task>
    var adapter: map<string, string>
    ghost var changes: nat
    ghost var received: map<nat, Option<string>>
    ghost var ran: map<nat, nat>
    ghost var subscribedAt: map<nat, nat>
    ghost var registeredAt: map<nat, nat>

    ghost function Now(): State
      reads this
    {
      State(slug, wsId, subscribers, rehydrateFns, pendingNotify, pendingRehydrate, queue, changes, received, ran,
        subscribedAt, registeredAt)
    }

    constructor ()
      ensures Now() == START && adapter == map[]
    {
      slug, wsId, subscribers, rehydrateFns := None, None, {}, [];
      pendingNotify, pendingRehydrate, queue, adapter := false, false, [], map[];
      changes, received, ran, subscribedAt, registeredAt := 0, map[], map[], map[], map[];
    }

    method SetCurrent(slug': Option<string>, wsId': Option<string>)
      modifies this
      ensures Now() == Take(old(Now()), Op.SetCurrent(slug', wsId')) && adapter == old(adapter)
    {
      if slug == slug' {
        wsId := wsId';
        return;
      }
      slug, wsId, changes := slug', wsId', changes + 1;
      QueueNotify();
      QueueRehydrate();
    }

    method QueueNotify()
      modifies this
      ensures Now() == NotifyQueued(old(Now())) && adapter == old(adapter)
    {
      if pendingNotify { return; }
      pendingNotify, queue := true, queue + [Notify];
    }

    method QueueRehydrate()
      modifies this
      ensures Now() == RehydrateQueued(old(Now())) && adapter == old(adapter)
    {
      if pendingRehydrate { return; }
      pendingRehydrate, queue := true, queue + [Rehydrate];
    }

    method SubscribeToCurrentSlug(id: nat)
      modifies this
      ensures Now() == Take(old(Now()), Subscribe(id)) && adapter == old(adapter)
    {
      if id !in subscribers { subscribedAt := subscribedAt[id := changes]; }
      subscribers := subscribers + {id};
    }

    method UnsubscribeFromCurrentSlug(id: nat)
      modifies this
      ensures Now() == Take(old(Now()), Unsubscribe(id)) && adapter == old(adapter)
    {
      subscribers := subscribers - {id};
    }

    method RegisterForWorkspaceRehydration(f: nat)
      modifies this
      ensures Now() == Take(old(Now()), Register(f)) && adapter == old(adapter)
    {
      if f !in registeredAt { registeredAt := registeredAt[f := changes]; }
      rehydrateFns := rehydrateFns + [f];
    }

    /** The next queued microtask; the callbacks it makes are the recorded ghost updates. */
    method RunNextMicrotask()
      modifies this
      ensures Now() == Take(old(Now()), RunMicrotask) && adapter == old(adapter)
    {
      if queue == [] { return; }
      var task := queue[0];
      queue := queue[1..];
      match task {
        case Notify =>
          pendingNotify := false;
          ghost var current := slug;
          received := map id | id in received.Keys + subscribers :: if id in subscribers then current else received[id];
        case Rehydrate =>
          pendingRehydrate := false;
          ran := map f | f in ran.Keys + FnSet(rehydrateFns) :: if f in rehydrateFns then changes else ran[f];
      }
    }

    method GetItem(key: string) returns (r: Option<string>)
      ensures r == if HasWorkspace(slug) then View(adapter, slug.value, key) else None
    {
      if !HasWorkspace(slug) { return None; }
      var k := key + ":" + slug.value;
      r := if k in adapter then Some(adapter[k]) else None;
    }

    method SetItem(key: string, value: string)
      modifies this`adapter
      ensures Storage(slug, adapter) == Store(old(Storage(slug, adapter)), StorageOp.SetItem(key, value))
    {
      if HasWorkspace(slug) { adapter := adapter[key + ":" + slug.value := value]; }
    }

    method RemoveItem(key: string)
      modifies this`adapter
      ensures Storage(slug, adapter) == Store(old(Storage(slug, adapter)), StorageOp.RemoveItem(key))
    {
      if HasWorkspace(slug) { adapter := adapter - {key + ":" + slug.value}; }
    }
  }

  // ----- the current workspace

  /** Slug and id are those of the last call, whatever came after it. */
  lemma {:induction false} LastCallWins(ops: seq<Op>, n: nat)
    requires n < |ops| && ops[n].SetCurrent? && forall m :: n < m < |ops| ==> !ops[m].SetCurrent?
    ensures TakeAll(ops).slug == ops[n].slug && TakeAll(ops).wsId == ops[n].wsId
    decreases |ops|
  {
    hide Take;
    var before, op := TakeAll(ops[..|ops| - 1]), ops[|ops| - 1];
    if n < |ops| - 1 {
      LastCallWins(ops[..|ops| - 1], n);
      OthersKeepCurrent(before, op);
    } else {
      CallIsCurrent(before, op);
    }
  }

  lemma OthersKeepCurrent(s: State, op: Op)
    requires !op.SetCurrent?
    ensures Take(s, op).slug == s.slug && Take(s, op).wsId == s.wsId
  {
  }

  lemma CallIsCurrent(s: State, op: Op)
    requires op.SetCurrent?
    ensures Take(s, op).slug == op.slug && Take(s, op).wsId == op.wsId
  {
  }

  /** A call with the slug that is set already queues nothing and tells nobody; one with another slug leaves both tasks
      queued. */
  lemma SlugDecidesTasks(s: State, slug: Option<string>, wsId: Option<string>)
    requires FlagsMatchQueue(s)
    ensures var r := Take(s, SetCurrent(slug, wsId));
      if slug == s.slug then r == s.(wsId := wsId)
      else Notify in r.queue && Rehydrate in r.queue && (s.queue == [] ==> r.queue == [Notify, Rehydrate])
  {
  }

  // ----- who is told

  /** There is a subscription that no later operation took back. */
  ghost predicate StillSubscribed(ops: seq<Op>, id: nat)
  {
    exists n :: 0 <= n < |ops| && SubscribesLast(ops, id, n)
  }

  ghost predicate SubscribesLast(ops: seq<Op>, id: nat, n: nat)
    requires n < |ops|
  {
    ops[n] == Subscribe(id) && forall m :: n < m < |ops| ==> ops[m] != Unsubscribe(id)
  }

  lemma SubscriptionSnoc(ops: seq<Op>, id: nat)
    requires ops != []
    ensures var op := ops[|ops| - 1];
      StillSubscribed(ops, id) <==>
        op == Subscribe(id) || (StillSubscribed(ops[..|ops| - 1], id) && op != Unsubscribe(id))
  {
    var last, init := |ops| - 1, ops[..|ops| - 1];
    if StillSubscribed(ops, id) && ops[last] != Subscribe(id) {
      var n :| 0 <= n < |ops| && SubscribesLast(ops, id, n);
      assert init[n] == ops[n] && forall m :: n < m < last ==> init[m] == ops[m];
      assert SubscribesLast(init, id, n);
    }
    if ops[last] == Subscribe(id) { assert SubscribesLast(ops, id, last); }
    if StillSubscribed(init, id) && ops[last] != Unsubscribe(id) {
      var n :| 0 <= n < last && SubscribesLast(init, id, n);
      assert ops[n] == init[n] && forall m :: n < m < last ==> ops[m] == init[m];
      assert SubscribesLast(ops, id, n);
    }
  }

  /** Subscribed is who subscribed since it last unsubscribed. */
  lemma {:induction false} SubscribedExactly(ops: seq<Op>, id: nat)
    ensures id in TakeAll(ops).subscribers <==> StillSubscribed(ops, id)
  {
    hide Take;
    if ops != [] {
      hide StillSubscribed;
      SubscribedExactly(ops[..|ops| - 1], id);
      SubscribersAfter(TakeAll(ops[..|ops| - 1]), ops[|ops| - 1], id);
      SubscriptionSnoc(ops, id);
    }
  }

  lemma SubscribersAfter(s: State, op: Op, id: nat)
    ensures id in Take(s, op).subscribers <==> op == Subscribe(id) || (id in s.subscribers && op != Unsubscribe(id))
  {
    hide FnSet, RunTask;
    if op.RunMicrotask? && s.queue != [] { TaskKeepsParties(s.(queue := s.queue[1..]), s.queue[0]); }
  }

  lemma TaskKeepsParties(s: State, t: Task)
    ensures RunTask(s, t).subscribers == s.subscribers && RunTask(s, t).rehydrateFns == s.rehydrateFns
  {
    hide FnSet;
  }

  /** A task calls the current subscribers and nobody else; a rehydration runs the registered functions. */
  lemma TaskReachesExactly(s: State, id: nat)
    requires s.queue != []
    ensures var r := Take(s, RunMicrotask);
      && (id !in s.subscribers ==> (id in r.received <==> id in s.received))
      && (id !in s.subscribers && id in s.received ==> r.received[id] == s.received[id])
      && (s.queue[0].Notify? && id in s.subscribers ==> id in r.received && r.received[id] == s.slug)
      && (s.queue[0].Rehydrate? && id in s.rehydrateFns ==> id in r.ran && r.ran[id] == s.changes)
  {
  }

  /** A function runs as often as it was registered, in the order of registration. */
  lemma {:induction false} RegisteredExactly(ops: seq<Op>)
    ensures TakeAll(ops).rehydrateFns == Registered(ops)
  {
    hide Take;
    if ops != [] {
      RegisteredExactly(ops[..|ops| - 1]);
      FnsAfter(TakeAll(ops[..|ops| - 1]), ops[|ops| - 1]);
    }
  }

  function Registered(ops: seq<Op>): seq<nat>
  {
    if ops == [] then [] else
      Registered(ops[..|ops| - 1]) + match ops[|ops| - 1] { case Register(f) => [f] case _ => [] }
  }

  lemma FnsAfter(s: State, op: Op)
    ensures Take(s, op).rehydrateFns == s.rehydrateFns + match op { case Register(f) => [f] case _ => [] }
  {
    hide FnSet, RunTask;
    if op.RunMicrotask? && s.queue != [] { TaskKeepsParties(s.(queue := s.queue[1..]), s.queue[0]); }
  }

  /** Without a workspace, and an empty slug is none, nothing is stored. */
  lemma NoWorkspaceStoresNothing(s: Storage, op: StorageOp)
    requires s.slug.None? || s.slug == Some("")
    ensures Store(s, op).adapter == s.adapter
  {
  }
}
