/** The mobile timeline: every thread folded into one row. */
module TimelineRows {
  import opened IssueModel
  import opened CommentThreads

  datatype Row = Row(entry: Entry, replies: seq<Entry>)

  predicate IsReply(g: Graph, e: Entry)
  {
    e.kind.Comment? && Truthy(e.parentId) && e.parentId.value in g
  }

  ghost predicate UniqueCommentIds(entries: seq<Entry>)
  {
    forall i, j :: 0 <= i < j < |entries| && entries[i].kind.Comment? && entries[j].kind.Comment? ==>
      entries[i].id != entries[j].id
  }

  // ----- ancestors

  /** Walking up from `x` ends in `root`. */
  ghost predicate Hangs(g: Graph, x: Id, root: Id)
  {
    exists t :: Trail(g, t, x) && t[|t| - 1] == root
  }

  predicate IsTop(g: Graph, id: Id)
  {
    id in g && !(Truthy(g[id].parentId) && g[id].parentId.value in g)
  }

  /** Walking up from `x` meets a comment twice: `x` is on a cycle or below one. */
  ghost predicate Looped(g: Graph, x: Id)
  {
    exists t :: Trail(g, t, x) && Repeats(t)
  }

  ghost predicate Repeats(t: seq<Id>) { exists i :: 0 <= i < |t| - 1 && t[i] == t[|t| - 1] }

  ghost predicate Rooted(g: Graph, x: Id)
  {
    exists root :: IsTop(g, root) && Hangs(g, x, root)
  }

  lemma {:induction false} TrailsAgree(g: Graph, t: seq<Id>, u: seq<Id>, x: Id, i: nat)
    requires Trail(g, t, x) && Trail(g, u, x) && i < |t| && i < |u|
    ensures t[i] == u[i]
  {
    if i > 0 {
      TrailsAgree(g, t, u, x, i - 1);
      assert ChildOf(g[t[i - 1]], t[i - 1 + 1]) && ChildOf(g[u[i - 1]], u[i - 1 + 1]);
    }
  }

  lemma TrailStep(g: Graph, t: seq<Id>, x: Id, i: nat)
    requires Trail(g, t, x) && i < |t| - 1
    ensures ChildOf(g[t[i]], t[i + 1]) && !IsTop(g, t[i])
  {
    assert t[i + 1] in g;
  }

  /** A trail that ends at the top is the longest one. */
  lemma TopEndsTrail(g: Graph, t: seq<Id>, u: seq<Id>, x: Id)
    requires Trail(g, t, x) && Trail(g, u, x) && IsTop(g, t[|t| - 1])
    ensures |u| <= |t|
  {
    if |u| > |t| {
      TrailStep(g, u, x, |t| - 1);
      TrailsAgree(g, t, u, x, |t| - 1);
    }
  }

  lemma {:induction false} LoopShifts(g: Graph, t: seq<Id>, x: Id, i: nat, j: nat, k: nat)
    requires Trail(g, t, x) && i < j && j + k < |t| && t[i] == t[j]
    ensures t[i + k] == t[j + k]
  {
    if k > 0 {
      LoopShifts(g, t, x, i, j, k - 1);
      assert ChildOf(g[t[i + k - 1]], t[i + k - 1 + 1]) && ChildOf(g[t[j + k - 1]], t[j + k - 1 + 1]);
    }
  }

  lemma RootedIsNotLooped(g: Graph, x: Id)
    requires Rooted(g, x)
    ensures !Looped(g, x)
  {
    var root :| IsTop(g, root) && Hangs(g, x, root);
    var t :| Trail(g, t, x) && t[|t| - 1] == root;
    if Looped(g, x) {
      var u :| Trail(g, u, x) && Repeats(u);
      var i :| 0 <= i < |u| - 1 && u[i] == u[|u| - 1];
      TopEndsTrail(g, t, u, x);
      var j := |u| - 1;
      TrailsAgree(g, t, u, x, i);
      TrailsAgree(g, t, u, x, j);
      var k := |t| - 1 - j;
      TrailStep(g, t, x, i + k);
      LoopShifts(g, t, x, i, j, k);
    }
  }

  /** The walk up from any known comment stops at a top comment or on a repetition. */
  lemma {:induction false} WalkStops(g: Graph, t: seq<Id>, x: Id)
    requires Trail(g, t, x) && forall i, j :: 0 <= i < j < |t| ==> t[i] != t[j]
    ensures Rooted(g, x) || Looped(g, x)
    decreases g.Keys - (set i | 0 <= i < |t| :: t[i])
  {
    var last := t[|t| - 1];
    if IsTop(g, last) {
      assert Hangs(g, x, last);
    } else {
      var u := t + [g[last].parentId.value];
      assert Trail(g, u, x) by {
        forall i | 0 <= i < |u| - 1 ensures ChildOf(g[u[i]], u[i + 1]) {
          if i < |t| - 1 { assert ChildOf(g[t[i]], t[i + 1]); }
        }
      }
      if u[|t|] in t {
        var i :| 0 <= i < |t| && t[i] == u[|t|];
        assert u[i] == u[|u| - 1];
      } else {
        assert u[|t|] in g.Keys - (set i | 0 <= i < |t| :: t[i]);
        assert u[|t|] in (set i | 0 <= i < |u| :: u[i]);
        assert forall i :: 0 <= i < |t| ==> t[i] == u[i];
        WalkStops(g, u, x);
      }
    }
  }

  /** Every known comment either has a root ancestor or sits on or below a cycle, never both. */
  lemma RootedOrLooped(g: Graph, x: Id)
    requires x in g
    ensures Rooted(g, x) <==> !Looped(g, x)
  {
    assert Trail(g, [x], x);
    WalkStops(g, [x], x);
    if Rooted(g, x) { RootedIsNotLooped(g, x); }
  }

  lemma OneRoot(g: Graph, x: Id, a: Id, b: Id)
    requires IsTop(g, a) && IsTop(g, b) && Hangs(g, x, a) && Hangs(g, x, b)
    ensures a == b
  {
    var t :| Trail(g, t, x) && t[|t| - 1] == a;
    var u :| Trail(g, u, x) && u[|u| - 1] == b;
    TopEndsTrail(g, t, u, x);
    TopEndsTrail(g, u, t, x);
    TrailsAgree(g, t, u, x, |t| - 1);
  }

  /** A child of a comment hangs wherever the comment hangs. */
  lemma ChildHangs(g: Graph, child: Id, parent: Id, root: Id)
    requires child in g && ChildOf(g[child], parent) && Hangs(g, parent, root)
    ensures Hangs(g, child, root)
  {
    var t :| Trail(g, t, parent) && t[|t| - 1] == root;
    var u := [child] + t;
    forall i | 0 <= i < |u| - 1 ensures ChildOf(g[u[i]], u[i + 1]) {
      if i > 0 { assert ChildOf(g[t[i - 1]], t[i - 1 + 1]); }
    }
    assert Trail(g, u, child);
  }

  /** Whoever hangs strictly below the root has its parent hanging there too. */
  lemma ParentHangs(g: Graph, x: Id, root: Id)
    requires Hangs(g, x, root) && x != root
    ensures x in g && Truthy(g[x].parentId) && g[x].parentId.value in g && Hangs(g, g[x].parentId.value, root)
  {
    var t :| Trail(g, t, x) && t[|t| - 1] == root;
    var u := t[1..];
    assert ChildOf(g[t[0]], t[0 + 1]);
    forall i | 0 <= i < |u| - 1 ensures ChildOf(g[u[i]], u[i + 1]) {
      assert ChildOf(g[t[i + 1]], t[i + 1 + 1]);
    }
    assert Trail(g, u, g[x].parentId.value);
  }

  lemma {:induction false} ClosedHoldsHanging(g: Graph, ids: set<Id>, t: seq<Id>, x: Id)
    requires Trail(g, t, x) && t[|t| - 1] in ids
    requires forall c, p :: c in g && p in ids && ChildOf(g[c], p) ==> c in ids
    ensures x in ids
  {
    if |t| > 1 {
      var u := t[1..];
      assert ChildOf(g[t[0]], t[0 + 1]);
      forall i | 0 <= i < |u| - 1 ensures ChildOf(g[u[i]], u[i + 1]) {
        assert ChildOf(g[t[i + 1]], t[i + 1 + 1]);
      }
      ClosedHoldsHanging(g, ids, u, t[1]);
    }
  }

  // ----- partition

  function Select(entries: seq<Entry>, g: Graph, replies: bool): seq<Entry>
  {
    if entries == [] then [] else
      var n := |entries| - 1;
      Select(entries[..n], g, replies) + (if IsReply(g, entries[n]) == replies then [entries[n]] else [])
  }

  /** The replies to one comment in input order. */
  function RepliesTo(entries: seq<Entry>, g: Graph, parent: Id): seq<Entry>
  {
    if entries == [] then [] else
      var n := |entries| - 1;
      RepliesTo(entries[..n], g, parent) +
      (if IsReply(g, entries[n]) && entries[n].parentId.value == parent then [entries[n]] else [])
  }

  lemma {:induction false} RepliesToMembers(entries: seq<Entry>, g: Graph, parent: Id)
    ensures forall e :: e in RepliesTo(entries, g, parent) <==>
      e in entries && IsReply(g, e) && e.parentId.value == parent
    ensures UniqueCommentIds(entries) ==> DistinctEntries(RepliesTo(entries, g, parent))
  {
    if entries != [] {
      var n := |entries| - 1;
      assert entries == entries[..n] + [entries[n]];
      RepliesToMembers(entries[..n], g, parent);
      var init := RepliesTo(entries[..n], g, parent);
      if UniqueCommentIds(entries) && entries[n].kind.Comment? {
        forall e | e in init ensures e.id != entries[n].id { LastIsApart(entries, e); }
        assert forall i :: 0 <= i < |init| ==> init[i] in init;
      }
    }
  }

  lemma LastIsApart(entries: seq<Entry>, e: Entry)
    requires UniqueCommentIds(entries) && entries != [] && e in entries[..|entries| - 1]
    requires e.kind.Comment? && entries[|entries| - 1].kind.Comment?
    ensures e.id != entries[|entries| - 1].id
  {
  }

  ghost predicate DistinctEntries(es: seq<Entry>)
  {
    forall i, j :: 0 <= i < j < |es| ==> es[i].id != es[j].id
  }

  type ReplyMap = map<Id, seq<Entry>>

  function RepliesIn(children: ReplyMap, parent: Id): seq<Entry>
  {
    if parent in children then children[parent] else []
  }

  lemma PartitionStep(entries: seq<Entry>, g: Graph, n: nat)
    requires n < |entries|
    ensures Select(entries[..n + 1], g, false) ==
      Select(entries[..n], g, false) + (if IsReply(g, entries[n]) then [] else [entries[n]])
    ensures forall p :: (RepliesTo(entries[..n + 1], g, p) == RepliesTo(entries[..n], g, p) +
      (if IsReply(g, entries[n]) && entries[n].parentId.value == p then [entries[n]] else []))
  {
    assert entries[..n + 1][..n] == entries[..n];
  }

  lemma FileReply(before: seq<Entry>, g: Graph, children: ReplyMap, e: Entry, after: seq<Entry>)
    requires IsReply(g, e)
    requires forall p :: RepliesIn(children, p) == RepliesTo(before, g, p)
    requires forall p :: RepliesTo(after, g, p) == RepliesTo(before, g, p) + (if e.parentId.value == p then [e] else [])
    ensures var p := e.parentId.value;
      forall q :: RepliesIn(children[p := RepliesIn(children, p) + [e]], q) == RepliesTo(after, g, q)
  {
    var p := e.parentId.value;
    forall q ensures RepliesIn(children[p := RepliesIn(children, p) + [e]], q) == RepliesTo(after, g, q) {
      if q != p { assert RepliesTo(before, g, q) + [] == RepliesTo(before, g, q); }
    }
  }

  method Partition(entries: seq<Entry>) returns (topLevel: seq<Entry>, children: ReplyMap)
    ensures topLevel == Select(entries, ById(entries), false)
    ensures forall p :: RepliesIn(children, p) == RepliesTo(entries, ById(entries), p)
  {
    var g := ById(entries);
    topLevel, children := [], map[];
    var n := 0;
    while n < |entries|
      invariant 0 <= n <= |entries|
      invariant topLevel == Select(entries[..n], g, false)
      invariant forall p :: RepliesIn(children, p) == RepliesTo(entries[..n], g, p)
    {
      var e := entries[n];
      PartitionStep(entries, g, n);
      if IsReply(g, e) {
        var p := e.parentId.value;
        FileReply(entries[..n], g, children, e, entries[..n + 1]);
        children := children[p := RepliesIn(children, p) + [e]];
      } else {
        topLevel := topLevel + [e];
      }
      n := n + 1;
    }
    assert entries[..n] == entries;
  }

  // ----- the breadth-first bundle

  function Ids(es: seq<Entry>): seq<Id> { seq(|es|, i requires 0 <= i < |es| => es[i].id) }

  /** The reply lists of these comments, one after the other. */
  function AllReplies(children: ReplyMap, parents: seq<Id>): seq<Entry>
  {
    if parents == [] then [] else
      AllReplies(children, parents[..|parents| - 1]) + RepliesIn(children, parents[|parents| - 1])
  }

  /** The replies to each of these comments, one comment after the other, each in input order. */
  function LevelOrder(entries: seq<Entry>, g: Graph, parents: seq<Id>): seq<Entry>
  {
    if parents == [] then [] else
      LevelOrder(entries, g, parents[..|parents| - 1]) + RepliesTo(entries, g, parents[|parents| - 1])
  }

  lemma {:induction false} RepliesAreLevelOrder(entries: seq<Entry>, g: Graph, children: ReplyMap, parents: seq<Id>)
    requires forall p :: RepliesIn(children, p) == RepliesTo(entries, g, p)
    ensures AllReplies(children, parents) == LevelOrder(entries, g, parents)
  {
    if parents != [] { RepliesAreLevelOrder(entries, g, children, parents[..|parents| - 1]); }
  }

  /** The reply lists hold, per known comment, its replies; ids are unique. */
  ghost predicate ReplyLists(g: Graph, children: ReplyMap)
  {
    && Keyed(g) && (forall x :: x in g ==> g[x].kind.Comment?)
    && (forall p, e :: e in RepliesIn(children, p) ==>
      e.id in g && g[e.id] == e && IsReply(g, e) && e.parentId.value == p)
    && (forall p, x :: x in g && IsReply(g, g[x]) && g[x].parentId.value == p ==> g[x] in RepliesIn(children, p))
    && (forall p :: DistinctEntries(RepliesIn(children, p)))
  }

  function IdSet(ids: seq<Id>): set<Id> { set x | x in ids }

  ghost predicate NoRepeats(ids: seq<Id>)
  {
    forall i, j :: 0 <= i < j < |ids| ==> ids[i] != ids[j]
  }

  lemma NoRepeatsAppend(a: seq<Id>, b: seq<Id>)
    requires NoRepeats(a) && NoRepeats(b) && forall x :: x in b ==> x !in a
    ensures NoRepeats(a + b)
  {
    assert forall i :: 0 <= i < |a| ==> a[i] in a;
    assert forall j :: 0 <= j < |b| ==> b[j] in b;
  }

  ghost predicate Bundled(g: Graph, root: Id, done: seq<Id>, out: seq<Entry>)
  {
    forall e :: e in out ==>
      e.id in g && g[e.id] == e && IsReply(g, e) && e.parentId.value in done && Hangs(g, e.id, root)
  }

  ghost predicate Bfs(g: Graph, children: ReplyMap, root: Id, done: seq<Id>, queue: seq<Id>, out: seq<Entry>)
  {
    && done + queue == [root] + Ids(out)
    && out == AllReplies(children, done)
    && NoRepeats(done + queue)
    && Bundled(g, root, done, out)
  }

  lemma BfsStep(g: Graph, children: ReplyMap, root: Id, done: seq<Id>, queue: seq<Id>, out: seq<Entry>)
    requires ReplyLists(g, children) && IsTop(g, root) && Bfs(g, children, root, done, queue, out) && queue != []
    ensures var kids := RepliesIn(children, queue[0]);
      Bfs(g, children, root, done + [queue[0]], queue[1..] + Ids(kids), out + kids)
  {
    QueueStep(children, root, done, queue, out);
    StillBundled(g, children, root, done, queue, out);
    KidsAreNew(g, children, root, done, queue, out);
    HeadMoves(done, queue, Ids(RepliesIn(children, queue[0])));
  }

  lemma HeadMoves(done: seq<Id>, queue: seq<Id>, kids: seq<Id>)
    requires queue != []
    ensures (done + [queue[0]]) + (queue[1..] + kids) == (done + queue) + kids
  {
  }

  lemma QueueStep(children: ReplyMap, root: Id, done: seq<Id>, queue: seq<Id>, out: seq<Entry>)
    requires done + queue == [root] + Ids(out) && out == AllReplies(children, done) && queue != []
    ensures var kids := RepliesIn(children, queue[0]);
      && (done + [queue[0]]) + (queue[1..] + Ids(kids)) == [root] + Ids(out + kids)
      && out + kids == AllReplies(children, done + [queue[0]])
  {
    hide RepliesIn;
    var kids := RepliesIn(children, queue[0]);
    RepliesSnoc(children, done, queue[0]);
    HeadMoves(done, queue, Ids(kids));
    IdsOfBoth(root, out, kids);
  }

  lemma RepliesSnoc(children: ReplyMap, done: seq<Id>, id: Id)
    ensures AllReplies(children, done + [id]) == AllReplies(children, done) + RepliesIn(children, id)
  {
    assert (done + [id])[..|done|] == done;
  }

  lemma IdsOfBoth(root: Id, out: seq<Entry>, kids: seq<Entry>)
    ensures ([root] + Ids(out)) + Ids(kids) == [root] + Ids(out + kids)
  {
    assert Ids(out + kids) == Ids(out) + Ids(kids);
  }

  lemma StillBundled(g: Graph, children: ReplyMap, root: Id, done: seq<Id>, queue: seq<Id>, out: seq<Entry>)
    requires ReplyLists(g, children) && IsTop(g, root) && Bfs(g, children, root, done, queue, out) && queue != []
    ensures Bundled(g, root, done + [queue[0]], out + RepliesIn(children, queue[0]))
  {
    PidHangs(g, children, root, done, queue, out);
    forall e | e in RepliesIn(children, queue[0]) ensures Hangs(g, e.id, root) { ChildHangs(g, e.id, queue[0], root); }
  }

  lemma KidsAreNew(g: Graph, children: ReplyMap, root: Id, done: seq<Id>, queue: seq<Id>, out: seq<Entry>)
    requires ReplyLists(g, children) && IsTop(g, root) && Bfs(g, children, root, done, queue, out) && queue != []
    ensures NoRepeats((done + queue) + Ids(RepliesIn(children, queue[0])))
  {
    var kids := RepliesIn(children, queue[0]);
    forall x | x in Ids(kids) ensures x !in done + queue {
      var i :| 0 <= i < |kids| && Ids(kids)[i] == x;
      NewKid(g, children, root, done, queue, out, kids[i]);
    }
    NoRepeatsAppend(done + queue, Ids(kids));
  }

  lemma PidHangs(g: Graph, children: ReplyMap, root: Id, done: seq<Id>, queue: seq<Id>, out: seq<Entry>)
    requires IsTop(g, root) && Bfs(g, children, root, done, queue, out) && queue != []
    ensures queue[0] in g && Hangs(g, queue[0], root)
  {
    var i := |done|;
    assert (done + queue)[i] == queue[0] == ([root] + Ids(out))[i];
    if i == 0 {
      assert Trail(g, [root], root);
    } else {
      assert out[i - 1] in out;
    }
  }

  lemma NewKid(g: Graph, children: ReplyMap, root: Id, done: seq<Id>, queue: seq<Id>, out: seq<Entry>, e: Entry)
    requires ReplyLists(g, children) && IsTop(g, root) && Bfs(g, children, root, done, queue, out) && queue != []
    requires e in RepliesIn(children, queue[0])
    ensures e.id !in done + queue
  {
    var all := done + queue;
    HeadIsNew(done, queue);
    forall i | 0 <= i < |all| ensures all[i] != e.id {
      assert all[i] == ([root] + Ids(out))[i];
      if i > 0 { assert out[i - 1] in out; }
    }
  }

  lemma HeadIsNew(done: seq<Id>, queue: seq<Id>)
    requires queue != [] && NoRepeats(done + queue)
    ensures queue[0] !in done
  {
    var all := done + queue;
    assert all[|done|] == queue[0];
    forall k | 0 <= k < |done| ensures done[k] != queue[0] { assert all[k] == done[k]; }
  }

  /** Breadth first from a top comment: the bundle lists, level by level and in input order, exactly the
      comments that hang below it. Every comment is queued at most once, so cycles elsewhere do not matter. */
  method CollectDescendants(g: Graph, children: ReplyMap, root: Id) returns (out: seq<Entry>)
    requires ReplyLists(g, children) && IsTop(g, root)
    ensures out == AllReplies(children, [root] + Ids(out))
    ensures DistinctEntries(out)
    ensures forall e :: e in out <==> e.id in g && g[e.id] == e && e.id != root && Hangs(g, e.id, root)
  {
    out := [];
    var queue := [root];
    ghost var done: seq<Id> := [];
    while queue != []
      invariant Bfs(g, children, root, done, queue, out)
      decreases g.Keys - IdSet(done)
    {
      var pid := queue[0];
      BfsStep(g, children, root, done, queue, out);
      PidHangs(g, children, root, done, queue, out);
      HeadIsNew(done, queue);
      ghost var done' := done + [pid];
      assert IdSet(done') == IdSet(done) + {pid};
      out := out + RepliesIn(children, pid);
      queue := queue[1..] + Ids(RepliesIn(children, pid));
      done := done';
    }
    assert done == [root] + Ids(out);
    BundleIsComplete(g, children, root, out);
  }

  lemma BundleIsComplete(g: Graph, children: ReplyMap, root: Id, out: seq<Entry>)
    requires ReplyLists(g, children) && IsTop(g, root) && Bfs(g, children, root, [root] + Ids(out), [], out)
    ensures DistinctEntries(out)
    ensures forall e :: e in out <==> e.id in g && g[e.id] == e && e.id != root && Hangs(g, e.id, root)
  {
    var done := [root] + Ids(out);
    assert done + [] == done;
    OutDistinct(root, out);
    forall x | x in g && x != root && Hangs(g, x, root) ensures g[x] in out {
      HangingIsListed(g, children, root, out, x);
    }
  }

  lemma OutDistinct(root: Id, out: seq<Entry>)
    requires NoRepeats([root] + Ids(out))
    ensures DistinctEntries(out) && forall e :: e in out ==> e.id != root
  {
    var done := [root] + Ids(out);
    forall i, j | 0 <= i < j < |out| ensures out[i].id != out[j].id {
      assert done[i + 1] != done[j + 1];
    }
    forall e | e in out ensures e.id != root {
      var m :| 0 <= m < |out| && out[m] == e;
      assert done[0] != done[m + 1];
    }
  }

  lemma HangingIsListed(g: Graph, children: ReplyMap, root: Id, out: seq<Entry>, x: Id)
    requires ReplyLists(g, children) && IsTop(g, root) && out == AllReplies(children, [root] + Ids(out))
    requires forall e :: e in out ==> e.id in g && g[e.id] == e
    requires x in g && x != root && Hangs(g, x, root)
    ensures g[x] in out
  {
    var ids := {root} + set e | e in out :: e.id;
    forall c, p | c in g && p in ids && ChildOf(g[c], p) ensures c in ids {
      ClosedUnderReplies(g, children, root, out, c, p);
    }
    var t :| Trail(g, t, x) && t[|t| - 1] == root;
    ClosedHoldsHanging(g, ids, t, x);
  }

  lemma ClosedUnderReplies(g: Graph, children: ReplyMap, root: Id, out: seq<Entry>, c: Id, p: Id)
    requires ReplyLists(g, children) && root in g && out == AllReplies(children, [root] + Ids(out))
    requires forall e :: e in out ==> e.id in g && g[e.id] == e
    requires c in g && ChildOf(g[c], p) && (p == root || exists e :: e in out && e.id == p)
    ensures g[c] in out
  {
    var done := [root] + Ids(out);
    var k := 0;
    if p == root {
      assert done[0] == p;
    } else {
      var e :| e in out && e.id == p;
      var m :| 0 <= m < |out| && out[m] == e;
      k := m + 1;
      assert done[k] == p;
    }
    KidIsListed(g, children, done, k, c);
  }

  lemma {:induction false} KidIsListed(g: Graph, children: ReplyMap, done: seq<Id>, k: nat, c: Id)
    requires ReplyLists(g, children) && k < |done| && c in g && done[k] in g && ChildOf(g[c], done[k])
    ensures g[c] in AllReplies(children, done)
  {
    if k < |done| - 1 { KidIsListed(g, children, done[..|done| - 1], k, c); }
  }

  // ----- the rows

  /** What the rows must show: activities, and comments that have a root ancestor. */
  ghost predicate Shown(g: Graph, e: Entry) { e.kind.Comment? ==> !Looped(g, e.id) }

  ghost function AllShown(entries: seq<Entry>, g: Graph): seq<Entry>
  {
    if entries == [] then [] else
      var n := |entries| - 1;
      AllShown(entries[..n], g) + (if Shown(g, entries[n]) then [entries[n]] else [])
  }

  ghost function ShownReplies(entries: seq<Entry>, g: Graph): seq<Entry>
  {
    if entries == [] then [] else
      var n := |entries| - 1;
      ShownReplies(entries[..n], g) + (if IsReply(g, entries[n]) && Shown(g, entries[n]) then [entries[n]] else [])
  }

  function Flatten(rows: seq<Row>): seq<Entry>
  {
    if rows == [] then [] else
      var n := |rows| - 1;
      Flatten(rows[..n]) + [rows[n].entry] + rows[n].replies
  }

  function AllRowReplies(rows: seq<Row>): seq<Entry>
  {
    if rows == [] then [] else AllRowReplies(rows[..|rows| - 1]) + rows[|rows| - 1].replies
  }

  function RowEntries(rows: seq<Row>): seq<Entry> { seq(|rows|, i requires 0 <= i < |rows| => rows[i].entry) }

  lemma {:induction false} FlattenSplits(rows: seq<Row>)
    ensures multiset(Flatten(rows)) == multiset(RowEntries(rows)) + multiset(AllRowReplies(rows))
  {
    if rows != [] {
      var n := |rows| - 1;
      FlattenSplits(rows[..n]);
      assert RowEntries(rows) == RowEntries(rows[..n]) + [rows[n].entry];
    }
  }

  lemma TopIsShown(g: Graph, e: Entry)
    requires Keyed(g) && !IsReply(g, e) && (e.kind.Comment? ==> e.id in g && g[e.id] == e)
    ensures Shown(g, e)
  {
    if e.kind.Comment? {
      assert Trail(g, [e.id], e.id);
      assert Hangs(g, e.id, e.id);
      assert IsTop(g, e.id);
      RootedIsNotLooped(g, e.id);
    }
  }

  lemma {:induction false} ShownSplits(entries: seq<Entry>, g: Graph)
    requires Keyed(g) && forall e :: e in entries && e.kind.Comment? ==> e.id in g && g[e.id] == e
    ensures multiset(AllShown(entries, g)) == multiset(Select(entries, g, false)) + multiset(ShownReplies(entries, g))
  {
    if entries != [] {
      var n := |entries| - 1;
      assert entries == entries[..n] + [entries[n]];
      ShownSplits(entries[..n], g);
      if !IsReply(g, entries[n]) { TopIsShown(g, entries[n]); }
    }
  }

  lemma {:induction false} ShownRepliesMembers(entries: seq<Entry>, g: Graph)
    ensures forall e :: e in ShownReplies(entries, g) <==> e in entries && IsReply(g, e) && Shown(g, e)
  {
    hide Shown, IsReply;
    if entries != [] {
      var n := |entries| - 1;
      assert entries == entries[..n] + [entries[n]];
      ShownRepliesMembers(entries[..n], g);
    }
  }

  lemma {:induction false} ShownRepliesDistinct(entries: seq<Entry>, g: Graph)
    requires UniqueCommentIds(entries)
    ensures DistinctEntries(ShownReplies(entries, g))
  {
    if entries != [] {
      var n := |entries| - 1;
      ShownRepliesDistinct(entries[..n], g);
      ShownRepliesMembers(entries[..n], g);
      var init := ShownReplies(entries[..n], g);
      forall i | 0 <= i < |init| && entries[n].kind.Comment? ensures init[i].id != entries[n].id {
        assert init[i] in init;
        var j :| 0 <= j < n && entries[..n][j] == init[i];
      }
    }
  }

  lemma {:induction false} SelectMembers(entries: seq<Entry>, g: Graph)
    ensures forall e :: e in Select(entries, g, false) <==> e in entries && !IsReply(g, e)
  {
    if entries != [] {
      var n := |entries| - 1;
      assert entries == entries[..n] + [entries[n]];
      SelectMembers(entries[..n], g);
    }
  }

  lemma {:induction false} SelectUnique(entries: seq<Entry>, g: Graph)
    requires UniqueCommentIds(entries)
    ensures UniqueCommentIds(Select(entries, g, false))
  {
    if entries != [] {
      var n := |entries| - 1;
      SelectUnique(entries[..n], g);
      SelectMembers(entries[..n], g);
      var init := Select(entries[..n], g, false);
      forall i | 0 <= i < |init| && init[i].kind.Comment? && entries[n].kind.Comment?
        ensures init[i].id != entries[n].id
      {
        assert init[i] in init;
        var j :| 0 <= j < n && entries[..n][j] == init[i];
      }
    }
  }

  /** Two lists without repeats and with the same members are permutations of each other. */
  lemma {:induction false} SameMembersSameMultiset(a: seq<Entry>, b: seq<Entry>)
    requires DistinctEntries(a) && DistinctEntries(b) && forall e :: e in a <==> e in b
    ensures multiset(a) == multiset(b)
  {
    forall e ensures multiset(a)[e] == multiset(b)[e] {
      OnceInDistinct(a, e);
      OnceInDistinct(b, e);
    }
  }

  lemma {:induction false} OnceInDistinct(a: seq<Entry>, e: Entry)
    requires DistinctEntries(a)
    ensures multiset(a)[e] == if e in a then 1 else 0
  {
    if a != [] {
      var n := |a| - 1;
      assert a == a[..n] + [a[n]];
      OnceInDistinct(a[..n], e);
    }
  }

  /** The graph of a timeline with unique comment ids knows each comment as it stands. */
  lemma {:induction false} GraphOf(entries: seq<Entry>)
    requires UniqueCommentIds(entries)
    ensures forall e :: e in entries && e.kind.Comment? ==> e.id in ById(entries) && ById(entries)[e.id] == e
    ensures forall id :: id in ById(entries) ==> ById(entries)[id] in entries && ById(entries)[id].kind.Comment?
  {
    if entries != [] {
      var n := |entries| - 1;
      assert entries == entries[..n] + [entries[n]];
      GraphOf(entries[..n]);
      forall e | e in entries[..n] && e.kind.Comment? && entries[n].kind.Comment? ensures e.id != entries[n].id {
        var j :| 0 <= j < n && entries[..n][j] == e;
      }
    }
  }

  lemma PartitionGivesLists(entries: seq<Entry>, children: ReplyMap)
    requires UniqueCommentIds(entries)
    requires forall p :: RepliesIn(children, p) == RepliesTo(entries, ById(entries), p)
    ensures ReplyLists(ById(entries), children)
  {
    GraphOf(entries);
    forall p { RepliesToMembers(entries, ById(entries), p); }
  }

  /** One row: a top-level entry with the whole thread below it. */
  ghost predicate RowOk(g: Graph, children: ReplyMap, row: Row)
  {
    && DistinctEntries(row.replies)
    && if row.entry.kind.Activity? then row.replies == [] else
         && row.replies == AllReplies(children, [row.entry.id] + Ids(row.replies))
         && forall e :: e in row.replies <==>
              e.id in g && g[e.id] == e && e.id != row.entry.id && Hangs(g, e.id, row.entry.id)
  }

  lemma {:induction false} AllRowRepliesMembers(rows: seq<Row>)
    ensures forall e :: e in AllRowReplies(rows) <==> exists k :: 0 <= k < |rows| && e in rows[k].replies
  {
    if rows != [] {
      var n := |rows| - 1;
      AllRowRepliesMembers(rows[..n]);
      forall e ensures e in AllRowReplies(rows) <==> exists k :: 0 <= k < |rows| && e in rows[k].replies {
        if k :| 0 <= k < |rows| && e in rows[k].replies {
          if k < n { assert e in rows[..n][k].replies; }
        }
      }
    }
  }

  /** No comment is shown under two rows. */
  lemma RowsAreApart(g: Graph, children: ReplyMap, rows: seq<Row>, a: nat, b: nat, x: Entry, y: Entry)
    requires a < b < |rows| && UniqueCommentIds(RowEntries(rows))
    requires RowOk(g, children, rows[a]) && RowOk(g, children, rows[b])
    requires IsTop(g, rows[a].entry.id) && IsTop(g, rows[b].entry.id)
    requires x in rows[a].replies && y in rows[b].replies
    ensures x.id != y.id
  {
    assert RowEntries(rows)[a] == rows[a].entry && RowEntries(rows)[b] == rows[b].entry;
    if x.id == y.id { OneRoot(g, x.id, rows[a].entry.id, rows[b].entry.id); }
  }

  lemma {:induction false} RepliesAcrossRows(g: Graph, children: ReplyMap, rows: seq<Row>, m: nat)
    requires m <= |rows| && UniqueCommentIds(RowEntries(rows))
    requires forall k :: 0 <= k < |rows| ==> RowOk(g, children, rows[k])
    requires forall k :: 0 <= k < |rows| ==> (rows[k].entry.kind.Comment? ==> IsTop(g, rows[k].entry.id))
    ensures DistinctEntries(AllRowReplies(rows[..m]))
  {
    if m > 0 {
      var n := m - 1;
      assert rows[..m][..n] == rows[..n];
      RepliesAcrossRows(g, children, rows, n);
      AllRowRepliesMembers(rows[..n]);
      var before, last := AllRowReplies(rows[..n]), rows[n].replies;
      assert DistinctEntries(last);
      forall x, y | x in before && y in last ensures x.id != y.id {
        var k :| 0 <= k < |rows[..n]| && x in rows[..n][k].replies;
        RowsAreApart(g, children, rows, k, n, x, y);
      }
      DistinctAppend(before, last);
    }
  }

  lemma DistinctAppend(a: seq<Entry>, b: seq<Entry>)
    requires DistinctEntries(a) && DistinctEntries(b) && forall x, y :: x in a && y in b ==> x.id != y.id
    ensures DistinctEntries(a + b)
  {
    var c := a + b;
    forall i, j | 0 <= i < j < |c| ensures c[i].id != c[j].id {
      if i < |a| && j >= |a| { assert a[i] in a && b[j - |a|] in b; }
    }
  }

  lemma RowsShowEverything(entries: seq<Entry>, children: ReplyMap, rows: seq<Row>)
    requires UniqueCommentIds(entries) && ReplyLists(ById(entries), children)
    requires RowEntries(rows) == Select(entries, ById(entries), false)
    requires forall k :: 0 <= k < |rows| ==> RowOk(ById(entries), children, rows[k])
    ensures multiset(Flatten(rows)) == multiset(AllShown(entries, ById(entries)))
  {
    var g := ById(entries);
    GraphOf(entries);
    SelectMembers(entries, g);
    SelectUnique(entries, g);
    ShownRepliesMembers(entries, g);
    ShownRepliesDistinct(entries, g);
    forall k | 0 <= k < |rows| && rows[k].entry.kind.Comment? ensures IsTop(g, rows[k].entry.id) {
      assert RowEntries(rows)[k] in Select(entries, g, false);
    }
    RepliesAcrossRows(g, children, rows, |rows|);
    assert rows[..|rows|] == rows;
    AllRowRepliesMembers(rows);
    forall e ensures e in AllRowReplies(rows) <==> e in ShownReplies(entries, g) {
      ReplyIsShown(entries, children, rows, e);
    }
    SameMembersSameMultiset(AllRowReplies(rows), ShownReplies(entries, g));
    FlattenSplits(rows);
    ShownSplits(entries, g);
  }

  lemma ReplyIsShown(entries: seq<Entry>, children: ReplyMap, rows: seq<Row>, e: Entry)
    requires UniqueCommentIds(entries) && RowEntries(rows) == Select(entries, ById(entries), false)
    requires forall k :: 0 <= k < |rows| ==> RowOk(ById(entries), children, rows[k])
    ensures (exists k :: 0 <= k < |rows| && e in rows[k].replies) <==>
      e in entries && IsReply(ById(entries), e) && Shown(ById(entries), e)
  {
    if k :| 0 <= k < |rows| && e in rows[k].replies { RowReplyIsShown(entries, children, rows, e, k); }
    if e in entries && IsReply(ById(entries), e) && Shown(ById(entries), e) {
      var k := ShownHasRow(entries, children, rows, e);
    }
  }

  lemma RowReplyIsShown(entries: seq<Entry>, children: ReplyMap, rows: seq<Row>, e: Entry, k: nat)
    requires UniqueCommentIds(entries) && RowEntries(rows) == Select(entries, ById(entries), false)
    requires k < |rows| && RowOk(ById(entries), children, rows[k]) && e in rows[k].replies
    ensures e in entries && IsReply(ById(entries), e) && Shown(ById(entries), e)
  {
    var g := ById(entries);
    GraphOf(entries);
    SelectMembers(entries, g);
    assert RowEntries(rows)[k] in Select(entries, g, false);
    ParentHangs(g, e.id, rows[k].entry.id);
    assert IsTop(g, rows[k].entry.id);
    RootedIsNotLooped(g, e.id);
  }

  lemma ShownHasRow(entries: seq<Entry>, children: ReplyMap, rows: seq<Row>, e: Entry) returns (k: nat)
    requires UniqueCommentIds(entries) && RowEntries(rows) == Select(entries, ById(entries), false)
    requires forall k :: 0 <= k < |rows| ==> RowOk(ById(entries), children, rows[k])
    requires e in entries && IsReply(ById(entries), e) && Shown(ById(entries), e)
    ensures k < |rows| && e in rows[k].replies
  {
    hide Select, Hangs, Looped;
    var g := ById(entries);
    GraphOf(entries);
    SelectMembers(entries, g);
    RootedOrLooped(g, e.id);
    var root :| IsTop(g, root) && Hangs(g, e.id, root);
    assert g[root] in Select(entries, g, false);
    k :| 0 <= k < |rows| && RowEntries(rows)[k] == g[root];
    assert rows[k].entry == g[root];
  }

  /** For unique comment ids, cycles included: one row per activity, top comment and orphan reply, in input
      order; each other comment sits under its root ancestor, level by level; nothing is shown twice; and what
      is missing is exactly the comments on or below a cycle. */
  method BuildTimelineRows(entries: seq<Entry>) returns (rows: seq<Row>)
    requires UniqueCommentIds(entries)
    ensures RowEntries(rows) == Select(entries, ById(entries), false)
    ensures forall k, e :: 0 <= k < |rows| ==>
      (e in rows[k].replies <==>
         && rows[k].entry.kind.Comment? && e in entries && e.kind.Comment?
         && e.id != rows[k].entry.id && Hangs(ById(entries), e.id, rows[k].entry.id))
    ensures forall k :: 0 <= k < |rows| && rows[k].entry.kind.Comment? ==>
      rows[k].replies == LevelOrder(entries, ById(entries), [rows[k].entry.id] + Ids(rows[k].replies))
    ensures multiset(Flatten(rows)) == multiset(AllShown(entries, ById(entries)))
    ensures (forall e :: e in entries && e.kind.Comment? ==> !Looped(ById(entries), e.id)) ==>
      multiset(Flatten(rows)) == multiset(entries)
  {
    var topLevel, children := Partition(entries);
    PartitionGivesLists(entries, children);
    TopsAreTop(entries);
    rows := BuildRows(ById(entries), topLevel, children);
    RowsShowEverything(entries, children, rows);
    RepliesAreComments(entries, children, rows);
    RowsAreLevelOrder(entries, children, rows);
    if forall e :: e in entries && e.kind.Comment? ==> !Looped(ById(entries), e.id) {
      EverythingShown(entries, ById(entries));
    }
  }

  lemma RepliesAreComments(entries: seq<Entry>, children: ReplyMap, rows: seq<Row>)
    requires UniqueCommentIds(entries) && forall k :: 0 <= k < |rows| ==> RowOk(ById(entries), children, rows[k])
    ensures forall k, e :: 0 <= k < |rows| ==>
      (e in rows[k].replies <==>
         && rows[k].entry.kind.Comment? && e in entries && e.kind.Comment?
         && e.id != rows[k].entry.id && Hangs(ById(entries), e.id, rows[k].entry.id))
  {
    GraphOf(entries);
  }

  lemma RowsAreLevelOrder(entries: seq<Entry>, children: ReplyMap, rows: seq<Row>)
    requires forall p :: RepliesIn(children, p) == RepliesTo(entries, ById(entries), p)
    requires forall k :: 0 <= k < |rows| ==> RowOk(ById(entries), children, rows[k])
    ensures forall k :: 0 <= k < |rows| && rows[k].entry.kind.Comment? ==>
      rows[k].replies == LevelOrder(entries, ById(entries), [rows[k].entry.id] + Ids(rows[k].replies))
  {
    hide RepliesIn, RepliesTo, Hangs;
    forall k | 0 <= k < |rows| && rows[k].entry.kind.Comment?
      ensures rows[k].replies == LevelOrder(entries, ById(entries), [rows[k].entry.id] + Ids(rows[k].replies))
    {
      RepliesAreLevelOrder(entries, ById(entries), children, [rows[k].entry.id] + Ids(rows[k].replies));
    }
  }

  lemma TopsAreTop(entries: seq<Entry>)
    requires UniqueCommentIds(entries)
    ensures forall e :: e in Select(entries, ById(entries), false) && e.kind.Comment? ==> IsTop(ById(entries), e.id)
  {
    GraphOf(entries);
    SelectMembers(entries, ById(entries));
  }

  method BuildRows(g: Graph, topLevel: seq<Entry>, children: ReplyMap) returns (rows: seq<Row>)
    requires ReplyLists(g, children) && forall e :: e in topLevel && e.kind.Comment? ==> IsTop(g, e.id)
    ensures RowEntries(rows) == topLevel
    ensures forall k :: 0 <= k < |rows| ==> RowOk(g, children, rows[k])
  {
    hide RowOk, ReplyLists, IsTop;
    rows := [];
    var n := 0;
    while n < |topLevel|
      invariant 0 <= n <= |topLevel| && |rows| == n
      invariant forall k :: 0 <= k < n ==> rows[k].entry == topLevel[k]
      invariant forall k :: 0 <= k < n ==> RowOk(g, children, rows[k])
    {
      assert topLevel[n] in topLevel;
      var row := BuildRow(g, children, topLevel[n]);
      rows := rows + [row];
      n := n + 1;
    }
  }

  method BuildRow(g: Graph, children: ReplyMap, entry: Entry) returns (row: Row)
    requires ReplyLists(g, children) && (entry.kind.Comment? ==> IsTop(g, entry.id))
    ensures row.entry == entry && RowOk(g, children, row)
  {
    var replies: seq<Entry> := [];
    if entry.kind.Comment? { replies := CollectDescendants(g, children, entry.id); }
    row := Row(entry, replies);
  }

  lemma {:induction false} EverythingShown(entries: seq<Entry>, g: Graph)
    requires forall e :: e in entries ==> Shown(g, e)
    ensures AllShown(entries, g) == entries
  {
    if entries != [] {
      var n := |entries| - 1;
      assert entries == entries[..n] + [entries[n]];
      EverythingShown(entries[..n], g);
    }
  }

  /** A comment with an empty parent id stands at the top. */
  lemma EmptyParentIsTop(g: Graph, e: Entry)
    requires e.parentId.None? || e.parentId == Some("")
    ensures !IsReply(g, e) && (e.id in g && g[e.id] == e ==> IsTop(g, e.id))
  {
  }
}
