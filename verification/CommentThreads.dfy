/** Comment threads: the thread walk behind resolve, and the cascade behind delete. */
module CommentThreads {
  import opened IssueModel

  datatype EntryKind = Comment | Activity

  /** `content` stands for every field these updates only copy. */
  datatype Entry = Entry(
    kind: EntryKind,
    id: Id,
    parentId: Option<Id>,
    resolvedAt: Option<string>,
    resolvedByType: Option<string>,
    resolvedById: Option<Id>,
    content: string)

  /** A missing and an empty string both count as no value. */
  predicate ChildOf(e: Entry, parent: Id) { Truthy(e.parentId) && e.parentId.value == parent }

  // ----- the parent graph

  type Graph = map<Id, Entry>

  predicate Keyed(g: Graph) { forall id :: id in g ==> g[id].id == id }

  /** The known comments by id; a later entry replaces an earlier one with the same id. */
  function ById(entries: seq<Entry>): (g: Graph)
    ensures Keyed(g)
    ensures forall id :: id in g <==> exists i :: 0 <= i < |entries| && entries[i].kind.Comment? && entries[i].id == id
  {
    if entries == [] then map[] else
      var n := |entries| - 1;
      var g := ById(entries[..n]);
      assert forall i :: 0 <= i < n ==> entries[..n][i] == entries[i];
      if entries[n].kind.Comment? then g[entries[n].id := entries[n]] else g
  }

  ghost predicate Linked(g: Graph, a: Id, b: Id)
  {
    a in g && b in g && (ChildOf(g[a], b) || ChildOf(g[b], a))
  }

  ghost predicate IsPath(g: Graph, p: seq<Id>)
  {
    && p != [] && (forall i :: 0 <= i < |p| ==> p[i] in g)
    && forall i :: 0 <= i < |p| - 1 ==> Linked(g, p[i], p[i + 1])
  }

  /** The same weakly connected component of the parent graph over known comments. */
  ghost predicate SameThread(g: Graph, a: Id, b: Id)
  {
    exists p :: IsPath(g, p) && p[0] == a && p[|p| - 1] == b
  }

  lemma SameThreadSelf(g: Graph, a: Id)
    requires a in g
    ensures SameThread(g, a, a)
  {
    assert IsPath(g, [a]);
  }

  lemma SameThreadStep(g: Graph, a: Id, b: Id, c: Id)
    requires SameThread(g, a, b) && Linked(g, b, c)
    ensures SameThread(g, a, c)
  {
    var p :| IsPath(g, p) && p[0] == a && p[|p| - 1] == b;
    var q := p + [c];
    forall i | 0 <= i < |q| - 1 ensures Linked(g, q[i], q[i + 1]) {
      if i < |p| - 1 { assert Linked(g, p[i], p[i + 1]); }
    }
    assert IsPath(g, q);
  }

  /** A set closed under parent and child that holds one end of a path holds the other. */
  lemma {:induction false} ClosedHoldsPath(g: Graph, ids: set<Id>, p: seq<Id>)
    requires IsPath(g, p) && p[0] in ids
    requires forall a, b :: Linked(g, a, b) && a in ids ==> b in ids
    ensures p[|p| - 1] in ids
  {
    if |p| > 1 {
      assert Linked(g, p[0], p[1]);
      var q := p[1..];
      forall i | 0 <= i < |q| - 1 ensures Linked(g, q[i], q[i + 1]) {
        assert Linked(g, p[i + 1], p[i + 1 + 1]);
      }
      ClosedHoldsPath(g, ids, q);
    }
  }

  // ----- the walk up

  /** The ids met walking up from `start`: each is the known parent of the one before. */
  ghost predicate Trail(g: Graph, trail: seq<Id>, start: Id)
  {
    && trail != [] && trail[0] == start && (forall i :: 0 <= i < |trail| ==> trail[i] in g)
    && forall i :: 0 <= i < |trail| - 1 ==> ChildOf(g[trail[i]], trail[i + 1])
  }

  /** The walk stopped: at a root, or at a comment already on the trail. */
  ghost predicate Stopped(g: Graph, trail: seq<Id>)
    requires trail != []
  {
    var root := trail[|trail| - 1];
    root in g && (
      (Truthy(g[root].parentId) ==> g[root].parentId.value !in g) ||
      exists i :: 0 <= i < |trail| - 1 && trail[i] == root)
  }

  lemma {:induction false} TrailIsThread(g: Graph, trail: seq<Id>, start: Id)
    requires Trail(g, trail, start)
    ensures SameThread(g, start, trail[|trail| - 1])
  {
    if |trail| == 1 {
      SameThreadSelf(g, start);
    } else {
      var n := |trail| - 1;
      var init := trail[..n];
      assert forall i :: 0 <= i < |init| ==> init[i] == trail[i];
      TrailIsThread(g, init, start);
      SameThreadStep(g, start, trail[n - 1], trail[n]);
    }
  }

  method WalkUp(g: Graph, commentId: Id) returns (rootId: Id, ghost trail: seq<Id>)
    requires Keyed(g)
    ensures commentId !in g ==> rootId == commentId
    ensures commentId in g ==> Trail(g, trail, commentId) && trail[|trail| - 1] == rootId && Stopped(g, trail)
  {
    rootId := commentId;
    trail := [commentId];
    var visited: set<Id> := {};
    var cur := if commentId in g then Some(g[commentId]) else None;
    while cur.Some? && Truthy(cur.value.parentId) && cur.value.parentId.value in g && cur.value.id !in visited
      invariant trail != [] && (cur.Some? <==> commentId in g)
      invariant cur.None? ==> rootId == commentId
      invariant cur.Some? ==> Trail(g, trail, commentId) && trail[|trail| - 1] == rootId
      invariant cur.Some? ==> rootId in g && cur.value == g[rootId]
      invariant visited <= g.Keys
      invariant forall id :: id in visited <==> id in trail[..|trail| - 1]
      decreases g.Keys - visited
    {
      ghost var before := trail;
      visited := visited + {cur.value.id};
      rootId := cur.value.parentId.value;
      cur := Some(g[rootId]);
      trail := trail + [rootId];
      assert trail[..|trail| - 1] == before;
      assert before == before[..|before| - 1] + [before[|before| - 1]];
    }
    if cur.Some? && rootId in visited {
      assert rootId in trail[..|trail| - 1];
    }
  }

  // ----- the expansion down

  ghost predicate ClosedDown(g: Graph, s: set<Id>)
  {
    forall id, child :: id in s && child in ChildIds(g, id) ==> child in s
  }

  function ChildIds(g: Graph, parent: Id): set<Id>
  {
    set id | id in g && ChildOf(g[id], parent)
  }

  function Kids(children: map<Id, seq<Id>>, p: Id): seq<Id>
  {
    if p in children then children[p] else []
  }

  method ChildrenByParent(g: Graph) returns (children: map<Id, seq<Id>>)
    ensures forall p, id :: id in Kids(children, p) <==> id in ChildIds(g, p)
  {
    children := map[];
    var todo := g.Keys;
    while todo != {}
      invariant todo <= g.Keys
      invariant forall p, id :: id in Kids(children, p) <==> id in ChildIds(g, p) - todo
      decreases todo
    {
      var id: Id :| id in todo;
      ghost var before := children;
      todo := todo - {id};
      if Truthy(g[id].parentId) {
        var p := g[id].parentId.value;
        var list := Kids(children, p);
        children := children[p := list + [id]];
        assert forall k :: k in list + [id] <==> k in list || k == id;
        assert forall q :: q != p ==> Kids(children, q) == Kids(before, q);
      }
    }
  }

  /** Everything reached so far hangs below the root, and whoever is off the stack has all its children in. */
  ghost predicate Expanded(g: Graph, rootId: Id, ids: set<Id>, stack: seq<Id>)
  {
    && rootId in ids
    && (forall id :: id in stack ==> id in ids)
    && (forall id :: id in ids && id != rootId ==> id in g && Truthy(g[id].parentId) && g[id].parentId.value in ids)
    && (forall id, child :: id in ids && id !in stack && child in ChildIds(g, id) ==> child in ids)
  }

  method ExpandDown(g: Graph, rootId: Id) returns (ids: set<Id>)
    ensures Expanded(g, rootId, ids, [])
    ensures forall s: set<Id> :: rootId in s && ClosedDown(g, s) ==> ids <= s
  {
    var children := ChildrenByParent(g);
    ids := {rootId};
    var stack := [rootId];
    while stack != []
      invariant Expanded(g, rootId, ids, stack)
      invariant forall s: set<Id> :: rootId in s && ClosedDown(g, s) ==> ids <= s
      invariant ids <= g.Keys + {rootId}
      decreases g.Keys + {rootId} - ids, |stack|
    {
      var id := stack[|stack| - 1];
      ids, stack := PushChildren(g, rootId, ids, stack, Kids(children, id));
    }
  }

  /** Pop the top of the stack and push those of its children that are new. */
  method PushChildren(g: Graph, rootId: Id, ids: set<Id>, stack: seq<Id>, kids: seq<Id>)
    returns (ids': set<Id>, stack': seq<Id>)
    requires stack != [] && Expanded(g, rootId, ids, stack)
    requires forall id :: id in kids <==> id in ChildIds(g, stack[|stack| - 1])
    ensures Expanded(g, rootId, ids', stack')
    ensures ids' == ids + ChildIds(g, stack[|stack| - 1])
    ensures ids' == ids ==> |stack'| < |stack|
  {
    var top := stack[|stack| - 1];
    ids', stack' := ids, stack[..|stack| - 1];
    assert stack == stack' + [top];
    var n := 0;
    while n < |kids|
      invariant 0 <= n <= |kids|
      invariant ids' == ids + (set id | id in kids[..n])
      invariant forall id :: id in stack[..|stack| - 1] ==> id in stack'
      invariant forall id :: id in stack' ==> id in ids'
      invariant forall id :: id in ids' && id !in ids ==> id in stack'
      invariant ids' == ids ==> stack' == stack[..|stack| - 1]
    {
      var child := kids[n];
      assert kids[..n + 1] == kids[..n] + [child];
      assert child in kids;
      if child !in ids' {
        ids' := ids' + {child};
        stack' := stack' + [child];
      }
      n := n + 1;
    }
    assert kids[..n] == kids;
    assert ids' == ids + ChildIds(g, top);
  }

  // ----- the thread

  /** The parent of everything below the root is in the set; the root's own known parent is too, because the
      walk only stops there on a cycle, whose comments all hang below the root. */
  lemma {:induction false} CycleHangsBelow(g: Graph, ids: set<Id>, trail: seq<Id>, from: nat)
    requires from < |trail| && Trail(g, trail, trail[0]) && trail[|trail| - 1] in ids
    requires ClosedDown(g, ids)
    ensures trail[from] in ids
    decreases |trail| - from
  {
    if from < |trail| - 1 {
      CycleHangsBelow(g, ids, trail, from + 1);
      assert trail[from] in ChildIds(g, trail[from + 1]);
    }
  }

  lemma ExpandedIsClosed(g: Graph, rootId: Id, ids: set<Id>, trail: seq<Id>)
    requires Keyed(g) && Expanded(g, rootId, ids, []) && trail != [] && Trail(g, trail, trail[0])
    requires trail[|trail| - 1] == rootId && Stopped(g, trail)
    ensures forall a, b :: Linked(g, a, b) && a in ids ==> b in ids
  {
    forall a, b | Linked(g, a, b) && a in ids ensures b in ids {
      if ChildOf(g[b], a) {
        assert b in ChildIds(g, a);
      } else if a == rootId {
        var i :| 0 <= i < |trail| - 1 && trail[i] == rootId;
        CycleHangsBelow(g, ids, trail, i + 1);
      }
    }
  }

  lemma ExpandedIsThread(g: Graph, start: Id, rootId: Id, ids: set<Id>)
    requires Keyed(g) && rootId in g && SameThread(g, start, rootId)
    requires Expanded(g, rootId, ids, [])
    requires forall s: set<Id> :: rootId in s && ClosedDown(g, s) ==> ids <= s
    ensures forall id :: id in ids ==> SameThread(g, start, id)
  {
    var s := set id | id in g && SameThread(g, start, id);
    forall id, child | id in s && child in ChildIds(g, id) ensures child in s {
      SameThreadStep(g, start, id, child);
    }
    assert ids <= s;
  }

  /** The ids of a known comment's thread: exactly its weakly connected component. An unknown id yields itself
      and whatever hangs below it. */
  method CollectThreadCommentIds(entries: seq<Entry>, commentId: Id) returns (ids: set<Id>)
    ensures commentId in ById(entries) ==> forall id :: id in ids <==> SameThread(ById(entries), commentId, id)
    ensures commentId !in ById(entries) ==> Expanded(ById(entries), commentId, ids, [])
  {
    var g := ById(entries);
    ghost var trail;
    var rootId;
    rootId, trail := WalkUp(g, commentId);
    ids := ExpandDown(g, rootId);
    if commentId in g {
      TrailIsThread(g, trail, commentId);
      ExpandedIsThread(g, commentId, rootId, ids);
      ExpandedIsClosed(g, rootId, ids, trail);
      CycleHangsBelow(g, ids, trail, 0);
      forall id | SameThread(g, commentId, id) ensures id in ids {
        var p :| IsPath(g, p) && p[0] == commentId && p[|p| - 1] == id;
        ClosedHoldsPath(g, ids, p);
      }
    }
  }

  // ----- resolve

  /** The optimistic rewrite of one entry. */
  function ResolveEntry(e: Entry, commentId: Id, resolved: bool, thread: set<Id>, now: string): Entry
  {
    if e.id == commentId then
      e.(resolvedAt := if resolved then Some(now) else None,
         resolvedByType := if resolved then e.resolvedByType else None,
         resolvedById := if resolved then e.resolvedById else None)
    else if resolved && Truthy(e.resolvedAt) && e.id in thread then
      e.(resolvedAt := None, resolvedByType := None, resolvedById := None)
    else e
  }

  /** Resolving a known comment leaves it the only resolved entry of its thread and touches no other thread;
      unresolving touches nothing but the comment's own row. */
  method ResolveComment(entries: seq<Entry>, commentId: Id, resolved: bool, now: string) returns (next: seq<Entry>)
    requires now != ""
    ensures |next| == |entries|
    ensures forall i :: 0 <= i < |entries| ==>
      next[i].kind == entries[i].kind && next[i].id == entries[i].id && next[i].parentId == entries[i].parentId
        && next[i].content == entries[i].content
    ensures forall i :: 0 <= i < |entries| && entries[i].id == commentId ==>
      if resolved
        then next[i] == entries[i].(resolvedAt := Some(now))
        else next[i] == entries[i].(resolvedAt := None, resolvedByType := None, resolvedById := None)
    ensures resolved && commentId in ById(entries) ==>
      forall i :: 0 <= i < |entries| && entries[i].id != commentId ==>
        next[i] == if entries[i].resolvedAt.Some? && entries[i].resolvedAt != Some("")
                      && SameThread(ById(entries), commentId, entries[i].id)
                   then entries[i].(resolvedAt := None, resolvedByType := None, resolvedById := None)
                   else entries[i]
    ensures resolved && commentId in ById(entries) ==>
      forall i :: 0 <= i < |entries| && SameThread(ById(entries), commentId, entries[i].id) ==>
        (Truthy(next[i].resolvedAt) <==> entries[i].id == commentId)
    ensures resolved && commentId in ById(entries) ==>
      forall i :: 0 <= i < |entries| && !SameThread(ById(entries), commentId, entries[i].id) ==> next[i] == entries[i]
    ensures !resolved ==> forall i :: 0 <= i < |entries| && entries[i].id != commentId ==> next[i] == entries[i]
  {
    var thread: set<Id> := {};
    if resolved { thread := CollectThreadCommentIds(entries, commentId); }
    next := seq(|entries|, i requires 0 <= i < |entries| => ResolveEntry(entries[i], commentId, resolved, thread, now));
    if resolved && commentId in ById(entries) { SameThreadSelf(ById(entries), commentId); }
  }

  // ----- delete

  predicate IsChild(entries: seq<Entry>, parent: Id, child: Id)
  {
    exists i :: 0 <= i < |entries| && entries[i].id == child && ChildOf(entries[i], parent)
  }

  ghost predicate Descent(entries: seq<Entry>, p: seq<Id>)
  {
    p != [] && forall i :: 0 <= i < |p| - 1 ==> IsChild(entries, p[i], p[i + 1])
  }

  /** `id` is the comment itself or hangs below it. */
  ghost predicate Below(entries: seq<Entry>, commentId: Id, id: Id)
  {
    exists p :: Descent(entries, p) && p[0] == commentId && p[|p| - 1] == id
  }

  lemma BelowStep(entries: seq<Entry>, commentId: Id, parent: Id, child: Id)
    requires Below(entries, commentId, parent) && IsChild(entries, parent, child)
    ensures Below(entries, commentId, child)
  {
    var p :| Descent(entries, p) && p[0] == commentId && p[|p| - 1] == parent;
    var q := p + [child];
    forall i | 0 <= i < |q| - 1 ensures IsChild(entries, q[i], q[i + 1]) {
      if i < |p| - 1 { assert IsChild(entries, p[i], p[i + 1]); }
    }
    assert Descent(entries, q);
  }

  lemma {:induction false} ClosedHoldsDescent(entries: seq<Entry>, s: set<Id>, p: seq<Id>)
    requires Descent(entries, p) && p[0] in s
    requires ClosedUnderChild(entries, s)
    ensures p[|p| - 1] in s
  {
    if |p| > 1 {
      assert IsChild(entries, p[0], p[1]);
      var q := p[1..];
      forall i | 0 <= i < |q| - 1 ensures IsChild(entries, q[i], q[i + 1]) {
        assert IsChild(entries, p[i + 1], p[i + 1 + 1]);
      }
      ClosedHoldsDescent(entries, s, q);
    }
  }

  ghost predicate ClosedUnderChild(entries: seq<Entry>, s: set<Id>)
  {
    forall i :: 0 <= i < |entries| && Truthy(entries[i].parentId) && entries[i].parentId.value in s ==>
      entries[i].id in s
  }

  function Survivors(entries: seq<Entry>, gone: set<Id>): seq<Entry>
  {
    if entries == [] then [] else
      var n := |entries| - 1;
      Survivors(entries[..n], gone) + (if entries[n].id in gone then [] else [entries[n]])
  }

  lemma {:induction false} SurvivorsAre(entries: seq<Entry>, gone: set<Id>)
    ensures forall e :: e in Survivors(entries, gone) <==> e in entries && e.id !in gone
  {
    if entries != [] {
      var n := |entries| - 1;
      assert entries == entries[..n] + [entries[n]];
      SurvivorsAre(entries[..n], gone);
    }
  }

  /** One sweep of the cascade: add every entry whose parent is already marked. */
  method Sweep(entries: seq<Entry>, commentId: Id, gone: set<Id>) returns (gone': set<Id>, changed: bool)
    requires commentId in gone && forall id :: id in gone ==> Below(entries, commentId, id)
    ensures gone <= gone' <= gone + (set i | 0 <= i < |entries| :: entries[i].id)
    ensures forall id :: id in gone' ==> Below(entries, commentId, id)
    ensures changed <==> gone' != gone
    ensures !changed ==> ClosedUnderChild(entries, gone)
  {
    gone', changed := gone, false;
    var n := 0;
    while n < |entries|
      invariant 0 <= n <= |entries|
      invariant gone <= gone' <= gone + (set i | 0 <= i < |entries| :: entries[i].id)
      invariant forall id :: id in gone' ==> Below(entries, commentId, id)
      invariant changed <==> gone' != gone
      invariant !changed ==> forall i ::
        (0 <= i < n && Truthy(entries[i].parentId) && entries[i].parentId.value in gone) ==> entries[i].id in gone
    {
      var e := entries[n];
      if Truthy(e.parentId) && e.parentId.value in gone' && e.id !in gone' {
        assert IsChild(entries, e.parentId.value, e.id);
        BelowStep(entries, commentId, e.parentId.value, e.id);
        gone' := gone' + {e.id};
        changed := true;
      }
      n := n + 1;
    }
  }

  /** The cascade removes exactly the comment and what hangs below it: the least set that holds the comment and
      the children of its members. Survivors keep their order, and none keeps a removed parent. */
  method DeleteComment(prev: seq<Entry>, commentId: Id) returns (gone: set<Id>, next: seq<Entry>)
    ensures forall id :: id in gone <==> Below(prev, commentId, id)
    ensures ClosedUnderChild(prev, gone)
    ensures forall s: set<Id> :: commentId in s && ClosedUnderChild(prev, s) ==> gone <= s
    ensures next == Survivors(prev, gone)
    ensures forall e :: e in next ==> !(Truthy(e.parentId) && Below(prev, commentId, e.parentId.value))
    ensures forall e :: e in prev && !Below(prev, commentId, e.id) ==> e in next
  {
    gone := {commentId};
    assert Descent(prev, [commentId]);
    ghost var bound := {commentId} + (set i | 0 <= i < |prev| :: prev[i].id);
    var changed := true;
    while changed
      invariant commentId in gone && gone <= bound
      invariant forall id :: id in gone ==> Below(prev, commentId, id)
      invariant !changed ==> ClosedUnderChild(prev, gone)
      decreases bound - gone, changed
    {
      ghost var before := gone;
      gone, changed := Sweep(prev, commentId, gone);
      if !changed { assert gone == before; }
    }
    forall s: set<Id>, id | commentId in s && id in gone && ClosedUnderChild(prev, s)
      ensures id in s
    {
      var p :| Descent(prev, p) && p[0] == commentId && p[|p| - 1] == id;
      ClosedHoldsDescent(prev, s, p);
    }
    forall id | Below(prev, commentId, id) ensures id in gone {
      var p :| Descent(prev, p) && p[0] == commentId && p[|p| - 1] == id;
      ClosedHoldsDescent(prev, gone, p);
    }
    next := Survivors(prev, gone);
    SurvivorsAre(prev, gone);
    forall e | e in next ensures !(Truthy(e.parentId) && Below(prev, commentId, e.parentId.value)) {
      var i :| 0 <= i < |prev| && prev[i] == e;
    }
  }

  // ----- missing parents

  /** A comment with an empty parent id has no parent, like one without the field. */
  lemma EmptyParentIsNone(e: Entry, parent: Id)
    requires e.parentId.None? || e.parentId == Some("")
    ensures !ChildOf(e, parent)
  {
  }
}
