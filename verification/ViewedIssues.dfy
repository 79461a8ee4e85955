/** The recently viewed issues, a bounded most-recent-first list per workspace. */
module ViewedIssues {

  const CAPACITY := 10

  function Without(ids: seq<string>, id: string): seq<string>
  {
    if ids == [] then [] else (if ids[0] == id then [] else [ids[0]]) + Without(ids[1..], id)
  }

  function First(ids: seq<string>, n: nat): seq<string> { if |ids| <= n then ids else ids[..n] }

  function Pushed(ids: seq<string>, id: string): seq<string> { First([id] + Without(ids, id), CAPACITY) }

  datatype Action = Push(wsId: string, id: string) | Remove(wsId: string, id: string)

  type Store = map<string, seq<string>>

  function Listed(store: Store, wsId: string): seq<string> { if wsId in store then store[wsId] else [] }

  class ViewedIssuesStore {
    var byWorkspace: Store

    constructor ()
      ensures byWorkspace == map[]
    {
      byWorkspace := map[];
    }

    method Push(wsId: string, id: string)
      modifies this
      ensures byWorkspace == Step(old(byWorkspace), Action.Push(wsId, id))
    {
      var prev := if wsId in byWorkspace then byWorkspace[wsId] else [];
      byWorkspace := byWorkspace[wsId := First([id] + Without(prev, id), CAPACITY)];
    }

    method Remove(wsId: string, id: string)
      modifies this
      ensures byWorkspace == Step(old(byWorkspace), Action.Remove(wsId, id))
    {
      if wsId in byWorkspace {
        byWorkspace := byWorkspace[wsId := Without(byWorkspace[wsId], id)];
      }
    }
  }

  function Step(store: Store, action: Action): Store
  {
    match action
    case Push(wsId, id) => store[wsId := Pushed(Listed(store, wsId), id)]
    case Remove(wsId, id) => if wsId in store then store[wsId := Without(store[wsId], id)] else store
  }

  // ----- what one action does

  /** `a` is `b` with some entries left out. */
  predicate Within(a: seq<string>, b: seq<string>)
  {
    a == [] || (b != [] && if a[0] == b[0] then Within(a[1..], b[1..]) else Within(a, b[1..]))
  }

  lemma {:induction false} WithoutIsWithin(ids: seq<string>, id: string)
    ensures Within(Without(ids, id), ids)
  {
    if ids != [] {
      WithoutIsWithin(ids[1..], id);
      WithoutMembers(ids[1..], id);
      var rest := Without(ids[1..], id);
      if ids[0] == id {
        assert Without(ids, id) == rest;
        if rest != [] { assert rest[0] in rest; }
      } else {
        assert Without(ids, id) == [ids[0]] + rest && ([ids[0]] + rest)[1..] == rest;
      }
    }
  }

  lemma {:induction false} FrontIsWithin(front: seq<string>, a: seq<string>, b: seq<string>)
    requires front <= a && Within(a, b)
    ensures Within(front, b)
  {
    if front != [] {
      if a[0] == b[0] { FrontIsWithin(front[1..], a[1..], b[1..]); } else { FrontIsWithin(front, a, b[1..]); }
    }
  }

  /** A visit puts the issue first; the others keep their order and no new ones appear, at most ten in all; no other
      workspace changes. */
  lemma PushMeans(store: Store, wsId: string, id: string)
    ensures var r := Step(store, Push(wsId, id));
      var before, now := Listed(store, wsId), Listed(r, wsId);
      && 0 < |now| <= 10 && now[0] == id && id !in now[1..] && Within(now[1..], before)
      && forall other :: other != wsId ==> Listed(r, other) == Listed(store, other)
  {
    var before := Listed(store, wsId);
    var front := First(Without(before, id), CAPACITY - 1);
    WithoutMembers(before, id);
    WithoutIsWithin(before, id);
    FrontIsWithin(front, Without(before, id), before);
    PushIs(store, wsId, id);
    assert ([id] + front)[1..] == front;
    assert forall x :: x in front ==> x in Without(before, id);
  }

  lemma PushIs(store: Store, wsId: string, id: string)
    ensures Listed(Step(store, Push(wsId, id)), wsId) == [id] + First(Without(Listed(store, wsId), id), CAPACITY - 1)
  {
    FirstCons(id, Without(Listed(store, wsId), id), CAPACITY);
  }

  /** What a visit costs: another issue is forgotten exactly when it was the tenth and the visited one is new. */
  lemma PushForgetsExactly(store: Store, wsId: string, id: string, i: nat)
    requires Distinct(Listed(store, wsId)) && |Listed(store, wsId)| <= CAPACITY
    requires i < |Listed(store, wsId)| && Listed(store, wsId)[i] != id
    ensures var before := Listed(store, wsId);
      before[i] !in Listed(Step(store, Push(wsId, id)), wsId) <==> i == 9 && id !in before
  {
    var before := Listed(store, wsId);
    PushIs(store, wsId, id);
    WithoutMembers(before, id);
    assert before[i] in before && before[i] in Without(before, id);
    if id in before {
      WithoutShrinks(before, id);
      assert before[i] in [id] + Without(before, id);
    } else {
      WithoutAbsent(before, id);
      var front := First(before, CAPACITY - 1);
      assert before[i] in front <==> i < CAPACITY - 1 by {
        if i < CAPACITY - 1 { assert front[i] == before[i]; }
      }
      assert before[i] in [id] + front <==> before[i] in front;
    }
  }

  lemma {:induction false} WithoutShrinks(ids: seq<string>, id: string)
    requires id in ids
    ensures |Without(ids, id)| < |ids|
  {
    if ids[0] == id { WithoutMembers(ids[1..], id); } else { WithoutShrinks(ids[1..], id); }
  }

  /** A removal takes the issue out and nothing else, in this workspace only, and never starts a list. */
  lemma RemoveMeans(store: Store, wsId: string, id: string)
    ensures var r := Step(store, Remove(wsId, id));
      var before, now := Listed(store, wsId), Listed(r, wsId);
      && (forall x :: x in now <==> x in before && x != id) && Within(now, before)
      && r.Keys == store.Keys
      && forall other :: other != wsId ==> Listed(r, other) == Listed(store, other)
  {
    WithoutMembers(Listed(store, wsId), id);
    WithoutIsWithin(Listed(store, wsId), id);
  }

  // ----- runs

  function Run(actions: seq<Action>): Store
  {
    if actions == [] then map[] else Step(Run(actions[..|actions| - 1]), actions[|actions| - 1])
  }

  /** What a list without a capacity would hold for the workspace. */
  function History(actions: seq<Action>, wsId: string): seq<string>
  {
    if actions == [] then [] else
      var before := History(actions[..|actions| - 1], wsId);
      var action := actions[|actions| - 1];
      if action.wsId != wsId then before
      else if action.Push? then [action.id] + Without(before, action.id)
      else Without(before, action.id)
  }

  ghost predicate Distinct(ids: seq<string>) { forall i, j :: 0 <= i < j < |ids| ==> ids[i] != ids[j] }

  lemma {:induction false} WithoutMembers(ids: seq<string>, id: string)
    ensures forall x :: x in Without(ids, id) <==> x in ids && x != id
    ensures |Without(ids, id)| <= |ids|
  {
    if ids != [] {
      WithoutMembers(ids[1..], id);
      assert ids == [ids[0]] + ids[1..];
    }
  }

  lemma {:induction false} WithoutDistinct(ids: seq<string>, id: string)
    requires Distinct(ids)
    ensures Distinct(Without(ids, id))
  {
    if ids != [] {
      WithoutDistinct(ids[1..], id);
      WithoutMembers(ids[1..], id);
      assert forall x :: x in Without(ids[1..], id) ==> x in ids[1..];
      assert ids[0] !in ids[1..];
    }
  }

  lemma {:induction false} WithoutAbsent(ids: seq<string>, id: string)
    requires id !in ids
    ensures Without(ids, id) == ids
  {
    if ids != [] { WithoutAbsent(ids[1..], id); }
  }

  lemma {:induction false} WithoutOfPrefix(prefix: seq<string>, ids: seq<string>, id: string)
    requires prefix <= ids
    ensures Without(prefix, id) <= Without(ids, id)
  {
    if prefix != [] {
      assert prefix[1..] <= ids[1..];
      WithoutOfPrefix(prefix[1..], ids[1..], id);
    }
  }

  /** Cutting before or after the removal makes no difference to what fits behind a new head. */
  lemma {:induction false} CutThenRemove(ids: seq<string>, id: string, n: nat)
    requires Distinct(ids)
    ensures First(Without(First(ids, n + 1), id), n) == First(Without(ids, id), n)
  {
    if ids != [] {
      var tail := ids[1..];
      assert Distinct(tail);
      assert First(ids, n + 1) == [ids[0]] + First(tail, n);
      if ids[0] == id {
        assert id !in tail;
        WithoutAbsent(tail, id);
        WithoutAbsent(First(tail, n), id);
      } else if n > 0 {
        CutThenRemove(tail, id, n - 1);
        FirstCons(ids[0], Without(First(tail, n), id), n);
        FirstCons(ids[0], Without(tail, id), n);
      }
    }
  }

  lemma FirstCons(x: string, ids: seq<string>, n: nat)
    requires n > 0
    ensures First([x] + ids, n) == [x] + First(ids, n - 1)
  {
  }

  lemma {:induction false} HistoryDistinct(actions: seq<Action>, wsId: string)
    ensures Distinct(History(actions, wsId))
  {
    if actions != [] {
      var before := History(actions[..|actions| - 1], wsId);
      var id := actions[|actions| - 1].id;
      HistoryDistinct(actions[..|actions| - 1], wsId);
      WithoutDistinct(before, id);
      WithoutMembers(before, id);
      ConsDistinct(id, Without(before, id));
    }
  }

  lemma ConsDistinct(x: string, ids: seq<string>)
    requires Distinct(ids) && x !in ids
    ensures Distinct([x] + ids)
  {
    forall i, j | 0 <= i < j < |[x] + ids| ensures ([x] + ids)[i] != ([x] + ids)[j] {
      assert ([x] + ids)[j] == ids[j - 1];
    }
  }

  ghost predicate PushOnly(actions: seq<Action>) { forall i :: 0 <= i < |actions| ==> actions[i].Push? }

  /** A run of visits leaves, in every workspace, the ten most recent of its unbounded history. */
  lemma {:induction false} VisitsKeepTheNewestTen(actions: seq<Action>, wsId: string)
    requires PushOnly(actions)
    ensures Listed(Run(actions), wsId) == First(History(actions, wsId), 10)
  {
    if actions != [] {
      var before, action := actions[..|actions| - 1], actions[|actions| - 1];
      VisitsKeepTheNewestTen(before, wsId);
      if action.wsId == wsId {
        var h := History(before, wsId);
        HistoryDistinct(before, wsId);
        CutThenRemove(h, action.id, CAPACITY - 1);
        FirstCons(action.id, Without(First(h, CAPACITY), action.id), CAPACITY);
        FirstCons(action.id, Without(h, action.id), CAPACITY);
      }
    }
  }

  /** Whatever is visited and removed, the list is the front of the unbounded history: nothing is out of order,
      repeated, left from another workspace or brought back after its removal. */
  lemma {:induction false} ListIsFrontOfHistory(actions: seq<Action>, wsId: string)
    ensures Listed(Run(actions), wsId) <= History(actions, wsId)
    ensures |Listed(Run(actions), wsId)| <= 10
  {
    if actions != [] {
      var before, action := actions[..|actions| - 1], actions[|actions| - 1];
      ListIsFrontOfHistory(before, wsId);
      var ids := Listed(Run(before), wsId);
      WithoutOfPrefix(ids, History(before, wsId), action.id);
      WithoutMembers(ids, action.id);
      assert Without([], action.id) == [];
    }
  }

  ghost predicate LastPush(actions: seq<Action>, wsId: string, id: string, i: int)
  {
    && 0 <= i < |actions| && actions[i] == Push(wsId, id)
    && forall j :: i < j < |actions| && actions[j].wsId == wsId ==> actions[j].id != id
  }

  /** The unbounded history holds exactly the issues visited since they were last removed. */
  lemma {:induction false} HistoryMembers(actions: seq<Action>, wsId: string, id: string)
    ensures id in History(actions, wsId) <==> exists i :: LastPush(actions, wsId, id, i)
  {
    if actions != [] {
      var before, action := actions[..|actions| - 1], actions[|actions| - 1];
      HistoryMembers(before, wsId, id);
      WithoutMembers(History(before, wsId), action.id);
      if action.wsId == wsId && action.id == id {
        if action.Push? { assert LastPush(actions, wsId, id, |before|); }
        assert forall i :: LastPush(actions, wsId, id, i) ==> i == |before|;
      } else {
        assert forall i :: 0 <= i < |before| ==> actions[i] == before[i];
        assert forall i :: LastPush(before, wsId, id, i) ==> LastPush(actions, wsId, id, i);
        assert forall i :: LastPush(actions, wsId, id, i) ==> LastPush(before, wsId, id, i);
      }
    }
  }

  lemma {:induction false} WithoutKeepsOrder(ids: seq<string>, id: string, i: nat, j: nat) returns (i': nat, j': nat)
    requires i < j < |Without(ids, id)|
    ensures i' < j' < |ids| && ids[i'] == Without(ids, id)[i] && ids[j'] == Without(ids, id)[j]
  {
    if ids[0] == id {
      i', j' := WithoutKeepsOrder(ids[1..], id, i, j);
      i', j' := i' + 1, j' + 1;
    } else if i == 0 {
      WithoutMembers(ids[1..], id);
      assert Without(ids, id)[j] == Without(ids[1..], id)[j - 1];
      assert Without(ids, id)[j] in ids[1..];
      j' :| 0 <= j' < |ids[1..]| && ids[1..][j'] == Without(ids, id)[j];
      i', j' := 0, j' + 1;
    } else {
      i', j' := WithoutKeepsOrder(ids[1..], id, i - 1, j - 1);
      i', j' := i' + 1, j' + 1;
    }
  }

  lemma EarlierPush(before: seq<Action>, action: Action, wsId: string, id: string, i: nat)
    requires LastPush(before + [action], wsId, id, i) && (action.wsId != wsId || action.id != id)
    ensures LastPush(before, wsId, id, i)
  {
    assert forall k :: 0 <= k < |before| ==> (before + [action])[k] == before[k];
  }

  /** Where two entries of the history stood before an action that did not bring in the first. */
  lemma EarlierPlaces(before: seq<Action>, action: Action, wsId: string, i: nat, j: nat) returns (i': nat, j': nat)
    requires i < j < |History(before + [action], wsId)| && (action.wsId == wsId && action.Push? ==> i > 0)
    ensures var h, hb := History(before + [action], wsId), History(before, wsId);
      && i' < j' < |hb| && hb[i'] == h[i] && hb[j'] == h[j]
      && (action.wsId == wsId ==> h[i] != action.id && h[j] != action.id)
  {
    assert (before + [action])[..|before|] == before;
    var h, hb := History(before + [action], wsId), History(before, wsId);
    if action.wsId != wsId {
      i', j' := i, j;
    } else {
      var k := if action.Push? then 1 else 0;
      var rest := Without(hb, action.id);
      assert h[i] == rest[i - k] && h[j] == rest[j - k];
      WithoutMembers(hb, action.id);
      assert h[i] in rest && h[j] in rest;
      i', j' := WithoutKeepsOrder(hb, action.id, i - k, j - k);
    }
  }

  /** The history is ordered by the last visit, newest first. */
  lemma {:induction false} HistoryNewestFirst(actions: seq<Action>, wsId: string, i: nat, j: nat, p: nat, q: nat)
    requires i < j < |History(actions, wsId)|
    requires LastPush(actions, wsId, History(actions, wsId)[i], p)
    requires LastPush(actions, wsId, History(actions, wsId)[j], q)
    ensures p > q
  {
    var h := History(actions, wsId);
    var before, action := actions[..|actions| - 1], actions[|actions| - 1];
    assert actions == before + [action];
    if action.wsId == wsId && action.Push? && i == 0 {
      HistoryDistinct(actions, wsId);
      assert h[0] == action.id != h[j];
      EarlierPush(before, action, wsId, h[j], q);
    } else {
      var i', j' := EarlierPlaces(before, action, wsId, i, j);
      EarlierPush(before, action, wsId, h[i], p);
      EarlierPush(before, action, wsId, h[j], q);
      HistoryNewestFirst(before, wsId, i', j', p, q);
    }
  }
}
