/** Coalescing of consecutive identical activity entries. */
module TimelineCoalesce {
  import opened IssueModel

  /** `created` is the timestamp in milliseconds. */
  datatype Entry = Entry(
    isActivity: bool,
    action: Option<string>,
    actorType: string,
    actorId: string,
    created: int,
    count: Option<int>,
    content: string)

  const COALESCE_MS := 120_000

  predicate NoTimeLimit(action: Option<string>) { action == Some("task_completed") || action == Some("task_failed") }

  predicate NeverCoalesce(action: Option<string>) { action == Some("squad_leader_evaluated") }

  function Distance(a: int, b: int): nat { if a < b then b - a else a - b }

  /** The entry folds into the one before it. */
  predicate Folds(prev: Entry, e: Entry)
  {
    && e.isActivity && !NeverCoalesce(e.action) && prev.isActivity
    && prev.action == e.action && prev.actorType == e.actorType && prev.actorId == e.actorId
    && (NoTimeLimit(e.action) || Distance(e.created, prev.created) <= COALESCE_MS)
  }

  function Weight(e: Entry): int { Or(e.count, 1) }

  function Absorb(out: seq<Entry>, e: Entry): seq<Entry>
  {
    if out != [] && Folds(out[|out| - 1], e)
    then out[..|out| - 1] + [e.(count := Some(Weight(out[|out| - 1]) + 1))]
    else out + [e]
  }

  function Coalesced(entries: seq<Entry>): seq<Entry>
  {
    if entries == [] then [] else Absorb(Coalesced(entries[..|entries| - 1]), entries[|entries| - 1])
  }

  lemma CoalescedSnoc(entries: seq<Entry>, n: nat)
    requires n < |entries|
    ensures Coalesced(entries[..n + 1]) == Absorb(Coalesced(entries[..n]), entries[n])
  {
    assert entries[..n + 1][..n] == entries[..n];
  }

  lemma AbsorbInPlace(out: seq<Entry>, e: Entry)
    ensures Absorb(out, e) ==
      if out != [] && Folds(out[|out| - 1], e)
      then out[|out| - 1 := e.(count := Some(Weight(out[|out| - 1]) + 1))]
      else out + [e]
  {
    hide Folds, Weight;
  }

  method CoalesceTimeline(entries: seq<Entry>) returns (out: seq<Entry>)
    ensures out == Coalesced(entries)
  {
    out := [];
    var n := 0;
    while n < |entries|
      invariant 0 <= n <= |entries|
      invariant out == Coalesced(entries[..n])
    {
      hide Folds;
      CoalescedSnoc(entries, n);
      var entry := entries[n];
      AbsorbInPlace(out, entry);
      if |out| > 0 && Folds(out[|out| - 1], entry) {
        out := out[|out| - 1 := entry.(count := Some(Weight(out[|out| - 1]) + 1))];
      } else {
        out := out + [entry];
      }
      n := n + 1;
    }
    assert entries[..n] == entries;
  }

  // ----- what comes out, said without the running output

  /** How many entries up to the one at `i` stand for one another. */
  function RunLength(entries: seq<Entry>, i: nat): int
    requires i < |entries|
  {
    if i > 0 && Folds(entries[i - 1], entries[i]) then RunLength(entries, i - 1) + 1 else Weight(entries[i])
  }

  function Shown(entries: seq<Entry>, i: nat): Entry
    requires i < |entries|
  {
    if i > 0 && Folds(entries[i - 1], entries[i]) then entries[i].(count := Some(RunLength(entries, i))) else entries[i]
  }

  /** The last entry of every run that ends before `n`. */
  function RunEnds(entries: seq<Entry>, n: nat): seq<Entry>
    requires n <= |entries|
  {
    if n == 0 then [] else
      RunEnds(entries, n - 1) +
      (if n == |entries| || !Folds(entries[n - 1], entries[n]) then [Shown(entries, n - 1)] else [])
  }

  lemma {:induction false} PrefixCoalesces(entries: seq<Entry>, n: nat)
    requires n < |entries|
    ensures Coalesced(entries[..n + 1]) == RunEnds(entries, n) + [Shown(entries, n)]
  {
    var e := entries[n];
    assert entries[..n + 1][..n] == entries[..n];
    if n > 0 {
      PrefixCoalesces(entries, n - 1);
      var before := Coalesced(entries[..n]);
      assert before[|before| - 1] == Shown(entries, n - 1);
      assert Weight(Shown(entries, n - 1)) == RunLength(entries, n - 1);
      assert Folds(Shown(entries, n - 1), e) == Folds(entries[n - 1], e);
    }
  }

  /** Exactly one entry per run of consecutive identical activities comes out: the newest, with the run's length. */
  lemma OneEntryPerRun(entries: seq<Entry>)
    ensures Coalesced(entries) == RunEnds(entries, |entries|)
  {
    if entries != [] {
      PrefixCoalesces(entries, |entries| - 1);
      assert entries[..|entries|] == entries;
    }
  }

  // ----- what coalescing keeps

  ghost predicate TimeOrdered(entries: seq<Entry>)
  {
    forall i, j :: 0 <= i < j < |entries| ==> entries[i].created <= entries[j].created
  }

  /** No entry folds into its predecessor. */
  ghost predicate Settled(out: seq<Entry>)
  {
    forall i :: 0 < i < |out| ==> !Folds(out[i - 1], out[i])
  }

  lemma AbsorbSettles(out: seq<Entry>, e: Entry)
    requires Settled(out) && TimeOrdered(out)
    requires out != [] ==> out[|out| - 1].created <= e.created
    ensures Settled(Absorb(out, e))
  {
    if |out| > 1 && Folds(out[|out| - 1], e) {
      assert !Folds(out[|out| - 2], out[|out| - 1]);
      assert !Folds(out[|out| - 2], Absorb(out, e)[|out| - 1]);
    }
  }

  lemma AbsorbKeepsTimeOrder(out: seq<Entry>, e: Entry)
    requires TimeOrdered(out)
    requires out != [] ==> out[|out| - 1].created <= e.created
    ensures TimeOrdered(Absorb(out, e))
    ensures var r := Absorb(out, e); r != [] && r[|r| - 1].created == e.created
  {
  }

  /** On time-ordered input every output is settled, because a folded entry only moves later in time. */
  lemma {:induction false} OutputIsSettled(entries: seq<Entry>)
    requires TimeOrdered(entries)
    ensures var out := Coalesced(entries);
      && Settled(out) && TimeOrdered(out)
      && (entries != [] ==> out != [] && out[|out| - 1].created == entries[|entries| - 1].created)
  {
    if entries != [] {
      var init, e := entries[..|entries| - 1], entries[|entries| - 1];
      OutputIsSettled(init);
      AbsorbSettles(Coalesced(init), e);
      AbsorbKeepsTimeOrder(Coalesced(init), e);
    } else {
      assert Coalesced(entries) == [];
    }
  }

  lemma {:induction false} SettledIsFixed(out: seq<Entry>)
    requires Settled(out)
    ensures Coalesced(out) == out
  {
    if out != [] { SettledIsFixed(out[..|out| - 1]); }
  }

  /** Coalescing twice is coalescing once. */
  lemma CoalesceIsIdempotent(entries: seq<Entry>)
    requires TimeOrdered(entries)
    ensures Coalesced(Coalesced(entries)) == Coalesced(entries)
  {
    OutputIsSettled(entries);
    SettledIsFixed(Coalesced(entries));
  }

  function Total(entries: seq<Entry>): int
  {
    if entries == [] then 0 else Total(entries[..|entries| - 1]) + Weight(entries[|entries| - 1])
  }

  lemma TotalSnoc(out: seq<Entry>, e: Entry)
    ensures Total(out + [e]) == Total(out) + Weight(e)
  {
    assert (out + [e])[..|out|] == out;
  }

  /** No entry is lost or counted twice: the weights of the output sum to the number of entries. */
  lemma {:induction false} CoalesceConserves(entries: seq<Entry>)
    requires forall i :: 0 <= i < |entries| ==> entries[i].count.None?
    ensures Total(Coalesced(entries)) == |entries|
  {
    if entries != [] {
      var init, e := entries[..|entries| - 1], entries[|entries| - 1];
      CoalesceConserves(init);
      var before := Coalesced(init);
      if before != [] && Folds(before[|before| - 1], e) {
        TotalSnoc(before[..|before| - 1], e.(count := Some(Weight(before[|before| - 1]) + 1)));
      } else {
        TotalSnoc(before, e);
      }
    }
  }

  /** Comments and the actions that never coalesce. */
  predicate Kept(e: Entry) { !e.isActivity || NeverCoalesce(e.action) }

  function Keepers(entries: seq<Entry>): seq<Entry>
  {
    if entries == [] then [] else
      Keepers(entries[..|entries| - 1]) + (if Kept(entries[|entries| - 1]) then [entries[|entries| - 1]] else [])
  }

  lemma KeepersSnoc(out: seq<Entry>, e: Entry)
    ensures Keepers(out + [e]) == Keepers(out) + (if Kept(e) then [e] else [])
  {
    assert (out + [e])[..|out|] == out;
  }

  /** They come out whole and in their order. */
  lemma {:induction false} KeepersStayInOrder(entries: seq<Entry>)
    ensures Keepers(Coalesced(entries)) == Keepers(entries)
  {
    if entries != [] {
      var init, e := entries[..|entries| - 1], entries[|entries| - 1];
      KeepersStayInOrder(init);
      var before := Coalesced(init);
      if before != [] && Folds(before[|before| - 1], e) {
        KeepersSnoc(before[..|before| - 1], e.(count := Some(Weight(before[|before| - 1]) + 1)));
      } else {
        KeepersSnoc(before, e);
      }
    }
  }

  // ----- what merges

  /** Milliseconds between two entries. */
  function Apart(a: Entry, b: Entry): int
  {
    if a.created < b.created then b.created - a.created else a.created - b.created
  }

  /** An entry joins the row of the one before it, so that no row is added, exactly when both are activities of one
      action by one actor, the action is not an evaluation of a squad leader, and they are two minutes apart at most
      or report that a task ended. */
  lemma JoinsExactly(entries: seq<Entry>, i: nat)
    requires 0 < i < |entries|
    ensures |Coalesced(entries[..i + 1])| ==
      |Coalesced(entries[..i])| + (if Joins(entries[i - 1], entries[i]) then 0 else 1)
  {
    PrefixCoalesces(entries, i);
    PrefixCoalesces(entries, i - 1);
  }

  predicate Joins(a: Entry, b: Entry)
  {
    && a.isActivity && b.isActivity
    && a.action == b.action && a.actorType == b.actorType && a.actorId == b.actorId
    && a.action != Some("squad_leader_evaluated")
    && (a.action == Some("task_completed") || a.action == Some("task_failed") || Apart(a, b) <= 2 * 60 * 1000)
  }
}
