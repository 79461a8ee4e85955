/** The convergent merge of task-message batches. */
module TaskMessages {
  import opened IssueModel

  datatype Message = Message(seqNo: int, content: string)

  ghost predicate Strict(ms: seq<Message>) { forall i, j :: 0 <= i < j < |ms| ==> ms[i].seqNo < ms[j].seqNo }

  predicate Knows(ms: seq<Message>, n: int) { exists i :: 0 <= i < |ms| && ms[i].seqNo == n }

  /** The messages whose number is not known yet, in order. */
  function Unknown(existing: seq<Message>, incoming: seq<Message>): seq<Message>
  {
    if incoming == [] then [] else
      var last := incoming[|incoming| - 1];
      Unknown(existing, incoming[..|incoming| - 1]) + (if Knows(existing, last.seqNo) then [] else [last])
  }

  function InsertBySeq(sorted: seq<Message>, m: Message): seq<Message>
  {
    if sorted == [] || sorted[|sorted| - 1].seqNo <= m.seqNo then sorted + [m]
    else InsertBySeq(sorted[..|sorted| - 1], m) + [sorted[|sorted| - 1]]
  }

  /** The stable sort by sequence number. */
  function SortBySeq(ms: seq<Message>): seq<Message>
  {
    if ms == [] then [] else InsertBySeq(SortBySeq(ms[..|ms| - 1]), ms[|ms| - 1])
  }

  function MergeTaskMessagesBySeq(existing: seq<Message>, incoming: seq<Message>): seq<Message>
  {
    if incoming == [] then existing else
      var news := Unknown(existing, incoming);
      if news == [] then existing else SortBySeq(existing + news)
  }

  // ----- the sort

  lemma {:induction false} InsertMembers(sorted: seq<Message>, m: Message)
    ensures multiset(InsertBySeq(sorted, m)) == multiset(sorted) + multiset{m}
  {
    if sorted != [] && sorted[|sorted| - 1].seqNo > m.seqNo {
      InsertMembers(sorted[..|sorted| - 1], m);
      assert sorted == sorted[..|sorted| - 1] + [sorted[|sorted| - 1]];
    }
  }

  lemma {:induction false} SortPermutes(ms: seq<Message>)
    ensures multiset(SortBySeq(ms)) == multiset(ms)
    ensures forall m :: m in SortBySeq(ms) <==> m in ms
  {
    if ms != [] {
      var init, last := ms[..|ms| - 1], ms[|ms| - 1];
      assert ms == init + [last];
      SortPermutes(init);
      InsertMembers(SortBySeq(init), last);
    }
    forall m ensures m in SortBySeq(ms) <==> m in ms {
      assert m in SortBySeq(ms) <==> m in multiset(SortBySeq(ms));
      assert m in ms <==> m in multiset(ms);
    }
  }

  ghost predicate DistinctSeqs(ms: seq<Message>) { forall i, j :: 0 <= i < j < |ms| ==> ms[i].seqNo != ms[j].seqNo }

  lemma {:induction false} InsertStrict(sorted: seq<Message>, m: Message)
    requires Strict(sorted) && !Knows(sorted, m.seqNo)
    ensures Strict(InsertBySeq(sorted, m))
  {
    if sorted != [] && sorted[|sorted| - 1].seqNo > m.seqNo {
      var init, last := sorted[..|sorted| - 1], sorted[|sorted| - 1];
      assert !Knows(init, m.seqNo);
      InsertStrict(init, m);
      InsertMembers(init, m);
      var r := InsertBySeq(init, m);
      forall i | 0 <= i < |r| ensures r[i].seqNo < last.seqNo {
        assert r[i] in multiset(r);
        assert r[i] == m || r[i] in init;
      }
    } else if sorted != [] {
      assert sorted[|sorted| - 1].seqNo != m.seqNo;
    }
  }

  lemma {:induction false} SortStrict(ms: seq<Message>)
    requires DistinctSeqs(ms)
    ensures Strict(SortBySeq(ms))
  {
    if ms != [] {
      var init, last := ms[..|ms| - 1], ms[|ms| - 1];
      SortStrict(init);
      SortPermutes(init);
      forall i | 0 <= i < |SortBySeq(init)| ensures SortBySeq(init)[i].seqNo != last.seqNo {
        assert SortBySeq(init)[i] in init;
      }
      InsertStrict(SortBySeq(init), last);
    }
  }

  lemma {:induction false} UnknownMembers(existing: seq<Message>, incoming: seq<Message>)
    ensures forall m :: m in Unknown(existing, incoming) <==> m in incoming && !Knows(existing, m.seqNo)
    ensures DistinctSeqs(incoming) ==> DistinctSeqs(Unknown(existing, incoming))
  {
    if incoming != [] {
      var init, last := incoming[..|incoming| - 1], incoming[|incoming| - 1];
      assert incoming == init + [last];
      UnknownMembers(existing, init);
      var u := Unknown(existing, init);
      if DistinctSeqs(incoming) {
        forall i | 0 <= i < |u| ensures u[i].seqNo != last.seqNo {
          assert u[i] in u;
          var j :| 0 <= j < |init| && init[j] == u[i];
        }
      }
    }
  }

  // ----- one merge

  /** Everything existing stays; of the incoming messages exactly those with a new number are added. */
  lemma MergeMembers(existing: seq<Message>, incoming: seq<Message>)
    ensures forall m :: m in MergeTaskMessagesBySeq(existing, incoming) <==>
      m in existing || (m in incoming && !Knows(existing, m.seqNo))
  {
    UnknownMembers(existing, incoming);
    SortPermutes(existing + Unknown(existing, incoming));
    var u := Unknown(existing, incoming);
    assert u == [] ==> forall m :: m in incoming ==> m !in u;
  }

  lemma AppendDistinct(existing: seq<Message>, incoming: seq<Message>)
    requires Strict(existing) && DistinctSeqs(Unknown(existing, incoming))
    ensures DistinctSeqs(existing + Unknown(existing, incoming))
  {
    var u := Unknown(existing, incoming);
    UnknownMembers(existing, incoming);
    forall i, j | 0 <= i < |existing| && 0 <= j < |u| ensures existing[i].seqNo != u[j].seqNo {
      assert u[j] in u;
    }
  }

  lemma {:induction false} StrictOnce(r: seq<Message>, m: Message)
    requires Strict(r)
    ensures multiset(r)[m] <= 1
  {
    if r != [] {
      var init, last := r[..|r| - 1], r[|r| - 1];
      assert r == init + [last];
      StrictOnce(init, m);
      if m == last { assert m !in init; }
    }
  }

  lemma StrictDistinct(r: seq<Message>, m: Message, k: Message)
    requires Strict(r) && m in r && k in r && m.seqNo == k.seqNo
    ensures m == k
  {
    var i :| 0 <= i < |r| && r[i] == m;
    var j :| 0 <= j < |r| && r[j] == k;
  }

  /** A strictly sorted arrangement exists only of messages with distinct numbers. */
  lemma StrictOnlyOfDistinct(all: seq<Message>, r: seq<Message>)
    requires multiset(r) == multiset(all) && Strict(r)
    ensures DistinctSeqs(all)
  {
    forall i, j | 0 <= i < j < |all| ensures all[i].seqNo != all[j].seqNo {
      if all[i].seqNo == all[j].seqNo {
        StrictOnce(r, all[i]);
        assert all[i] in multiset(r) && all[j] in multiset(r);
        StrictDistinct(r, all[i], all[j]);
        TwiceInSeq(all, i, j);
      }
    }
  }

  /** A strictly sorted list stays strictly sorted exactly when no two new messages of the batch share a number:
      the merge removes duplicates against the list, not inside the batch. */
  lemma MergeStrictExactly(existing: seq<Message>, incoming: seq<Message>)
    requires Strict(existing)
    ensures Strict(MergeTaskMessagesBySeq(existing, incoming)) <==> DistinctSeqs(Unknown(existing, incoming))
  {
    var u := Unknown(existing, incoming);
    var all := existing + u;
    if DistinctSeqs(u) {
      AppendDistinct(existing, incoming);
      SortStrict(all);
    }
    SortPermutes(all);
    if u != [] && Strict(SortBySeq(all)) {
      StrictOnlyOfDistinct(all, SortBySeq(all));
      forall i, j | 0 <= i < j < |u| ensures u[i].seqNo != u[j].seqNo {
        assert all[|existing| + i] == u[i] && all[|existing| + j] == u[j];
      }
    }
  }

  // ----- convergence

  function MergeAll(batches: seq<seq<Message>>): seq<Message>
  {
    if batches == [] then [] else MergeTaskMessagesBySeq(MergeAll(batches[..|batches| - 1]), batches[|batches| - 1])
  }

  ghost predicate Delivered(batches: seq<seq<Message>>, m: Message)
  {
    exists b :: b in batches && m in b
  }

  /** Batches are cut from one log, each with distinct numbers. */
  ghost predicate FromLog(batches: seq<seq<Message>>, log: map<int, Message>)
  {
    forall b :: b in batches ==> DistinctSeqs(b) && forall m :: m in b ==> m.seqNo in log && log[m.seqNo] == m
  }

  lemma {:induction false} MergeAllIsUnion(batches: seq<seq<Message>>, log: map<int, Message>)
    requires FromLog(batches, log)
    ensures Strict(MergeAll(batches))
    ensures forall m :: m in MergeAll(batches) <==> Delivered(batches, m)
  {
    if batches != [] {
      var init, last := batches[..|batches| - 1], batches[|batches| - 1];
      assert batches == init + [last] && last in batches;
      assert forall b :: b in init ==> b in batches;
      MergeAllIsUnion(init, log);
      var before := MergeAll(init);
      UnknownMembers(before, last);
      MergeStrictExactly(before, last);
      MergeMembers(before, last);
      forall m ensures m in MergeAll(batches) <==> Delivered(batches, m) {
        UnionStep(init, last, log, before, m);
      }
    }
  }

  lemma UnionStep(init: seq<seq<Message>>, last: seq<Message>, log: map<int, Message>, before: seq<Message>, m: Message)
    requires FromLog(init + [last], log)
    requires forall k :: k in before <==> Delivered(init, k)
    ensures m in before || (m in last && !Knows(before, m.seqNo)) <==> Delivered(init + [last], m)
  {
    var batches := init + [last];
    assert last in batches && forall b :: b in batches <==> b in init || b == last;
    if m in last && Knows(before, m.seqNo) {
      var i :| 0 <= i < |before| && before[i].seqNo == m.seqNo;
      assert before[i] in before;
      var b :| b in init && before[i] in b;
      assert b in batches;
    }
  }

  lemma LastIsLargest(a: seq<Message>, m: Message)
    requires Strict(a) && m in a
    ensures a != [] && m.seqNo <= a[|a| - 1].seqNo
    ensures m.seqNo == a[|a| - 1].seqNo ==> m == a[|a| - 1]
  {
    var i :| 0 <= i < |a| && a[i] == m;
  }

  lemma {:induction false} StrictListsAgree(a: seq<Message>, b: seq<Message>)
    requires Strict(a) && Strict(b) && forall m :: m in a <==> m in b
    ensures a == b
  {
    if a != [] {
      var x := a[|a| - 1];
      LastIsLargest(b, x);
      var y := b[|b| - 1];
      LastIsLargest(a, y);
      var a', b' := a[..|a| - 1], b[..|b| - 1];
      assert a == a' + [x] && b == b' + [x];
      forall m ensures m in a' <==> m in b' {
        assert m in a <==> m in a' || m == x;
        assert m in b <==> m in b' || m == x;
        assert x !in a' && x !in b';
      }
      StrictListsAgree(a', b');
    } else if b != [] {
      LastIsLargest(a, b[0]);
      assert false;
    }
  }

  /** Whatever the order and overlap of the batches, the same delivered messages end in the same list. */
  lemma DeliveriesConverge(batches: seq<seq<Message>>, batches': seq<seq<Message>>, log: map<int, Message>)
    requires FromLog(batches, log) && FromLog(batches', log)
    requires forall m :: Delivered(batches, m) <==> Delivered(batches', m)
    ensures MergeAll(batches) == MergeAll(batches')
  {
    MergeAllIsUnion(batches, log);
    MergeAllIsUnion(batches', log);
    StrictListsAgree(MergeAll(batches), MergeAll(batches'));
  }

  lemma {:induction false} UnknownNone(existing: seq<Message>, incoming: seq<Message>)
    requires forall m :: m in incoming ==> Knows(existing, m.seqNo)
    ensures Unknown(existing, incoming) == []
  {
    if incoming != [] {
      assert incoming[|incoming| - 1] in incoming;
      UnknownNone(existing, incoming[..|incoming| - 1]);
    }
  }

  /** Delivering again what is already there changes nothing, not even with other contents. */
  lemma RedeliveryChangesNothing(existing: seq<Message>, incoming: seq<Message>)
    requires forall m :: m in incoming ==> Knows(existing, m.seqNo)
    ensures MergeTaskMessagesBySeq(existing, incoming) == existing
  {
    UnknownNone(existing, incoming);
  }
}
