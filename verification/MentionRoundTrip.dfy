/** What the mention reader does on every text, and the round trip with the writer. */
module MentionRoundTrip {
  import opened IssueModel
  import opened Mentions

  // ----- marked texts

  /** A sentinel directly before an `@`: where the reader starts a run. */
  predicate HasRun(s: string) { exists i :: 0 <= i < |s| - 1 && s[i] == SENTINEL && s[i + 1] == '@' }

  /** Each marker's run followed by its piece of text. */
  function MarkedTail(pieces: seq<string>, ms: seq<Marker>): string
    requires |pieces| == |ms|
  {
    if ms == [] then "" else Run(ms[0]) + (pieces[0] + MarkedTail(pieces[1..], ms[1..]))
  }

  function LinkedTail(pieces: seq<string>, ms: seq<Marker>): string
    requires |pieces| == |ms|
  {
    if ms == [] then "" else Link(ms[0]) + (Strip(pieces[0]) + LinkedTail(pieces[1..], ms[1..]))
  }

  /** Names are single words, each run ends at whitespace or at the end of the text, pieces hide no run. */
  ghost predicate WellMarked(pieces: seq<string>, ms: seq<Marker>)
  {
    && |pieces| == |ms|
    && (ms != [] ==>
         && NoSpace(ms[0].name) && !HasRun(pieces[0])
         && (if pieces[0] == "" then |ms| == 1 else IsSpace(pieces[0][0]))
         && WellMarked(pieces[1..], ms[1..]))
  }

  /** The text is the lead followed by exactly these marked runs and pieces. */
  ghost predicate Marks(text: string, ms: seq<Marker>, lead: string, pieces: seq<string>)
  {
    WellMarked(pieces, ms) && !HasRun(lead) && text == lead + MarkedTail(pieces, ms)
  }

  // ----- stripping

  lemma {:induction false} StripConcat(a: string, b: string)
    ensures Strip(a + b) == Strip(a) + Strip(b)
  {
    if a == "" {
      assert a + b == b;
    } else {
      StripConcat(a[1..], b);
      var head := if a[0] == SENTINEL then "" else [a[0]];
      assert (a + b)[1..] == a[1..] + b && (a + b)[0] == a[0];
      assert head + (Strip(a[1..]) + Strip(b)) == (head + Strip(a[1..])) + Strip(b);
    }
  }

  lemma {:induction false} StripClean(a: string)
    requires NoSentinel(a)
    ensures Strip(a) == a
  {
    if a != "" { StripClean(a[1..]); }
  }

  /** Stripping loses nothing but sentinels. */
  lemma {:induction false} StripKeepsTheRest(a: string)
    ensures NoSentinel(Strip(a))
    ensures forall c :: c != SENTINEL ==> multiset(Strip(a))[c] == multiset(a)[c]
  {
    if a != "" {
      StripKeepsTheRest(a[1..]);
      assert a == [a[0]] + a[1..];
    }
  }

  // ----- the reader on a marked text

  /** Where the first sentinel of a suffix is. */
  lemma {:induction false} NextSentinelIs(text: string, c: nat, a: nat)
    requires c <= a <= |text| && (forall j :: c <= j < a ==> text[j] != SENTINEL)
    requires a < |text| ==> text[a] == SENTINEL
    ensures NextSentinel(text, c) == a
  {
  }

  lemma WordEndIs(text: string, c: nat, a: nat)
    requires c <= a <= |text| && (forall j :: c <= j < a ==> !IsSpace(text[j]))
    requires a < |text| ==> IsSpace(text[a])
    ensures WordEnd(text, c) == a
  {
  }

  lemma SuffixIndex(text: string, c: nat, suffix: string, i: nat)
    requires c <= |text| && text[c..] == suffix && i < |suffix|
    ensures text[c + i] == suffix[i]
  {
  }

  /** A stray sentinel at the front of what is left. */
  lemma StrayStep(text: string, c: nat, ms: seq<Marker>, k: nat, q: string, a: nat, tail: string)
    requires c <= |text| && k <= |ms| && text[c..] == q + tail && a < |q| && q[a] == SENTINEL && NoSentinel(q[..a])
    requires !HasRun(q) && (tail != "" ==> tail[0] == SENTINEL)
    ensures Scan(text, c, ms, k) == Prepend(q[..a], Scan(text, c + a + 1, ms, k))
    ensures text[c + a + 1..] == q[a + 1..] + tail
  {
    hide Scan;
    forall j | c <= j < c + a ensures text[j] != SENTINEL {
      SuffixIndex(text, c, q + tail, j - c);
      assert q[..a][j - c] in q[..a];
    }
    SuffixIndex(text, c, q + tail, a);
    NextSentinelIs(text, c, c + a);
    if c + a + 1 < |text| { SuffixIndex(text, c, q + tail, a + 1); }
    assert text[c..c + a] == (q + tail)[..a] == q[..a];
    assert text[c + a + 1..] == (q + tail)[a + 1..];
    ScanStrayAt(text, c, ms, k, c + a);
  }

  /** One unfolding of the scan at a stray sentinel. */
  lemma ScanStrayAt(text: string, c: nat, ms: seq<Marker>, k: nat, at: nat)
    requires c <= at < |text| && k <= |ms| && NextSentinel(text, c) == at && (at + 1 == |text| || text[at + 1] != '@')
    ensures Scan(text, c, ms, k) == Prepend(text[c..at], Scan(text, at + 1, ms, k))
  {
  }

  /** A run at the front of what is left: where it starts and ends. */
  lemma RunBounds(text: string, c: nat, q: string, m: Marker, tail: string)
    requires c <= |text| && text[c..] == q + (Run(m) + tail) && NoSentinel(q)
    requires NoSpace(m.name) && (tail != "" ==> IsSpace(tail[0]))
    ensures var at := c + |q|;
      && at + 2 + |m.name| <= |text| && text[at + 1] == '@'
      && NextSentinel(text, c) == at && WordEnd(text, at + 2) == at + 2 + |m.name|
  {
    var all := q + (Run(m) + tail);
    var at := c + |q|;
    var w := at + 2 + |m.name|;
    assert |all| == |q| + 2 + |m.name| + |tail|;
    forall j | c <= j < at ensures text[j] != SENTINEL {
      SuffixIndex(text, c, all, j - c);
      assert q[j - c] in q;
    }
    SuffixIndex(text, c, all, |q|);
    SuffixIndex(text, c, all, |q| + 1);
    NextSentinelIs(text, c, at);
    forall j | at + 2 <= j < w ensures !IsSpace(text[j]) {
      SuffixIndex(text, c, all, j - c);
      assert text[j] == m.name[j - at - 2];
    }
    if w < |text| {
      SuffixIndex(text, c, all, w - c);
      assert text[w] == tail[0];
    }
    WordEndIs(text, at + 2, w);
  }

  lemma RunSlices(text: string, c: nat, q: string, m: Marker, tail: string)
    requires c <= |text| && text[c..] == q + (Run(m) + tail)
    ensures var at := c + |q|;
      var w := at + 2 + |m.name|;
      w <= |text| && text[c..at] == q && text[at + 2..w] == m.name && text[w..] == tail
  {
    var all := q + (Run(m) + tail);
    var at := c + |q|;
    var w := at + 2 + |m.name|;
    assert |all| == |q| + 2 + |m.name| + |tail|;
    assert text[at + 2..w] == all[|q| + 2..|q| + 2 + |m.name|] == m.name;
    assert text[w..] == all[w - c..] == tail;
    assert text[c..at] == all[..|q|] == q;
  }

  /** One unfolding of the scan at a run. */
  lemma ScanAt(text: string, c: nat, ms: seq<Marker>, k: nat, at: nat, w: nat, q: string, word: string)
    requires c <= at && k < |ms| && at + 1 < |text| && text[at + 1] == '@'
    requires NextSentinel(text, c) == at && WordEnd(text, at + 2) == w && text[c..at] == q && text[at + 2..w] == word
    ensures Scan(text, c, ms, k) == if ms[k].name == word
      then Prepend(q + Link(ms[k]), Scan(text, w, ms, k + 1)) else None
  {
  }

  /** The reader takes the run when it names the next marker, and gives up otherwise. */
  lemma RunStep(text: string, c: nat, ms: seq<Marker>, k: nat, q: string, m: Marker, tail: string)
    requires c <= |text| && k < |ms| && text[c..] == q + (Run(m) + tail) && NoSentinel(q)
    requires NoSpace(m.name) && (tail != "" ==> IsSpace(tail[0]))
    ensures c + |q| + 2 + |m.name| <= |text|
    ensures Scan(text, c, ms, k) ==
      if ms[k].name == m.name then Prepend(q + Link(ms[k]), Scan(text, c + |q| + 2 + |m.name|, ms, k + 1)) else None
  {
    hide Scan;
    RunBounds(text, c, q, m, tail);
    RunSlices(text, c, q, m, tail);
    ScanAt(text, c, ms, k, c + |q|, c + |q| + 2 + |m.name|, q, m.name);
  }

  lemma FirstIn(q: string) returns (a: nat)
    requires !NoSentinel(q)
    ensures a < |q| && q[a] == SENTINEL && NoSentinel(q[..a])
  {
    a := NextSentinel(q, 0);
    var i :| 0 <= i < |q| && q[i] == SENTINEL;
  }

  lemma MarkedTailFront(pieces: seq<string>, ms: seq<Marker>)
    requires |pieces| == |ms|
    ensures MarkedTail(pieces, ms) != "" ==> MarkedTail(pieces, ms)[0] == SENTINEL
    ensures ms != [] ==> MarkedTail(pieces, ms) != ""
  {
    if ms != [] { assert Run(ms[0])[0] == SENTINEL; }
  }

  lemma StripStep(q: string, a: nat)
    requires a < |q| && q[a] == SENTINEL && NoSentinel(q[..a])
    ensures Strip(q) == q[..a] + Strip(q[a + 1..])
  {
    assert q == q[..a] + q[a..];
    StripConcat(q[..a], q[a..]);
    StripClean(q[..a]);
    assert q[a..][0] == SENTINEL && q[a..][1..] == q[a + 1..];
    assert "" + Strip(q[a + 1..]) == Strip(q[a + 1..]);
  }

  lemma SuffixHasNoRun(q: string, a: nat)
    requires a <= |q| && !HasRun(q)
    ensures !HasRun(q[a..])
  {
    var s := q[a..];
    forall i | 0 <= i < |s| - 1 ensures !(s[i] == SENTINEL && s[i + 1] == '@') {
      assert s[i] == q[a + i] && s[i + 1] == q[a + i + 1];
    }
  }

  /** Reading a marked text from inside a piece replaces every run that is left and strips every piece. */
  lemma {:induction false} ReadMarked(text: string, c: nat, ms: seq<Marker>, k: nat, q: string, pieces: seq<string>)
    requires c <= |text| && k <= |ms| && WellMarked(pieces, ms[k..]) && !HasRun(q)
    requires text[c..] == q + MarkedTail(pieces, ms[k..])
    ensures Scan(text, c, ms, k) == Some(Strip(q) + LinkedTail(pieces, ms[k..]))
    decreases |text| - c
  {
    hide Scan, Prepend, Strip, Run, IsSpace;
    var left := ms[k..];
    if !NoSentinel(q) {
      var a := FirstIn(q);
      MarkedTailFront(pieces, left);
      StrayStep(text, c, ms, k, q, a, MarkedTail(pieces, left));
      SuffixHasNoRun(q, a + 1);
      ReadMarked(text, c + a + 1, ms, k, q[a + 1..], pieces);
      ReadStray(Scan(text, c, ms, k), Scan(text, c + a + 1, ms, k), q, a, LinkedTail(pieces, left));
    } else {
      StripClean(q);
      if left == [] {
        ReadPlainTail(text, c, ms, k, q);
      } else {
        var w := BehindRun(text, c, ms, k, q, pieces);
        ScanThroughRun(text, c, ms, k, q, pieces, w);
        ReadMarked(text, w, ms, k + 1, pieces[0], pieces[1..]);
        ReadRun(Scan(text, c, ms, k), Scan(text, w, ms, k + 1), q, pieces, left);
      }
    }
  }

  lemma ReadStray(whole: Option<string>, rest: Option<string>, q: string, a: nat, linked: string)
    requires a < |q| && q[a] == SENTINEL && NoSentinel(q[..a])
    requires whole == Prepend(q[..a], rest) && rest == Some(Strip(q[a + 1..]) + linked)
    ensures whole == Some(Strip(q) + linked)
  {
    StripStep(q, a);
    Assoc(q[..a], Strip(q[a + 1..]), linked);
  }

  /** From a clean piece through the next run to the piece behind it. */
  lemma BehindRun(text: string, c: nat, ms: seq<Marker>, k: nat, q: string, pieces: seq<string>) returns (w: nat)
    requires c <= |text| && k < |ms| && WellMarked(pieces, ms[k..])
    requires text[c..] == q + MarkedTail(pieces, ms[k..])
    ensures w == c + |q| + 2 + |ms[k].name| <= |text|
    ensures WellMarked(pieces[1..], ms[k + 1..]) && !HasRun(pieces[0])
    ensures text[w..] == pieces[0] + MarkedTail(pieces[1..], ms[k + 1..])
    ensures ms[k..][0] == ms[k] && ms[k..][1..] == ms[k + 1..]
  {
    var left := ms[k..];
    MarkedHead(pieces, left);
    assert left[1..] == ms[k + 1..] && left[0] == ms[k];
    w := c + |q| + 2 + |left[0].name|;
    RunSlices(text, c, q, left[0], pieces[0] + MarkedTail(pieces[1..], left[1..]));
  }

  lemma ScanThroughRun(text: string, c: nat, ms: seq<Marker>, k: nat, q: string, pieces: seq<string>, w: nat)
    requires c <= |text| && k < |ms| && WellMarked(pieces, ms[k..]) && NoSentinel(q)
    requires text[c..] == q + MarkedTail(pieces, ms[k..])
    requires w == c + |q| + 2 + |ms[k].name| <= |text|
    ensures Scan(text, c, ms, k) == Prepend(q + Link(ms[k]), Scan(text, w, ms, k + 1))
  {
    hide Scan;
    var left := ms[k..];
    MarkedHead(pieces, left);
    assert left[0] == ms[k];
    RunStep(text, c, ms, k, q, left[0], pieces[0] + MarkedTail(pieces[1..], left[1..]));
  }

  lemma ReadRun(whole: Option<string>, rest: Option<string>, q: string, pieces: seq<string>, left: seq<Marker>)
    requires |pieces| == |left| && left != []
    requires whole == Prepend(q + Link(left[0]), rest)
    requires rest == Some(Strip(pieces[0]) + LinkedTail(pieces[1..], left[1..]))
    ensures whole == Some(q + LinkedTail(pieces, left))
  {
    Assoc(q, Link(left[0]), Strip(pieces[0]) + LinkedTail(pieces[1..], left[1..]));
  }

  lemma Assoc(a: string, b: string, c: string)
    ensures (a + b) + c == a + (b + c)
  {
  }

  /** The first run of a marked tail and what follows it. */
  lemma MarkedHead(pieces: seq<string>, left: seq<Marker>)
    requires WellMarked(pieces, left) && left != []
    ensures var rest := pieces[0] + MarkedTail(pieces[1..], left[1..]);
      && MarkedTail(pieces, left) == Run(left[0]) + rest
      && NoSpace(left[0].name) && (rest != "" ==> IsSpace(rest[0]))
  {
    if pieces[0] == "" { assert left[1..] == []; }
  }

  lemma ReadPlainTail(text: string, c: nat, ms: seq<Marker>, k: nat, q: string)
    requires c <= |text| && k == |ms| && text[c..] == q && NoSentinel(q)
    ensures Scan(text, c, ms, k) == Some(q) && q + "" == q
  {
    forall j | c <= j < |text| ensures text[j] != SENTINEL {
      SuffixIndex(text, c, q, j - c);
      assert q[j - c] in q;
    }
    NextSentinelIs(text, c, |text|);
  }

  /** Whatever the reader accepts is a marked text. */
  lemma {:induction false} AcceptedIsMarked(text: string, c: nat, ms: seq<Marker>, k: nat)
    returns (q: string, pieces: seq<string>)
    requires c <= |text| && k <= |ms| && Scan(text, c, ms, k).Some?
    ensures |pieces| == |ms[k..]| && WellMarked(pieces, ms[k..]) && !HasRun(q)
      && text[c..] == q + MarkedTail(pieces, ms[k..])
    decreases |text| - c
  {
    hide WellMarked, MarkedTail, HasRun, Scan;
    ScanAccepts(text, c, ms, k);
    var at := NextSentinel(text, c);
    if at == |text| {
      q, pieces := text[c..], [];
      NothingMarked(text, c, ms[k..]);
    } else if at + 1 == |text| || text[at + 1] != '@' {
      var q', pieces' := AcceptedIsMarked(text, at + 1, ms, k);
      q, pieces := text[c..at] + [SENTINEL] + q', pieces';
      StrayPiece(text, c, at, q', MarkedTail(pieces', ms[k..]));
    } else {
      var w := WordEnd(text, at + 2);
      var q', pieces' := AcceptedIsMarked(text, w, ms, k + 1);
      q, pieces := text[c..at], [q'] + pieces';
      AcceptedRun(text, c, at, ms, k, q', pieces');
    }
  }

  /** What an accepting scan has found at its next sentinel. */
  lemma ScanAccepts(text: string, c: nat, ms: seq<Marker>, k: nat)
    requires c <= |text| && k <= |ms| && Scan(text, c, ms, k).Some?
    ensures var at := NextSentinel(text, c);
      if at == |text| then k == |ms|
      else if at + 1 == |text| || text[at + 1] != '@' then Scan(text, at + 1, ms, k).Some?
      else var w := WordEnd(text, at + 2);
        k < |ms| && ms[k].name == text[at + 2..w] && Scan(text, w, ms, k + 1).Some?
  {
  }

  lemma NothingMarked(text: string, c: nat, left: seq<Marker>)
    requires c <= |text| && NextSentinel(text, c) == |text| && left == []
    ensures WellMarked([], left) && !HasRun(text[c..]) && text[c..] == text[c..] + MarkedTail([], left)
  {
    forall i | 0 <= i < |text[c..]| ensures text[c..][i] != SENTINEL { assert text[c..][i] == text[c + i]; }
  }

  lemma AcceptedRun(text: string, c: nat, at: nat, ms: seq<Marker>, k: nat, q': string, pieces': seq<string>)
    requires c <= at && at + 1 < |text| && at == NextSentinel(text, c) && text[at + 1] == '@' && k < |ms|
    requires var w := WordEnd(text, at + 2);
      ms[k].name == text[at + 2..w] && |pieces'| == |ms[k + 1..]| && WellMarked(pieces', ms[k + 1..])
        && text[w..] == q' + MarkedTail(pieces', ms[k + 1..])
    requires !HasRun(q')
    ensures |[q'] + pieces'| == |ms[k..]| && WellMarked([q'] + pieces', ms[k..]) && !HasRun(text[c..at])
    ensures text[c..] == text[c..at] + MarkedTail([q'] + pieces', ms[k..])
  {
    var left, pieces, tail := ms[k..], [q'] + pieces', MarkedTail(pieces', ms[k + 1..]);
    assert left[1..] == ms[k + 1..] && left[0] == ms[k] && pieces[1..] == pieces' && pieces[0] == q';
    RunPiece(text, c, at, WordEnd(text, at + 2), ms[k], q', tail);
    MarkedTailFront(pieces', ms[k + 1..]);
    PieceBoundary(text, at + 2, q', tail);
    if q' == "" { assert |left| == 1; }
  }

  /** After a word comes whitespace or the end, never another run. */
  lemma PieceBoundary(text: string, from: nat, q': string, tail: string)
    requires from <= |text| && text[WordEnd(text, from)..] == q' + tail
    requires tail != "" ==> tail[0] == SENTINEL
    ensures if q' == "" then tail == "" else IsSpace(q'[0])
  {
    var w := WordEnd(text, from);
    if w < |text| { assert text[w] == (q' + tail)[0]; }
  }

  lemma StrayPiece(text: string, c: nat, at: nat, q': string, tail: string)
    requires c <= at < |text| && at == NextSentinel(text, c) && (at + 1 == |text| || text[at + 1] != '@')
    requires text[at + 1..] == q' + tail && !HasRun(q')
    ensures text[c..] == (text[c..at] + [SENTINEL] + q') + tail && !HasRun(text[c..at] + [SENTINEL] + q')
  {
    var q := text[c..at] + [SENTINEL] + q';
    assert text[c..] == text[c..at] + [SENTINEL] + text[at + 1..];
    assert text[c..] == q + tail;
    forall i | 0 <= i < |q| - 1 ensures !(q[i] == SENTINEL && q[i + 1] == '@') {
      if i < at - c {
        assert q[i] == text[c + i];
      } else if i == at - c {
        assert q[i + 1] == q'[0] == (q' + tail)[0] == text[at + 1];
      } else {
        var j := i - (at - c) - 1;
        assert q[i] == q'[j] && q[i + 1] == q'[j + 1];
      }
    }
  }

  lemma RunPiece(text: string, c: nat, at: nat, w: nat, m: Marker, q': string, tail: string)
    requires c <= at && at + 1 < |text| && at == NextSentinel(text, c) && text[at + 1] == '@'
    requires w == WordEnd(text, at + 2) && m.name == text[at + 2..w] && text[w..] == q' + tail
    ensures text[c..] == text[c..at] + (Run(m) + (q' + tail)) && !HasRun(text[c..at]) && NoSpace(m.name)
  {
    assert text[at..] == [text[at], text[at + 1]] + text[at + 2..w] + text[w..];
    assert text[c..] == text[c..at] + text[at..];
    assert Run(m) + (q' + tail) == text[at..];
    forall i | 0 <= i < |text[c..at]| ensures text[c..at][i] != SENTINEL { assert text[c..at][i] == text[c + i]; }
  }

  lemma MarkedHasSentinel(text: string, ms: seq<Marker>, lead: string, pieces: seq<string>)
    requires |pieces| == |ms| && ms != [] && text == lead + MarkedTail(pieces, ms)
    ensures !NoSentinel(text)
  {
    MarkedTailFront(pieces, ms);
    assert text[|lead|] == MarkedTail(pieces, ms)[0];
  }

  // ----- never a partial mix

  /** A marked text becomes the full replacement, every run by its own link in order; every other text loses its
      sentinels and nothing else. */
  lemma SerializeExactly(text: string, ms: seq<Marker>)
    ensures forall lead, pieces :: Marks(text, ms, lead, pieces) ==>
      Serialize(text, ms) == Strip(lead) + LinkedTail(pieces, ms)
    ensures (forall lead, pieces :: !Marks(text, ms, lead, pieces)) ==> Serialize(text, ms) == Strip(text)
  {
    assert ms[0..] == ms && text[0..] == text;
    forall lead, pieces | Marks(text, ms, lead, pieces)
      ensures Serialize(text, ms) == Strip(lead) + LinkedTail(pieces, ms)
    {
      ReadMarked(text, 0, ms, 0, lead, pieces);
      if NoSentinel(text) {
        StripClean(text);
        if ms != [] { MarkedHasSentinel(text, ms, lead, pieces); }
        assert lead + "" == lead && Strip(lead) + "" == Strip(lead);
      }
    }
    if NoSentinel(text) {
      StripClean(text);
    } else if Scan(text, 0, ms, 0).Some? {
      var q, pieces := AcceptedIsMarked(text, 0, ms, 0);
      assert Marks(text, ms, q, pieces);
    }
  }

  // ----- the round trip

  /** One mention inserted to the right of all earlier ones: `rest` is whatever the user has by then behind the
      last mention, `start` and `queryLength` the `@query` replaced in it. */
  datatype Edit = Edit(rest: string, start: nat, queryLength: nat, marker: Marker)

  predicate EditOk(e: Edit)
  {
    e.start + 1 + e.queryLength <= |e.rest| && NoSentinel(e.rest) && NoSentinel(e.marker.name)
  }

  predicate AllOk(edits: seq<Edit>) { forall i :: 0 <= i < |edits| ==> EditOk(edits[i]) }

  predicate OneWordNames(ms: seq<Marker>) { forall i :: 0 <= i < |ms| ==> NoSpace(ms[i].name) }

  /** The text after the edits: what stands up to the last mention is kept, the rest may be retyped. */
  function Compose(done: string, edits: seq<Edit>, last: string): string
    requires AllOk(edits)
    decreases |edits|
  {
    if edits == [] then done + last else
      var e := edits[0];
      var (t, cursor) := InsertMention(done + e.rest, |done| + e.start, e.queryLength, e.marker);
      Compose(t[..cursor], edits[1..], last)
  }

  function MarkersOf(edits: seq<Edit>): seq<Marker>
  {
    seq(|edits|, i requires 0 <= i < |edits| => edits[i].marker)
  }

  /** The same text with each inserted mention as its link. */
  function Linked(edits: seq<Edit>, last: string): string
    requires AllOk(edits)
  {
    if edits == [] then last else
      edits[0].rest[..edits[0].start] + (Link(edits[0].marker) + (" " + Linked(edits[1..], last)))
  }

  function Lead(edits: seq<Edit>, last: string): string
    requires AllOk(edits)
  {
    if edits == [] then last else edits[0].rest[..edits[0].start]
  }

  function Pieces(edits: seq<Edit>, last: string): seq<string>
    requires AllOk(edits)
  {
    if edits == [] then [] else [" " + Lead(edits[1..], last)] + Pieces(edits[1..], last)
  }

  lemma PiecesOf(edits: seq<Edit>, last: string)
    requires AllOk(edits) && edits != []
    ensures MarkersOf(edits)[0] == edits[0].marker && MarkersOf(edits)[1..] == MarkersOf(edits[1..])
    ensures Pieces(edits, last)[0] == " " + Lead(edits[1..], last)
      && Pieces(edits, last)[1..] == Pieces(edits[1..], last)
  {
  }

  lemma {:induction false} OnePiecePerMarker(edits: seq<Edit>, last: string)
    requires AllOk(edits)
    ensures |Pieces(edits, last)| == |edits| == |MarkersOf(edits)|
  {
    if edits != [] { OnePiecePerMarker(edits[1..], last); }
  }

  lemma LeadIsClean(edits: seq<Edit>, last: string)
    requires AllOk(edits) && NoSentinel(last)
    ensures NoSentinel(Lead(edits, last)) && NoSentinel(" " + Lead(edits, last))
  {
  }

  lemma {:induction false} ComposeIsWellMarked(edits: seq<Edit>, last: string)
    requires AllOk(edits) && NoSentinel(last) && OneWordNames(MarkersOf(edits))
    ensures WellMarked(Pieces(edits, last), MarkersOf(edits))
  {
    OnePiecePerMarker(edits, last);
    if edits != [] {
      PiecesOf(edits, last);
      LeadIsClean(edits[1..], last);
      CleanHasNoRun(" " + Lead(edits[1..], last));
      ComposeIsWellMarked(edits[1..], last);
    }
  }

  /** One insertion: everything up to the cursor is what was there, the run and a space. */
  lemma InsertionFront(done: string, e: Edit)
    requires EditOk(e)
    ensures var (t, cursor) := InsertMention(done + e.rest, |done| + e.start, e.queryLength, e.marker);
      cursor <= |t| && t[..cursor] == (done + e.rest[..e.start]) + (Run(e.marker) + " ")
  {
    assert (done + e.rest)[..|done| + e.start] == done + e.rest[..e.start];
  }

  lemma Regroup(done: string, a: string, run: string, next: string, tail: string)
    ensures ((done + a) + (run + " ")) + (next + tail) == done + (a + (run + ((" " + next) + tail)))
  {
  }

  lemma {:induction false} ComposeIsMarked(done: string, edits: seq<Edit>, last: string)
    requires AllOk(edits)
    ensures |Pieces(edits, last)| == |MarkersOf(edits)|
    ensures Compose(done, edits, last) == done + (Lead(edits, last) + MarkedTail(Pieces(edits, last), MarkersOf(edits)))
    decreases |edits|
  {
    OnePiecePerMarker(edits, last);
    if edits == [] {
      assert last + "" == last;
    } else {
      var e := edits[0];
      var (t, cursor) := InsertMention(done + e.rest, |done| + e.start, e.queryLength, e.marker);
      InsertionFront(done, e);
      PiecesOf(edits, last);
      ComposeIsMarked(t[..cursor], edits[1..], last);
      Regroup(done, e.rest[..e.start], Run(e.marker), Lead(edits[1..], last),
              MarkedTail(Pieces(edits[1..], last), MarkersOf(edits[1..])));
    }
  }

  lemma CleanHasNoRun(s: string)
    requires NoSentinel(s)
    ensures !HasRun(s)
  {
  }

  lemma {:induction false} LinkedIsReplacement(edits: seq<Edit>, last: string)
    requires AllOk(edits) && NoSentinel(last)
    ensures |Pieces(edits, last)| == |MarkersOf(edits)|
    ensures Linked(edits, last) == Lead(edits, last) + LinkedTail(Pieces(edits, last), MarkersOf(edits))
  {
    OnePiecePerMarker(edits, last);
    if edits == [] {
      assert last + "" == last;
    } else {
      PiecesOf(edits, last);
      LinkedIsReplacement(edits[1..], last);
      LeadIsClean(edits[1..], last);
      StripClean(" " + Lead(edits[1..], last));
      Assoc(" ", Lead(edits[1..], last), LinkedTail(Pieces(edits[1..], last), MarkersOf(edits[1..])));
    }
  }

  lemma ReadsBack(edits: seq<Edit>, last: string)
    requires AllOk(edits) && NoSentinel(last) && OneWordNames(MarkersOf(edits))
    ensures Serialize(Compose("", edits, last), MarkersOf(edits)) == Linked(edits, last)
  {
    var text := Compose("", edits, last);
    var lead := Lead(edits, last);
    ComposeIsMarked("", edits, last);
    ComposeIsWellMarked(edits, last);
    LeadIsClean(edits, last);
    LinkedIsReplacement(edits, last);
    CleanHasNoRun(lead);
    StripClean(lead);
    var tail := MarkedTail(Pieces(edits, last), MarkersOf(edits));
    assert "" + (lead + tail) == lead + tail;
    assert Marks(text, MarkersOf(edits), lead, Pieces(edits, last));
    SerializeExactly(text, MarkersOf(edits));
  }

  lemma {:induction false} WellMarkedNames(pieces: seq<string>, ms: seq<Marker>)
    requires WellMarked(pieces, ms)
    ensures OneWordNames(ms)
  {
    if ms != [] {
      WellMarkedNames(pieces[1..], ms[1..]);
      forall i | 0 < i < |ms| ensures NoSpace(ms[i].name) { assert ms[i] == ms[1..][i - 1]; }
    }
  }

  /** One name with whitespace in it, and no mention of the text becomes a link. */
  lemma SpacedNameNeverLinks(text: string, ms: seq<Marker>)
    requires !OneWordNames(ms)
    ensures Serialize(text, ms) == Strip(text)
  {
    forall lead, pieces ensures !Marks(text, ms, lead, pieces) {
      if Marks(text, ms, lead, pieces) { WellMarkedNames(pieces, ms); }
    }
    SerializeExactly(text, ms);
  }

  /** A link is longer than the run it replaces. */
  lemma {:induction false} LinksAreLonger(pieces: seq<string>, ms: seq<Marker>)
    requires |pieces| == |ms|
    ensures |Strip(MarkedTail(pieces, ms))| + |ms| <= |LinkedTail(pieces, ms)|
  {
    if ms != [] {
      var rest := MarkedTail(pieces[1..], ms[1..]);
      LinksAreLonger(pieces[1..], ms[1..]);
      StripConcat(Run(ms[0]), pieces[0] + rest);
      StripConcat(pieces[0], rest);
      StripShrinks(Run(ms[0]));
      assert |Link(ms[0])| > |Run(ms[0])|;
    }
  }

  lemma {:induction false} StripShrinks(s: string)
    ensures |Strip(s)| <= |s|
  {
    if s != "" { StripShrinks(s[1..]); }
  }

  /** Text written by inserting mentions from left to right reads back as the same text with every inserted
      mention replaced, in order, by its link, exactly when every inserted name is a single word. */
  lemma RoundTripExactly(edits: seq<Edit>, last: string)
    requires AllOk(edits) && NoSentinel(last)
    ensures Serialize(Compose("", edits, last), MarkersOf(edits)) == Linked(edits, last) <==>
      OneWordNames(MarkersOf(edits))
  {
    var ms, text := MarkersOf(edits), Compose("", edits, last);
    if OneWordNames(ms) {
      ReadsBack(edits, last);
    } else {
      SpacedNameNeverLinks(text, ms);
      ComposeIsMarked("", edits, last);
      LinkedIsReplacement(edits, last);
      var lead, tail := Lead(edits, last), MarkedTail(Pieces(edits, last), ms);
      assert text == lead + tail;
      StripConcat(lead, tail);
      LeadIsClean(edits, last);
      StripClean(lead);
      LinksAreLonger(Pieces(edits, last), ms);
    }
  }

  /** Markers are kept in the order of insertion, not of the text. When the second mention is put in front of the
      first, the text falls back to plain words, unless both have the same name: then each gets the other's link. */
  lemma InsertedInFront(lead: string, middle: string, last: string, first: Marker, second: Marker)
    requires NoSentinel(lead) && NoSentinel(middle) && NoSentinel(last)
    requires NoSpace(first.name) && NoSpace(second.name)
    requires middle != "" && IsSpace(middle[0]) && (last != "" ==> IsSpace(last[0]))
    ensures var text := lead + (Run(second) + (middle + (Run(first) + last)));
      Serialize(text, [first, second]) ==
        if first.name == second.name then lead + (Link(first) + (middle + (Link(second) + last))) else Strip(text)
  {
    var text := lead + (Run(second) + (middle + (Run(first) + last)));
    var ms := [first, second];
    assert text[|lead|] == SENTINEL;
    assert text[0..] == text;
    if first.name == second.name {
      CleanHasNoRun(lead);
      TwoMarks(text, lead, middle, last, first, second);
      SerializeExactly(text, ms);
      StripClean(lead);
      StripClean(middle);
      StripClean(last);
      TwoLinks(middle, last, ms);
    } else {
      RunStep(text, 0, ms, 0, lead, second, middle + (Run(first) + last));
      assert text[|lead|] in text;
    }
  }

  lemma TwoLinks(middle: string, last: string, ms: seq<Marker>)
    requires |ms| == 2
    ensures LinkedTail([middle, last], ms) == Link(ms[0]) + (Strip(middle) + (Link(ms[1]) + Strip(last)))
  {
    assert [middle, last][1..] == [last] && ms[1..] == [ms[1]];
    assert [last][1..] == [] && [ms[1]][1..] == [];
    assert LinkedTail([last], [ms[1]]) == Link(ms[1]) + (Strip(last) + "");
    assert Strip(last) + "" == Strip(last);
  }

  lemma TwoMarks(text: string, lead: string, middle: string, last: string, first: Marker, second: Marker)
    requires first.name == second.name && !HasRun(lead) && NoSentinel(middle) && NoSentinel(last) && NoSpace(first.name)
    requires middle != "" && IsSpace(middle[0]) && (last != "" ==> IsSpace(last[0]))
    requires text == lead + (Run(second) + (middle + (Run(first) + last)))
    ensures Marks(text, [first, second], lead, [middle, last])
  {
    var ms, pieces := [first, second], [middle, last];
    CleanHasNoRun(middle);
    CleanHasNoRun(last);
    assert ms[1..] == [second] && pieces[1..] == [last];
    assert [second][1..] == [] && [last][1..] == [];
    assert MarkedTail([last], [second]) == Run(second) + (last + "");
    assert last + "" == last && Run(first) == Run(second);
    assert WellMarked([last], [second]);
  }
}
