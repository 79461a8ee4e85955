/** The mobile mention format: sentinel-marked runs in the text, an ordered marker list beside it. */
module Mentions {
  import opened IssueModel

  const SENTINEL: char := '\U{2063}'

  datatype MentionType = MemberMention | AgentMention | SquadMention | AllMention | EpicMention | IssueMention

  datatype Marker = Marker(kind: MentionType, id: string, name: string)

  predicate IsSpace(c: char)
  {
    c == ' ' || '\t' <= c <= '\r' || c == '\U{00A0}' || c == '\U{1680}' || '\U{2000}' <= c <= '\U{200A}' ||
    c == '\U{2028}' || c == '\U{2029}' || c == '\U{202F}' || c == '\U{205F}' || c == '\U{3000}' || c == '\U{FEFF}'
  }

  predicate NoSpace(s: string) { forall i :: 0 <= i < |s| ==> !IsSpace(s[i]) }

  predicate NoSentinel(s: string) { SENTINEL !in s }

  // ----- the token under the cursor

  datatype Token = Token(start: nat, query: string)

  /** `start` is an `@` at a word boundary with nothing but query characters between it and the cursor. */
  predicate TokenStart(text: string, cursor: int, start: int)
  {
    && 0 <= start < cursor <= |text| && text[start] == '@'
    && (start > 0 ==> IsSpace(text[start - 1]))
    && forall i :: start < i < cursor ==> text[i] != '@' && !IsSpace(text[i])
  }

  lemma OneTokenStart(text: string, cursor: int, a: int, b: int)
    requires TokenStart(text, cursor, a) && TokenStart(text, cursor, b)
    ensures a == b
  {
  }

  method TokenAtCursor(text: string, cursor: int) returns (r: Option<Token>)
    ensures r.Some? ==> TokenStart(text, cursor, r.value.start) && r.value.query == text[r.value.start + 1..cursor]
    ensures r.None? ==> forall start :: !TokenStart(text, cursor, start)
  {
    if cursor < 1 || cursor > |text| { return None; }
    var i := cursor - 1;
    while i >= 0 && text[i] != '@'
      invariant -1 <= i < cursor
      invariant forall j :: i < j < cursor ==> text[j] != '@' && !IsSpace(text[j])
    {
      if IsSpace(text[i]) { return None; }
      i := i - 1;
    }
    if i < 0 { return None; }
    if i > 0 && text[i - 1] == SENTINEL { return None; }
    if i > 0 && !IsSpace(text[i - 1]) { return None; }
    return Some(Token(i, text[i + 1..cursor]));
  }

  // ----- the writer

  function Run(m: Marker): string { [SENTINEL, '@'] + m.name }

  function InsertMention(text: string, start: nat, queryLength: nat, m: Marker): (string, nat)
    requires start + 1 + queryLength <= |text|
  {
    var before := text[..start];
    var insert := Run(m) + " ";
    (before + insert + text[start + 1 + queryLength..], |before| + |insert|)
  }

  // ----- the reader

  function TypeName(k: MentionType): string
  {
    match k
    case MemberMention => "member" case AgentMention => "agent" case SquadMention => "squad"
    case AllMention => "all" case EpicMention => "epic" case IssueMention => "issue"
  }

  function Link(m: Marker): string
  {
    var text := if m.kind.IssueMention? || m.kind.EpicMention? then m.name else "@" + m.name;
    "[" + text + "](mention://" + TypeName(m.kind) + "/" + m.id + ")"
  }

  /** Index of the first sentinel from `from` on, or the length. */
  function NextSentinel(text: string, from: nat): (i: nat)
    requires from <= |text|
    ensures from <= i <= |text|
    ensures i < |text| ==> text[i] == SENTINEL
    ensures forall j :: from <= j < i ==> text[j] != SENTINEL
    decreases |text| - from
  {
    if from == |text| || text[from] == SENTINEL then from else NextSentinel(text, from + 1)
  }

  /** End of the word that starts at `from`: the next whitespace or the end of the text. */
  function WordEnd(text: string, from: nat): (i: nat)
    requires from <= |text|
    ensures from <= i <= |text|
    ensures i < |text| ==> IsSpace(text[i])
    ensures forall j :: from <= j < i ==> !IsSpace(text[j])
    decreases |text| - from
  {
    if from == |text| || IsSpace(text[from]) then from else WordEnd(text, from + 1)
  }

  function Strip(text: string): string
  {
    if text == "" then "" else (if text[0] == SENTINEL then "" else [text[0]]) + Strip(text[1..])
  }

  function Prepend(s: string, r: Option<string>): Option<string>
  {
    if r.None? then None else Some(s + r.value)
  }

  /** The walk from `cursor` with the markers from `k` on: every marked run against the next marker, stray
      sentinels dropped; no value when a run and its marker disagree or the counts differ. */
  function Scan(text: string, cursor: nat, ms: seq<Marker>, k: nat): Option<string>
    requires cursor <= |text| && k <= |ms|
    decreases |text| - cursor
  {
    var at := NextSentinel(text, cursor);
    if at == |text| then (if k == |ms| then Some(text[cursor..]) else None)
    else if at + 1 == |text| || text[at + 1] != '@' then Prepend(text[cursor..at], Scan(text, at + 1, ms, k))
    else
      var w := WordEnd(text, at + 2);
      if k == |ms| || ms[k].name != text[at + 2..w] then None
      else Prepend(text[cursor..at] + Link(ms[k]), Scan(text, w, ms, k + 1))
  }

  function Serialize(text: string, ms: seq<Marker>): string
  {
    if NoSentinel(text) then text else
      var r := Scan(text, 0, ms, 0);
      if r.None? then Strip(text) else r.value
  }

  method SerializeMentions(text: string, markers: seq<Marker>) returns (r: string)
    ensures r == Serialize(text, markers)
  {
    if SENTINEL !in text { return text; }
    var out := "";
    var cursor, markerIndex, abort := 0, 0, false;
    ghost var total := Scan(text, 0, markers, 0);
    PrependNothing(total);
    while cursor < |text| && !abort
      invariant 0 <= cursor <= |text| && 0 <= markerIndex <= |markers|
      invariant abort ==> total.None?
      invariant !abort ==> total == Prepend(out, Scan(text, cursor, markers, markerIndex))
      decreases |text| - cursor, !abort
    {
      out, cursor, markerIndex, abort := TakeOne(text, markers, out, cursor, markerIndex);
    }
    if abort || markerIndex != |markers| { return Strip(text); }
    assert out + "" == out;
    return out;
  }

  /** One turn of the walk: the rest of the text, up to a stray sentinel, or through a marked run. */
  method TakeOne(text: string, markers: seq<Marker>, out: string, cursor: nat, markerIndex: nat)
    returns (out': string, cursor': nat, markerIndex': nat, abort: bool)
    requires cursor < |text| && markerIndex <= |markers|
    ensures abort ==> Scan(text, cursor, markers, markerIndex).None? && cursor' == cursor && markerIndex' == markerIndex
    ensures !abort ==> cursor < cursor' <= |text| && markerIndex' <= |markers|
    ensures !abort ==>
      Prepend(out, Scan(text, cursor, markers, markerIndex)) ==
        Prepend(out', Scan(text, cursor', markers, markerIndex'))
  {
    hide Scan, Prepend, IsSpace;
    out', cursor', markerIndex', abort := out, cursor, markerIndex, false;
    var sentinelAt := NextSentinel(text, cursor);
    if sentinelAt == |text| {
      ScanTail(text, cursor, markers, markerIndex, out);
      out', cursor' := out + text[cursor..], |text|;
    } else if sentinelAt + 1 == |text| || text[sentinelAt + 1] != '@' {
      ScanStray(text, cursor, markers, markerIndex, out);
      out', cursor' := out + text[cursor..sentinelAt], sentinelAt + 1;
    } else {
      var wordEnd := WordEnd(text, sentinelAt + 2);
      ScanRun(text, cursor, markers, markerIndex, out);
      if markerIndex == |markers| || markers[markerIndex].name != text[sentinelAt + 2..wordEnd] {
        abort := true;
      } else {
        out' := out + (text[cursor..sentinelAt] + Link(markers[markerIndex]));
        markerIndex', cursor' := markerIndex + 1, wordEnd;
      }
    }
  }

  lemma ScanTail(text: string, cursor: nat, ms: seq<Marker>, k: nat, out: string)
    requires cursor <= |text| && k <= |ms| && NextSentinel(text, cursor) == |text|
    ensures Prepend(out, Scan(text, cursor, ms, k)) == Prepend(out + text[cursor..], Scan(text, |text|, ms, k))
  {
    assert text[cursor..] + text[|text|..] == text[cursor..];
    PrependTwice(out, text[cursor..], Scan(text, |text|, ms, k));
  }

  lemma ScanStray(text: string, cursor: nat, ms: seq<Marker>, k: nat, out: string)
    requires cursor <= |text| && k <= |ms|
    requires var at := NextSentinel(text, cursor); at < |text| && (at + 1 == |text| || text[at + 1] != '@')
    ensures var at := NextSentinel(text, cursor);
      Prepend(out, Scan(text, cursor, ms, k)) == Prepend(out + text[cursor..at], Scan(text, at + 1, ms, k))
  {
    var at := NextSentinel(text, cursor);
    PrependTwice(out, text[cursor..at], Scan(text, at + 1, ms, k));
  }

  lemma ScanRun(text: string, cursor: nat, ms: seq<Marker>, k: nat, out: string)
    requires cursor <= |text| && k <= |ms|
    requires var at := NextSentinel(text, cursor); at + 1 < |text| && text[at + 1] == '@'
    ensures var at := NextSentinel(text, cursor);
      var w := WordEnd(text, at + 2);
      if k == |ms| || ms[k].name != text[at + 2..w] then Scan(text, cursor, ms, k).None?
      else
        var read := text[cursor..at] + Link(ms[k]);
        Prepend(out, Scan(text, cursor, ms, k)) == Prepend(out + read, Scan(text, w, ms, k + 1))
  {
    hide NextSentinel, WordEnd, IsSpace, Prepend;
    var at := NextSentinel(text, cursor);
    var w := WordEnd(text, at + 2);
    if k < |ms| && ms[k].name == text[at + 2..w] {
      PrependTwice(out, text[cursor..at] + Link(ms[k]), Scan(text, w, ms, k + 1));
    }
  }

  lemma PrependNothing(r: Option<string>)
    ensures Prepend("", r) == r
  {
    if r.Some? { assert "" + r.value == r.value; }
  }

  lemma PrependTwice(a: string, b: string, r: Option<string>)
    ensures Prepend(a, Prepend(b, r)) == Prepend(a + b, r)
  {
    if r.Some? { assert a + (b + r.value) == a + b + r.value; }
  }

  // ----- reading a link back

  function KindNamed(s: string): Option<MentionType>
  {
    if s == "member" then Some(MemberMention) else if s == "agent" then Some(AgentMention)
    else if s == "squad" then Some(SquadMention) else if s == "all" then Some(AllMention)
    else if s == "epic" then Some(EpicMention) else if s == "issue" then Some(IssueMention) else None
  }

  /** Where `c` stands first from `from` on, or the length. */
  function Find(s: string, c: char, from: nat): (i: nat)
    requires from <= |s|
    ensures from <= i <= |s| && (i < |s| ==> s[i] == c) && forall j :: from <= j < i ==> s[j] != c
    decreases |s| - from
  {
    if from == |s| || s[from] == c then from else Find(s, c, from + 1)
  }

  const ANCHOR := "](mention://"

  predicate AnchorAt(s: string, i: nat) { i + |ANCHOR| <= |s| && s[i..i + |ANCHOR|] == ANCHOR }

  /** Where the target of a link starts, or the length: a label may hold brackets of its own. */
  function Anchor(s: string, from: nat): (i: nat)
    requires from <= |s|
    ensures from <= i <= |s| && (i < |s| ==> AnchorAt(s, i)) && forall j: nat :: from <= j < i ==> !AnchorAt(s, j)
    decreases |s| - from
  {
    if from == |s| || AnchorAt(s, from) then from else Anchor(s, from + 1)
  }

  /** Kind and id behind the label of a mention link. */
  function ReadLink(s: string): Option<(MentionType, string)>
  {
    var close := Anchor(s, 0);
    if close == |s| then None else
      var slash := Find(s, '/', close + |ANCHOR|);
      if slash == |s| || s[|s| - 1] != ')' || slash + 1 > |s| - 1 then None else
        var kind := KindNamed(s[close + |ANCHOR|..slash]);
        if kind.None? then None else Some((kind.value, s[slash + 1..|s| - 1]))
  }

  lemma KindReadsBack(k: MentionType)
    ensures KindNamed(TypeName(k)) == Some(k) && '/' !in TypeName(k)
  {
  }

  lemma FindIs(s: string, c: char, from: nat, i: nat)
    requires from <= i < |s| && s[i] == c && forall j :: from <= j < i ==> s[j] != c
    ensures Find(s, c, from) == i
  {
  }

  /** What a mention shows: its bare name for epics and issues, and with an at sign for everybody else. */
  function ShownAs(m: Marker): string { if m.kind.EpicMention? || m.kind.IssueMention? then m.name else "@" + m.name }

  lemma AnchorAtMeans(s: string, j: nat)
    requires AnchorAt(s, j)
    ensures s[j] == ']' && forall i :: j < i < j + |ANCHOR| ==> s[i] != ']'
  {
    var a := s[j..j + |ANCHOR|];
    assert forall i :: j <= i < j + |ANCHOR| ==> s[i] == a[i - j];
  }

  /** The bracket that starts a target does not stand inside the start of another one. */
  lemma AnchorBefore(front: string, rest: string, j: nat)
    requires j < |front| && AnchorAt(front + ANCHOR + rest, j)
    ensures AnchorAt(front, j)
  {
    var s := front + ANCHOR + rest;
    AnchorAtMeans(s, j);
    assert s[|front|] == ANCHOR[0];
    assert s[j..j + |ANCHOR|] == front[j..j + |ANCHOR|];
  }

  lemma AnchorInName(lead: string, name: string, j: nat)
    requires ']' !in lead && AnchorAt(lead + name, j)
    ensures j >= |lead| && AnchorAt(name, j - |lead|)
  {
    var s := lead + name;
    assert forall i :: 0 <= i < |lead| ==> s[i] == lead[i] && s[i] != ']';
    AnchorAtMeans(s, j);
    assert s[j..j + |ANCHOR|] == name[j - |lead|..j - |lead| + |ANCHOR|];
  }

  lemma FirstAnchor(lead: string, name: string, rest: string)
    requires ']' !in lead && forall j: nat :: j < |name| ==> !AnchorAt(name, j)
    ensures Anchor(lead + name + ANCHOR + rest, 0) == |lead + name|
  {
    var s, front := lead + name + ANCHOR + rest, lead + name;
    assert AnchorAt(s, |front|) by { assert s[|front|..|front| + |ANCHOR|] == ANCHOR; }
    hide AnchorAt;
    var i := Anchor(s, 0);
    if i < |front| {
      AnchorBefore(front, rest, i);
      AnchorInName(lead, name, i);
      assert false;
    }
  }

  lemma RestReadsBack(front: string, kind: string, id: string)
    requires '/' !in kind && KindNamed(kind).Some?
    ensures var s := front + ANCHOR + (kind + "/" + id + ")");
      Anchor(s, 0) == |front| ==> ReadLink(s) == Some((KindNamed(kind).value, id))
  {
    hide KindNamed, AnchorAt;
    var s := front + ANCHOR + (kind + "/" + id + ")");
    var from := |front| + |ANCHOR|;
    var slash := from + |kind|;
    assert s[from..slash] == kind;
    assert forall j :: from <= j < slash ==> s[j] == kind[j - from];
    FindIs(s, '/', from, slash);
    assert s[slash + 1..|s| - 1] == id;
  }

  lemma LinkIs(m: Marker)
    ensures Link(m) == "[" + ShownAs(m) + ANCHOR + (TypeName(m.kind) + "/" + m.id + ")")
    ensures exists lead :: ']' !in lead && "[" + ShownAs(m) == lead + m.name
  {
    assert "[" + ("@" + m.name) == "[@" + m.name;
    assert ']' !in "[@" && ']' !in "[";
  }

  /** What a mention is serialized to names its kind and its id, and shows its name, as long as the name does not
      itself hold what separates a label from its target. */
  lemma LinkReadsBack(m: Marker)
    requires forall j: nat :: j < |m.name| ==> !AnchorAt(m.name, j)
    ensures ReadLink(Link(m)) == Some((m.kind, m.id))
    ensures Link(m)[1..Anchor(Link(m), 0)] == ShownAs(m)
  {
    hide ReadLink, Link, Anchor, Find, TypeName, ShownAs, KindNamed, AnchorAt;
    LinkIs(m);
    KindReadsBack(m.kind);
    var lead :| ']' !in lead && "[" + ShownAs(m) == lead + m.name;
    var rest := TypeName(m.kind) + "/" + m.id + ")";
    FirstAnchor(lead, m.name, rest);
    RestReadsBack(lead + m.name, TypeName(m.kind), m.id);
    assert Link(m)[..|lead + m.name|] == "[" + ShownAs(m);
  }

  // ----- the characters

  /** A run is the invisible separator, an at sign and the name. */
  lemma RunIs(m: Marker)
    ensures |Run(m)| == |m.name| + 2 && Run(m)[0] == '\U{2063}' && Run(m)[1] == '@' && Run(m)[2..] == m.name
  {
  }

  /** What the regular expression class for whitespace matches (section 22.2.2.9 of ECMA-262): the five control
      characters, and the characters listed. */
  lemma IsSpaceExactly(c: char)
    ensures IsSpace(c) <==>
      c in {' ', '\t', '\n', '\U{000B}', '\U{000C}', '\r', '\U{00A0}', '\U{1680}', '\U{2000}', '\U{2001}', '\U{2002}',
            '\U{2003}', '\U{2004}', '\U{2005}', '\U{2006}', '\U{2007}', '\U{2008}', '\U{2009}', '\U{200A}',
            '\U{2028}', '\U{2029}', '\U{202F}', '\U{205F}', '\U{3000}', '\U{FEFF}'}
  {
  }
}
