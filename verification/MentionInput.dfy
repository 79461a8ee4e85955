/** The mobile mention input: text, selection, markers and the mention being typed. */
module MentionInput {
  import opened IssueModel
  import opened Mentions

  datatype Selection = Selection(start: nat, end: nat)

  datatype Snapshot = Snapshot(text: string, markers: seq<Marker>, selection: Selection)

  /** The front of a string up to an offset that may lie beyond it. */
  function Front(s: string, n: nat): string { if n < |s| then s[..n] else s }

  function Back(s: string, n: nat): string { if n < |s| then s[n..] else "" }

  /** `m` is the mention being typed at the cursor. */
  ghost predicate TypedAt(text: string, cursor: int, m: Option<Token>)
  {
    if m.Some? then TokenStart(text, cursor, m.value.start) && m.value.query == text[m.value.start + 1..cursor]
    else forall start :: !TokenStart(text, cursor, start)
  }

  class MentionInput {
    var text: string
    var selection: Selection
    var markers: seq<Marker>
    var mentioning: Option<Token>

    /** An open suggestion bar always stands for the token at the cursor. */
    ghost predicate Valid()
      reads this
    {
      mentioning.Some? ==> TypedAt(text, selection.end, mentioning)
    }

    constructor ()
      ensures Valid() && text == "" && selection == Selection(0, 0) && markers == [] && mentioning == None
    {
      text, selection, markers, mentioning := "", Selection(0, 0), [], None;
    }

    method OnChangeText(next: string)
      modifies this
      ensures Valid() && text == next && selection == old(selection) && markers == old(markers)
      ensures TypedAt(text, selection.end, mentioning)
    {
      text := next;
      mentioning := TokenAtCursor(next, selection.end);
    }

    method OnSelectionChange(sel: Selection)
      modifies this
      ensures Valid() && text == old(text) && selection == sel && markers == old(markers)
      ensures TypedAt(text, selection.end, mentioning)
    {
      selection := sel;
      mentioning := TokenAtCursor(text, sel.end);
    }

    /** Puts an `@` in place of the selection, after a space if it would not start a word, and always opens the
        suggestions with an empty query. */
    method OnAtButtonPress()
      modifies this
      ensures Valid() && markers == old(markers)
      ensures var before := Front(old(text), old(selection.start));
        && Pad(before) == (if before == "" || IsSpace(before[|before| - 1]) then "" else " ")
        && text == before + Pad(before) + "@" + Back(old(text), old(selection.end))
        && selection == Selection(|before + Pad(before)| + 1, |before + Pad(before)| + 1)
        && mentioning == Some(Token(|before + Pad(before)|, ""))
    {
      var before := Front(text, selection.start);
      var after := Back(text, selection.end);
      var inserted := Pad(before) + "@";
      var next := before + inserted + after;
      var cursor := |before| + |inserted|;
      text := next;
      selection := Selection(cursor, cursor);
      mentioning := TokenAtCursor(next, cursor);
      ghost var padded := before + Pad(before);
      assert next == padded + "@" + after;
      AtIsToken(padded, after);
      if mentioning.Some? { OneTokenStart(next, cursor, mentioning.value.start, |padded|); }
    }

    /** Replaces what was typed of the mention by its run and records the marker; nothing else changes. */
    method OnSelectMention(mention: Marker)
      requires Valid()
      modifies this
      ensures Valid()
      ensures old(mentioning).None? ==>
        text == old(text) && selection == old(selection) && markers == old(markers) && mentioning == None
      ensures old(mentioning).Some? ==>
        var start, cursor := old(mentioning).value.start, old(selection.end);
        && start < cursor <= |old(text)|
        && text == old(text)[..start] + (Run(mention) + " ") + old(text)[cursor..]
        && selection == Selection(start + |mention.name| + 3, start + |mention.name| + 3)
        && markers == old(markers) + [mention] && mentioning == None
    {
      if mentioning.None? { return; }
      var start := mentioning.value.start;
      var (newText, cursor) := InsertMention(text, start, |mentioning.value.query|, mention);
      text := newText;
      selection := Selection(cursor, cursor);
      markers := markers + [mention];
      mentioning := None;
    }

    method InsertAtCursor(insert: string, cursorOffsetFromEnd: nat)
      requires cursorOffsetFromEnd <= |insert|
      modifies this
      ensures Valid() && markers == old(markers) && mentioning == None
      ensures var before := Front(old(text), old(selection.start));
        && text == before + insert + Back(old(text), old(selection.end))
        && selection.start == selection.end && before <= Front(text, selection.end) <= before + insert
        && |before + insert| - selection.end == cursorOffsetFromEnd
    {
      var before := Front(text, selection.start);
      var next := before + insert + Back(text, selection.end);
      var cursor := |before| + |insert| - cursorOffsetFromEnd;
      text := next;
      selection := Selection(cursor, cursor);
      mentioning := None;
    }

    /** Puts the prefix at the start of the line the selection begins in. */
    method InsertAtLineStart(prefix: string)
      modifies this
      ensures Valid() && markers == old(markers) && mentioning == None
      ensures var at := LineStart(Front(old(text), old(selection.start)));
        text == old(text)[..at] + prefix + old(text)[at..]
      ensures selection == Selection(old(selection.end) + |prefix|, old(selection.end) + |prefix|)
    {
      var at := LineStart(Front(text, selection.start));
      var cursor := selection.end + |prefix|;
      text := text[..at] + prefix + text[at..];
      selection := Selection(cursor, cursor);
      mentioning := None;
    }

    method TakeSnapshot() returns (snap: Snapshot)
      ensures snap == Snapshot(text, markers, selection)
    {
      snap := Snapshot(text, markers, selection);
    }

    method Restore(snap: Snapshot)
      modifies this
      ensures Valid() && Snapshot(text, markers, selection) == snap && mentioning == None
    {
      text, selection, markers, mentioning := snap.text, snap.selection, snap.markers, None;
    }

    method Reset()
      modifies this
      ensures Valid() && text == "" && selection == Selection(0, 0) && markers == [] && mentioning == None
    {
      text, selection, markers, mentioning := "", Selection(0, 0), [], None;
    }
  }

  /** An optimistic submit that fails: the composer is emptied, and then everything the user had is back, so that it
      serializes to the same comment. */
  method SubmitThenFail(input: MentionInput)
    modifies input
    ensures input.Valid() && input.text == old(input.text) && input.markers == old(input.markers)
    ensures input.selection == old(input.selection) && input.mentioning == None
    ensures Serialize(input.text, input.markers) == old(Serialize(input.text, input.markers))
  {
    var snap := input.TakeSnapshot();
    input.Reset();
    input.Restore(snap);
  }

  function Pad(before: string): string
  {
    if before != "" && !IsSpace(before[|before| - 1]) then " " else ""
  }

  /** Where the last line of `s` starts. */
  function LineStart(s: string): (at: nat)
    ensures at <= |s| && (at > 0 ==> s[at - 1] == '\n')
    ensures forall i :: at <= i < |s| ==> s[i] != '\n'
  {
    if s == "" || s[|s| - 1] == '\n' then |s| else LineStart(s[..|s| - 1])
  }

  lemma AtIsToken(padded: string, after: string)
    requires padded == "" || IsSpace(padded[|padded| - 1])
    ensures TokenStart(padded + "@" + after, |padded| + 1, |padded|)
  {
    var next := padded + "@" + after;
    assert padded != "" ==> next[|padded| - 1] == padded[|padded| - 1];
  }

  predicate NoNewline(s: string) { '\n' !in s }

  lemma {:induction false} LineStartBeforePlain(x: string, line: string)
    requires NoNewline(line)
    ensures LineStart(x + line) == LineStart(x)
  {
    if line == "" {
      assert x + line == x;
    } else {
      assert line[|line| - 1] in line;
      assert (x + line)[..|x + line| - 1] == x + line[..|line| - 1];
      LineStartBeforePlain(x, line[..|line| - 1]);
    }
  }

  lemma Spliced(text: string, at: nat, caret: nat, prefix: string)
    requires at <= caret <= |text|
    ensures var next := text[..at] + prefix + text[at..];
      && |next| == |text| + |prefix|
      && next[..caret + |prefix|] == text[..at] + (prefix + text[at..caret])
      && next[caret + |prefix|..] == text[caret..]
  {
    var next := text[..at] + prefix + text[at..];
    var moved := caret + |prefix|;
    assert |next| == |text| + |prefix|;
    forall i | 0 <= i < |text| - caret ensures next[moved..][i] == text[caret..][i] {
      assert next[moved + i] == text[at..][caret + i - at];
    }
  }

  function AddChar(x: seq<string>, c: char): (r: seq<string>)
    requires x != []
    ensures r != []
  {
    if c == '\n' then x + [""] else x[..|x| - 1] + [x[|x| - 1] + [c]]
  }

  /** The lines of a text, split at newlines. */
  function Lines(s: string): (r: seq<string>)
    ensures r != []
  {
    if s == "" then [""] else AddChar(Lines(s[..|s| - 1]), s[|s| - 1])
  }

  /** The lines of two texts put together: the last of the one meets the first of the other. */
  function JoinLines(x: seq<string>, y: seq<string>): seq<string>
    requires x != [] && y != []
  {
    x[..|x| - 1] + [x[|x| - 1] + y[0]] + y[1..]
  }

  lemma {:induction false} LinesJoin(a: string, b: string)
    ensures Lines(a + b) == JoinLines(Lines(a), Lines(b))
  {
    hide AddChar, JoinLines;
    if b == "" {
      assert a + b == a;
      JoinNothing(Lines(a));
    } else {
      var init, c := b[..|b| - 1], b[|b| - 1];
      LinesJoin(a, init);
      assert (a + b)[..|a + b| - 1] == a + init;
      JoinGrows(Lines(a), Lines(init), c);
    }
  }

  lemma JoinNothing(x: seq<string>)
    requires x != []
    ensures JoinLines(x, [""]) == x
  {
    assert x[|x| - 1] + "" == x[|x| - 1];
  }

  lemma JoinGrows(x: seq<string>, y: seq<string>, c: char)
    requires x != [] && y != []
    ensures AddChar(JoinLines(x, y), c) == JoinLines(x, AddChar(y, c))
  {
    var n := |y| - 1;
    if c == '\n' {
      assert (y + [""])[1..] == y[1..] + [""];
    } else if n == 0 {
      assert x[|x| - 1] + (y[0] + [c]) == (x[|x| - 1] + y[0]) + [c];
    } else {
      assert AddChar(y, c)[1..] == y[1..n] + [y[n] + [c]];
      assert JoinLines(x, y)[|JoinLines(x, y)| - 1] == y[n];
    }
  }

  lemma LongerLine(line: string, c: char)
    requires c != '\n'
    ensures AddChar([line], c) == [line + [c]]
  {
    assert [line][..0] == [];
  }

  lemma {:induction false} PlainIsOneLine(s: string)
    requires NoNewline(s)
    ensures Lines(s) == [s]
  {
    if s != "" {
      var init, c := s[..|s| - 1], s[|s| - 1];
      assert c in s && s == init + [c];
      PlainIsOneLine(init);
      LongerLine(init, c);
    }
  }

  lemma {:induction false} LineStartsEmpty(s: string)
    requires s == "" || s[|s| - 1] == '\n'
    ensures Lines(s)[|Lines(s)| - 1] == ""
  {
  }

  lemma LinesOfSplice(front: string, prefix: string, back: string)
    requires (front == "" || front[|front| - 1] == '\n') && NoNewline(prefix)
    ensures var plain, n := Lines(front + back), |Lines(front)| - 1;
      n < |plain| && Lines(front + (prefix + back)) == plain[n := prefix + plain[n]]
  {
    hide Lines;
    LineStartsEmpty(front);
    LinesJoin(front, back);
    LinesJoin(front, prefix + back);
    LinesJoin(prefix, back);
    PlainIsOneLine(prefix);
    PrefixedLines(Lines(front), Lines(back), prefix);
  }

  /** A prefix without a newline goes to the front of the caret's line; every other line stays as it is. */
  lemma OneLineGetsPrefix(text: string, caret: nat, prefix: string)
    requires caret <= |text| && NoNewline(prefix)
    ensures var at := LineStart(text[..caret]);
      var n := |Lines(text[..at])| - 1;
      && n < |Lines(text)|
      && Lines(text[..at] + prefix + text[at..]) == Lines(text)[n := prefix + Lines(text)[n]]
  {
    hide Lines;
    var at := LineStart(text[..caret]);
    var front, back := text[..at], text[at..];
    if at > 0 { assert front[at - 1] == text[..caret][at - 1]; }
    LinesOfSplice(front, prefix, back);
    assert front + back == text && front + prefix + back == front + (prefix + back);
  }

  lemma PrefixedLines(x: seq<string>, y: seq<string>, prefix: string)
    requires x != [] && y != [] && x[|x| - 1] == ""
    ensures var plain, n := JoinLines(x, y), |x| - 1;
      JoinLines(x, JoinLines([prefix], y)) == plain[n := prefix + plain[n]]
  {
    assert "" + y[0] == y[0] && "" + (prefix + y[0]) == prefix + y[0];
  }

  /** Shifted by the prefix, the caret stands before the same text, in the line the prefix opened. */
  lemma CaretKeepsItsPlace(text: string, caret: nat, prefix: string)
    requires caret <= |text| && NoNewline(prefix)
    ensures var at := LineStart(text[..caret]);
      var next := text[..at] + prefix + text[at..];
      next[caret + |prefix|..] == text[caret..] && LineStart(next[..caret + |prefix|]) == at
  {
    var front := text[..caret];
    var at := LineStart(front);
    Spliced(text, at, caret, prefix);
    var line := text[at..caret];
    forall i | 0 <= i < |line| ensures line[i] != '\n' { assert line[i] == front[at + i]; }
    LineStartBeforePlain(text[..at], prefix + line);
    if at > 0 { assert text[..at][at - 1] == front[at - 1]; }
  }
}
