/** The whole-document renderers of internal/cli/color.go: human output, command
    help, and guides. */
module DocumentRenderers {
  import opened Prelude
  import opened TerminalText
  import opened Styling
  import opened Renderers

  // ---------------------------------------------------------------------------
  // Lines
  // ---------------------------------------------------------------------------

  lemma {:induction false} SplitAfterConcat(s: string)
    ensures Concat(SplitAfter(s)) == s
    ensures EscFree(s) ==> forall part :: part in SplitAfter(s) ==> EscFree(part)
  {
    hide *;
    PartsConcat(s);
    if EscFree(s) {
      PartsEscFree(s);
    }
  }

  lemma {:induction false} PartsConcat(s: string)
    ensures Concat(SplitAfter(s)) == s
    decreases |s|
  {
    hide *;
    var k := NewlineAt(s);
    SplitAfterStep(s);
    if k < |s| {
      PartsConcat(s[k + 1..]);
      ConcatStep(s[..k + 1], SplitAfter(s[k + 1..]));
      assert s == s[..k + 1] + s[k + 1..];
    } else {
      ConcatStep(s, []);
      assert [s] + [] == [s] && s + "" == s;
    }
  }

  lemma {:induction false} PartsEscFree(s: string)
    requires EscFree(s)
    ensures forall part :: part in SplitAfter(s) ==> EscFree(part)
    decreases |s|
  {
    hide SplitAfter;
    SplitAfterStep(s);
    var k := NewlineAt(s);
    if k < |s| {
      assert EscFree(s[..k + 1]) && EscFree(s[k + 1..]);
      hide EscFree;
      PartsEscFree(s[k + 1..]);
    }
  }

  lemma {:induction false} SplitAfterStep(s: string)
    ensures var k := NewlineAt(s);
      SplitAfter(s) == if k < |s| then [s[..k + 1]] + SplitAfter(s[k + 1..]) else [s]
  {
  }

  lemma {:induction false} ConcatStep(first: string, rest: seq<string>)
    ensures Concat([first] + rest) == first + Concat(rest) && Concat([]) == ""
  {
    assert ([first] + rest)[1..] == rest;
  }

  lemma {:induction false} SplitJoin(s: string)
    ensures Join(Split(s)) == s
    ensures EscFree(s) ==> forall line :: line in Split(s) ==> EscFree(line)
    decreases |s|
  {
    SplitStep(s);
    hide Split;
    var k := NewlineAt(s);
    if k < |s| {
      SplitJoin(s[k + 1..]);
      JoinStep(s[..k], Split(s[k + 1..]));
      hide Join;
      assert s == s[..k] + "\n" + s[k + 1..];
    } else {
      assert Join([s]) == s;
    }
  }

  /** Every part but the last is a line and its newline, the last a line alone; a
      line has no newline. */
  lemma {:induction false} PartsExactly(s: string)
    ensures var parts := SplitAfter(s); parts != [] && LineOf(parts[|parts| - 1]) == parts[|parts| - 1]
    ensures forall k :: 0 <= k < |SplitAfter(s)| - 1 ==> SplitAfter(s)[k] == LineOf(SplitAfter(s)[k]) + "\n"
    ensures forall k :: 0 <= k < |SplitAfter(s)| ==> '\n' !in LineOf(SplitAfter(s)[k])
    decreases |s|
  {
    hide *;
    var k := NewlineAt(s);
    SplitAfterStep(s);
    if k < |s| {
      PartsExactly(s[k + 1..]);
      LineAndNewline(s, k);
    } else {
      LastLine(s);
    }
  }

  /** Splitting at newlines leaves the lines of those parts. */
  lemma {:induction false} LinesExactly(s: string)
    ensures |Split(s)| == |SplitAfter(s)|
    ensures forall k :: 0 <= k < |Split(s)| ==> Split(s)[k] == LineOf(SplitAfter(s)[k])
    decreases |s|
  {
    hide *;
    var k := NewlineAt(s);
    SplitStep(s);
    SplitAfterStep(s);
    if k < |s| {
      LinesExactly(s[k + 1..]);
      LineAndNewline(s, k);
    } else {
      LastLine(s);
    }
  }

  lemma {:induction false} LineAndNewline(s: string, k: nat)
    requires k == NewlineAt(s) < |s|
    ensures LineOf(s[..k + 1]) == s[..k] && s[..k + 1] == s[..k] + "\n" && '\n' !in s[..k]
  {
  }

  lemma {:induction false} LastLine(s: string)
    requires NewlineAt(s) == |s|
    ensures LineOf(s) == s && '\n' !in s
  {
  }

  lemma {:induction false} SplitStep(s: string)
    ensures var k := NewlineAt(s);
      Split(s) == if k < |s| then [s[..k]] + Split(s[k + 1..]) else [s]
  {
  }

  lemma {:induction false} JoinStep(first: string, rest: seq<string>)
    requires rest != []
    ensures Join([first] + rest) == first + "\n" + Join(rest)
  {
    assert ([first] + rest)[1..] == rest;
  }

  /** A part without its final newline. */
  function LineOf(part: string): string {
    if part != "" && part[|part| - 1] == '\n' then part[..|part| - 1] else part
  }

  function NewlineOf(part: string): (r: string)
    ensures part == LineOf(part) + r
  {
    part[|LineOf(part)|..]
  }

  /** The cells of all parts but the last, then of the last. */
  function Screen(parts: seq<string>, cellsOf: nat -> seq<Cell>): seq<Cell> {
    if parts == [] then []
    else
      var n := |parts| - 1;
      Screen(parts[..n], cellsOf) + cellsOf(n) + Flat(NewlineOf(parts[n]), [])
  }

  lemma ScreenStep(parts: seq<string>, cellsOf: nat -> seq<Cell>, k: nat)
    requires k < |parts|
    ensures Screen(parts[..k + 1], cellsOf) == Screen(parts[..k], cellsOf) + cellsOf(k) + Flat(NewlineOf(parts[k]), [])
  {
    assert parts[..k + 1][..k] == parts[..k];
  }

  lemma PieceText(front: seq<Cell>, line: seq<Cell>, before: string, part: string)
    requires Chars(front) == before && Chars(line) == LineOf(part)
    ensures Chars(front + line + Flat(NewlineOf(part), [])) == before + part
  {
    hide Chars;
    hide Flat;
    hide LineOf;
    var newline := Flat(NewlineOf(part), []);
    CharsAppend(front + line, newline);
    CharsAppend(front, line);
    CharsFlat(NewlineOf(part), []);
    Regroup(before, LineOf(part), NewlineOf(part));
  }

  lemma NothingShown(parts: seq<string>, cellsOf: nat -> seq<Cell>)
    ensures Chars(Screen(parts[..0], cellsOf)) == Concat(parts[..0])
  {
  }

  /** If every line shows its own characters, the screen shows the text. */
  lemma {:induction false} ScreenText(parts: seq<string>, cellsOf: nat -> seq<Cell>, n: nat)
    requires n <= |parts|
    requires forall k :: 0 <= k < |parts| ==> Chars(cellsOf(k)) == LineOf(parts[k])
    ensures Chars(Screen(parts[..n], cellsOf)) == Concat(parts[..n])
    decreases n
  {
    NothingShown(parts, cellsOf);
    hide Screen;
    hide Concat;
    hide Chars;
    hide Flat;
    hide LineOf;
    hide NewlineOf;
    if n > 0 {
      ScreenText(parts, cellsOf, n - 1);
      ScreenStep(parts, cellsOf, n - 1);
      ConcatLast(parts[..n - 1], parts[n - 1]);
      assert parts[..n] == parts[..n - 1] + [parts[n - 1]];
      PieceText(Screen(parts[..n - 1], cellsOf), cellsOf(n - 1), Concat(parts[..n - 1]), parts[n - 1]);
    }
  }

  lemma ExtendScreen(output: string, parts: seq<string>, cellsOf: nat -> seq<Cell>, k: nat, line: string)
    requires k < |parts| && EscFree(parts[k])
    requires Shows(output, Screen(parts[..k], cellsOf)) && Shows(line, cellsOf(k))
    ensures Shows(output + line + NewlineOf(parts[k]), Screen(parts[..k + 1], cellsOf))
  {
    hide Shows;
    ScreenStep(parts, cellsOf, k);
    ShowsAppend(output, Screen(parts[..k], cellsOf), line, cellsOf(k));
    var newline := NewlineOf(parts[k]);
    assert EscFree(newline);
    ShowsPlain(newline);
    ShowsAppend(output + line, Screen(parts[..k], cellsOf) + cellsOf(k), newline, Flat(newline, []));
  }

  /** Showing a text's characters is what stripping gives back. */
  lemma ShownText(output: string, cells: seq<Cell>)
    requires Shows(output, cells)
    ensures Strip(output) == Chars(cells)
  {
    StripIsChars(output, []);
  }

  // ---------------------------------------------------------------------------
  // Human output
  // ---------------------------------------------------------------------------

  ghost function HumanCells(t: Rules, part: string): seq<Cell> {
    var line := LineOf(part);
    if TableHeader(t.u, line) then HeaderCells(t.u, line) else HumanLineCells(t, line)
  }

  ghost function HumanLines(t: Rules, parts: seq<string>): nat -> seq<Cell> {
    (k: nat) => if k < |parts| then HumanCells(t, parts[k]) else []
  }

  ghost function HumanScreen(t: Rules, body: string): seq<Cell> {
    Screen(SplitAfter(body), HumanLines(t, SplitAfter(body)))
  }

  lemma HumanCellsText(t: Rules, part: string)
    requires t.u.Standard() && EscFree(part)
    ensures Chars(HumanCells(t, part)) == LineOf(part)
  {
    HumanLineKeepsText(t, LineOf(part));
  }

  lemma HumanScreenText(t: Rules, body: string)
    requires t.u.Standard() && EscFree(body)
    ensures Chars(HumanScreen(t, body)) == body
    ensures HumanScreen(t, body) == Screen(SplitAfter(body), HumanLines(t, SplitAfter(body)))
  {
    var parts := SplitAfter(body);
    SplitAfterConcat(body);
    hide HumanCells;
    forall k | 0 <= k < |parts| ensures Chars(HumanLines(t, parts)(k)) == LineOf(parts[k]) {
      HumanCellsText(t, parts[k]);
    }
    ScreenText(parts, HumanLines(t, parts), |parts|);
    assert parts[..|parts|] == parts;
  }

  /** The output, and its pieces: each part of the text as a header or a human line. */
  method RenderSemanticHuman(t: Rules, body: string, style: Style) returns (output: string, ghost pieces: seq<string>)
    requires t.u.Standard() && EscFree(body)
    ensures Strip(output) == body
    ensures if style.enabled then Shows(output, HumanScreen(t, body)) else output == body
    ensures style.enabled ==> output == Concat(pieces) && |pieces| == |SplitAfter(body)|
    ensures style.enabled ==> forall k :: 0 <= k < |pieces| ==>
              var line, end := LineOf(SplitAfter(body)[k]), Flat(NewlineOf(SplitAfter(body)[k]), []);
              if TableHeader(t.u, line) then Shows(pieces[k], HeaderCells(t.u, line) + end)
              else Shows(pieces[k], HumanLineCells(t, line) + end)
  {
    hide Shows;
    hide Screen;
    hide HumanCells;
    hide HumanScreen;
    hide HumanPiece;
    hide HumanDone;
    hide Flat;
    hide LineOf;
    hide NewlineOf;
    hide HumanLineCells;
    hide TableHeader;
    EscFreeIsClosed(body);
    if !style.enabled || body == "" {
      EmptyScreen(t);
      if style.enabled {
        HumanPieces(t, SplitAfter(body), body, [""]);
      }
      return body, [""];
    }
    var parts := SplitAfter(body);
    SplitAfterConcat(body);
    ghost var cellsOf := HumanLines(t, parts);
    output, pieces := "", [];
    NoHumanYet(t, parts);
    for k := 0 to |parts|
      invariant Shows(output, Screen(parts[..k], cellsOf)) && HumanDone(t, parts[..k], output, pieces)
    {
      var part := parts[k];
      assert EscFree(part);
      var line := RenderHumanPart(t, part);
      ExtendScreen(output, parts, cellsOf, k, line);
      HumanPieceDone(t, part, line);
      ExtendHuman(t, parts, k, output, pieces, line);
      output := output + line + NewlineOf(part);
      pieces := pieces + [line + NewlineOf(part)];
    }
    assert parts[..|parts|] == parts;
    HumanPieces(t, parts, output, pieces);
    HumanScreenText(t, body);
    ShownText(output, Screen(parts, cellsOf));
  }

  /** A part shows as a header or as a human line, and its newline. */
  ghost predicate HumanPiece(t: Rules, part: string, piece: string) {
    var line, end := LineOf(part), Flat(NewlineOf(part), []);
    if TableHeader(t.u, line) then Shows(piece, HeaderCells(t.u, line) + end)
    else Shows(piece, HumanLineCells(t, line) + end)
  }

  /** The output so far is made of one piece for each part so far. */
  ghost predicate HumanDone(t: Rules, parts: seq<string>, output: string, pieces: seq<string>) {
    output == Concat(pieces) && |pieces| == |parts| && forall k :: 0 <= k < |parts| ==> HumanPiece(t, parts[k], pieces[k])
  }

  lemma ExtendHuman(t: Rules, parts: seq<string>, k: nat, output: string, pieces: seq<string>, line: string)
    requires k < |parts| && HumanDone(t, parts[..k], output, pieces) && HumanPiece(t, parts[k], line + NewlineOf(parts[k]))
    ensures HumanDone(t, parts[..k + 1], output + line + NewlineOf(parts[k]), pieces + [line + NewlineOf(parts[k])])
  {
    hide HumanPiece;
    ExtendPieces(output, pieces, line, NewlineOf(parts[k]));
  }

  lemma HumanPieces(t: Rules, parts: seq<string>, output: string, pieces: seq<string>)
    requires HumanDone(t, parts, output, pieces)
    ensures output == Concat(pieces) && |pieces| == |parts|
    ensures forall k :: 0 <= k < |pieces| ==>
              var line, end := LineOf(parts[k]), Flat(NewlineOf(parts[k]), []);
              if TableHeader(t.u, line) then Shows(pieces[k], HeaderCells(t.u, line) + end)
              else Shows(pieces[k], HumanLineCells(t, line) + end)
  {
  }

  lemma HumanPieceDone(t: Rules, part: string, line: string)
    requires EscFree(part)
    requires if TableHeader(t.u, LineOf(part)) then Shows(line, HeaderCells(t.u, LineOf(part)))
             else Shows(line, HumanLineCells(t, LineOf(part)))
    ensures HumanPiece(t, part, line + NewlineOf(part))
  {
    hide Shows;
    ShowsPlain(NewlineOf(part));
    var cells := if TableHeader(t.u, LineOf(part)) then HeaderCells(t.u, LineOf(part)) else HumanLineCells(t, LineOf(part));
    ShowsAppend(line, cells, NewlineOf(part), Flat(NewlineOf(part), []));
  }

  lemma ExtendPieces(output: string, pieces: seq<string>, line: string, newline: string)
    requires output == Concat(pieces)
    ensures output + line + newline == Concat(pieces + [line + newline])
  {
    ConcatLast(pieces, line + newline);
    Regroup(output, line, newline);
  }

  method RenderHumanPart(t: Rules, part: string) returns (output: string)
    requires t.u.Standard() && EscFree(part)
    ensures Shows(output, HumanCells(t, part))
    ensures var line := LineOf(part);
      if TableHeader(t.u, line) then Shows(output, HeaderCells(t.u, line)) else Shows(output, HumanLineCells(t, line))
  {
    hide Shows;
    var line := LineOf(part);
    var header := LooksLikeTableHeader(t.u, line);
    if header {
      output := PaintHeaderColumns(t.u, line);
    } else {
      output := PaintHumanLine(t, line);
    }
  }

  lemma NoHumanYet(t: Rules, parts: seq<string>)
    ensures Shows("", Screen(parts[..0], HumanLines(t, parts))) && HumanDone(t, parts[..0], "", [])
  {
    ShowsPlain("");
    assert Flat("", []) == [];
  }

  lemma EmptyScreen(t: Rules)
    requires t.u.Standard()
    ensures Shows("", HumanScreen(t, ""))
    ensures SplitAfter("") == [""] && HumanDone(t, SplitAfter(""), "", [""])
  {
    EmptyLine(t);
    ShowsPlain("");
    HumanPieceDone(t, "", "");
    HumanScreenText(t, "");
    assert HumanScreen(t, "") == [];
  }

  // ---------------------------------------------------------------------------
  // Guides
  // ---------------------------------------------------------------------------

  predicate IsFence(u: Unicode, part: string) {
    "```" <= TrimSpace(u, LineOf(part))
  }

  /** Whether an odd number of fences stand among the parts. */
  predicate InFence(u: Unicode, parts: seq<string>) {
    if parts == [] then false
    else InFence(u, parts[..|parts| - 1]) != IsFence(u, parts[|parts| - 1])
  }

  /** Spans between "**" are strong, spans between backquotes are code. */
  function InlineCells(s: string): seq<Cell>
    decreases |s|
  {
    if s == "" then []
    else if "**" <= s && IndexOf(s[2..], "**") >= 0 then
      var end := IndexOf(s[2..], "**") + 4;
      Flat(s[..end], Sequences(Strong)) + InlineCells(s[end..])
    else if s[0] == '`' && IndexOf(s[1..], "`") >= 0 then
      var end := IndexOf(s[1..], "`") + 2;
      Flat(s[..end], Sequences(Code)) + InlineCells(s[end..])
    else [Cell(s[0], [])] + InlineCells(s[1..])
  }

  function GuideCells(u: Unicode, part: string, inFence: bool): seq<Cell> {
    var line := LineOf(part);
    if IsFence(u, part) then Flat(line, Sequences(Label))
    else if inFence then Flat(line, Sequences(Code))
    else if "#" <= TrimSpace(u, line) then Flat(line, Sequences(Title))
    else InlineCells(line)
  }

  function GuideLines(u: Unicode, parts: seq<string>): nat -> seq<Cell> {
    (k: nat) => if k < |parts| then GuideCells(u, parts[k], InFence(u, parts[..k])) else []
  }

  function GuideScreen(u: Unicode, body: string): seq<Cell> {
    Screen(SplitAfter(body), GuideLines(u, SplitAfter(body)))
  }

  lemma {:induction false} InlineText(s: string)
    ensures Chars(InlineCells(s)) == s
    decreases |s|
  {
    if s == "" {
      return;
    }
    var cut, role := InlineSpan(s);
    InlineText(s[cut..]);
    CharsAppend(Flat(s[..cut], role), InlineCells(s[cut..]));
    CharsFlat(s[..cut], role);
    assert s == s[..cut] + s[cut..];
  }

  /** The first span of a line and its style. */
  lemma {:induction false} InlineSpan(s: string) returns (cut: nat, style: seq<string>)
    requires s != ""
    ensures 0 < cut <= |s| && InlineCells(s) == Flat(s[..cut], style) + InlineCells(s[cut..])
  {
    hide InlineCells;
    hide IndexOf;
    hide Sequences;
    if "**" <= s && IndexOf(s[2..], "**") >= 0 {
      StrongSpan(s);
      return IndexOf(s[2..], "**") + 4, Sequences(Strong);
    }
    if s[0] == '`' && IndexOf(s[1..], "`") >= 0 {
      CodeSpan(s);
      return IndexOf(s[1..], "`") + 2, Sequences(Code);
    }
    PlainCharacter(s);
    assert Flat(s[..1], []) == [Cell(s[0], [])];
    return 1, [];
  }

  lemma GuideCellsText(u: Unicode, part: string, inFence: bool)
    ensures Chars(GuideCells(u, part, inFence)) == LineOf(part)
  {
    InlineText(LineOf(part));
  }

  /** The shown cells so far and those of the rest are those of the line. */
  ghost predicate InlineDone(line: string, output: string, index: nat) {
    index <= |line| && exists shown :: Shows(output, shown) && shown + InlineCells(line[index..]) == InlineCells(line)
  }

  lemma InlineStep(line: string, output: string, index: nat, end: nat, piece: string, style: seq<string>)
    requires InlineDone(line, output, index) && index <= end <= |line|
    requires Shows(piece, Flat(line[index..end], style))
    requires InlineCells(line[index..]) == Flat(line[index..end], style) + InlineCells(line[end..])
    ensures InlineDone(line, output + piece, end)
  {
    hide Shows;
    hide InlineCells;
    var shown :| Shows(output, shown) && shown + InlineCells(line[index..]) == InlineCells(line);
    var span := Flat(line[index..end], style);
    ShowsAppend(output, shown, piece, span);
    Regroup(shown, span, InlineCells(line[end..]));
  }

  method RenderGuideInline(line: string) returns (output: string)
    requires EscFree(line)
    ensures Shows(output, InlineCells(line))
  {
    hide Shows;
    hide InlineDone;
    output := "";
    var index := 0;
    InlineStart(line);
    while index < |line|
      invariant 0 <= index <= |line| && InlineDone(line, output, index)
      decreases |line| - index
    {
      var piece, end := NextSpan(line, index, output);
      output := output + piece;
      index := end;
    }
    InlineEnd(line, output);
  }

  /** One turn of the loop: a strong span, a code span, or one character. */
  method NextSpan(line: string, index: nat, ghost output: string) returns (piece: string, end: nat)
    requires EscFree(line) && index < |line| && InlineDone(line, output, index)
    ensures index < end <= |line| && InlineDone(line, output + piece, end)
  {
    hide Shows;
    hide InlineDone;
    hide InlineCells;
    hide Sequences;
    hide Style.Paint;
    ghost var rest := line[index..];
    assert line[index] == rest[0];
    if "**" <= line[index..] {
      var found := IndexOf(line[index + 2..], "**");
      assert line[index + 2..] == rest[2..];
      if found >= 0 {
        end := found + index + 4;
        piece := Style(true).Paint(Strong, line[index..end]);
        StrongSpan(rest);
        SpanDone(line, output, index, end, Strong);
        return;
      }
    }
    if line[index] == '`' {
      var found := IndexOf(line[index + 1..], "`");
      assert line[index + 1..] == rest[1..];
      if found >= 0 {
        end := found + index + 2;
        piece := Style(true).Paint(Code, line[index..end]);
        CodeSpan(rest);
        SpanDone(line, output, index, end, Code);
        return;
      }
    }
    end := index + 1;
    piece := line[index..end];
    PlainCharacter(rest);
    CharacterCut(line, index);
    InlineStep(line, output, index, end, piece, []);
  }

  /** An emphasised span is done: from the index to the end it shows in its role. */
  lemma {:induction false} SpanDone(line: string, output: string, index: nat, end: nat, role: Role)
    requires EscFree(line) && index < end <= |line| && InlineDone(line, output, index)
    requires InlineCells(line[index..]) ==
             Flat(line[index..][..end - index], Sequences(role)) + InlineCells(line[index..][end - index..])
    ensures InlineDone(line, output + Style(true).Paint(role, line[index..end]), end)
  {
    hide InlineCells;
    hide Shows;
    hide InlineDone;
    SpanCut(line, index, end, role);
    InlineStep(line, output, index, end, Style(true).Paint(role, line[index..end]), Sequences(role));
  }

  lemma {:induction false} StrongSpan(s: string)
    requires "**" <= s && IndexOf(s[2..], "**") >= 0
    ensures var end := IndexOf(s[2..], "**") + 4;
      end <= |s| && InlineCells(s) == Flat(s[..end], Sequences(Strong)) + InlineCells(s[end..])
  {
    hide IndexOf;
    hide Flat;
    hide Sequences;
  }

  lemma {:induction false} CodeSpan(s: string)
    requires s != "" && s[0] == '`' && IndexOf(s[1..], "`") >= 0
    ensures var end := IndexOf(s[1..], "`") + 2;
      end <= |s| && InlineCells(s) == Flat(s[..end], Sequences(Code)) + InlineCells(s[end..])
  {
    hide IndexOf;
    hide Flat;
    hide Sequences;
  }

  lemma {:induction false} PlainCharacter(s: string)
    requires s != "" && !("**" <= s && IndexOf(s[2..], "**") >= 0) && !(s[0] == '`' && IndexOf(s[1..], "`") >= 0)
    ensures InlineCells(s) == [Cell(s[0], [])] + InlineCells(s[1..])
  {
    hide IndexOf;
    hide OccursAt;
    hide Flat;
    hide Sequences;
  }

  /** The first place from `from` on where a pattern occurs. */
  ghost predicate FirstIn(s: string, pattern: string, from: nat, e: nat) {
    from <= e && OccursAt(s, pattern, e) && forall i: nat :: from <= i < e ==> !OccursAt(s, pattern, i)
  }

  /** Two asterisks open a strong span up to the next two, a backquote a code span up
      to the next one; any other character, or an opening without its end, is plain. */
  lemma {:induction false} SpansExactly(s: string)
    requires s != ""
    ensures "**" <= s ==> forall e :: FirstIn(s, "**", 2, e) ==>
              InlineCells(s) == Flat(s[..e + 2], Sequences(Strong)) + InlineCells(s[e + 2..])
    ensures s[0] == '`' ==> forall e :: FirstIn(s, "`", 1, e) ==>
              InlineCells(s) == Flat(s[..e + 1], Sequences(Code)) + InlineCells(s[e + 1..])
    ensures ("**" <= s ==> forall e :: !FirstIn(s, "**", 2, e)) && (s[0] == '`' ==> forall e :: !FirstIn(s, "`", 1, e)) ==>
              InlineCells(s) == [Cell(s[0], [])] + InlineCells(s[1..])
  {
    hide InlineCells;
    hide IndexOf;
    hide FirstIn;
    hide Flat;
    hide OccursAt;
    hide Sequences;
    var strong, code := "**" <= s, s[0] == '`';
    if strong {
      FirstIsIndex(s, "**", 2);
      assert IndexOf(s[2..], "**") >= 0 ==> FirstIn(s, "**", 2, IndexOf(s[2..], "**") + 2);
      if IndexOf(s[2..], "**") >= 0 {
        StrongSpan(s);
      }
    }
    if code {
      FirstIsIndex(s, "`", 1);
      assert IndexOf(s[1..], "`") >= 0 ==> FirstIn(s, "`", 1, IndexOf(s[1..], "`") + 1);
      if IndexOf(s[1..], "`") >= 0 {
        CodeSpan(s);
      }
    }
    if !(strong && IndexOf(s[2..], "**") >= 0) && !(code && IndexOf(s[1..], "`") >= 0) {
      PlainCharacter(s);
    }
  }

  lemma {:induction false} FirstIsIndex(s: string, pattern: string, from: nat)
    requires from <= |s|
    ensures var r := IndexOf(s[from..], pattern);
      forall e: nat :: FirstIn(s, pattern, from, e) <==> r >= 0 && e == r + from
  {
    var rest := s[from..];
    var r := IndexOf(rest, pattern);
    hide OccursAt;
    hide IndexOf;
    forall e: nat ensures FirstIn(s, pattern, from, e) <==> r >= 0 && e == r + from {
      if FirstIn(s, pattern, from, e) {
        OccursBehind(s, pattern, from, e - from);
        OccursBehind(s, pattern, from, r);
      }
      if r >= 0 && e == r + from {
        OccursBehind(s, pattern, from, r);
        forall i: nat | from <= i < e ensures !OccursAt(s, pattern, i) {
          OccursBehind(s, pattern, from, i - from);
        }
      }
    }
  }

  lemma OccursBehind(s: string, pattern: string, from: nat, i: nat)
    requires from <= |s|
    ensures OccursAt(s[from..], pattern, i) <==> OccursAt(s, pattern, i + from)
  {
    if i + from + |pattern| <= |s| {
      assert s[from..][i..i + |pattern|] == s[i + from..i + from + |pattern|];
    }
  }

  lemma SpanCut(line: string, index: nat, end: nat, role: Role)
    requires EscFree(line) && index < end <= |line|
    ensures Shows(Style(true).Paint(role, line[index..end]), Flat(line[index..end], Sequences(role)))
    ensures line[index..][..end - index] == line[index..end] && line[index..][end - index..] == line[end..]
  {
    ShowsPaint(role, line[index..end]);
  }

  lemma CharacterCut(line: string, index: nat)
    requires EscFree(line) && index < |line|
    ensures Shows(line[index..index + 1], Flat(line[index..index + 1], []))
    ensures Flat(line[index..index + 1], []) == [Cell(line[index], [])]
    ensures line[index..][1..] == line[index + 1..]
  {
    ShowsPlain(line[index..index + 1]);
  }

  lemma InlineStart(line: string)
    ensures InlineDone(line, "", 0)
  {
    ShowsPlain("");
    assert line[0..] == line;
    assert Flat("", []) + InlineCells(line) == InlineCells(line);
  }

  lemma InlineEnd(line: string, output: string)
    requires InlineDone(line, output, |line|)
    ensures Shows(output, InlineCells(line))
  {
    hide Shows;
    var shown :| Shows(output, shown) && shown + InlineCells(line[|line|..]) == InlineCells(line);
    assert shown + [] == shown;
  }

  lemma InFenceStep(u: Unicode, parts: seq<string>, k: nat)
    requires k < |parts|
    ensures InFence(u, parts[..k + 1]) == (InFence(u, parts[..k]) != IsFence(u, parts[k]))
    ensures InFence(u, parts[..k + 1]) == (InFence(u, parts[..k]) != ("```" <= TrimSpace(u, LineOf(parts[k]))))
    ensures !InFence(u, parts[..0])
  {
    assert parts[..k + 1][..k] == parts[..k];
  }

  lemma GuideScreenText(u: Unicode, body: string)
    ensures Chars(GuideScreen(u, body)) == body
  {
    var parts := SplitAfter(body);
    SplitAfterConcat(body);
    hide GuideCells;
    forall k | 0 <= k < |parts| ensures Chars(GuideLines(u, parts)(k)) == LineOf(parts[k]) {
      GuideCellsText(u, parts[k], InFence(u, parts[..k]));
    }
    ScreenText(parts, GuideLines(u, parts), |parts|);
    assert parts[..|parts|] == parts;
  }

  /** The output, and its pieces: fences, lines behind an odd number of them,
      headings, and lines with spans. */
  method RenderGuideMarkdown(u: Unicode, body: string, style: Style) returns (output: string, ghost pieces: seq<string>)
    requires EscFree(body)
    ensures Strip(output) == body
    ensures if style.enabled then Shows(output, GuideScreen(u, body)) else output == body
    ensures style.enabled ==> output == Concat(pieces) && |pieces| == |SplitAfter(body)|
    ensures style.enabled ==> forall k :: 0 <= k < |pieces| ==>
              var line, end := LineOf(SplitAfter(body)[k]), Flat(NewlineOf(SplitAfter(body)[k]), []);
              if "```" <= TrimSpace(u, line) then Shows(pieces[k], Flat(line, Sequences(Label)) + end)
              else if InFence(u, SplitAfter(body)[..k]) then Shows(pieces[k], Flat(line, Sequences(Code)) + end)
              else if "#" <= TrimSpace(u, line) then Shows(pieces[k], Flat(line, Sequences(Title)) + end)
              else Shows(pieces[k], InlineCells(line) + end)
  {
    hide Shows;
    hide GuideCells;
    hide InFence;
    hide GuidePiece;
    hide GuideDone;
    hide Screen;
    hide Flat;
    hide LineOf;
    hide NewlineOf;
    hide InlineCells;
    hide TrimSpace;
    EscFreeIsClosed(body);
    GuideScreenText(u, body);
    if !style.enabled || body == "" {
      EmptyGuide(u);
      if style.enabled {
        GuidePieces(u, SplitAfter(body), body, [""]);
      }
      return body, [""];
    }
    var parts := SplitAfter(body);
    SplitAfterConcat(body);
    ghost var cellsOf := GuideLines(u, parts);
    output, pieces := "", [];
    var inFence := false;
    NoGuideYet(u, parts);
    for k := 0 to |parts|
      invariant Shows(output, Screen(parts[..k], cellsOf))
      invariant inFence == InFence(u, parts[..k])
      invariant GuideDone(u, parts, k, output, pieces)
    {
      var part := parts[k];
      assert EscFree(part);
      var line := RenderGuideLine(u, part, inFence);
      if IsFence(u, part) {
        inFence := !inFence;
      }
      InFenceStep(u, parts, k);
      ExtendScreen(output, parts, cellsOf, k, line);
      GuidePieceDone(u, part, InFence(u, parts[..k]), line);
      ExtendGuide(u, parts, k, output, pieces, line);
      output := output + line + NewlineOf(part);
      pieces := pieces + [line + NewlineOf(part)];
    }
    assert parts[..|parts|] == parts;
    GuidePieces(u, parts, output, pieces);
    ShownText(output, GuideScreen(u, body));
  }

  ghost predicate GuidePiece(u: Unicode, part: string, inFence: bool, piece: string) {
    var line, end := LineOf(part), Flat(NewlineOf(part), []);
    if "```" <= TrimSpace(u, line) then Shows(piece, Flat(line, Sequences(Label)) + end)
    else if inFence then Shows(piece, Flat(line, Sequences(Code)) + end)
    else if "#" <= TrimSpace(u, line) then Shows(piece, Flat(line, Sequences(Title)) + end)
    else Shows(piece, InlineCells(line) + end)
  }

  ghost predicate GuideDone(u: Unicode, parts: seq<string>, k: nat, output: string, pieces: seq<string>) {
    && output == Concat(pieces) && |pieces| == k <= |parts|
    && forall i :: 0 <= i < k ==> GuidePiece(u, parts[i], InFence(u, parts[..i]), pieces[i])
  }

  lemma ExtendGuide(u: Unicode, parts: seq<string>, k: nat, output: string, pieces: seq<string>, line: string)
    requires k < |parts| && GuideDone(u, parts, k, output, pieces)
    requires GuidePiece(u, parts[k], InFence(u, parts[..k]), line + NewlineOf(parts[k]))
    ensures GuideDone(u, parts, k + 1, output + line + NewlineOf(parts[k]), pieces + [line + NewlineOf(parts[k])])
  {
    hide GuidePiece;
    hide InFence;
    ExtendPieces(output, pieces, line, NewlineOf(parts[k]));
  }

  lemma GuidePieces(u: Unicode, parts: seq<string>, output: string, pieces: seq<string>)
    requires GuideDone(u, parts, |parts|, output, pieces)
    ensures output == Concat(pieces) && |pieces| == |parts|
    ensures forall k :: 0 <= k < |pieces| ==>
              var line, end := LineOf(parts[k]), Flat(NewlineOf(parts[k]), []);
              if "```" <= TrimSpace(u, line) then Shows(pieces[k], Flat(line, Sequences(Label)) + end)
              else if InFence(u, parts[..k]) then Shows(pieces[k], Flat(line, Sequences(Code)) + end)
              else if "#" <= TrimSpace(u, line) then Shows(pieces[k], Flat(line, Sequences(Title)) + end)
              else Shows(pieces[k], InlineCells(line) + end)
  {
    hide Shows;
    hide InFence;
  }

  lemma GuidePieceDone(u: Unicode, part: string, inFence: bool, line: string)
    requires EscFree(part) && Shows(line, GuideCells(u, part, inFence))
    ensures GuidePiece(u, part, inFence, line + NewlineOf(part))
  {
    hide Shows;
    hide InlineCells;
    ShowsPlain(NewlineOf(part));
    ShowsAppend(line, GuideCells(u, part, inFence), NewlineOf(part), Flat(NewlineOf(part), []));
  }

  lemma NoGuideYet(u: Unicode, parts: seq<string>)
    ensures Shows("", Screen(parts[..0], GuideLines(u, parts)))
    ensures !InFence(u, parts[..0]) && GuideDone(u, parts, 0, "", [])
  {
    ShowsPlain("");
    assert Flat("", []) == [];
  }

  lemma EmptyGuide(u: Unicode)
    ensures Shows("", GuideScreen(u, ""))
    ensures SplitAfter("") == [""] && GuideDone(u, SplitAfter(""), 1, "", [""])
  {
    ShowsPlain("");
    assert Flat("", []) == [] == GuideCells(u, "", false);
    GuidePieceDone(u, "", false, "");
    GuideScreenText(u, "");
    assert GuideScreen(u, "") == [];
  }

  method RenderGuideLine(u: Unicode, part: string, inFence: bool) returns (output: string)
    requires EscFree(part)
    ensures Shows(output, GuideCells(u, part, inFence))
    ensures var line := LineOf(part);
      if "```" <= TrimSpace(u, line) then Shows(output, Flat(line, Sequences(Label)))
      else if inFence then Shows(output, Flat(line, Sequences(Code)))
      else if "#" <= TrimSpace(u, line) then Shows(output, Flat(line, Sequences(Title)))
      else Shows(output, InlineCells(line))
  {
    hide Shows;
    hide InlineCells;
    var line := LineOf(part);
    var trimmed := TrimSpace(u, line);
    if "```" <= trimmed {
      ShowsPaint(Label, line);
      output := Style(true).Paint(Label, line);
    } else if inFence {
      ShowsPaint(Code, line);
      output := Style(true).Paint(Code, line);
    } else if "#" <= trimmed {
      ShowsPaint(Title, line);
      output := Style(true).Paint(Title, line);
    } else {
      output := RenderGuideInline(line);
    }
  }

  // ---------------------------------------------------------------------------
  // Command help
  // ---------------------------------------------------------------------------

  function Headings(): set<string> {
    {"Usage:", "Aliases:", "Examples:", "Available Commands:", "Flags:", "Global Flags:", "Additional help topics:"}
  }

  predicate IsHeading(s: string) {
    s in Headings()
  }

  predicate ColumnSection(s: string) {
    s in {"Available Commands:", "Additional help topics:", "Flags:", "Global Flags:"}
  }

  /** The section in force after some lines: the last heading, unless a blank
      line follows it. */
  function SectionAfter(u: Unicode, lines: seq<string>): string {
    if lines == [] then ""
    else
      var trimmed := TrimSpace(u, lines[|lines| - 1]);
      if IsHeading(trimmed) then trimmed
      else if trimmed == "" then ""
      else SectionAfter(u, lines[..|lines| - 1])
  }

  function LeadingSpaces(s: string): (n: nat)
    ensures n <= |s|
  {
    if s != "" && s[0] == ' ' then 1 + LeadingSpaces(s[1..]) else 0
  }

  /** Where the first column of an indented help line begins and ends. */
  function FirstColumn(line: string): (r: (nat, nat))
    ensures r.0 <= r.1 <= |line|
  {
    var indent := LeadingSpaces(line);
    if indent == 0 || indent >= |line| then (0, 0)
    else
      var gap := IndexOf(line[indent..], "  ");
      (indent, if gap <= 0 then |line| else indent + gap)
  }

  function PaintHelpFirstColumn(line: string): string {
    var indent := LeadingSpaces(line);
    if indent == 0 || indent >= |line| then line
    else
      var remainder := line[indent..];
      var gap := IndexOf(remainder, "  ");
      if gap <= 0 then line[..indent] + Style(true).Paint(Code, remainder)
      else line[..indent] + Style(true).Paint(Code, remainder[..gap]) + remainder[gap..]
  }

  function ColumnCells(line: string, start: nat, end: nat): (r: seq<Cell>)
    requires start <= end <= |line|
    ensures |r| == |line|
    ensures forall i :: 0 <= i < |r| ==> r[i] == Cell(line[i], if start <= i < end then Sequences(Code) else [])
  {
    seq(|line|, i requires 0 <= i < |line| => Cell(line[i], if start <= i < end then Sequences(Code) else []))
  }

  function HelpLineCells(u: Unicode, line: string, section: string): seq<Cell> {
    var trimmed := TrimSpace(u, line);
    if IsHeading(trimmed) then Flat(line, Sequences(Header))
    else if trimmed != "" && ColumnSection(section) then ColumnCells(line, FirstColumn(line).0, FirstColumn(line).1)
    else Flat(line, [])
  }

  /** The first column lies behind the indent and reaches to the first double space
      that does not come at once, or to the end. */
  lemma {:induction false} FirstColumnExactly(line: string)
    ensures var (start, end) := FirstColumn(line);
      if line == "" || line[0] != ' ' || forall i :: 0 <= i < |line| ==> line[i] == ' '
      then start == end == 0
      else
        && start < end && (forall i :: 0 <= i < start ==> line[i] == ' ') && line[start] != ' '
        && (end < |line| ==> end + 1 < |line| && line[end] == ' ' && line[end + 1] == ' ')
        && forall i :: start <= i < end && i + 1 < |line| ==> line[i] != ' ' || line[i + 1] != ' '
  {
    var indent := LeadingSpaces(line);
    IndentExactly(line);
    hide LeadingSpaces;
    if 0 < indent < |line| {
      FirstGap(line, indent);
      hide IndexOf;
    }
  }

  lemma {:induction false} FirstGap(line: string, from: nat)
    requires from < |line| && line[from] != ' '
    ensures var gap := IndexOf(line[from..], "  ");
      && gap != 0
      && (gap > 0 ==> from + gap + 1 < |line| && line[from + gap] == ' ' && line[from + gap + 1] == ' ')
      && forall i :: from <= i < (if gap < 0 then |line| else from + gap) && i + 1 < |line| ==> line[i] != ' ' || line[i + 1] != ' '
  {
    var rest := line[from..];
    var gap := IndexOf(rest, "  ");
    hide IndexOf;
    forall i | from <= i && i + 1 < |line| && line[i] == ' ' && line[i + 1] == ' ' ensures OccursAt(rest, "  ", i - from) {
      assert rest[i - from..i - from + 2] == "  ";
    }
    if gap >= 0 {
      assert rest[gap..gap + 2][0] == ' ' && rest[gap..gap + 2][1] == ' ';
    }
  }

  lemma {:induction false} IndentExactly(line: string)
    ensures var n := LeadingSpaces(line);
      (forall i :: 0 <= i < n ==> line[i] == ' ') && (n < |line| ==> line[n] != ' ')
  {
    if line != "" && line[0] == ' ' {
      IndentExactly(line[1..]);
      var n := LeadingSpaces(line[1..]);
      assert forall i :: 1 <= i < 1 + n ==> line[i] == line[1..][i - 1];
    }
  }

  lemma PaintedColumn(line: string)
    requires EscFree(line)
    ensures Shows(PaintHelpFirstColumn(line), ColumnCells(line, FirstColumn(line).0, FirstColumn(line).1))
  {
    hide Shows;
    hide Sequences;
    var (start, end) := FirstColumn(line);
    if start == end == 0 {
      ShowsPlain(line);
      assert Flat(line, []) == ColumnCells(line, 0, 0);
      return;
    }
    var a, b, c := line[..start], line[start..end], line[end..];
    ShowsPlain(a);
    ShowsPaint(Code, b);
    ShowsPlain(c);
    ColumnText(line, a, b, c);
    hide PaintHelpFirstColumn;
    hide LeadingSpaces;
    hide EscFree;
    var p := Style(true).Paint(Code, b);
    ShowsAppend(a, Flat(a, []), p, Flat(b, Sequences(Code)));
    ShowsAppend(a + p, Flat(a, []) + Flat(b, Sequences(Code)), c, Flat(c, []));
    ThreeColumns(line, start, end);
  }

  lemma ThreeColumns(line: string, start: nat, end: nat)
    requires start <= end <= |line|
    ensures Flat(line[..start], []) + Flat(line[start..end], Sequences(Code)) + Flat(line[end..], []) == ColumnCells(line, start, end)
  {
    hide Sequences;
  }

  lemma ColumnText(line: string, a: string, b: string, c: string)
    requires var (start, end) := FirstColumn(line);
      (start != 0 || end != 0) && a == line[..start] && b == line[start..end] && c == line[end..]
    ensures PaintHelpFirstColumn(line) == a + Style(true).Paint(Code, b) + c
  {
    var indent := LeadingSpaces(line);
    var remainder := line[indent..];
    var gap := IndexOf(remainder, "  ");
    if gap <= 0 {
      assert b == remainder && c == "";
    } else {
      assert b == remainder[..gap] && c == remainder[gap..];
    }
  }

  lemma HelpLineText(u: Unicode, line: string, section: string)
    ensures Chars(HelpLineCells(u, line, section)) == line
  {
  }

  /** The lines of help text as they show, joined by newlines. */
  function HelpCells(u: Unicode, lines: seq<string>, before: string): seq<Cell>
    requires lines != []
    decreases |lines|
  {
    var first := HelpLineCells(u, lines[0], before);
    if |lines| == 1 then first
    else first + Flat("\n", []) + HelpCells(u, lines[1..], NextSection(u, lines[0], before))
  }

  function NextSection(u: Unicode, line: string, before: string): string {
    var trimmed := TrimSpace(u, line);
    if IsHeading(trimmed) then trimmed else if trimmed == "" then "" else before
  }

  lemma SectionStep(u: Unicode, lines: seq<string>, k: nat)
    requires k < |lines|
    ensures SectionAfter(u, lines[..k + 1]) == NextSection(u, lines[k], SectionAfter(u, lines[..k]))
  {
    assert lines[..k + 1][..k] == lines[..k];
  }

  /** The section is the last heading, unless a blank line follows it. */
  lemma {:induction false} SectionExactly(u: Unicode, lines: seq<string>, k: nat)
    requires k < |lines|
    requires forall i :: k < i < |lines| ==> TrimSpace(u, lines[i]) !in Headings() && TrimSpace(u, lines[i]) != ""
    ensures TrimSpace(u, lines[k]) in Headings() ==> SectionAfter(u, lines) == TrimSpace(u, lines[k])
    ensures TrimSpace(u, lines[k]) == "" ==> SectionAfter(u, lines) == ""
    decreases |lines|
  {
    if k < |lines| - 1 {
      SectionExactly(u, lines[..|lines| - 1], k);
    }
  }

  lemma {:induction false} HelpCellsText(u: Unicode, lines: seq<string>, before: string)
    requires lines != []
    ensures Chars(HelpCells(u, lines, before)) == Join(lines)
    decreases |lines|
  {
    HelpLineText(u, lines[0], before);
    if |lines| > 1 {
      var first, newline := HelpLineCells(u, lines[0], before), Flat("\n", []);
      var rest := HelpCells(u, lines[1..], NextSection(u, lines[0], before));
      HelpCellsText(u, lines[1..], NextSection(u, lines[0], before));
      CharsAppend(first + newline, rest);
      CharsAppend(first, newline);
      CharsFlat("\n", []);
    }
  }

  /** Joining lines that each show their cells shows the joined cells. */
  lemma {:induction false} JoinShows(u: Unicode, original: seq<string>, lines: seq<string>, from: nat)
    requires |lines| == |original| && from < |lines|
    requires forall k :: from <= k < |lines| ==> Shows(lines[k], HelpLineCells(u, original[k], SectionAfter(u, original[..k])))
    ensures Shows(Join(lines[from..]), HelpCells(u, original[from..], SectionAfter(u, original[..from])))
    decreases |lines| - from
  {
    hide Shows;
    hide HelpLineCells;
    var before := SectionAfter(u, original[..from]);
    var first := HelpLineCells(u, original[from], before);
    SectionStep(u, original, from);
    hide NextSection;
    if from + 1 < |lines| {
      JoinShows(u, original, lines, from + 1);
      assert lines[from..][1..] == lines[from + 1..] && original[from..][1..] == original[from + 1..];
      ShowsPlain("\n");
      ShowsAppend(lines[from], first, "\n", Flat("\n", []));
      ShowsAppend(lines[from] + "\n", first + Flat("\n", []), Join(lines[from + 1..]),
                  HelpCells(u, original[from + 1..], SectionAfter(u, original[..from + 1])));
    }
  }

  /** The output, and its lines: headings, lines of a section with columns, and others. */
  method RenderCobraHelp(u: Unicode, body: string, style: Style) returns (output: string, ghost shown: seq<string>)
    requires EscFree(body)
    ensures Strip(output) == body
    ensures if style.enabled then Shows(output, HelpCells(u, Split(body), "")) else output == body
    ensures style.enabled ==> shown != [] && output == Join(shown) && |shown| == |Split(body)|
    ensures style.enabled ==> forall k :: 0 <= k < |shown| ==>
              var line, section := Split(body)[k], SectionAfter(u, Split(body)[..k]);
              var trimmed := TrimSpace(u, line);
              if trimmed in {"Usage:", "Aliases:", "Examples:", "Available Commands:", "Flags:", "Global Flags:",
                             "Additional help topics:"} then Shows(shown[k], Flat(line, Sequences(Header)))
              else if trimmed != "" && section in {"Available Commands:", "Additional help topics:", "Flags:", "Global Flags:"}
              then Shows(shown[k], ColumnCells(line, FirstColumn(line).0, FirstColumn(line).1))
              else Shows(shown[k], Flat(line, []))
  {
    EscFreeIsClosed(body);
    SplitJoin(body);
    HelpCellsText(u, Split(body), "");
    hide Shows;
    hide HelpLineCells;
    hide HelpLine;
    hide IsHeading;
    hide ColumnSection;
    hide SectionAfter;
    hide PaintHelpFirstColumn;
    hide HelpCells;
    hide Strip;
    hide Join;
    hide Flat;
    hide TrimSpace;
    hide ColumnCells;
    hide FirstColumn;
    hide Sequences;
    hide EscFree;
    if !style.enabled || body == "" {
      EmptyHelp(u);
      if style.enabled {
        HelpLines(u, Split(body), [""]);
      }
      return body, [""];
    }
    var original := Split(body);
    var lines := RenderHelpLines(u, original);
    output, shown := Join(lines), lines;
    NoSection(u, original);
    JoinShows(u, original, lines, 0);
    ShownLines(u, original, lines);
    HelpLines(u, original, lines);
    assert lines[0..] == lines && original[0..] == original;
    ShownText(output, HelpCells(u, original, ""));
  }

  /** The loop over the lines, which replaces each by its painted form. */
  method RenderHelpLines(u: Unicode, original: seq<string>) returns (lines: seq<string>)
    requires forall line :: line in original ==> EscFree(line)
    ensures |lines| == |original|
    ensures forall k :: 0 <= k < |lines| ==> Shows(lines[k], HelpLineCells(u, original[k], SectionAfter(u, original[..k])))
  {
    hide Shows;
    hide HelpLineCells;
    hide EscFree;
    hide SectionAfter;
    var section := "";
    lines := original;
    NoSection(u, original);
    for index := 0 to |lines|
      invariant |lines| == |original|
      invariant section == SectionAfter(u, original[..index])
      invariant forall k :: 0 <= k < index ==> Shows(lines[k], HelpLineCells(u, original[k], SectionAfter(u, original[..k])))
      invariant forall k :: index <= k < |lines| ==> lines[k] == original[k]
    {
      var line := lines[index];
      assert line in original;
      var painted := RenderHelpLine(u, line, section);
      SectionStep(u, original, index);
      section := NextSection(u, line, section);
      lines := lines[index := painted];
    }
  }

  ghost predicate HelpLine(u: Unicode, line: string, section: string, shown: string) {
    var trimmed := TrimSpace(u, line);
    if trimmed in {"Usage:", "Aliases:", "Examples:", "Available Commands:", "Flags:", "Global Flags:",
                   "Additional help topics:"} then Shows(shown, Flat(line, Sequences(Header)))
    else if trimmed != "" && section in {"Available Commands:", "Additional help topics:", "Flags:", "Global Flags:"}
    then Shows(shown, ColumnCells(line, FirstColumn(line).0, FirstColumn(line).1))
    else Shows(shown, Flat(line, []))
  }

  ghost predicate AreHelpLines(u: Unicode, original: seq<string>, lines: seq<string>) {
    |lines| == |original| && forall k :: 0 <= k < |lines| ==> HelpLine(u, original[k], SectionAfter(u, original[..k]), lines[k])
  }

  lemma HelpLines(u: Unicode, original: seq<string>, lines: seq<string>)
    requires AreHelpLines(u, original, lines)
    ensures |lines| == |original|
    ensures forall k :: 0 <= k < |lines| ==>
              var line, section := original[k], SectionAfter(u, original[..k]);
              var trimmed := TrimSpace(u, line);
              if trimmed in {"Usage:", "Aliases:", "Examples:", "Available Commands:", "Flags:", "Global Flags:",
                             "Additional help topics:"} then Shows(lines[k], Flat(line, Sequences(Header)))
              else if trimmed != "" && section in {"Available Commands:", "Additional help topics:", "Flags:", "Global Flags:"}
              then Shows(lines[k], ColumnCells(line, FirstColumn(line).0, FirstColumn(line).1))
              else Shows(lines[k], Flat(line, []))
  {
    hide Shows;
    hide SectionAfter;
    hide TrimSpace;
    hide FirstColumn;
    hide ColumnCells;
    hide Flat;
    hide Sequences;
  }

  lemma ShownLines(u: Unicode, original: seq<string>, lines: seq<string>)
    requires |lines| == |original|
    requires forall k :: 0 <= k < |lines| ==> Shows(lines[k], HelpLineCells(u, original[k], SectionAfter(u, original[..k])))
    ensures AreHelpLines(u, original, lines)
  {
    hide Shows;
    hide SectionAfter;
    hide ColumnCells;
    hide Flat;
    hide TrimSpace;
    hide Sequences;
    hide FirstColumn;
  }

  lemma NoSection(u: Unicode, lines: seq<string>)
    ensures SectionAfter(u, lines[..0]) == ""
  {
  }

  lemma EmptyHelp(u: Unicode)
    ensures Shows("", HelpCells(u, Split(""), ""))
    ensures Split("") == [""] && Join([""]) == "" && AreHelpLines(u, Split(""), [""])
  {
    ShowsPlain("");
    HelpCellsText(u, Split(""), "");
    assert HelpCells(u, Split(""), "") == [];
  }

  /** One turn of the loop: a heading, a blank line, or a line of a section. */
  method RenderHelpLine(u: Unicode, line: string, section: string) returns (painted: string)
    requires EscFree(line)
    ensures Shows(painted, HelpLineCells(u, line, section))
    ensures var trimmed := TrimSpace(u, line);
      if trimmed in {"Usage:", "Aliases:", "Examples:", "Available Commands:", "Flags:", "Global Flags:",
                     "Additional help topics:"} then Shows(painted, Flat(line, Sequences(Header)))
      else if trimmed != "" && section in {"Available Commands:", "Additional help topics:", "Flags:", "Global Flags:"}
      then Shows(painted, ColumnCells(line, FirstColumn(line).0, FirstColumn(line).1))
      else Shows(painted, Flat(line, []))
  {
    hide Shows;
    hide PaintHelpFirstColumn;
    hide ColumnCells;
    hide FirstColumn;
    hide Flat;
    var trimmed := TrimSpace(u, line);
    ShowsPlain(line);
    if IsHeading(trimmed) {
      ShowsPaint(Header, line);
      return Style(true).Paint(Header, line);
    }
    if trimmed == "" {
      return line;
    }
    if ColumnSection(section) {
      PaintedColumn(line);
      return PaintHelpFirstColumn(line);
    }
    return line;
  }
}
