/** Terminal styling (internal/cli/color.go). What a painter does is stated on a
    small terminal: the characters shown, each with the control sequences in
    force. Every renderer shows exactly its input text, with the styles its rules
    name, and leaves the terminal reset; so stripping its output gives the input
    back. Renderer inputs are free of ESC: they were sanitised before. */
module Styling {
  import opened Prelude
  import opened TerminalText

  // ---------------------------------------------------------------------------
  // A terminal
  // ---------------------------------------------------------------------------

  /** A shown character and the sequences in force, oldest first. */
  datatype Cell = Cell(c: char, style: seq<string>)

  function After(active: seq<string>, sequence: string): seq<string> {
    if sequence == RESET then [] else active + [sequence]
  }

  function Cells(s: string, active: seq<string>): seq<Cell>
    decreases |s|
  {
    if s == "" then []
    else
      var n := SequenceLength(s);
      if n > 0 then Cells(s[n..], After(active, s[..n]))
      else [Cell(s[0], active)] + Cells(s[1..], active)
  }

  function Active(s: string, active: seq<string>): seq<string>
    decreases |s|
  {
    if s == "" then active
    else
      var n := SequenceLength(s);
      if n > 0 then Active(s[n..], After(active, s[..n])) else Active(s[1..], active)
  }

  function Chars(cells: seq<Cell>): (r: string)
    ensures |r| == |cells| && forall i :: 0 <= i < |r| ==> r[i] == cells[i].c
  {
    seq(|cells|, i requires 0 <= i < |cells| => cells[i].c)
  }

  function Flat(text: string, style: seq<string>): (r: seq<Cell>)
    ensures |r| == |text| && forall i :: 0 <= i < |r| ==> r[i] == Cell(text[i], style)
  {
    seq(|text|, i requires 0 <= i < |text| => Cell(text[i], style))
  }

  lemma CharsAppend(a: seq<Cell>, b: seq<Cell>)
    ensures Chars(a + b) == Chars(a) + Chars(b)
  {
  }

  lemma CharsFlat(text: string, style: seq<string>)
    ensures Chars(Flat(text, style)) == text
  {
  }

  /** On a reset terminal, `output` shows `cells` and leaves the terminal reset. */
  ghost predicate Shows(output: string, cells: seq<Cell>) {
    Closed(output) && Cells(output, []) == cells && Active(output, []) == []
  }

  lemma CellsStep(s: string, active: seq<string>)
    requires s != ""
    ensures var n := SequenceLength(s);
      && (n > 0 ==> Cells(s, active) == Cells(s[n..], After(active, s[..n]))
                    && Active(s, active) == Active(s[n..], After(active, s[..n])))
      && (n == 0 ==> Cells(s, active) == [Cell(s[0], active)] + Cells(s[1..], active)
                     && Active(s, active) == Active(s[1..], active))
  {
  }

  lemma {:induction false} CellsAppend(a: string, b: string, active: seq<string>)
    requires Closed(a)
    ensures Cells(a + b, active) == Cells(a, active) + Cells(b, Active(a, active))
    ensures Active(a + b, active) == Active(b, Active(a, active))
    decreases |a|
  {
    if a == "" {
      assert a + b == b;
      return;
    }
    hide Cells;
    hide Active;
    hide After;
    hide Closed;
    hide SequenceLength;
    CellsStep(a, active);
    CellsStep(a + b, active);
    ClosedStep(a, b);
    var n := SequenceLength(a);
    if n > 0 {
      Slicing(a, b, n);
      CellsAppend(a[n..], b, After(active, a[..n]));
    } else {
      Slicing(a, b, 1);
      CellsAppend(a[1..], b, active);
      Regroup([Cell(a[0], active)], Cells(a[1..], active), Cells(b, Active(a, active)));
    }
  }

  lemma {:induction false} EscFreeCells(text: string, active: seq<string>)
    requires EscFree(text)
    ensures Closed(text) && Cells(text, active) == Flat(text, active) && Active(text, active) == active
    decreases |text|
  {
    if text != "" {
      EscFreeCells(text[1..], active);
    }
  }

  lemma {:induction false} StripIsChars(s: string, active: seq<string>)
    ensures Strip(s) == Chars(Cells(s, active))
    decreases |s|
  {
    if s != "" {
      var n := SequenceLength(s);
      if n > 0 {
        StripIsChars(s[n..], After(active, s[..n]));
      } else {
        StripIsChars(s[1..], active);
      }
    }
  }

  lemma ShowsAppend(a: string, x: seq<Cell>, b: string, y: seq<Cell>)
    requires Shows(a, x) && Shows(b, y)
    ensures Shows(a + b, x + y)
  {
    CellsAppend(a, b, []);
    ClosedConcat(a, b);
  }

  lemma ShowsPlain(text: string)
    requires EscFree(text)
    ensures Shows(text, Flat(text, []))
  {
    EscFreeCells(text, []);
  }

  // ---------------------------------------------------------------------------
  // Painting
  // ---------------------------------------------------------------------------

  const BOLD: string := [ESC, '[', '1', 'm']
  const DIM: string := [ESC, '[', '2', 'm']
  const RED: string := [ESC, '[', '3', '1', 'm']
  const GREEN: string := [ESC, '[', '3', '2', 'm']
  const YELLOW: string := [ESC, '[', '3', '3', 'm']
  const MAGENTA: string := [ESC, '[', '3', '5', 'm']
  const CYAN: string := [ESC, '[', '3', '6', 'm']

  datatype Role = Title | Header | Prompt | Label | Success | Warning | Danger | Review | Code | Strong

  function Sequences(role: Role): (r: seq<string>)
    ensures 1 <= |r| <= 2 && forall i :: 0 <= i < |r| ==> r[i] in {BOLD, DIM, RED, GREEN, YELLOW, MAGENTA, CYAN}
  {
    match role
    case Title => [BOLD, CYAN]
    case Header => [BOLD, CYAN]
    case Prompt => [BOLD, CYAN]
    case Label => [DIM]
    case Success => [GREEN]
    case Warning => [YELLOW]
    case Danger => [BOLD, RED]
    case Review => [MAGENTA]
    case Code => [CYAN]
    case Strong => [BOLD]
  }

  function CodeOf(role: Role): string {
    var s := Sequences(role);
    if |s| == 1 then s[0] else s[0] + s[1]
  }

  datatype Style = Style(enabled: bool) {
    function Paint(role: Role, text: string): string {
      if !enabled || text == "" then text else CodeOf(role) + text + RESET
    }
  }

  /** The roles use complete sequences other than the reset. */
  lemma {:induction false} SequenceAlone(code: string, active: seq<string>)
    requires code in {BOLD, DIM, RED, GREEN, YELLOW, MAGENTA, CYAN, RESET}
    ensures SequenceLength(code) == |code| && Closed(code)
    ensures Cells(code, active) == [] && Active(code, active) == After(active, code)
  {
    FirstFinal(code, 2, |code| - 1);
    assert code[|code|..] == "" && code[..|code|] == code;
  }

  lemma NotReset(code: string)
    requires code in {BOLD, DIM, RED, GREEN, YELLOW, MAGENTA, CYAN}
    ensures code != RESET
  {
    assert code[2] != '0';
  }

  lemma {:induction false} CodeCells(role: Role, active: seq<string>)
    ensures Closed(CodeOf(role)) && Cells(CodeOf(role), active) == []
    ensures Active(CodeOf(role), active) == active + Sequences(role)
  {
    hide Cells;
    hide Active;
    hide Closed;
    var s := Sequences(role);
    hide Sequences;
    SequenceAlone(s[0], active);
    NotReset(s[0]);
    assert After(active, s[0]) == active + [s[0]];
    if |s| == 2 {
      SequenceAlone(s[1], active + [s[0]]);
      NotReset(s[1]);
      CellsAppend(s[0], s[1], active);
      ClosedConcat(s[0], s[1]);
      assert s == [s[0], s[1]];
      assert active + [s[0]] + [s[1]] == active + s;
    } else {
      assert s == [s[0]];
    }
  }

  /** Painted text is closed, shows the text in the role's sequences on top of
      those in force, and resets everything. */
  lemma PaintCells(role: Role, text: string, active: seq<string>)
    requires EscFree(text) && text != ""
    ensures var p := Style(true).Paint(role, text);
      Closed(p) && Cells(p, active) == Flat(text, active + Sequences(role)) && Active(p, active) == []
  {
    hide Cells;
    hide Active;
    hide Closed;
    hide Sequences;
    hide CodeOf;
    var code := CodeOf(role);
    CodeCells(role, active);
    EscFreeCells(text, active + Sequences(role));
    SequenceAlone(RESET, active + Sequences(role));
    CellsAppend(code, text, active);
    ClosedConcat(code, text);
    CellsAppend(code + text, RESET, active);
    ClosedConcat(code + text, RESET);
    assert [] + Flat(text, active + Sequences(role)) + [] == Flat(text, active + Sequences(role));
  }

  lemma ShowsPaint(role: Role, text: string)
    requires EscFree(text)
    ensures Shows(Style(true).Paint(role, text), Flat(text, Sequences(role)))
  {
    if text == "" {
      ShowsPlain("");
    } else {
      PaintCells(role, text, []);
      assert [] + Sequences(role) == Sequences(role);
    }
  }

  /** Cut text leaves the terminal reset, if all its sequences were complete. */
  lemma {:induction false} TruncatedIsReset(u: Unicode, s: string, limit: int)
    requires Closed(s) && 0 < limit < Width(u, s)
    ensures Closed(Truncated(u, s, limit)) && Active(Truncated(u, s, limit), []) == []
  {
    hide *;
    CutText(u, s, limit);
    KeptIsClosed(u, s, limit - 1);
    var n := Fit(u, s, limit - 1);
    if HasSequence(s, n) {
      KeptThenReset(s[..n]);
    } else {
      KeptPlain(s[..n]);
      assert s[..n] + ELLIPSIS + "" == s[..n] + ELLIPSIS;
    }
  }

  lemma CutText(u: Unicode, s: string, limit: int)
    requires 0 < limit < Width(u, s)
    ensures var n := Fit(u, s, limit - 1);
      Truncated(u, s, limit) == s[..n] + ELLIPSIS + if HasSequence(s, n) then RESET else ""
  {
  }

  lemma {:induction false} KeptThenReset(kept: string)
    requires Closed(kept)
    ensures Closed(kept + ELLIPSIS + RESET) && Active(kept + ELLIPSIS + RESET, []) == []
  {
    assert EscFree(ELLIPSIS);
    EscFreeCells(ELLIPSIS, Active(kept, []));
    ClosedConcat(kept, ELLIPSIS);
    hide Cells;
    hide Active;
    hide Closed;
    SequenceAlone(RESET, Active(kept + ELLIPSIS, []));
    CellsAppend(kept + ELLIPSIS, RESET, []);
    ClosedConcat(kept + ELLIPSIS, RESET);
  }

  lemma {:induction false} KeptPlain(kept: string)
    requires EscFree(kept)
    ensures Closed(kept + ELLIPSIS) && Active(kept + ELLIPSIS, []) == []
  {
    assert EscFree(kept + ELLIPSIS);
    EscFreeCells(kept + ELLIPSIS, []);
  }
}
