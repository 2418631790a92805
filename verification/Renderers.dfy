/** The painters of internal/cli/color.go that work on one line: table headers,
    state words, severities and labels. */
module Renderers {
  import opened Prelude
  import opened TerminalText
  import opened Styling

  // ---------------------------------------------------------------------------
  // Text helpers
  // ---------------------------------------------------------------------------

  predicate OccursAt(s: string, pattern: string, i: nat) {
    i + |pattern| <= |s| && s[i..i + |pattern|] == pattern
  }

  /** The first position where `pattern` occurs, or -1. */
  function IndexOf(s: string, pattern: string): (r: int)
    ensures -1 <= r && (r >= 0 ==> OccursAt(s, pattern, r))
    ensures forall i: nat :: OccursAt(s, pattern, i) ==> 0 <= r <= i
    decreases |s|
  {
    if OccursAt(s, pattern, 0) then 0
    else if s == "" then -1
    else
      assert forall i: nat :: i > 0 && OccursAt(s, pattern, i) ==> OccursAt(s[1..], pattern, i - 1) by {
        forall i: nat | i > 0 && OccursAt(s, pattern, i) ensures OccursAt(s[1..], pattern, i - 1) {
          assert s[1..][i - 1..i - 1 + |pattern|] == s[i..i + |pattern|];
        }
      }
      var r := IndexOf(s[1..], pattern);
      assert r >= 0 ==> s[1..][r..r + |pattern|] == s[r + 1..r + 1 + |pattern|];
      if r == -1 then -1 else r + 1
  }

  function TrimLeft(u: Unicode, s: string): string {
    if s != "" && u.isSpace(s[0]) then TrimLeft(u, s[1..]) else s
  }

  function TrimRight(u: Unicode, s: string): string {
    if s != "" && u.isSpace(s[|s| - 1]) then TrimRight(u, s[..|s| - 1]) else s
  }

  function TrimSpace(u: Unicode, s: string): string {
    TrimRight(u, TrimLeft(u, s))
  }

  /** Trimming removes the spaces in front and behind, and no more. */
  lemma {:induction false} TrimExactly(u: Unicode, s: string) returns (a: string, b: string)
    ensures s == a + TrimSpace(u, s) + b
    ensures (forall c :: c in a ==> u.isSpace(c)) && (forall c :: c in b ==> u.isSpace(c))
    ensures var t := TrimSpace(u, s); t != "" ==> !u.isSpace(t[0]) && !u.isSpace(t[|t| - 1])
  {
    a := TrimLeftExactly(u, s);
    b := TrimRightExactly(u, TrimLeft(u, s));
    var l, t := TrimLeft(u, s), TrimSpace(u, s);
    assert l == t + b;
    Regroup(a, t, b);
    if t != "" {
      assert l[0] == t[0];
    }
  }

  lemma {:induction false} TrimLeftExactly(u: Unicode, s: string) returns (a: string)
    ensures s == a + TrimLeft(u, s) && (forall c :: c in a ==> u.isSpace(c))
    ensures TrimLeft(u, s) != "" ==> !u.isSpace(TrimLeft(u, s)[0])
    decreases |s|
  {
    a := "";
    if s != "" && u.isSpace(s[0]) {
      var rest := TrimLeftExactly(u, s[1..]);
      a := [s[0]] + rest;
      assert s == [s[0]] + s[1..];
    }
  }

  lemma {:induction false} TrimRightExactly(u: Unicode, s: string) returns (b: string)
    ensures s == TrimRight(u, s) + b && (forall c :: c in b ==> u.isSpace(c))
    ensures var t := TrimRight(u, s); t != "" ==> !u.isSpace(t[|t| - 1])
    decreases |s|
  {
    b := "";
    if s != "" && u.isSpace(s[|s| - 1]) {
      var rest := TrimRightExactly(u, s[..|s| - 1]);
      b := rest + [s[|s| - 1]];
      assert s == s[..|s| - 1] + [s[|s| - 1]];
    } else {
      assert s + "" == s;
    }
  }

  /** The UTF-8 length: byte offsets in the source count these. */
  function Utf8Length(s: string): nat {
    if s == "" then 0
    else
      var c := s[0];
      (if c < '\U{80}' then 1 else if c < '\U{800}' then 2 else if c < '\U{10000}' then 3 else 4) + Utf8Length(s[1..])
  }

  function NewlineAt(s: string): (k: nat)
    ensures k <= |s| && (k < |s| ==> s[k] == '\n')
    ensures forall i :: 0 <= i < k ==> s[i] != '\n'
  {
    if s == "" || s[0] == '\n' then 0 else 1 + NewlineAt(s[1..])
  }

  /** The pieces between newlines, each with its newline. */
  function SplitAfter(s: string): seq<string>
    decreases |s|
  {
    var k := NewlineAt(s);
    if k < |s| then [s[..k + 1]] + SplitAfter(s[k + 1..]) else [s]
  }

  /** The pieces between newlines. */
  function Split(s: string): (r: seq<string>)
    ensures r != []
    decreases |s|
  {
    var k := NewlineAt(s);
    if k < |s| then [s[..k]] + Split(s[k + 1..]) else [s]
  }

  function Join(lines: seq<string>): string
    requires lines != []
  {
    if |lines| == 1 then lines[0] else lines[0] + "\n" + Join(lines[1..])
  }

  // ---------------------------------------------------------------------------
  // Header columns
  // ---------------------------------------------------------------------------

  /** Every character that is not a space is a header character. */
  function HeaderCells(u: Unicode, line: string): (r: seq<Cell>)
    ensures |r| == |line|
    ensures forall i :: 0 <= i < |r| ==> r[i] == Cell(line[i], if u.isSpace(line[i]) then [] else Sequences(Header))
  {
    seq(|line|, i requires 0 <= i < |line| => Cell(line[i], if u.isSpace(line[i]) then [] else Sequences(Header)))
  }

  method PaintHeaderColumns(u: Unicode, line: string) returns (output: string)
    requires EscFree(line)
    ensures Shows(output, HeaderCells(u, line))
  {
    hide Shows;
    hide Sequences;
    output := "";
    var index := 0;
    ShowsPlain("");
    while index < |line|
      invariant 0 <= index <= |line|
      invariant Shows(output, HeaderCells(u, line[..index]))
    {
      if u.isSpace(line[index]) {
        output := ExtendPlain(u, line, output, index);
        index := index + 1;
        continue;
      }
      var start := index;
      index := WordEnd(u, line, start);
      output := ExtendHeader(u, line, output, start, index);
    }
    assert line[..|line|] == line;
  }

  method WordEnd(u: Unicode, line: string, start: nat) returns (index: nat)
    requires start < |line| && !u.isSpace(line[start])
    ensures start < index <= |line| && forall i :: start <= i < index ==> !u.isSpace(line[i])
  {
    index := start;
    while index < |line|
      invariant start <= index <= |line|
      invariant forall i :: start <= i < index ==> !u.isSpace(line[i])
    {
      if u.isSpace(line[index]) {
        break;
      }
      index := index + 1;
    }
  }

  method ExtendHeader(u: Unicode, line: string, before: string, start: nat, end: nat) returns (output: string)
    requires EscFree(line) && start <= end <= |line|
    requires forall i :: start <= i < end ==> !u.isSpace(line[i])
    requires Shows(before, HeaderCells(u, line[..start]))
    ensures output == before + Style(true).Paint(Header, line[start..end]) && Shows(output, HeaderCells(u, line[..end]))
  {
    hide Shows;
    hide Sequences;
    var word := line[start..end];
    output := before + Style(true).Paint(Header, word);
    ShowsPaint(Header, word);
    ShowsAppend(before, HeaderCells(u, line[..start]), Style(true).Paint(Header, word), Flat(word, Sequences(Header)));
    assert HeaderCells(u, line[..start]) + Flat(word, Sequences(Header)) == HeaderCells(u, line[..end]);
  }

  method ExtendPlain(u: Unicode, line: string, before: string, index: nat) returns (output: string)
    requires EscFree(line) && index < |line| && u.isSpace(line[index])
    requires Shows(before, HeaderCells(u, line[..index]))
    ensures output == before + line[index..index + 1] && Shows(output, HeaderCells(u, line[..index + 1]))
  {
    hide Shows;
    hide Sequences;
    output := before + line[index..index + 1];
    ShowsPlain(line[index..index + 1]);
    ShowsAppend(before, HeaderCells(u, line[..index]), line[index..index + 1], Flat(line[index..index + 1], []));
    assert HeaderCells(u, line[..index]) + Flat(line[index..index + 1], []) == HeaderCells(u, line[..index + 1]);
  }

  /** Mentions a tab or two spaces, has a letter, and apart from upper-case or
      caseless letters only digits, spaces, "_", "-" and "/". */
  ghost predicate TableHeader(u: Unicode, line: string) {
    var trimmed := TrimSpace(u, line);
    && ('\t' in line || IndexOf(line, "  ") >= 0)
    && (exists i :: 0 <= i < |trimmed| && u.isLetter(trimmed[i]))
    && forall i :: 0 <= i < |trimmed| ==> HeaderRune(u, trimmed[i])
  }

  predicate HeaderRune(u: Unicode, c: char) {
    if u.isLetter(c) then !u.isLower(c)
    else u.isDigit(c) || u.isSpace(c) || c in {'_', '-', '/'}
  }

  lemma {:induction false} DoubleSpace(line: string)
    ensures IndexOf(line, "  ") >= 0 <==> exists i :: 0 <= i < |line| - 1 && line[i] == ' ' && line[i + 1] == ' '
  {
    var r := IndexOf(line, "  ");
    hide IndexOf;
    forall i | 0 <= i < |line| - 1 && line[i] == ' ' && line[i + 1] == ' ' ensures OccursAt(line, "  ", i) {
    }
    if r >= 0 {
      assert line[r..r + 2][0] == ' ' && line[r..r + 2][1] == ' ';
    }
  }

  method LooksLikeTableHeader(u: Unicode, line: string) returns (yes: bool)
    ensures yes <==> TableHeader(u, line)
    ensures var trimmed := TrimSpace(u, line);
      yes <==>
        && ('\t' in line || exists i :: 0 <= i < |line| - 1 && line[i] == ' ' && line[i + 1] == ' ')
        && (exists i :: 0 <= i < |trimmed| && u.isLetter(trimmed[i]))
        && forall i :: 0 <= i < |trimmed| ==>
             var c := trimmed[i];
             if u.isLetter(c) then !u.isLower(c) else u.isDigit(c) || u.isSpace(c) || c in {'_', '-', '/'}
  {
    DoubleSpace(line);
    var trimmed := TrimSpace(u, line);
    if trimmed == "" || ('\t' !in line && IndexOf(line, "  ") < 0) {
      return false;
    }
    var letters := 0;
    for k := 0 to |trimmed|
      invariant letters >= 0 && (letters > 0 <==> exists i :: 0 <= i < k && u.isLetter(trimmed[i]))
      invariant forall i :: 0 <= i < k ==> HeaderRune(u, trimmed[i])
    {
      var character := trimmed[k];
      if u.isLetter(character) {
        letters := letters + 1;
        if u.isLower(character) {
          return false;
        }
      } else if !(u.isDigit(character) || u.isSpace(character) || character == '_' || character == '-' || character == '/') {
        return false;
      }
    }
    return letters > 0;
  }

  // ---------------------------------------------------------------------------
  // Semantic tokens
  // ---------------------------------------------------------------------------

  /** The Unicode tables and lower-casing. */
  datatype Rules = Rules(u: Unicode, lower: string -> string)

  predicate SuccessState(s: string) {
    s in {"accepted", "active", "adopted", "built_in", "built_in_native", "clean", "closed", "compatible",
          "complete", "completed", "concluded", "current", "enabled", "healthy", "included", "merged", "passed",
          "published", "qualified", "ready", "recovered", "registered", "resolvable", "succeeded", "supported",
          "valid", "validated"}
  }

  predicate WarningState(s: string) {
    s in {"abandoned", "assisted", "cancelled", "capture", "capturing", "degraded", "developing", "dirty",
          "dismissed", "draft", "dropped", "excluded", "fallback", "inconclusive", "installed_not_probed",
          "limited", "open", "partial", "paused", "pending", "planned", "preempted", "queued", "retired",
          "rolled_back", "running", "saturated", "stale", "started", "starting", "superseded", "uncertain",
          "unknown", "untrusted"}
  }

  predicate DangerState(s: string) {
    s in {"blocked", "conflict", "error", "errored", "failed", "incompatible", "invalid", "misconfigured",
          "missing", "orphaned", "out_of_memory", "refuted", "rejected", "timed_out", "unavailable", "unsafe",
          "unsupported"}
  }

  predicate ReviewState(s: string) {
    s in {"human_review", "manual", "needs_review", "proposed", "review", "review_required"}
  }

  function Underscored(s: string): string {
    seq(|s|, i requires 0 <= i < |s| => if s[i] == '-' then '_' else s[i])
  }

  /** The role a domain state is painted in, if it is a known one. */
  function StateRole(t: Rules, state: string): Option<Role> {
    var normalized := Underscored(t.lower(TrimSpace(t.u, state)));
    if SuccessState(normalized) then Some(Success)
    else if WarningState(normalized) then Some(Warning)
    else if DangerState(normalized) then Some(Danger)
    else if ReviewState(normalized) then Some(Review)
    else None
  }

  /** Spaces around a state, its case, and whether it is written with "-" or "_" make
      no difference. */
  lemma StateSpelling(t: Rules, a: string, b: string)
    requires var x, y := t.lower(TrimSpace(t.u, a)), t.lower(TrimSpace(t.u, b));
      |x| == |y| && forall i :: 0 <= i < |x| ==> x[i] == y[i] || (x[i] in {'-', '_'} && y[i] in {'-', '_'})
    ensures StateRole(t, a) == StateRole(t, b)
  {
    var x, y := t.lower(TrimSpace(t.u, a)), t.lower(TrimSpace(t.u, b));
    hide TrimSpace;
    assert Underscored(x) == Underscored(y);
    hide *;
  }

  function DomainState(t: Rules, state: string, text: string): string {
    match StateRole(t, state)
    case Some(role) => Style(true).Paint(role, text)
    case None => text
  }

  predicate TokenRune(u: Unicode, c: char) {
    u.isLetter(c) || u.isDigit(c) || c == '_' || c == '-'
  }

  function TokenLength(u: Unicode, s: string): (n: nat)
    ensures n <= |s| && (forall i :: 0 <= i < n ==> TokenRune(u, s[i]))
    ensures n < |s| ==> !TokenRune(u, s[n])
  {
    if s == "" || !TokenRune(u, s[0]) then 0 else 1 + TokenLength(u, s[1..])
  }

  /** Shown cells and the sequences left in force. */
  datatype Picture = Picture(cells: seq<Cell>, active: seq<string>) {
    function Behind(front: seq<Cell>): Picture { Picture(front + cells, active) }
  }

  /** What is shown when every known state among the words of `s` is painted.
      Painting a word adds its role to the styles in force, and ends them all. */
  function Sem(t: Rules, s: string, active: seq<string>): Picture
    decreases |s|
  {
    if s == "" then Picture([], active)
    else
      var n, k := SequenceLength(s), TokenLength(t.u, s);
      if n > 0 then Sem(t, s[n..], After(active, s[..n]))
      else if k == 0 then Sem(t, s[1..], active).Behind([Cell(s[0], active)])
      else
        match StateRole(t, s[..k])
        case None => Sem(t, s[k..], active).Behind(Flat(s[..k], active))
        case Some(role) => Sem(t, s[k..], []).Behind(Flat(s[..k], active + Sequences(role)))
  }

  function SemToken(t: Rules, s: string, k: nat, active: seq<string>): Picture
    requires 0 < k <= |s|
  {
    match StateRole(t, s[..k])
    case None => Sem(t, s[k..], active).Behind(Flat(s[..k], active))
    case Some(role) => Sem(t, s[k..], []).Behind(Flat(s[..k], active + Sequences(role)))
  }

  lemma SemStep(t: Rules, s: string, active: seq<string>)
    requires s != ""
    ensures var n, k := SequenceLength(s), TokenLength(t.u, s);
      && (n > 0 ==> Sem(t, s, active) == Sem(t, s[n..], After(active, s[..n])))
      && (n == 0 && k == 0 ==> Sem(t, s, active) == Sem(t, s[1..], active).Behind([Cell(s[0], active)]))
      && (n == 0 && k > 0 ==> Sem(t, s, active) == SemToken(t, s, k, active))
  {
  }

  /** The output so far and the rest of the line together give the whole picture. */
  ghost predicate Painted(t: Rules, line: string, output: string, rest: string) {
    && Closed(output) && Closed(rest)
    && Sem(t, line, []) == Sem(t, rest, Active(output, [])).Behind(Cells(output, []))
  }

  lemma {:induction false} PaintedSequence(t: Rules, line: string, output: string, rest: string)
    requires Painted(t, line, output, rest) && SequenceLength(rest) > 0
    ensures var n := SequenceLength(rest); Painted(t, line, output + rest[..n], rest[n..])
  {
    var n := SequenceLength(rest);
    var code := rest[..n];
    CutFront(rest, n);
    assert code[n..] == "" && code[..n] == code;
    assert Closed(code);
    CellsStep(code, Active(output, []));
    SemStep(t, rest, Active(output, []));
    ClosedStep(rest, "");
    hide Sem;
    hide Closed;
    hide After;
    CellsAppend(output, code, []);
    ClosedConcat(output, code);
    hide Cells;
    hide Active;
    assert Cells(output, []) + [] == Cells(output, []);
  }

  lemma {:induction false} PaintedCharacter(t: Rules, line: string, output: string, rest: string)
    requires Painted(t, line, output, rest) && rest != "" && SequenceLength(rest) == 0 && !TokenRune(t.u, rest[0])
    ensures Painted(t, line, output + rest[..1], rest[1..])
  {
    SemStep(t, rest, Active(output, []));
    ClosedStep(rest, "");
    EscFreeCells(rest[..1], Active(output, []));
    hide Sem;
    hide Closed;
    CellsAppend(output, rest[..1], []);
    ClosedConcat(output, rest[..1]);
    hide Cells;
    hide Active;
    Regroup(Cells(output, []), [Cell(rest[0], Active(output, []))], Sem(t, rest[1..], Active(output, [])).cells);
    assert Flat(rest[..1], Active(output, [])) == [Cell(rest[0], Active(output, []))];
  }

  lemma TokenStep(u: Unicode, s: string)
    requires u.Standard() && TokenLength(u, s) > 0
    ensures s != "" && s[0] != ESC && SequenceLength(s) == 0
    ensures TokenLength(u, s[1..]) == TokenLength(u, s) - 1
  {
  }

  lemma {:induction false} ClosedAfterToken(u: Unicode, s: string, k: nat)
    requires u.Standard() && Closed(s) && k <= TokenLength(u, s)
    ensures Closed(s[k..]) && EscFree(s[..k])
    decreases k
  {
    if k == 0 {
      assert s[0..] == s;
      return;
    }
    TokenStep(u, s);
    ClosedStep(s, "");
    hide Closed;
    hide TokenLength;
    hide SequenceLength;
    hide Unicode.Standard;
    ClosedAfterToken(u, s[1..], k - 1);
    ConsFront(s, k);
  }

  lemma ConsFront(s: string, k: nat)
    requires 0 < k <= |s|
    ensures s[..k] == [s[0]] + s[1..][..k - 1] && s[1..][k - 1..] == s[k..]
  {
  }

  lemma PaintedToken(t: Rules, line: string, output: string, rest: string)
    requires t.u.Standard() && Painted(t, line, output, rest)
    requires rest != "" && SequenceLength(rest) == 0 && TokenRune(t.u, rest[0])
    ensures var k := TokenLength(t.u, rest);
      k > 0 && Painted(t, line, output + DomainState(t, rest[..k], rest[..k]), rest[k..])
  {
    var k, active := TokenLength(t.u, rest), Active(output, []);
    SemStep(t, rest, active);
    ClosedAfterToken(t.u, rest, k);
    hide Sem;
    hide Closed;
    hide StateRole;
    hide Cells;
    hide Active;
    var token := rest[..k];
    match StateRole(t, token) {
      case None =>
        EscFreeCells(token, active);
        CellsAppend(output, token, []);
        ClosedConcat(output, token);
        Regroup(Cells(output, []), Flat(token, active), Sem(t, rest[k..], active).cells);
      case Some(role) =>
        var p := Style(true).Paint(role, token);
        PaintCells(role, token, active);
        CellsAppend(output, p, []);
        ClosedConcat(output, p);
        Regroup(Cells(output, []), Flat(token, active + Sequences(role)), Sem(t, rest[k..], []).cells);
    }
  }

  method PaintSemanticTokens(t: Rules, line: string) returns (output: string)
    requires t.u.Standard() && Closed(line)
    ensures Closed(output) && Picture(Cells(output, []), Active(output, [])) == Sem(t, line, [])
  {
    hide Painted;
    hide Sem;
    hide Closed;
    hide Cells;
    hide Active;
    hide StateRole;
    hide DomainState;
    hide TokenLength;
    hide SequenceLength;
    hide Unicode.Standard;
    output := "";
    var index := 0;
    PaintedNothing(t, line);
    assert line[0..] == line;
    while index < |line|
      invariant 0 <= index <= |line| && Painted(t, line, output, line[index..])
      decreases |line| - index
    {
      ghost var rest := line[index..];
      var end := AnsiSequenceEnd(line, index);
      if end > index {
        PaintedSequence(t, line, output, rest);
        Suffix(line, index, end);
        output := output + line[index..end];
        index := end;
        continue;
      }
      assert rest[0] == line[index];
      if !TokenRune(t.u, line[index]) {
        PaintedCharacter(t, line, output, rest);
        Suffix(line, index, index + 1);
        output := output + line[index..index + 1];
        index := index + 1;
        continue;
      }
      PaintedToken(t, line, output, rest);
      var start := index;
      index := TokenEnd(t.u, line, start);
      Suffix(line, start, index);
      output := output + DomainState(t, line[start..index], line[start..index]);
    }
    assert line[|line|..] == "";
    PaintedAll(t, line, output);
  }

  lemma Suffix(line: string, index: nat, end: nat)
    requires index <= end <= |line|
    ensures line[index..][..end - index] == line[index..end]
    ensures line[index..][end - index..] == line[end..]
  {
  }

  method TokenEnd(u: Unicode, line: string, start: nat) returns (index: nat)
    requires start <= |line|
    ensures index == start + TokenLength(u, line[start..])
  {
    index := start;
    while index < |line|
      invariant start <= index <= |line|
      invariant TokenLength(u, line[start..]) == index - start + TokenLength(u, line[index..])
    {
      assert line[index..][0] == line[index] && line[index..][1..] == line[index + 1..];
      if !TokenRune(u, line[index]) {
        break;
      }
      index := index + 1;
    }
  }

  lemma PaintedNothing(t: Rules, line: string)
    requires Closed(line)
    ensures Painted(t, line, "", line)
  {
    hide Sem;
    assert [] + Sem(t, line, []).cells == Sem(t, line, []).cells;
  }

  lemma PaintedAll(t: Rules, line: string, output: string)
    requires Painted(t, line, output, "")
    ensures Closed(output) && Picture(Cells(output, []), Active(output, [])) == Sem(t, line, [])
  {
    hide Cells;
    assert Cells(output, []) + [] == Cells(output, []);
  }

  /** Painting words never changes the text, and leaves a reset terminal reset. */
  lemma {:induction false} SemKeepsText(t: Rules, s: string, active: seq<string>)
    requires t.u.Standard() && EscFree(s)
    ensures Chars(Sem(t, s, active).cells) == s
    ensures active == [] ==> Sem(t, s, active).active == []
    decreases |s|
  {
    if s == "" {
      return;
    }
    hide *;
    var k := TokenLength(t.u, s);
    var m := if k == 0 then 1 else k;
    var next := if k > 0 && StateRole(t, s[..k]).Some? then [] else active;
    var front := SemFront(t, s, active, k, m);
    EscFreeBehind(s, m);
    SemKeepsText(t, s[m..], next);
    CharsOfBoth(front, Sem(t, s[m..], next), s, m);
  }

  lemma EscFreeBehind(s: string, m: nat)
    requires EscFree(s) && m <= |s|
    ensures EscFree(s[m..])
  {
  }

  lemma CharsOfBoth(front: seq<Cell>, p: Picture, s: string, m: nat)
    requires m <= |s| && Chars(front) == s[..m] && Chars(p.cells) == s[m..]
    ensures Chars(p.Behind(front).cells) == s && p.Behind(front).active == p.active
  {
    CharsAppend(front, p.cells);
    assert s == s[..m] + s[m..];
  }

  /** A word: letters, digits, "_" and "-" from a to b, and none of them around. */
  ghost predicate IsWord(u: Unicode, s: string, a: int, b: int) {
    && 0 <= a < b <= |s|
    && (forall i :: a <= i < b ==> u.isLetter(s[i]) || u.isDigit(s[i]) || s[i] == '_' || s[i] == '-')
    && (a > 0 ==> !(u.isLetter(s[a - 1]) || u.isDigit(s[a - 1]) || s[a - 1] == '_' || s[a - 1] == '-'))
    && (b < |s| ==> !(u.isLetter(s[b]) || u.isDigit(s[b]) || s[b] == '_' || s[b] == '-'))
  }

  /** A known state stands somewhere before position i: its reset ended the styles
      that were in force. */
  ghost predicate StateBefore(t: Rules, s: string, i: int) {
    exists a, b :: IsWord(t.u, s, a, b) && b <= i && StateRole(t, s[a..b]).Some?
  }

  ghost function StyleBefore(t: Rules, s: string, active: seq<string>, i: int): seq<string> {
    if StateBefore(t, s, i) then [] else active
  }

  ghost function StyleOf(role: Option<Role>): seq<string> {
    if role.None? then [] else Sequences(role.value)
  }

  /** The first word or character of a text, and the words behind it. */
  lemma {:induction false} WordsBehind(t: Rules, s: string, k: nat, m: nat)
    requires s != "" && k == TokenLength(t.u, s) && m == (if k == 0 then 1 else k)
    ensures forall a, b :: a >= m ==> (IsWord(t.u, s, a, b) <==> IsWord(t.u, s[m..], a - m, b - m))
    ensures forall a, b :: a < m ==> (IsWord(t.u, s, a, b) <==> k > 0 && a == 0 && b == k)
  {
    assert k == 0 ==> !TokenRune(t.u, s[0]);
    assert forall j :: 0 <= j < k ==> TokenRune(t.u, s[j]);
    hide TokenLength;
    forall a, b | a < m ensures IsWord(t.u, s, a, b) <==> k > 0 && a == 0 && b == k {
      assert 0 < a ==> TokenRune(t.u, s[a - 1]);
    }
  }

  lemma {:induction false} StateBehind(t: Rules, s: string, k: nat, m: nat, i: int)
    requires s != "" && k == TokenLength(t.u, s) && m == (if k == 0 then 1 else k) && i >= m
    ensures StateBefore(t, s, i) <==>
      (k > 0 && StateRole(t, s[..k]).Some?) || StateBefore(t, s[m..], i - m)
  {
    WordsBehind(t, s, k, m);
    assert s[0..k] == s[..k];
    hide TokenLength;
    hide StateRole;
    if StateBefore(t, s, i) {
      var a, b :| IsWord(t.u, s, a, b) && b <= i && StateRole(t, s[a..b]).Some?;
      if a >= m {
        ShiftWord(t, s, m, a, b);
        hide IsWord;
        assert IsWord(t.u, s[m..], a - m, b - m);
      }
    }
    if StateBefore(t, s[m..], i - m) {
      var a, b :| IsWord(t.u, s[m..], a, b) && b <= i - m && StateRole(t, s[m..][a..b]).Some?;
      WordBounds(t.u, s[m..], a, b);
      WordFurther(t, s, m, a, b);
    }
  }

  lemma {:induction false} WordFurther(t: Rules, s: string, m: nat, a: int, b: int)
    requires m <= |s| && 0 <= a && IsWord(t.u, s[m..], a, b)
    requires IsWord(t.u, s, a + m, b + m) <==> IsWord(t.u, s[m..], a + m - m, b + m - m)
    ensures IsWord(t.u, s, a + m, b + m) && s[a + m..b + m] == s[m..][a..b]
  {
  }

  lemma WordBounds(u: Unicode, s: string, a: int, b: int)
    requires IsWord(u, s, a, b)
    ensures 0 <= a < b <= |s|
  {
  }

  lemma {:induction false} ShiftWord(t: Rules, s: string, m: nat, a: int, b: int)
    requires m <= |s| && a >= m && (IsWord(t.u, s, a, b) || IsWord(t.u, s[m..], a - m, b - m))
    ensures m <= a < b <= |s| && s[a..b] == s[m..][a - m..b - m]
  {
  }

  lemma {:induction false} FirstAt(t: Rules, s: string, active: seq<string>, a: int, b: int, i: int, k: nat)
    requires t.u.Standard() && EscFree(s) && s != "" && k == TokenLength(t.u, s) && 0 <= i < (if k == 0 then 1 else k)
    requires if k == 0 then a == b == 0 else a == 0 && b == k
    ensures var cells := Sem(t, s, active).cells;
      i < |cells| && cells[i] == Cell(s[i], StyleBefore(t, s, active, a) + StyleOf(if a < b then StateRole(t, s[a..b]) else None))
  {
    SemStep(t, s, active);
    assert s[0] != ESC;
    assert !StateBefore(t, s, 0);
    assert s[0..k] == s[..k];
    assert active + [] == active;
    hide Sem;
    hide StateRole;
    hide StateBefore;
    hide TokenLength;
    hide Sequences;
  }

  lemma {:induction false} BehindAt(t: Rules, s: string, active: seq<string>, k: nat, m: nat, i: int)
    requires t.u.Standard() && EscFree(s) && s != "" && k == TokenLength(t.u, s) && m == (if k == 0 then 1 else k) && m <= i < |s|
    ensures var next := if k > 0 && StateRole(t, s[..k]).Some? then [] else active;
      |Sem(t, s[m..], next).cells| == |s| - m && |Sem(t, s, active).cells| == |s|
      && Sem(t, s, active).cells[i] == Sem(t, s[m..], next).cells[i - m]
  {
    hide *;
    var next := if k > 0 && StateRole(t, s[..k]).Some? then [] else active;
    var front := SemFront(t, s, active, k, m);
    SemCount(t, s, m, next);
    ItemBehind(front, Sem(t, s[m..], next).cells, i);
  }

  lemma {:induction false} SemCount(t: Rules, s: string, m: nat, active: seq<string>)
    requires t.u.Standard() && EscFree(s) && m <= |s|
    ensures |Sem(t, s[m..], active).cells| == |s| - m
  {
    SemKeepsText(t, s[m..], active);
    hide Sem;
  }

  lemma ItemBehind<T>(front: seq<T>, rest: seq<T>, i: int)
    requires |front| <= i < |front| + |rest|
    ensures (front + rest)[i] == rest[i - |front|]
  {
  }

  /** The first word or character, and the picture of what is behind it. */
  lemma {:induction false} SemFront(t: Rules, s: string, active: seq<string>, k: nat, m: nat) returns (front: seq<Cell>)
    requires t.u.Standard() && EscFree(s) && s != "" && k == TokenLength(t.u, s) && m == (if k == 0 then 1 else k)
    ensures var next := if k > 0 && StateRole(t, s[..k]).Some? then [] else active;
      |front| == m && Chars(front) == s[..m] && Sem(t, s, active) == Sem(t, s[m..], next).Behind(front)
      && Sem(t, s, active).cells == front + Sem(t, s[m..], next).cells
  {
    SemStep(t, s, active);
    assert s[0] != ESC;
    hide Sem;
    hide StateRole;
    hide TokenLength;
    hide Sequences;
    if k == 0 {
      front := [Cell(s[0], active)];
    } else {
      front := Flat(s[..k], active + StyleOf(StateRole(t, s[..k])));
      assert active + [] == active;
    }
  }

  /** What each character of an ESC-free text shows as. A word that is a known state
      shows in its role, any other character in none; on top of that, the styles in
      force at the start last until the first known state has ended. */
  lemma {:induction false} SemAt(t: Rules, s: string, active: seq<string>, a: int, b: int, i: int)
    requires t.u.Standard() && EscFree(s) && 0 <= i < |s|
    requires (IsWord(t.u, s, a, b) && a <= i < b) || (a == b == i && !TokenRune(t.u, s[i]))
    ensures |Sem(t, s, active).cells| == |s|
    ensures Sem(t, s, active).cells[i] ==
            Cell(s[i], StyleBefore(t, s, active, a) + StyleOf(if a < b then StateRole(t, s[a..b]) else None))
    decreases |s|
  {
    hide Sem;
    hide StateRole;
    hide Sequences;
    hide IsWord;
    hide StateBefore;
    hide TokenLength;
    hide Unicode.Standard;
    SemKeepsText(t, s, active);
    var k := TokenLength(t.u, s);
    var m := if k == 0 then 1 else k;
    if i < m {
      FirstPlace(t, s, k, m, a, b, i);
      FirstAt(t, s, active, a, b, i, k);
    } else {
      var next := if k > 0 && StateRole(t, s[..k]).Some? then [] else active;
      PlaceBehind(t, s, k, m, a, b, i);
      SemAt(t, s[m..], next, a - m, b - m, i - m);
      BehindAt(t, s, active, k, m, i);
    }
  }

  lemma {:induction false} FirstPlace(t: Rules, s: string, k: nat, m: nat, a: int, b: int, i: int)
    requires s != "" && k == TokenLength(t.u, s) && m == (if k == 0 then 1 else k) && 0 <= i < m
    requires (IsWord(t.u, s, a, b) && a <= i < b) || (a == b == i && !TokenRune(t.u, s[i]))
    ensures if k == 0 then a == b == 0 else a == 0 && b == k
  {
    WordsBehind(t, s, k, m);
  }

  /** The same word or character, seen from the text behind the first one. */
  lemma {:induction false} PlaceBehind(t: Rules, s: string, k: nat, m: nat, a: int, b: int, i: int)
    requires EscFree(s) && s != "" && k == TokenLength(t.u, s) && m == (if k == 0 then 1 else k) && m <= i < |s|
    requires (IsWord(t.u, s, a, b) && a <= i < b) || (a == b == i && !TokenRune(t.u, s[i]))
    ensures EscFree(s[m..]) && s[m..][i - m] == s[i] && a >= m
    ensures (IsWord(t.u, s[m..], a - m, b - m) && a <= i < b) || (a == b == i && !TokenRune(t.u, s[i]))
    ensures a < b ==> a >= m && b <= |s| && s[a..b] == s[m..][a - m..b - m]
    ensures StateBefore(t, s, a) <==> (k > 0 && StateRole(t, s[..k]).Some?) || StateBefore(t, s[m..], a - m)
  {
    hide *;
    EscFreeBehind(s, m);
    WordStart(t, s, k, m, a, b, i);
    StateBehind(t, s, k, m, a);
    if a < b {
      ShiftWord(t, s, m, a, b);
    }
  }

  lemma {:induction false} WordStart(t: Rules, s: string, k: nat, m: nat, a: int, b: int, i: int)
    requires s != "" && k == TokenLength(t.u, s) && m == (if k == 0 then 1 else k)
    requires m <= i && (a == b == i || (a <= i < b && IsWord(t.u, s, a, b)))
    ensures a >= m && (IsWord(t.u, s, a, b) ==> IsWord(t.u, s[m..], a - m, b - m))
  {
    hide *;
    WordsBehind(t, s, k, m);
  }

  // ---------------------------------------------------------------------------
  // Human lines
  // ---------------------------------------------------------------------------

  /** The front part of a line that is painted before its words are. */
  datatype Emphasis = Plain | Lead(n: nat, role: Role)

  predicate StartsWord(line: string, word: string) {
    line == word || word + " " <= line
  }

  function SeverityOf(line: string): (e: Emphasis)
    ensures e.Lead? ==> 0 < e.n <= |line|
  {
    if StartsWord(line, "ERROR") then Lead(5, Danger)
    else if StartsWord(line, "WARNING") then Lead(7, Warning)
    else if StartsWord(line, "INFO") then Lead(4, Label)
    else Plain
  }

  /** A label: text up to a colon within the first 32 bytes, free of tabs. */
  function LabelOf(line: string): (e: Emphasis)
    ensures e.Lead? ==> 0 < e.n <= |line|
  {
    var colon := IndexOf(line, ":");
    if colon > 0 && Utf8Length(line[..colon]) <= 32 && '\t' !in line[..colon + 1] && '\n' !in line[..colon + 1]
    then Lead(colon + 1, Label)
    else Plain
  }

  function EmphasisOf(line: string): (e: Emphasis)
    ensures e.Lead? ==> 0 < e.n <= |line|
  {
    if SeverityOf(line).Lead? then SeverityOf(line) else LabelOf(line)
  }

  /** The words of the emphasised part are painted over its role, the words of
      the rest over nothing. */
  function HumanLineCells(t: Rules, line: string): seq<Cell> {
    LeadCells(t, line, EmphasisOf(line))
  }

  function LeadCells(t: Rules, line: string, e: Emphasis): seq<Cell>
    requires e.Lead? ==> e.n <= |line|
  {
    if e.Plain? then Sem(t, line, []).cells
    else Sem(t, line[..e.n], Sequences(e.role)).cells + Sem(t, line[e.n..], []).cells
  }

  function Emphasised(line: string, e: Emphasis): string
    requires e.Lead? ==> e.n <= |line|
  {
    if e.Plain? then line else Style(true).Paint(e.role, line[..e.n]) + line[e.n..]
  }

  lemma LeadText(role: Role, p: string, rest: string)
    requires EscFree(p) && EscFree(rest) && p != ""
    ensures var q := Style(true).Paint(role, p) + rest;
      Closed(q) && Opens(q) && Strip(q) == p + rest
  {
    var q := Style(true).Paint(role, p);
    PaintCells(role, p, []);
    OpensWithCode(role, p, rest);
    EscFreeCells(rest, []);
    hide Cells;
    hide Active;
    hide Closed;
    hide Strip;
    hide Opens;
    hide Sequences;
    hide Chars;
    hide Flat;
    ClosedConcat(q, rest);
    CellsAppend(q, rest, []);
    StripIsChars(q + rest, []);
    CharsAppend(Flat(p, [] + Sequences(role)), Flat(rest, []));
    CharsFlat(p, [] + Sequences(role));
    CharsFlat(rest, []);
  }

  lemma EmphasisedText(line: string, e: Emphasis)
    requires EscFree(line) && (e.Lead? ==> 0 < e.n <= |line|)
    ensures Closed(Emphasised(line, e)) && Strip(Emphasised(line, e)) == line
    ensures e.Lead? ==> Opens(Emphasised(line, e))
    ensures e.Plain? ==> !Opens(line)
  {
    hide Strip;
    hide Closed;
    hide Style.Paint;
    if e.Plain? {
      EscFreeIsClosed(line);
    } else {
      LeadText(e.role, line[..e.n], line[e.n..]);
      assert line == line[..e.n] + line[e.n..];
    }
  }

  lemma OpensWithCode(role: Role, p: string, rest: string)
    requires p != ""
    ensures Opens(Style(true).Paint(role, p) + rest)
  {
    var code := CodeOf(role);
    assert code[0] == ESC && code[1] == '[' && |code| >= 2;
    var q := code + p + RESET + rest;
    assert q[0] == code[0] && q[1] == code[1];
  }

  /** A label ends in the first colon, behind at most 32 bytes and no tab or newline. */
  ghost predicate IsLabel(line: string, k: int) {
    && 0 < k < |line| && line[k] == ':' && Utf8Length(line[..k]) <= 32
    && forall i :: 0 <= i < k ==> line[i] != ':' && line[i] != '\t' && line[i] != '\n'
  }

  /** A severity word at the start, alone or before a space; else a label; else
      nothing is painted before the words. */
  lemma {:induction false} EmphasisExactly(line: string)
    ensures line == "ERROR" || "ERROR " <= line ==> EmphasisOf(line) == Lead(5, Danger)
    ensures line == "WARNING" || "WARNING " <= line ==> EmphasisOf(line) == Lead(7, Warning)
    ensures line == "INFO" || "INFO " <= line ==> EmphasisOf(line) == Lead(4, Label)
    ensures !(line == "ERROR" || "ERROR " <= line || line == "WARNING" || "WARNING " <= line || line == "INFO" || "INFO " <= line) ==>
      && (forall k :: IsLabel(line, k) ==> EmphasisOf(line) == Lead(k + 1, Label))
      && ((forall k :: !IsLabel(line, k)) ==> EmphasisOf(line) == Plain)
  {
    LabelExactly(line);
    hide LabelOf;
    hide IsLabel;
    assert "ERROR" + " " == "ERROR " && "WARNING" + " " == "WARNING " && "INFO" + " " == "INFO ";
    assert "ERROR"[0] == "ERROR "[0] == 'E' && "WARNING"[0] == "WARNING "[0] == 'W' && "INFO"[0] == "INFO "[0] == 'I';
    assert line != "" ==> (line == "ERROR" || "ERROR " <= line ==> line[0] == 'E');
    assert line != "" ==> (line == "WARNING" || "WARNING " <= line ==> line[0] == 'W');
    assert line != "" ==> (line == "INFO" || "INFO " <= line ==> line[0] == 'I');
  }

  lemma {:induction false} LabelExactly(line: string)
    ensures forall k :: IsLabel(line, k) ==> LabelOf(line) == Lead(k + 1, Label)
    ensures (forall k :: !IsLabel(line, k)) ==> LabelOf(line) == Plain
  {
    var colon := IndexOf(line, ":");
    hide IndexOf;
    hide Utf8Length;
    assert forall i: nat :: i < |line| && line[i] == ':' ==> line[i..i + 1] == ":" && OccursAt(line, ":", i);
    if colon >= 0 {
      assert line[colon..colon + 1][0] == ':';
      assert forall i :: 0 <= i < colon ==> line[..colon + 1][i] == line[i];
      assert line[..colon + 1] == line[..colon] + [':'];
      assert IsLabel(line, colon) <==> LabelOf(line) == Lead(colon + 1, Label);
    }
  }

  method PaintHumanLine(t: Rules, line: string) returns (output: string)
    requires t.u.Standard() && EscFree(line)
    ensures Shows(output, HumanLineCells(t, line))
    ensures EmphasisOf(line).Plain? ==> Shows(output, Sem(t, line, []).cells)
    ensures EmphasisOf(line).Lead? ==>
      var e := EmphasisOf(line); Shows(output, Sem(t, line[..e.n], Sequences(e.role)).cells + Sem(t, line[e.n..], []).cells)
  {
    hide Sem;
    hide SeverityOf;
    hide Cells;
    hide Active;
    hide Sequences;
    hide Closed;
    if line == "" {
      EmptyLine(t);
      return line;
    }
    var severity := SeverityOf(line);
    var painted := Emphasised(line, severity);
    EmphasisedText(line, severity);
    var plain := StripANSI(painted);
    var colon := IndexOf(plain, ":");
    ghost var emphasis := severity;
    if colon > 0 && Utf8Length(plain[..colon]) <= 32 {
      var front := plain[..colon + 1];
      if '\t' !in front && '\n' !in front && !Opens(painted) {
        painted := Style(true).Paint(Label, painted[..colon + 1]) + painted[colon + 1..];
        emphasis := Lead(colon + 1, Label);
      }
    }
    assert emphasis == EmphasisOf(line);
    EmphasisedText(line, emphasis);
    output := PaintSemanticTokens(t, painted);
    EmphasisedPicture(t, line, emphasis);
  }

  lemma EmptyLine(t: Rules)
    ensures Shows("", HumanLineCells(t, ""))
  {
    assert SeverityOf("").Plain?;
    assert LabelOf("").Plain?;
  }

  lemma EmphasisedPicture(t: Rules, line: string, e: Emphasis)
    requires t.u.Standard() && EscFree(line) && (e.Lead? ==> 0 < e.n <= |line|)
    ensures Sem(t, Emphasised(line, e), []) == Picture(LeadCells(t, line, e), [])
  {
    hide Sem;
    match e {
      case Plain =>
        SemKeepsText(t, line, []);
      case Lead(n, role) =>
        var p, rest := line[..n], line[n..];
        SemCode(t, role, p + (RESET + rest));
        assert Emphasised(line, e) == CodeOf(role) + (p + (RESET + rest));
        SemThenReset(t, p, rest, Sequences(role));
        SemKeepsText(t, rest, []);
    }
  }

  lemma SemOneCode(t: Rules, code: string, rest: string, active: seq<string>)
    requires code in {BOLD, DIM, RED, GREEN, YELLOW, MAGENTA, CYAN, RESET}
    ensures Sem(t, code + rest, active) == Sem(t, rest, After(active, code))
  {
    SequenceAlone(code, active);
    SequenceLengthExtends(code, rest);
    Slicing(code, rest, |code|);
    SemStep(t, code + rest, active);
    assert code[..|code|] == code && code[|code|..] + rest == rest;
  }

  lemma SemCode(t: Rules, role: Role, rest: string)
    ensures Sem(t, CodeOf(role) + rest, []) == Sem(t, rest, Sequences(role))
  {
    var s := Sequences(role);
    hide Sem;
    hide Sequences;
    NotReset(s[0]);
    if |s| == 1 {
      SemOneCode(t, s[0], rest, []);
      assert [] + [s[0]] == s;
    } else {
      NotReset(s[1]);
      SemOneCode(t, s[0], s[1] + rest, []);
      SemOneCode(t, s[1], rest, [] + [s[0]]);
      assert [] + [s[0]] + [s[1]] == s;
      assert s[0] + s[1] + rest == s[0] + (s[1] + rest);
    }
  }

  lemma {:induction false} TokenBeforeReset(u: Unicode, p: string, rest: string)
    requires u.Standard()
    ensures TokenLength(u, p + (RESET + rest)) == TokenLength(u, p)
    decreases |p|
  {
    var q := p + (RESET + rest);
    if p == "" {
      assert q[0] == ESC;
    } else {
      assert q[0] == p[0] && q[1..] == p[1..] + (RESET + rest);
      TokenBeforeReset(u, p[1..], rest);
    }
  }

  /** Words are painted up to a reset, and after it over nothing. */
  lemma {:induction false} SemThenReset(t: Rules, p: string, rest: string, active: seq<string>)
    requires t.u.Standard() && EscFree(p)
    ensures Sem(t, p + (RESET + rest), active) == Sem(t, rest, []).Behind(Sem(t, p, active).cells)
    decreases |p|
  {
    var tail := RESET + rest;
    var q := p + tail;
    if p == "" {
      assert q == tail;
      SemOneCode(t, RESET, rest, active);
      return;
    }
    assert q[0] == p[0] != ESC;
    TokenBeforeReset(t.u, p, rest);
    SemStep(t, p, active);
    SemStep(t, q, active);
    hide Sem;
    hide StateRole;
    hide TokenLength;
    hide Sequences;
    var k := TokenLength(t.u, p);
    var m := if k == 0 then 1 else k;
    Slicing(p, tail, m);
    SemThenReset(t, p[m..], rest, active);
    SemThenReset(t, p[m..], rest, []);
    var after := Sem(t, rest, []).cells;
    Regroup([Cell(p[0], active)], Sem(t, p[m..], active).cells, after);
    Regroup(Flat(p[..m], active), Sem(t, p[m..], active).cells, after);
    if k > 0 {
      var role := StateRole(t, p[..k]);
      if role.Some? {
        Regroup(Flat(p[..k], active + Sequences(role.value)), Sem(t, p[k..], []).cells, after);
      }
    }
  }

  lemma HumanLineKeepsText(t: Rules, line: string)
    requires t.u.Standard() && EscFree(line)
    ensures Chars(HumanLineCells(t, line)) == line
  {
    hide Sem;
    hide EmphasisOf;
    match EmphasisOf(line) {
      case Plain =>
        SemKeepsText(t, line, []);
      case Lead(n, role) =>
        SemKeepsText(t, line[..n], Sequences(role));
        SemKeepsText(t, line[n..], []);
        CharsAppend(Sem(t, line[..n], Sequences(role)).cells, Sem(t, line[n..], []).cells);
        assert line == line[..n] + line[n..];
    }
  }
}
