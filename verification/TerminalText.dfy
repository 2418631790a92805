/** Terminal text (internal/cli/render.go): recognising control sequences,
    removing them, measuring display width, and truncating to a width. Strings
    are sequences of Unicode characters. The sequences recognised are a loose
    form of section 5.4 of ECMA-48: ESC, "[", and everything up to the first
    character between 0x40 and 0x7E. */
module TerminalText {
  import opened Prelude

  const ESC: char := '\U{1B}'
  const ELLIPSIS: string := "\U{2026}"
  const RESET: string := [ESC, '[', '0', 'm']

  /** The Unicode tables, as far as this code consults them. */
  datatype Unicode = Unicode(
    isSpace: char -> bool,
    isLetter: char -> bool,
    isLower: char -> bool,
    isDigit: char -> bool,
    isControl: char -> bool,
    isZeroWidthMark: char -> bool,   // categories Mn, Me and Cf
    isWide: char -> bool)            // East Asian wide or full width
  {
    /** The few table entries the results depend on. */
    ghost predicate Standard() {
      && isControl(ESC) && !isSpace(ESC) && !isLetter(ESC) && !isDigit(ESC)
      && Plain('[') && Plain('0') && Plain('m') && Plain(' ') && Plain('\U{2026}')
      && isSpace(' ') && isSpace('\n')
    }

    predicate Plain(c: char) {
      !isControl(c) && !isZeroWidthMark(c) && !isWide(c)
    }

    function RuneWidth(c: char): (w: nat)
      ensures w <= 2
    {
      if c == '\U{FFFD}' then 1
      else if c == '\t' then 1
      else if isControl(c) || isZeroWidthMark(c) then 0
      else if '\U{FE00}' <= c <= '\U{FE0F}' || '\U{E0100}' <= c <= '\U{E01EF}' then 0
      else if '\U{1F300}' <= c <= '\U{1FAFF}' || '\U{1F1E6}' <= c <= '\U{1F1FF}' then 2
      else if isWide(c) then 2
      else 1
    }
  }

  // ---------------------------------------------------------------------------
  // Control sequences
  // ---------------------------------------------------------------------------

  predicate IsFinal(c: char) {
    '\U{40}' <= c <= '\U{7E}'
  }

  /** The position of the first final character at or after i, or the length. */
  function FinalAt(s: string, i: nat): (k: nat)
    requires i <= |s|
    ensures i <= k <= |s| && (k < |s| ==> IsFinal(s[k]))
    ensures forall j :: i <= j < k ==> !IsFinal(s[j])
    decreases |s| - i
  {
    if i == |s| || IsFinal(s[i]) then i else FinalAt(s, i + 1)
  }

  predicate Opens(s: string) {
    |s| >= 2 && s[0] == ESC && s[1] == '['
  }

  /** Length of the control sequence that `s` begins with; zero if none does. */
  function SequenceLength(s: string): (n: nat)
    ensures n == 0 || 3 <= n <= |s|
  {
    if Opens(s) && FinalAt(s, 2) < |s| then FinalAt(s, 2) + 1 else 0
  }

  method AnsiSequenceEnd(value: string, start: int) returns (end: int)
    ensures 0 <= start <= |value| ==> end == start + SequenceLength(value[start..])
    ensures !(0 <= start <= |value|) ==> end == start
    // an end behind the start is that of ESC, "[", and the first final character
    ensures end != start ==>
      && 0 <= start && start + 3 <= end <= |value| && value[start] == '\U{1B}' && value[start + 1] == '['
      && '\U{40}' <= value[end - 1] <= '\U{7E}'
      && forall j :: start + 2 <= j < end - 1 ==> !('\U{40}' <= value[j] <= '\U{7E}')
    ensures end == start && 0 <= start && start + 2 <= |value| && value[start] == '\U{1B}' && value[start + 1] == '[' ==>
      forall j :: start + 2 <= j < |value| ==> !('\U{40}' <= value[j] <= '\U{7E}')
  {
    if start < 0 || start + 2 > |value| || value[start] != ESC || value[start + 1] != '[' {
      return start;
    }
    ghost var s := value[start..];
    for index := start + 2 to |value|
      invariant FinalAt(s, 2) == FinalAt(s, index - start)
      invariant forall j :: start + 2 <= j < index ==> !('\U{40}' <= value[j] <= '\U{7E}')
    {
      assert s[index - start] == value[index];
      if '\U{40}' <= value[index] <= '\U{7E}' {
        return index + 1;
      }
    }
    return start;
  }

  /** What follows a complete sequence does not change it. */
  lemma SequenceLengthExtends(a: string, b: string)
    requires SequenceLength(a) > 0
    ensures SequenceLength(a + b) == SequenceLength(a)
  {
    var k := FinalAt(a, 2);
    assert (a + b)[k] == a[k];
    FirstFinal(a + b, 2, k);
  }

  lemma {:induction false} FirstFinal(s: string, i: nat, k: nat)
    requires i <= k < |s| && IsFinal(s[k])
    requires forall j :: i <= j < k ==> !IsFinal(s[j])
    ensures FinalAt(s, i) == k
  {
  }

  // ---------------------------------------------------------------------------
  // Stripping and measuring
  // ---------------------------------------------------------------------------

  function Strip(s: string): (r: string)
    ensures |r| <= |s|
    decreases |s|
  {
    if s == "" then ""
    else if SequenceLength(s) > 0 then Strip(s[SequenceLength(s)..])
    else [s[0]] + Strip(s[1..])
  }

  method StripANSI(value: string) returns (output: string)
    ensures output == Strip(value)
  {
    hide Strip;
    StripStep("");
    output := "";
    var index := 0;
    while index < |value|
      invariant 0 <= index <= |value|
      invariant output + Strip(value[index..]) == Strip(value)
      decreases |value| - index
    {
      var end := AnsiSequenceEnd(value, index);
      StripStep(value[index..]);
      if end > index {
        assert value[index..][end - index..] == value[end..];
        index := end;
        continue;
      }
      assert value[index..][1..] == value[index + 1..];
      output := output + [value[index]];
      index := index + 1;
    }
    assert value[index..] == "";
  }

  lemma StripStep(s: string)
    ensures Strip("") == ""
    ensures s != "" && SequenceLength(s) > 0 ==> Strip(s) == Strip(s[SequenceLength(s)..])
    ensures s != "" && SequenceLength(s) == 0 ==> Strip(s) == [s[0]] + Strip(s[1..])
  {
  }

  function Width(u: Unicode, s: string): nat
    decreases |s|
  {
    if s == "" then 0
    else if SequenceLength(s) > 0 then Width(u, s[SequenceLength(s)..])
    else u.RuneWidth(s[0]) + Width(u, s[1..])
  }

  lemma WidthStep(u: Unicode, s: string)
    ensures s == "" ==> Width(u, s) == 0
    ensures s != "" && SequenceLength(s) > 0 ==> Width(u, s) == Width(u, s[SequenceLength(s)..])
    ensures s != "" && SequenceLength(s) == 0 ==> Width(u, s) == u.RuneWidth(s[0]) + Width(u, s[1..])
  {
  }

  method DisplayWidth(u: Unicode, value: string) returns (columns: nat)
    ensures columns == Width(u, value)
  {
    hide Width;
    columns := 0;
    var index := 0;
    WidthStep(u, "");
    while index < |value|
      invariant 0 <= index <= |value|
      invariant columns + Width(u, value[index..]) == Width(u, value)
      decreases |value| - index
    {
      var end := AnsiSequenceEnd(value, index);
      WidthStep(u, value[index..]);
      if end > index {
        assert value[index..][end - index..] == value[end..];
        index := end;
        continue;
      }
      assert value[index..][1..] == value[index + 1..];
      columns := columns + u.RuneWidth(value[index]);
      index := index + 1;
    }
    assert value[index..] == "";
  }

  function Widths(u: Unicode, s: string): nat {
    if s == "" then 0 else u.RuneWidth(s[0]) + Widths(u, s[1..])
  }

  /** The width of a text is that of the characters stripping leaves. */
  lemma {:induction false} WidthOfStripped(u: Unicode, s: string)
    ensures Width(u, s) == Widths(u, Strip(s))
    decreases |s|
  {
    hide SequenceLength;
    hide Unicode.RuneWidth;
    if s != "" {
      WidthOfStripped(u, s[if SequenceLength(s) > 0 then SequenceLength(s) else 1..]);
    }
  }

  predicate EscFree(s: string) {
    ESC !in s
  }

  /** Every ESC begins a complete control sequence. */
  predicate Closed(s: string)
    decreases |s|
  {
    if s == "" then true
    else if SequenceLength(s) > 0 then Closed(s[SequenceLength(s)..])
    else s[0] != ESC && Closed(s[1..])
  }

  lemma Slicing(a: string, b: string, n: nat)
    requires n <= |a|
    ensures (a + b)[..n] == a[..n] && (a + b)[n..] == a[n..] + b
  {
  }

  /** The front of closed text stays what it is when text is appended. */
  lemma ClosedStep(a: string, b: string)
    requires Closed(a) && a != ""
    ensures SequenceLength(a + b) == SequenceLength(a)
    ensures SequenceLength(a) > 0 ==> Closed(a[SequenceLength(a)..])
    ensures SequenceLength(a) == 0 ==> a[0] != ESC && Closed(a[1..])
  {
    if SequenceLength(a) > 0 {
      SequenceLengthExtends(a, b);
    }
  }

  /** Closed text is stripped and measured independently of what follows it. */
  lemma {:induction false} ClosedAppend(u: Unicode, a: string, b: string)
    requires Closed(a)
    ensures Strip(a + b) == Strip(a) + Strip(b)
    ensures Width(u, a + b) == Width(u, a) + Width(u, b)
    decreases |a|
  {
    if a == "" {
      assert a + b == b;
      return;
    }
    hide Closed;
    hide Strip;
    hide Width;
    hide SequenceLength;
    StripStep(a);
    StripStep(a + b);
    WidthStep(u, a);
    WidthStep(u, a + b);
    ClosedStep(a, b);
    var n := SequenceLength(a);
    if n > 0 {
      Slicing(a, b, n);
      ClosedAppend(u, a[n..], b);
    } else {
      Slicing(a, b, 1);
      ClosedAppend(u, a[1..], b);
      Regroup([a[0]], Strip(a[1..]), Strip(b));
    }
  }

  lemma {:induction false} ClosedConcat(a: string, b: string)
    requires Closed(a) && Closed(b)
    ensures Closed(a + b)
    decreases |a|
  {
    if a == "" {
      assert a + b == b;
    } else if SequenceLength(a) > 0 {
      var n := SequenceLength(a);
      SequenceLengthExtends(a, b);
      assert (a + b)[n..] == a[n..] + b;
      ClosedConcat(a[n..], b);
    } else {
      assert (a + b)[1..] == a[1..] + b;
      ClosedConcat(a[1..], b);
    }
  }

  lemma {:induction false} EscFreeIsClosed(s: string)
    requires EscFree(s)
    ensures Closed(s) && Strip(s) == s
    decreases |s|
  {
    if s != "" {
      EscFreeIsClosed(s[1..]);
    }
  }

  // ---------------------------------------------------------------------------
  // Stripping twice
  // ---------------------------------------------------------------------------

  /** Whether position i lies outside every complete control sequence. */
  predicate Outside(s: string, i: nat)
    requires i < |s|
    decreases |s|
  {
    var n := SequenceLength(s);
    if n > 0 then i >= n && Outside(s[n..], i - n) else i == 0 || Outside(s[1..], i - 1)
  }

  /** Outside complete sequences, an ESC is followed next by "[", and somewhere after
      that by a final character: removing the sequences in between makes a new one. */
  ghost predicate Rejoins(s: string) {
    exists e, b, f :: 0 <= e < b < f < |s| && JoinsAt(s, e, b, f)
  }

  ghost predicate JoinsAt(s: string, e: nat, b: nat, f: nat)
    requires e < b < f < |s|
  {
    && Outside(s, e) && s[e] == ESC && Outside(s, b) && s[b] == '[' && Outside(s, f) && IsFinal(s[f])
    && forall j :: e < j < b ==> !Outside(s, j)
  }

  /** The positions outside complete sequences, in order: those whose characters
      stripping keeps. */
  ghost function Places(s: string): (p: seq<nat>)
    decreases |s|
  {
    if s == "" then []
    else if SequenceLength(s) > 0 then Moved(Places(s[SequenceLength(s)..]), SequenceLength(s))
    else [0] + Moved(Places(s[1..]), 1)
  }

  ghost function Moved(p: seq<nat>, n: nat): (r: seq<nat>)
    ensures |r| == |p| && forall i :: 0 <= i < |r| ==> r[i] == p[i] + n
  {
    seq(|p|, i requires 0 <= i < |p| => p[i] + n)
  }

  /** The positions outside complete sequences, in order. */
  ghost predicate AllOutside(s: string, p: seq<nat>) {
    && (forall i :: 0 <= i < |p| ==> p[i] < |s| && Outside(s, p[i]))
    && (forall i, j :: 0 <= i < j < |p| ==> p[i] < p[j])
    && forall j :: 0 <= j < |s| && Outside(s, j) ==> j in p
  }

  /** `t` is what `s` has at these positions. */
  ghost predicate Picks(s: string, p: seq<nat>, t: string) {
    |t| == |p| && forall i :: 0 <= i < |p| ==> p[i] < |s| && t[i] == s[p[i]]
  }

  lemma {:induction false} PlacesAreOutside(s: string)
    ensures AllOutside(s, Places(s))
    decreases |s|
  {
    hide AllOutside;
    var n := SequenceLength(s);
    if s == "" {
      NoPlaces();
    } else if n > 0 {
      PlacesAreOutside(s[n..]);
      SkipPlaces(s, n, Places(s[n..]));
    } else {
      PlacesAreOutside(s[1..]);
      KeepPlaces(s, Places(s[1..]));
    }
  }

  lemma NoPlaces()
    ensures AllOutside("", [])
  {
  }

  lemma OutsideStep(s: string, i: nat)
    requires i < |s|
    ensures SequenceLength(s) > 0 ==> (Outside(s, i) <==> i >= SequenceLength(s) && Outside(s[SequenceLength(s)..], i - SequenceLength(s)))
    ensures SequenceLength(s) == 0 ==> (Outside(s, i) <==> i == 0 || Outside(s[1..], i - 1))
  {
  }

  lemma MovedMembers(p: seq<nat>, n: nat)
    ensures forall j: nat :: j in Moved(p, n) <==> j >= n && j - n in p
  {
    forall j: nat ensures j in Moved(p, n) <==> j >= n && j - n in p {
      if j >= n && j - n in p {
        var i :| 0 <= i < |p| && p[i] == j - n;
        assert Moved(p, n)[i] == j;
      }
    }
  }

  /** Behind a complete sequence of length k. */
  lemma {:induction false} SkipPlaces(s: string, k: nat, p: seq<nat>)
    requires k == SequenceLength(s) > 0 && AllOutside(s[k..], p)
    ensures AllOutside(s, Moved(p, k))
  {
    forall j | 0 <= j < |s| ensures Outside(s, j) <==> j >= k && j - k in p {
      OutsideStep(s, j);
    }
    hide Outside;
    hide SequenceLength;
    MovedMembers(p, k);
  }

  /** Behind a character that is kept. */
  lemma KeepPlaces(s: string, p: seq<nat>)
    requires s != "" && SequenceLength(s) == 0 && AllOutside(s[1..], p)
    ensures AllOutside(s, [0] + Moved(p, 1))
  {
    forall j | 0 <= j < |s| ensures Outside(s, j) <==> j == 0 || j - 1 in p {
      OutsideStep(s, j);
    }
    hide Outside;
    hide SequenceLength;
    MovedMembers(p, 1);
    OneMorePlace(s, p, Moved(p, 1));
  }

  lemma OneMorePlace(s: string, p: seq<nat>, q: seq<nat>)
    requires forall i, j :: 0 <= i < j < |q| ==> q[i] < q[j]
    requires forall j: nat :: j in q <==> j >= 1 && j - 1 in p
    requires forall j :: 0 <= j < |s| ==> (Outside(s, j) <==> j == 0 || j - 1 in p)
    requires s != "" && forall i :: i in p ==> i < |s| - 1
    ensures AllOutside(s, [0] + q)
  {
    hide Outside;
    forall i | 0 <= i < |q| ensures 0 < q[i] < |s| && Outside(s, q[i]) {
      assert q[i] in q;
    }
  }

  lemma {:induction false} StripPicks(s: string)
    ensures Picks(s, Places(s), Strip(s))
    decreases |s|
  {
    StripStep(s);
    var n := SequenceLength(s);
    if s != "" {
      StripPicks(s[if n > 0 then n else 1..]);
    }
    hide Strip;
    hide SequenceLength;
    if n > 0 {
      MovedPicks(s, n, Places(s[n..]), Strip(s[n..]));
    } else if s != "" {
      MovedPicks(s, 1, Places(s[1..]), Strip(s[1..]));
    }
  }

  lemma MovedPicks(s: string, k: nat, p: seq<nat>, t: string)
    requires k <= |s| && Picks(s[k..], p, t)
    ensures Picks(s, Moved(p, k), t)
    ensures k > 0 ==> Picks(s, [0] + Moved(p, k), [s[0]] + t)
  {
  }

  /** Some position of `t` begins a complete sequence. */
  ghost predicate StripsMore(t: string) {
    exists i :: 0 <= i < |t| && SequenceLength(t[i..]) > 0
  }

  lemma {:induction false} StripFixed(t: string)
    ensures Strip(t) == t <==> !StripsMore(t)
    decreases |t|
  {
    if t == "" {
      return;
    }
    assert t[0..] == t;
    if SequenceLength(t) == 0 {
      StripFixed(t[1..]);
      assert t == [t[0]] + t[1..];
      if i :| 0 <= i < |t| && SequenceLength(t[i..]) > 0 {
        assert t[1..][i - 1..] == t[i..];
      }
      if i :| 0 <= i < |t[1..]| && SequenceLength(t[1..][i..]) > 0 {
        assert t[1..][i..] == t[i + 1..];
      }
    }
  }

  lemma SequenceAt(t: string, i: nat)
    requires i < |t|
    ensures SequenceLength(t[i..]) > 0 <==>
      t[i] == ESC && i + 1 < |t| && t[i + 1] == '[' && exists f :: i + 1 < f < |t| && IsFinal(t[f])
  {
    var u := t[i..];
    if SequenceLength(u) > 0 {
      assert IsFinal(t[i + FinalAt(u, 2)]);
    }
    if Opens(u) && FinalAt(u, 2) == |u| {
      forall f | i + 1 < f < |t| ensures !IsFinal(t[f]) {
        assert u[f - i] == t[f];
      }
    }
  }

  lemma JoinedPlaces(s: string, p: seq<nat>, i: nat, f: nat)
    requires AllOutside(s, p) && i + 1 < f < |p|
    requires s[p[i]] == ESC && s[p[i + 1]] == '[' && IsFinal(s[p[f]])
    ensures Rejoins(s)
  {
    hide Outside;
    assert forall j :: p[i] < j < p[i + 1] ==> j !in p;
    assert JoinsAt(s, p[i], p[i + 1], p[f]);
  }

  ghost function IndexIn(p: seq<nat>, j: nat): (i: nat)
    requires j in p
    ensures i < |p| && p[i] == j
  {
    if p[0] == j then 0 else 1 + IndexIn(p[1..], j)
  }

  lemma {:induction false} JoinedCharacters(s: string, p: seq<nat>, t: string)
    requires AllOutside(s, p) && Picks(s, p, t) && Rejoins(s)
    ensures StripsMore(t)
  {
    var e, b, f :| 0 <= e < b < f < |s| && JoinsAt(s, e, b, f);
    JoinedThere(s, p, t, e, b, f);
  }

  lemma {:induction false} JoinedThere(s: string, p: seq<nat>, t: string, e: nat, b: nat, f: nat)
    requires AllOutside(s, p) && Picks(s, p, t) && e < b < f < |s| && JoinsAt(s, e, b, f)
    ensures StripsMore(t)
  {
    var i, k, m := IndexIn(p, e), IndexIn(p, b), IndexIn(p, f);
    hide Outside;
    hide StripsMore;
    hide Picks;
    NextPlace(s, p, i, k);
    assert k < m;
    hide AllOutside;
    JoinedAt(s, p, t, i, m);
  }

  lemma JoinedAt(s: string, p: seq<nat>, t: string, i: nat, m: nat)
    requires Picks(s, p, t) && i + 1 < m < |p| && forall k :: 0 <= k < |p| ==> p[k] < |s|
    requires s[p[i]] == ESC && s[p[i + 1]] == '[' && IsFinal(s[p[m]])
    ensures StripsMore(t)
  {
    assert t[i] == ESC && t[i + 1] == '[' && IsFinal(t[m]);
    SequenceAt(t, i);
  }

  /** Places with nothing outside between them are next to each other. */
  lemma NextPlace(s: string, p: seq<nat>, i: nat, k: nat)
    requires AllOutside(s, p) && i < |p| && k < |p| && p[i] < p[k]
    requires forall j :: p[i] < j < p[k] ==> !Outside(s, j)
    ensures k == i + 1
  {
    hide Outside;
    assert i < k && Outside(s, p[i + 1]) && p[i] < p[i + 1];
  }

  /** Stripping twice does what stripping once does if and only if removing the
      sequences does not join an ESC before one to a "[" after it, with a final
      character left further on; here is a text where it does. */
  lemma {:induction false} StripTwice(s: string)
    ensures Strip(Strip(s)) == Strip(s) <==> !Rejoins(s)
    ensures var joined := [ESC] + RESET + "[0m"; Strip(joined) == RESET && Strip(Strip(joined)) == ""
  {
    var inner := "[0m";
    var joined := [ESC] + RESET + inner;
    EscFreeIsClosed(inner);
    hide Closed;
    FirstFinal(RESET, 2, 3);
    assert SequenceLength(RESET) == 4;
    SequenceLengthExtends(RESET, inner);
    assert RESET[4..] == "" && (RESET + inner)[4..] == inner && joined[1..] == RESET + inner;
    assert SequenceLength(joined) == 0;
    hide SequenceLength;
    StripStep(RESET);
    StripStep(RESET + inner);
    StripStep(joined);
    hide Strip;
    assert [ESC] + inner == RESET;
    StripsTwice(s);
  }

  lemma StripsTwice(s: string)
    ensures Strip(Strip(s)) == Strip(s) <==> !Rejoins(s)
  {
    var t, p := Strip(s), Places(s);
    PlacesAreOutside(s);
    StripPicks(s);
    StripFixed(t);
    hide Strip;
    hide Places;
    hide AllOutside;
    hide Rejoins;
    if StripsMore(t) {
      var i :| 0 <= i < |t| && SequenceLength(t[i..]) > 0;
      SequenceAt(t, i);
      var f :| i + 1 < f < |t| && IsFinal(t[f]);
      JoinedPlaces(s, p, i, f);
    }
    if Rejoins(s) {
      JoinedCharacters(s, p, t);
    }
  }

  lemma {:induction false} ClosedStripIsEscFree(s: string)
    requires Closed(s)
    ensures EscFree(Strip(s)) && Strip(Strip(s)) == Strip(s)
    decreases |s|
  {
    if s != "" {
      if SequenceLength(s) > 0 {
        ClosedStripIsEscFree(s[SequenceLength(s)..]);
      } else {
        ClosedStripIsEscFree(s[1..]);
      }
      EscFreeIsClosed(Strip(s));
    }
  }

  // ---------------------------------------------------------------------------
  // Truncation
  // ---------------------------------------------------------------------------

  /** The longest front part of `s` whose characters fit into `budget` columns;
      complete control sequences are copied whole. */
  function Fit(u: Unicode, s: string, budget: nat): (n: nat)
    ensures n <= |s|
    decreases |s|
  {
    if s == "" then 0
    else if SequenceLength(s) > 0 then SequenceLength(s) + Fit(u, s[SequenceLength(s)..], budget)
    else
      var w := u.RuneWidth(s[0]);
      if w > budget then 0 else 1 + Fit(u, s[1..], budget - w)
  }

  /** Whether a complete sequence starts among the first n characters. */
  function HasSequence(s: string, n: nat): bool
    requires n <= |s|
    decreases |s|
  {
    if n == 0 then false
    else if SequenceLength(s) > 0 then true
    else HasSequence(s[1..], n - 1)
  }

  function Truncated(u: Unicode, value: string, limit: int): string {
    if limit <= 0 then ""
    else if Width(u, value) <= limit then value
    else
      var n := Fit(u, value, limit - 1);
      value[..n] + ELLIPSIS + if HasSequence(value, n) then RESET else ""
  }

  lemma {:induction false} HasSequenceExactly(s: string, n: nat)
    requires n <= |s|
    ensures HasSequence(s, n) <==> exists i :: 0 <= i < n && SequenceLength(s[i..]) > 0
    decreases n
  {
    hide SequenceLength;
    if n > 0 {
      assert s[0..] == s;
      if SequenceLength(s) == 0 {
        HasSequenceExactly(s[1..], n - 1);
        hide HasSequence;
        assert forall i :: 0 <= i < n - 1 ==> s[1..][i..] == s[i + 1..];
        assert forall i :: 1 <= i < n ==> s[i..] == s[1..][i - 1..];
      }
    }
  }

  lemma FitStep(u: Unicode, s: string, budget: nat)
    requires s != ""
    ensures SequenceLength(s) > 0 ==>
      Fit(u, s, budget) == SequenceLength(s) + Fit(u, s[SequenceLength(s)..], budget)
      && HasSequence(s, Fit(u, s, budget))
    ensures SequenceLength(s) == 0 && u.RuneWidth(s[0]) > budget ==> Fit(u, s, budget) == 0 && !HasSequence(s, 0)
    ensures SequenceLength(s) == 0 && u.RuneWidth(s[0]) <= budget ==>
      var n := Fit(u, s[1..], budget - u.RuneWidth(s[0]));
      Fit(u, s, budget) == 1 + n && HasSequence(s, 1 + n) == HasSequence(s[1..], n)
  {
  }

  predicate HasSuffix(s: string, suffix: string) {
    |suffix| <= |s| && s[|s| - |suffix|..] == suffix
  }

  /** The copying loop: stops at the first character that does not fit. */
  method CopyFitting(u: Unicode, value: string, target: nat) returns (output: string, hasANSI: bool)
    ensures output == value[..Fit(u, value, target)]
    ensures hasANSI == HasSequence(value, Fit(u, value, target))
  {
    hide Fit;
    hide HasSequence;
    hide SequenceLength;
    hide Unicode.RuneWidth;
    output := "";
    var used := 0;
    hasANSI := false;
    var index := 0;
    ghost var n := Fit(u, value, target);
    FitNothing(u, 0);
    assert value[0..] == value;
    while index < |value|
      invariant 0 <= index <= n && output == value[..index] && 0 <= used <= target
      invariant n == index + Fit(u, value[index..], target - used)
      invariant HasSequence(value, n) == (hasANSI || HasSequence(value[index..], n - index))
      decreases |value| - index
    {
      var end := AnsiSequenceEnd(value, index);
      ghost var s := value[index..];
      FitStep(u, s, target - used);
      if end > index {
        hasANSI := true;
        CopyOn(value, index, end);
        output := output + value[index..end];
        index := end;
        continue;
      }
      assert s[0] == value[index];
      var characterWidth := u.RuneWidth(value[index]);
      if characterWidth > 0 && used + characterWidth > target {
        assert n == index;
        return;
      }
      CopyOn(value, index, index + 1);
      output := output + value[index..index + 1];
      used := used + characterWidth;
      index := index + 1;
    }
    FitNothing(u, target - used);
  }

  lemma CopyOn(value: string, index: nat, end: nat)
    requires index <= end <= |value|
    ensures value[..index] + value[index..end] == value[..end]
    ensures value[index..][end - index..] == value[end..]
  {
  }

  lemma FitNothing(u: Unicode, budget: nat)
    ensures Fit(u, "", budget) == 0
    ensures forall s :: !HasSequence(s, 0)
  {
  }

  method TruncateDisplay(u: Unicode, value: string, limit: int) returns (result: string, ghost n: nat)
    ensures result == Truncated(u, value, limit)
    ensures limit <= 0 ==> result == ""
    ensures limit > 0 && Width(u, value) <= limit ==> result == value
    // cut before the first visible character that leaves no column for the ellipsis
    ensures limit > 0 && Width(u, value) > limit ==>
      && n < |value| && SequenceLength(value[n..]) == 0 && u.RuneWidth(value[n]) > 0
      && Width(u, value[..n]) <= limit - 1 < Width(u, value[..n]) + u.RuneWidth(value[n])
      && result == value[..n] + "\U{2026}" + if exists i :: 0 <= i < n && SequenceLength(value[i..]) > 0 then RESET else ""
  {
    hide Fit;
    hide HasSequence;
    hide Width;
    n := 0;
    if limit <= 0 {
      result := "";
      return;
    }
    var measured := DisplayWidth(u, value);
    if measured <= limit {
      result := value;
      return;
    }
    n := Fit(u, value, limit - 1);
    FitIsMaximal(u, value, limit - 1);
    HasSequenceExactly(value, n);
    var output, hasANSI := CopyFitting(u, value, limit - 1);
    output := output + ELLIPSIS;
    EllipsisIsNoReset(output);
    if hasANSI && !HasSuffix(output, RESET) {
      output := output + RESET;
    }
    result := output;
  }

  lemma EllipsisIsNoReset(output: string)
    requires output != "" && output[|output| - 1] == ELLIPSIS[0]
    ensures !HasSuffix(output, RESET)
  {
    if |output| >= 4 {
      assert output[|output| - 4..][3] == output[|output| - 1];
    }
  }

  // ---------------------------------------------------------------------------
  // Truncation keeps its promise
  // ---------------------------------------------------------------------------

  lemma DanglingFinal(s: string, rest: string)
    requires Opens(s) && FinalAt(s, 2) == |s|
    ensures Opens(s + ELLIPSIS + rest)
    ensures FinalAt(s + ELLIPSIS + rest, 2) == |s| + 1 + FinalAt(rest, 0)
  {
    var t := s + ELLIPSIS + rest;
    forall j | 2 <= j < |s| + 1 ensures !IsFinal(t[j]) {
      assert t[j] == if j < |s| then s[j] else ELLIPSIS[0];
    }
    assert t[|s| + 1..] == rest;
    SkipNonFinal(t, 2, |s| + 1);
    FinalShifts(t, |s| + 1, rest, 0);
  }

  lemma {:induction false} SkipNonFinal(s: string, i: nat, k: nat)
    requires i <= k <= |s| && forall j :: i <= j < k ==> !IsFinal(s[j])
    ensures FinalAt(s, i) == FinalAt(s, k)
    decreases k - i
  {
    if i < k {
      SkipNonFinal(s, i + 1, k);
    }
  }

  lemma {:induction false} FinalShifts(s: string, d: nat, rest: string, i: nat)
    requires d + |rest| == |s| && s[d..] == rest && i <= |rest|
    ensures FinalAt(s, d + i) == d + FinalAt(rest, i)
    decreases |rest| - i
  {
    if i < |rest| {
      assert s[d + i] == s[d..][i];
      FinalShifts(s, d, rest, i + 1);
    }
  }

  /** A dangling "ESC [" still dangles before the ellipsis alone. */
  lemma DanglingEllipsis(s: string)
    requires Opens(s) && FinalAt(s, 2) == |s|
    ensures SequenceLength(s + ELLIPSIS) == 0
  {
    DanglingFinal(s, "");
    assert s + ELLIPSIS + "" == s + ELLIPSIS;
  }

  /** Before a reset it finds its final character there: the reset loses its
      first two characters to it. */
  lemma {:induction false} DanglingReset(s: string)
    requires Opens(s) && FinalAt(s, 2) == |s|
    ensures var t := s + ELLIPSIS + RESET;
      SequenceLength(t) == |s| + 3 && t[|s| + 3..] == "0m"
  {
    DanglingFinal(s, RESET);
    FirstFinal(RESET, 0, 1);
    hide FinalAt;
    assert RESET[2..] == "0m";
  }

  lemma {:induction false} TailWidths(u: Unicode)
    requires u.Standard()
    ensures Width(u, ELLIPSIS) == 1 && Width(u, ELLIPSIS + RESET) == 1 && Width(u, "0m") == 2
  {
    assert (ELLIPSIS + RESET)[1..] == RESET && ELLIPSIS[1..] == "" && "0m"[1..] == "m" && "m"[1..] == "";
    assert !Opens(ELLIPSIS + RESET) && !Opens(ELLIPSIS);
    FirstFinal(RESET, 2, 3);
    assert RESET[4..] == "";
    assert Width(u, RESET) == 0;
    assert Width(u, "m") == 1;
  }

  /** The text that a cut leaves on the screen. */
  function CutText(s: string, n: nat, tail: string): string
    requires n <= |s|
  {
    s[..n] + ELLIPSIS + tail
  }

  /** The kept part, the ellipsis and an optional reset take one column more
      than the budget, even when the kept part ends inside a control sequence. */
  lemma {:induction false} KeptWidth(u: Unicode, s: string, budget: nat, tail: string)
    requires u.Standard() && (tail == "" || tail == RESET)
    ensures Width(u, CutText(s, Fit(u, s, budget), tail)) <= budget + 1
    decreases |s|
  {
    hide Fit;
    hide Width;
    hide SequenceLength;
    if s != "" {
      FitStep(u, s, budget);
    }
    var n := Fit(u, s, budget);
    if n == 0 {
      assert CutText(s, 0, tail) == ELLIPSIS + tail;
      assert ELLIPSIS + "" == ELLIPSIS;
      TailWidths(u);
    } else if SequenceLength(s) > 0 {
      KeptWidth(u, s[SequenceLength(s)..], budget, tail);
      KeptSequence(u, s, n, tail);
    } else {
      KeptWidth(u, s[1..], budget - u.RuneWidth(s[0]), tail);
      assert CutText(s, n, tail)[1..] == CutText(s[1..], n - 1, tail);
      KeptCharacter(u, s, budget, tail);
    }
  }

  lemma KeptSequence(u: Unicode, s: string, n: nat, tail: string)
    requires SequenceLength(s) > 0 && SequenceLength(s) <= n <= |s|
    ensures var k := SequenceLength(s);
      Width(u, CutText(s, n, tail)) == Width(u, CutText(s[k..], n - k, tail))
  {
    var k := SequenceLength(s);
    CutSequence(s, n, ELLIPSIS + tail);
    hide SequenceLength;
    hide Width;
    assert CutText(s, n, tail) == s[..n] + (ELLIPSIS + tail);
    assert CutText(s, n, tail)[k..] == CutText(s[k..], n - k, tail);
    WidthStep(u, CutText(s, n, tail));
  }

  lemma CutSequence(s: string, n: nat, tail: string)
    requires SequenceLength(s) > 0 && SequenceLength(s) <= n <= |s|
    ensures SequenceLength(s[..n] + tail) == SequenceLength(s)
  {
    var k := FinalAt(s, 2);
    var t := s[..n] + tail;
    assert forall j :: 0 <= j < n ==> t[j] == s[j];
    FirstFinal(t, 2, k);
  }

  lemma {:induction false} KeptCharacter(u: Unicode, s: string, budget: nat, tail: string)
    requires u.Standard() && (tail == "" || tail == RESET)
    requires s != "" && SequenceLength(s) == 0 && Fit(u, s, budget) > 0
    requires Width(u, CutText(s, Fit(u, s, budget), tail)[1..]) <= budget - u.RuneWidth(s[0]) + 1
    ensures Width(u, CutText(s, Fit(u, s, budget), tail)) <= budget + 1
  {
    var n := Fit(u, s, budget);
    var p := s[..n];
    var t := p + ELLIPSIS + tail;
    assert t[0] == s[0];
    WidthStep(u, t);
    if Opens(p) {
      assert Opens(s);
      forall j | 2 <= j < n ensures !IsFinal(p[j]) {
        assert FinalAt(s, 2) == |s|;
      }
      assert FinalAt(p, 2) == |p|;
      if tail == RESET {
        DanglingReset(p);
      } else {
        DanglingEllipsis(p);
        assert p + ELLIPSIS + "" == p + ELLIPSIS;
      }
      TailWidths(u);
      BracketTakesAColumn(u, s, budget);
    } else {
      assert t[1] == if n >= 2 then p[1] else ELLIPSIS[0];
    }
  }

  lemma BracketTakesAColumn(u: Unicode, s: string, budget: nat)
    requires u.Standard() && Opens(s) && SequenceLength(s) == 0 && Fit(u, s, budget) >= 2
    ensures budget >= 1
  {
    assert s[1..][0] == '[';
    FitStep(u, s, budget);
    FitStep(u, s[1..], budget - u.RuneWidth(s[0]));
    assert u.RuneWidth('[') == 1;
  }

  /** A truncated text never exceeds its limit, whatever it contains. */
  lemma TruncatedFits(u: Unicode, value: string, limit: int)
    requires u.Standard() && limit >= 0
    ensures Width(u, Truncated(u, value, limit)) <= limit
    ensures Truncated(u, Truncated(u, value, limit), limit) == Truncated(u, value, limit)
  {
    WidthStep(u, "");
    hide Width;
    hide Fit;
    hide HasSequence;
    if limit > 0 && Width(u, value) > limit {
      var n := Fit(u, value, limit - 1);
      KeptWidth(u, value, limit - 1, if HasSequence(value, n) then RESET else "");
    }
  }

  /** The cut at n keeps at most `budget` columns, and the first dropped character
      is a visible one too wide for the columns left over. */
  predicate CutIsTight(u: Unicode, s: string, budget: nat, n: nat) {
    && n < |s| && SequenceLength(s[n..]) == 0 && u.RuneWidth(s[n]) > 0
    && Width(u, s[..n]) <= budget < Width(u, s[..n]) + u.RuneWidth(s[n])
  }

  lemma Slices(s: string, k: nat, n: nat)
    requires k + n <= |s|
    ensures s[..k + n][k..] == s[k..][..n]
    ensures s[k..][n..] == s[k + n..]
  {
  }

  lemma CutFront(s: string, n: nat)
    requires SequenceLength(s) > 0 && SequenceLength(s) <= n <= |s|
    ensures SequenceLength(s[..n]) == SequenceLength(s)
  {
    CutSequence(s, n, "");
    assert s[..n] + "" == s[..n];
  }

  lemma {:induction false} TightAfterSequence(u: Unicode, s: string, budget: nat, n: nat)
    requires SequenceLength(s) > 0 && n <= |s| - SequenceLength(s) && CutIsTight(u, s[SequenceLength(s)..], budget, n)
    ensures CutIsTight(u, s, budget, SequenceLength(s) + n)
  {
    hide SequenceLength;
    hide Width;
    hide Unicode.RuneWidth;
    WidthAfterSequence(u, s, n);
    Slices(s, SequenceLength(s), n);
  }

  lemma {:induction false} WidthAfterSequence(u: Unicode, s: string, n: nat)
    requires 0 < SequenceLength(s) <= |s| - n
    ensures Width(u, s[..SequenceLength(s) + n]) == Width(u, s[SequenceLength(s)..][..n])
  {
    hide *;
    var k := SequenceLength(s);
    CutFront(s, k + n);
    WidthStep(u, s[..k + n]);
    Slices(s, k, n);
  }

  lemma {:induction false} TightAfterCharacter(u: Unicode, s: string, budget: nat, n: nat)
    requires s != "" && SequenceLength(s) == 0 && u.RuneWidth(s[0]) <= budget
    requires CutIsTight(u, s[1..], budget - u.RuneWidth(s[0]), n)
    ensures CutIsTight(u, s, budget, 1 + n)
  {
    NoSequenceInFront(s, 1 + n);
    hide SequenceLength;
    hide Width;
    Slices(s, 1, n);
    WidthStep(u, s[..1 + n]);
  }

  /** Nothing that would have fitted is dropped. */
  lemma {:induction false} FitIsMaximal(u: Unicode, s: string, budget: nat)
    requires Width(u, s) > budget
    ensures CutIsTight(u, s, budget, Fit(u, s, budget))
    decreases |s|
  {
    hide Width;
    hide Fit;
    hide SequenceLength;
    WidthStep(u, s);
    FitStep(u, s, budget);
    if SequenceLength(s) > 0 {
      FitIsMaximal(u, s[SequenceLength(s)..], budget);
      TightAfterSequence(u, s, budget, Fit(u, s[SequenceLength(s)..], budget));
    } else if u.RuneWidth(s[0]) <= budget {
      FitIsMaximal(u, s[1..], budget - u.RuneWidth(s[0]));
      TightAfterCharacter(u, s, budget, Fit(u, s[1..], budget - u.RuneWidth(s[0])));
    } else {
      assert s[..0] == "" && s[0..] == s;
      WidthStep(u, "");
    }
  }

  lemma NoSequenceInFront(s: string, n: nat)
    requires n <= |s| && SequenceLength(s) == 0
    ensures SequenceLength(s[..n]) == 0
  {
    if Opens(s[..n]) {
      assert FinalAt(s, 2) == |s|;
    }
  }

  ghost predicate KeptDone(s: string, n: nat)
    requires n <= |s|
  {
    Closed(s[..n]) && (!HasSequence(s, n) ==> EscFree(s[..n]))
  }

  lemma {:induction false} KeptSteps(u: Unicode, s: string, budget: nat)
    requires Closed(s)
    ensures KeptDone(s, Fit(u, s, budget))
    decreases |s|
  {
    if Fit(u, s, budget) == 0 {
      assert s[..0] == "";
      return;
    }
    FitStep(u, s, budget);
    ClosedStep(s, "");
    hide Closed;
    hide Fit;
    hide KeptDone;
    hide HasSequence;
    hide SequenceLength;
    hide Unicode.RuneWidth;
    if SequenceLength(s) > 0 {
      KeptSteps(u, s[SequenceLength(s)..], budget);
      SequenceThenKept(s, Fit(u, s, budget));
    } else {
      KeptSteps(u, s[1..], budget - u.RuneWidth(s[0]));
      CharacterThenKept(s, Fit(u, s, budget));
    }
  }

  lemma {:induction false} SequenceThenKept(s: string, n: nat)
    requires 0 < SequenceLength(s) <= n <= |s|
    requires KeptDone(s[SequenceLength(s)..], n - SequenceLength(s)) && HasSequence(s, n)
    ensures KeptDone(s, n)
  {
    var k := SequenceLength(s);
    CutFront(s, n);
    ClosedFront(s[..n]);
    hide Closed;
    hide HasSequence;
    hide SequenceLength;
    Slices(s, k, n - k);
  }

  lemma {:induction false} CharacterThenKept(s: string, n: nat)
    requires 0 < n <= |s| && SequenceLength(s) == 0 && s[0] != ESC
    requires KeptDone(s[1..], n - 1) && HasSequence(s, n) == HasSequence(s[1..], n - 1)
    ensures KeptDone(s, n)
  {
    NoSequenceInFront(s, n);
    ClosedFront(s[..n]);
    hide Closed;
    hide HasSequence;
    hide SequenceLength;
    Slices(s, 1, n - 1);
    assert s[..n] == [s[0]] + s[1..][..n - 1];
  }

  /** What is kept of closed text is closed, and free of ESC unless a sequence was
      kept. */
  lemma KeptIsClosed(u: Unicode, s: string, budget: nat)
    requires Closed(s)
    ensures var n := Fit(u, s, budget);
      Closed(s[..n]) && (!HasSequence(s, n) ==> EscFree(s[..n]))
  {
    KeptSteps(u, s, budget);
  }

  lemma {:induction false} ClosedFront(t: string)
    ensures SequenceLength(t) > 0 && Closed(t[SequenceLength(t)..]) ==> Closed(t)
    ensures SequenceLength(t) == 0 && t != "" && t[0] != ESC && Closed(t[1..]) ==> Closed(t)
  {
  }
}
