/** Command suggestions: the two-row edit distance of internal/cli/usage.go and
    the one-pass filter that keeps every command at the smallest distance. */
module EditDistance {

  // ---------------------------------------------------------------------------
  // The recursive distance
  // ---------------------------------------------------------------------------

  function Min3(a: nat, b: nat, c: nat): nat {
    var m := if a <= b then a else b;
    if m <= c then m else c
  }

  function Cost(a: char, b: char): nat {
    if a == b then 0 else 1
  }

  /** Levenshtein's recursion: the distance between the first i characters of `a`
      and the first j characters of `b`. */
  function Prefixes(a: string, i: nat, b: string, j: nat): nat
    requires i <= |a| && j <= |b|
    decreases i + j
  {
    if i == 0 then j
    else if j == 0 then i
    else Min3(Prefixes(a, i - 1, b, j) + 1,
              Prefixes(a, i, b, j - 1) + 1,
              Prefixes(a, i - 1, b, j - 1) + Cost(a[i - 1], b[j - 1]))
  }

  /** The recursion as an equation, for proofs that hide the body. */
  lemma {:induction false} Unfold(a: string, i: nat, b: string, j: nat)
    requires i <= |a| && j <= |b|
    ensures i == 0 ==> Prefixes(a, i, b, j) == j
    ensures j == 0 ==> Prefixes(a, i, b, j) == i
    ensures i > 0 && j > 0 ==>
      Prefixes(a, i, b, j) == Min3(Prefixes(a, i - 1, b, j) + 1, Prefixes(a, i, b, j - 1) + 1,
                                   Prefixes(a, i - 1, b, j - 1) + Cost(a[i - 1], b[j - 1]))
  {
  }

  function Distance(a: string, b: string): nat {
    Prefixes(a, |a|, b, |b|)
  }

  // ---------------------------------------------------------------------------
  // The two-row dynamic program
  // ---------------------------------------------------------------------------

  /** The row holds the distances from the first k characters of `left` to the
      first `filled` prefixes of `right`. */
  ghost predicate IsRow(row: array<nat>, left: string, k: nat, right: string, filled: nat)
    requires k <= |left| && filled <= |right| + 1
    reads row
  {
    && row.Length == |right| + 1
    && forall j :: 0 <= j < filled ==> row[j] == Prefixes(left, k, right, j)
  }

  method ComputeDistance(left: string, right: string) returns (distance: nat)
    ensures distance == Distance(left, right)
  {
    hide Prefixes;
    var previous := new nat[|right| + 1];
    for index := 0 to |right| + 1
      invariant IsRow(previous, left, 0, right, index)
    {
      Unfold(left, 0, right, index);
      previous[index] := index;
    }
    for leftIndex := 0 to |left|
      invariant IsRow(previous, left, leftIndex, right, |right| + 1)
    {
      var current := new nat[|right| + 1];
      current[0] := leftIndex + 1;
      Unfold(left, leftIndex + 1, right, 0);
      for rightIndex := 0 to |right|
        invariant IsRow(previous, left, leftIndex, right, |right| + 1)
        invariant IsRow(current, left, leftIndex + 1, right, rightIndex + 1)
      {
        var cost := 1;
        if left[leftIndex] == right[rightIndex] {
          cost := 0;
        }
        var deletion := previous[rightIndex + 1] + 1;
        var insertion := current[rightIndex] + 1;
        var substitution := previous[rightIndex] + cost;
        Unfold(left, leftIndex + 1, right, rightIndex + 1);
        current[rightIndex + 1] := Min3(deletion, insertion, substitution);
      }
      previous := current;
    }
    return previous[|right|];
  }

  // ---------------------------------------------------------------------------
  // The distance is a metric
  // ---------------------------------------------------------------------------

  lemma {:induction false} PrefixesSymmetric(a: string, i: nat, b: string, j: nat)
    requires i <= |a| && j <= |b|
    ensures Prefixes(a, i, b, j) == Prefixes(b, j, a, i)
    decreases i + j
  {
    hide Prefixes;
    Unfold(a, i, b, j);
    Unfold(b, j, a, i);
    if i != 0 && j != 0 {
      PrefixesSymmetric(a, i - 1, b, j);
      PrefixesSymmetric(a, i, b, j - 1);
      PrefixesSymmetric(a, i - 1, b, j - 1);
    }
  }

  lemma {:induction false} PrefixesZero(a: string, i: nat, b: string, j: nat)
    requires i <= |a| && j <= |b|
    ensures Prefixes(a, i, b, j) == 0 <==> a[..i] == b[..j]
    decreases i + j
  {
    hide Prefixes;
    Unfold(a, i, b, j);
    if i != 0 && j != 0 {
      PrefixesZero(a, i - 1, b, j - 1);
      assert a[..i] == a[..i - 1] + [a[i - 1]] && b[..j] == b[..j - 1] + [b[j - 1]];
    }
  }

  /** The distance is at least the difference of the lengths and at most their sum. */
  lemma {:induction false} PrefixesBounds(a: string, i: nat, b: string, j: nat)
    requires i <= |a| && j <= |b|
    ensures i - j <= Prefixes(a, i, b, j) <= i + j
    ensures j - i <= Prefixes(a, i, b, j)
    decreases i + j
  {
    hide Prefixes;
    Unfold(a, i, b, j);
    if i != 0 && j != 0 {
      PrefixesBounds(a, i - 1, b, j);
      PrefixesBounds(a, i, b, j - 1);
      PrefixesBounds(a, i - 1, b, j - 1);
    }
  }

  /** The step the recursion takes for one pair of prefixes. */
  datatype Move = Deletion | Insertion | Match

  function LastMove(a: string, i: nat, b: string, j: nat): (m: Move)
    requires 0 < i <= |a| && 0 < j <= |b|
    ensures m == Deletion ==> Prefixes(a, i, b, j) == Prefixes(a, i - 1, b, j) + 1
    ensures m == Insertion ==> Prefixes(a, i, b, j) == Prefixes(a, i, b, j - 1) + 1
    ensures m == Match ==> Prefixes(a, i, b, j) == Prefixes(a, i - 1, b, j - 1) + Cost(a[i - 1], b[j - 1])
  {
    if Prefixes(a, i, b, j) == Prefixes(a, i - 1, b, j) + 1 then Deletion
    else if Prefixes(a, i, b, j) == Prefixes(a, i, b, j - 1) + 1 then Insertion
    else Match
  }

  lemma NoMoreThanAMove(a: string, i: nat, b: string, j: nat)
    requires 0 < i <= |a| && 0 < j <= |b|
    ensures Prefixes(a, i, b, j) <= Prefixes(a, i - 1, b, j) + 1
    ensures Prefixes(a, i, b, j) <= Prefixes(a, i, b, j - 1) + 1
    ensures Prefixes(a, i, b, j) <= Prefixes(a, i - 1, b, j - 1) + Cost(a[i - 1], b[j - 1])
  {
  }

  lemma TriangleWithEmpty(a: string, i: nat, b: string, j: nat, c: string, k: nat)
    requires i <= |a| && j <= |b| && k <= |c|
    requires i == 0 || j == 0 || k == 0
    ensures Prefixes(a, i, c, k) <= Prefixes(a, i, b, j) + Prefixes(b, j, c, k)
  {
    PrefixesBounds(a, i, b, j);
    PrefixesBounds(b, j, c, k);
    PrefixesBounds(a, i, c, k);
  }

  lemma {:induction false} PrefixesTriangle(a: string, i: nat, b: string, j: nat, c: string, k: nat)
    requires i <= |a| && j <= |b| && k <= |c|
    ensures Prefixes(a, i, c, k) <= Prefixes(a, i, b, j) + Prefixes(b, j, c, k)
    decreases i + j + k
  {
    hide Prefixes;
    hide LastMove;
    if i == 0 || j == 0 || k == 0 {
      TriangleWithEmpty(a, i, b, j, c, k);
      return;
    }
    NoMoreThanAMove(a, i, c, k);
    var first, second := LastMove(a, i, b, j), LastMove(b, j, c, k);
    if first == Deletion {
      PrefixesTriangle(a, i - 1, b, j, c, k);
    } else if second == Insertion {
      PrefixesTriangle(a, i, b, j, c, k - 1);
    } else if first == Insertion {
      PrefixesTriangle(a, i, b, j - 1, c, if second == Deletion then k else k - 1);
    } else {
      PrefixesTriangle(a, i - 1, b, j - 1, c, if second == Deletion then k else k - 1);
    }
  }

  lemma DistanceIsMetric(a: string, b: string, c: string)
    ensures Distance(a, b) == 0 <==> a == b
    ensures Distance(a, b) == Distance(b, a)
    ensures Distance(a, c) <= Distance(a, b) + Distance(b, c)
  {
    PrefixesZero(a, |a|, b, |b|);
    assert a[..|a|] == a && b[..|b|] == b;
    PrefixesSymmetric(a, |a|, b, |b|);
    PrefixesTriangle(a, |a|, b, |b|, c, |c|);
  }

  // ---------------------------------------------------------------------------
  // The distance is the least number of single-character edits
  // ---------------------------------------------------------------------------

  /** A single-character change at any position. */
  datatype Edit =
    | Insert(at: nat, c: char)
    | Delete(at: nat)
    | Substitute(at: nat, c: char)

  predicate Fits(e: Edit, s: string) {
    match e
    case Insert(at, _) => at <= |s|
    case Delete(at) => at < |s|
    case Substitute(at, _) => at < |s|
  }

  function Apply(e: Edit, s: string): string
    requires Fits(e, s)
  {
    match e
    case Insert(at, c) => s[..at] + [c] + s[at..]
    case Delete(at) => s[..at] + s[at + 1..]
    case Substitute(at, c) => s[..at] + [c] + s[at + 1..]
  }

  /** The edits, applied in order, turn `a` into `b`. */
  predicate Turns(script: seq<Edit>, a: string, b: string) {
    if script == [] then a == b
    else Fits(script[0], a) && Turns(script[1..], Apply(script[0], a), b)
  }

  /** Only the prefixes themselves matter. */
  lemma {:induction false} PrefixesLocal(a: string, b: string, x: string, y: string, i: nat, j: nat)
    requires i <= |a| && j <= |b| && i <= |x| && j <= |y|
    requires a[..i] == x[..i] && b[..j] == y[..j]
    ensures Prefixes(a, i, b, j) == Prefixes(x, i, y, j)
    decreases i + j
  {
    hide Prefixes;
    Unfold(a, i, b, j);
    Unfold(x, i, y, j);
    if i != 0 && j != 0 {
      forall k | 0 <= k < i ensures a[k] == x[k] { assert a[..i][k] == x[..i][k]; }
      forall k | 0 <= k < j ensures b[k] == y[k] { assert b[..j][k] == y[..j][k]; }
      PrefixesLocal(a, b, x, y, i - 1, j);
      PrefixesLocal(a, b, x, y, i, j - 1);
      PrefixesLocal(a, b, x, y, i - 1, j - 1);
    }
  }

  /** A shared tail never makes two strings further apart. */
  lemma {:induction false} CommonTail(a: string, i: nat, b: string, j: nat, n: nat)
    requires i + n == |a| && j + n == |b| && a[i..] == b[j..]
    ensures Distance(a, b) <= Prefixes(a, i, b, j)
    decreases n
  {
    if n != 0 {
      assert a[i] == a[i..][0] == b[j..][0] == b[j];
      assert a[i + 1..] == a[i..][1..] == b[j..][1..] == b[j + 1..];
      CommonTail(a, i + 1, b, j + 1, n - 1);
    }
  }

  lemma {:induction false} OneEditCostsOne(e: Edit, s: string)
    requires Fits(e, s)
    ensures Distance(s, Apply(e, s)) <= 1
  {
    var t := Apply(e, s);
    var i := if e.Insert? then e.at else e.at + 1;
    var j := if e.Delete? then e.at else e.at + 1;
    assert s[..e.at] == t[..e.at];
    PrefixesZero(s, e.at, t, e.at);
    assert Prefixes(s, i, t, j) <= 1;
    assert s[i..] == t[j..];
    CommonTail(s, i, t, j, |s| - i);
  }

  /** No sequence of edits, at any positions and in any order, is shorter. */
  lemma {:induction false} NoScriptIsShorter(script: seq<Edit>, a: string, b: string)
    requires Turns(script, a, b)
    ensures Distance(a, b) <= |script|
    decreases |script|
  {
    if script == [] {
      DistanceIsMetric(a, b, b);
    } else {
      var mid := Apply(script[0], a);
      OneEditCostsOne(script[0], a);
      NoScriptIsShorter(script[1..], mid, b);
      DistanceIsMetric(a, mid, b);
    }
  }

  lemma {:induction false} TurnsAppend(script: seq<Edit>, a: string, b: string, last: Edit)
    requires Turns(script, a, b) && Fits(last, b)
    ensures Turns(script + [last], a, Apply(last, b))
    decreases |script|
  {
    if script != [] {
      TurnsAppend(script[1..], Apply(script[0], a), b, last);
      assert (script + [last])[1..] == script[1..] + [last];
    } else {
      assert Turns([], Apply(last, b), Apply(last, b));
      assert (script + [last])[1..] == [];
    }
  }

  lemma ApplyWithTail(e: Edit, s: string, tail: string)
    requires Fits(e, s)
    ensures Fits(e, s + tail) && Apply(e, s + tail) == Apply(e, s) + tail
  {
    assert (s + tail)[..e.at] == s[..e.at];
    if e.Insert? {
      assert (s + tail)[e.at..] == s[e.at..] + tail;
    } else {
      assert (s + tail)[e.at + 1..] == s[e.at + 1..] + tail;
    }
  }

  /** A script that works on prefixes also works when both strings share a tail. */
  lemma {:induction false} TurnsWithTail(script: seq<Edit>, a: string, b: string, tail: string)
    requires Turns(script, a, b)
    ensures Turns(script, a + tail, b + tail)
    decreases |script|
  {
    if script != [] {
      TurnsWithTail(script[1..], Apply(script[0], a), b, tail);
      ApplyWithTail(script[0], a, tail);
    }
  }

  lemma NoEdits(a: string, b: string)
    requires a == b
    ensures Turns([], a, b)
  {
  }

  lemma LastDelete(script: seq<Edit>, a: string, i: nat, b: string)
    requires 0 < i <= |a| && Turns(script, a[..i - 1], b)
    ensures Turns([Delete(i - 1)] + script, a[..i], b)
  {
    assert Apply(Delete(i - 1), a[..i]) == a[..i - 1];
  }

  lemma {:induction false} LastInsert(script: seq<Edit>, a: string, b: string, j: nat)
    requires 0 < j <= |b| && Turns(script, a, b[..j - 1])
    ensures Turns(script + [Insert(j - 1, b[j - 1])], a, b[..j])
  {
    var e, front := Insert(j - 1, b[j - 1]), b[..j - 1];
    assert b[..j] == front + [b[j - 1]];
    assert Fits(e, front) && Apply(e, front) == front + [b[j - 1]];
    hide Turns;
    hide Apply;
    TurnsAppend(script, a, front, e);
  }

  lemma LastKeep(script: seq<Edit>, a: string, i: nat, b: string, j: nat)
    requires 0 < i <= |a| && 0 < j <= |b| && Turns(script, a[..i - 1], b[..j - 1])
    ensures Turns(script, a[..i], b[..j - 1] + [a[i - 1]])
  {
    hide Turns;
    TurnsWithTail(script, a[..i - 1], b[..j - 1], [a[i - 1]]);
    assert a[..i - 1] + [a[i - 1]] == a[..i];
  }

  lemma LastSubstitute(script: seq<Edit>, a: string, i: nat, b: string, j: nat)
    requires 0 < i <= |a| && 0 < j <= |b| && Turns(script, a[..i - 1], b[..j - 1])
    ensures Turns(script + [Substitute(j - 1, b[j - 1])], a[..i], b[..j])
  {
    hide Turns;
    var e := Substitute(j - 1, b[j - 1]);
    var mid := b[..j - 1] + [a[i - 1]];
    LastKeep(script, a, i, b, j);
    TurnsAppend(script, a[..i], mid, e);
    assert Apply(e, mid) == b[..j];
  }

  lemma LastMatch(script: seq<Edit>, a: string, i: nat, b: string, j: nat) returns (longer: seq<Edit>)
    requires 0 < i <= |a| && 0 < j <= |b| && Turns(script, a[..i - 1], b[..j - 1])
    ensures Turns(longer, a[..i], b[..j]) && |longer| == |script| + Cost(a[i - 1], b[j - 1])
  {
    hide Turns;
    if a[i - 1] == b[j - 1] {
      LastKeep(script, a, i, b, j);
      assert b[..j - 1] + [a[i - 1]] == b[..j];
      longer := script;
    } else {
      LastSubstitute(script, a, i, b, j);
      longer := script + [Substitute(j - 1, b[j - 1])];
    }
  }

  /** Some script has exactly the recursive distance as its length. */
  lemma {:induction false} ShortestScript(a: string, i: nat, b: string, j: nat) returns (script: seq<Edit>)
    requires i <= |a| && j <= |b|
    ensures Turns(script, a[..i], b[..j]) && |script| == Prefixes(a, i, b, j)
    decreases i + j
  {
    hide LastMove;
    hide Turns;
    hide Prefixes;
    hide Min3;
    Unfold(a, i, b, j);
    if i == 0 && j == 0 {
      script := [];
      NoEdits(a[..i], b[..j]);
    } else if i > 0 && (j == 0 || LastMove(a, i, b, j) == Deletion) {
      Unfold(a, i - 1, b, j);
      script := ShortestScript(a, i - 1, b, j);
      LastDelete(script, a, i, b[..j]);
      script := [Delete(i - 1)] + script;
    } else if i == 0 || LastMove(a, i, b, j) == Insertion {
      Unfold(a, i, b, j - 1);
      script := ShortestScript(a, i, b, j - 1);
      LastInsert(script, a[..i], b, j);
      script := script + [Insert(j - 1, b[j - 1])];
    } else {
      script := ShortestScript(a, i - 1, b, j - 1);
      script := LastMatch(script, a, i, b, j);
    }
  }

  /** The distance is the length of a shortest edit script, and nothing else is. */
  lemma DistanceIsLeastScriptLength(a: string, b: string, n: nat)
    ensures n == Distance(a, b) <==>
            && (exists script :: Turns(script, a, b) && |script| == n)
            && (forall script :: Turns(script, a, b) ==> n <= |script|)
  {
    var best := ShortestScript(a, |a|, b, |b|);
    assert a[..|a|] == a && b[..|b|] == b;
    forall script | Turns(script, a, b)
      ensures Distance(a, b) <= |script|
    {
      NoScriptIsShorter(script, a, b);
    }
  }

  // ---------------------------------------------------------------------------
  // Fallback suggestions
  // ---------------------------------------------------------------------------

  const FALLBACK_DISTANCE: nat := 3

  /** A sub-command: its name and whether Cobra lists it as available. */
  datatype Command = Command(name: string, available: bool)

  function To(fold: string -> string, name: string, child: Command): nat {
    Distance(fold(name), fold(child.name))
  }

  /** `d` is the smallest distance among available children, if that is near enough. */
  ghost predicate IsBest(fold: string -> string, name: string, children: seq<Command>, d: nat) {
    && d <= FALLBACK_DISTANCE
    && (exists i :: 0 <= i < |children| && children[i].available && To(fold, name, children[i]) == d)
    && (forall i :: 0 <= i < |children| && children[i].available ==> d <= To(fold, name, children[i]))
  }

  /** The available children at distance `d`, in order. */
  function AtDistance(fold: string -> string, name: string, children: seq<Command>, d: nat): seq<string> {
    if children == [] then []
    else
      var last := children[|children| - 1];
      AtDistance(fold, name, children[..|children| - 1], d) +
      if last.available && To(fold, name, last) == d then [last.name] else []
  }

  lemma AtDistanceStart(fold: string -> string, name: string, children: seq<Command>)
    ensures forall d: nat :: AtDistance(fold, name, children[..0], d) == []
  {
  }

  lemma AtDistanceStep(fold: string -> string, name: string, children: seq<Command>, k: nat, d: nat)
    requires k < |children|
    ensures AtDistance(fold, name, children[..k + 1], d) ==
            AtDistance(fold, name, children[..k], d) +
            if children[k].available && To(fold, name, children[k]) == d then [children[k].name] else []
    ensures !children[k].available || To(fold, name, children[k]) != d ==>
            AtDistance(fold, name, children[..k + 1], d) == AtDistance(fold, name, children[..k], d)
  {
    assert children[..k + 1][..k] == children[..k];
  }

  lemma {:induction false} NoneAtDistance(fold: string -> string, name: string, children: seq<Command>, d: nat)
    requires forall i :: 0 <= i < |children| && children[i].available ==> To(fold, name, children[i]) != d
    ensures AtDistance(fold, name, children, d) == []
    decreases |children|
  {
    if children != [] {
      NoneAtDistance(fold, name, children[..|children| - 1], d);
    }
  }

  lemma {:induction false} AtDistanceHolds(fold: string -> string, name: string, children: seq<Command>, d: nat, s: string)
    ensures s in AtDistance(fold, name, children, d) <==>
            exists i :: 0 <= i < |children| && children[i].available
                        && To(fold, name, children[i]) == d && children[i].name == s
    decreases |children|
  {
    if children != [] {
      var n := |children| - 1;
      AtDistanceHolds(fold, name, children[..n], d, s);
    }
  }

  /** Those children come from an increasing list of places, which are exactly the
      available ones at that distance. */
  lemma {:induction false} PlacesAtDistance(fold: string -> string, name: string, children: seq<Command>, d: nat) returns (places: seq<nat>)
    ensures forall a, b :: 0 <= a < b < |places| ==> places[a] < places[b]
    ensures forall i: nat :: i in places <==> i < |children| && children[i].available && To(fold, name, children[i]) == d
    ensures |places| == |AtDistance(fold, name, children, d)|
    ensures forall a :: 0 <= a < |places| ==>
              places[a] < |children| && AtDistance(fold, name, children, d)[a] == children[places[a]].name
    decreases |children|
  {
    hide To;
    places := [];
    if children != [] {
      var n := |children| - 1;
      places := PlacesAtDistance(fold, name, children[..n], d);
      AtDistanceStep(fold, name, children, n, d);
      assert children[..n + 1] == children;
      hide AtDistance;
      if children[n].available && To(fold, name, children[n]) == d {
        places := places + [n];
      }
    }
  }

  /** `primary` is what Cobra's own engine suggests; it wins when not empty.
      Otherwise every available command at the least distance is kept, in
      order, provided that distance is at most three. */
  method CommandSuggestions(fold: string -> string, primary: seq<string>, children: seq<Command>, name: string)
    returns (suggestions: seq<string>, ghost places: seq<nat>)
    ensures primary != [] ==> suggestions == primary
    ensures primary == [] ==> |suggestions| == |places| && forall a, b :: 0 <= a < b < |places| ==> places[a] < places[b]
    ensures primary == [] ==> forall a :: 0 <= a < |places| ==> places[a] < |children| && suggestions[a] == children[places[a]].name
    ensures primary == [] ==> forall i: nat ::
              i in places <==>
                && i < |children| && children[i].available && Distance(fold(name), fold(children[i].name)) <= 3
                && forall j :: 0 <= j < |children| && children[j].available ==>
                     Distance(fold(name), fold(children[i].name)) <= Distance(fold(name), fold(children[j].name))
    ensures primary == [] ==>
      if exists d: nat :: IsBest(fold, name, children, d)
      then exists d: nat :: IsBest(fold, name, children, d) && suggestions == AtDistance(fold, name, children, d)
      else suggestions == []
  {
    hide Distance;
    hide AtDistance;
    AtDistanceStart(fold, name, children);
    if |primary| > 0 {
      return primary, [];
    }
    places := [];
    var best := FALLBACK_DISTANCE + 1;
    suggestions := [];
    for k := 0 to |children|
      invariant best <= FALLBACK_DISTANCE + 1
      invariant forall i :: 0 <= i < k && children[i].available && best <= FALLBACK_DISTANCE ==> best <= To(fold, name, children[i])
      invariant best <= FALLBACK_DISTANCE ==> exists i :: 0 <= i < k && children[i].available && To(fold, name, children[i]) == best
      invariant best > FALLBACK_DISTANCE ==> suggestions == []
      invariant forall i :: 0 <= i < k && children[i].available && best > FALLBACK_DISTANCE ==> To(fold, name, children[i]) > FALLBACK_DISTANCE
      invariant best <= FALLBACK_DISTANCE ==> suggestions == AtDistance(fold, name, children[..k], best)
    {
      var child := children[k];
      AtDistanceStep(fold, name, children, k, best);
      if !child.available {
        continue;
      }
      var distance := ComputeDistance(fold(name), fold(child.name));
      if distance > FALLBACK_DISTANCE || distance > best {
        continue;
      }
      if distance < best {
        best := distance;
        suggestions := [];
        NoneAtDistance(fold, name, children[..k], distance);
        AtDistanceStep(fold, name, children, k, distance);
      }
      suggestions := suggestions + [child.name];
    }
    assert children[..|children|] == children;
    assert best <= FALLBACK_DISTANCE ==> IsBest(fold, name, children, best);
    if best <= FALLBACK_DISTANCE {
      places := PlacesAtDistance(fold, name, children, best);
    }
  }
}
