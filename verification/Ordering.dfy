/** Byte order on strings and the stable sort that the library's sort calls stand
    for. Strings are sequences of Unicode characters, whose order is the byte
    order of their UTF-8 forms. */
module Ordering {

  /** Length of the longest common prefix, counted from position i on. */
  function CommonFrom(a: string, b: string, i: nat): (k: nat)
    requires i <= |a| && i <= |b|
    ensures i <= k <= |a| && k <= |b|
    ensures forall j :: i <= j < k ==> a[j] == b[j]
    ensures k == |a| || k == |b| || a[k] != b[k]
    decreases |a| - i
  {
    if i < |a| && i < |b| && a[i] == b[i] then CommonFrom(a, b, i + 1) else i
  }

  function Common(a: string, b: string): (k: nat)
    ensures k <= |a| && k <= |b| && a[..k] == b[..k]
    ensures forall j :: 0 <= j < k ==> a[j] == b[j]
    ensures k == |a| || k == |b| || a[k] != b[k]
  {
    CommonFrom(a, b, 0)
  }

  /** `a` is before `b`: a proper prefix, or smaller where they first differ. */
  predicate Less(a: string, b: string) {
    var k := Common(a, b);
    k < |b| && (k == |a| || a[k] < b[k])
  }

  predicate AtMost(a: string, b: string) {
    !Less(b, a)
  }

  lemma CommonSymmetric(a: string, b: string)
    ensures Common(a, b) == Common(b, a)
  {
  }

  lemma AtMostAntisymmetric(a: string, b: string)
    requires AtMost(a, b) && AtMost(b, a)
    ensures a == b
  {
    CommonSymmetric(a, b);
    assert a == a[..|a|] && b == b[..|b|];
  }

  lemma AtMostTransitive(a: string, b: string, c: string)
    requires AtMost(a, b) && AtMost(b, c)
    ensures AtMost(a, c)
  {
    hide CommonFrom;
    var ba, cb, ca := Common(b, a), Common(c, b), Common(c, a);
    if ca < ba {
      assert c[ca..] == [] || a[ca] == b[ca];
    }
  }

  /** In sorted order, a common prefix with a distant string is shared with
      everything in between. */
  lemma CommonBetween(a: string, b: string, c: string)
    requires AtMost(a, b) && AtMost(b, c)
    ensures Common(a, c) <= Common(a, b) && Common(a, c) <= Common(b, c)
  {
    hide CommonFrom;
    CommonSymmetric(a, b);
    CommonSymmetric(b, c);
  }

  // ---------------------------------------------------------------------------
  // Stable sorting by a string key
  // ---------------------------------------------------------------------------

  ghost predicate Sorted<T>(s: seq<T>, key: T -> string) {
    forall i, j :: 0 <= i < j < |s| ==> AtMost(key(s[i]), key(s[j]))
  }

  function Insert<T>(x: T, s: seq<T>, key: T -> string): (r: seq<T>)
    requires Sorted(s, key)
    ensures Sorted(r, key) && multiset(r) == multiset{x} + multiset(s)
  {
    if s == [] || AtMost(key(x), key(s[0])) then
      InsertFront(x, s, key);
      [x] + s
    else
      assert s == [s[0]] + s[1..];
      var t := Insert(x, s[1..], key);
      InsertBehind(x, s, t, key);
      [s[0]] + t
  }

  lemma InsertFront<T>(x: T, s: seq<T>, key: T -> string)
    requires Sorted(s, key) && (s == [] || AtMost(key(x), key(s[0])))
    ensures Sorted([x] + s, key)
  {
    hide Less;
    hide AtMost;
    forall j | 0 <= j < |s| ensures AtMost(key(x), key(s[j])) {
      if j > 0 {
        AtMostTransitive(key(x), key(s[0]), key(s[j]));
      }
    }
  }

  lemma InsertBehind<T>(x: T, s: seq<T>, t: seq<T>, key: T -> string)
    requires Sorted(s, key) && s != [] && !AtMost(key(x), key(s[0]))
    requires Sorted(t, key) && multiset(t) == multiset{x} + multiset(s[1..])
    ensures Sorted([s[0]] + t, key)
  {
    assert AtMost(key(s[0]), key(x)) by { CommonSymmetric(key(s[0]), key(x)); }
    hide Less;
    hide AtMost;
    forall j | 0 <= j < |t| ensures AtMost(key(s[0]), key(t[j])) {
      assert t[j] in multiset(t);
      if t[j] != x {
        assert t[j] in s[1..];
      }
    }
  }

  function Sort<T>(s: seq<T>, key: T -> string): (r: seq<T>)
    ensures Sorted(r, key) && multiset(r) == multiset(s) && |r| == |s|
  {
    if s == [] then []
    else
      assert s == [s[0]] + s[1..];
      var r := Insert(s[0], Sort(s[1..], key), key);
      assert |multiset(r)| == |multiset(s)|;
      r
  }

  ghost predicate DistinctKeys<T>(s: seq<T>, key: T -> string) {
    forall i, j :: 0 <= i < j < |s| ==> key(s[i]) != key(s[j])
  }

  lemma CountTwice<T>(s: seq<T>, i: nat, j: nat)
    requires i < j < |s| && s[i] == s[j]
    ensures multiset(s)[s[i]] >= 2
  {
    assert s == s[..j] + s[j..];
    assert s[i] in s[..j] by { assert s[..j][i] == s[i]; }
    assert s[j] in s[j..] by { assert s[j..][0] == s[j]; }
  }

  lemma CountOnce<T>(s: seq<T>, i: nat)
    requires i < |s| && forall j :: 0 <= j < |s| && j != i ==> s[j] != s[i]
    ensures multiset(s)[s[i]] == 1
  {
    assert s == s[..i] + ([s[i]] + s[i + 1..]);
    assert s[i] !in s[..i] && s[i] !in s[i + 1..];
  }

  /** A permutation keeps keys distinct. */
  lemma PermutedKeysDistinct<T>(s: seq<T>, t: seq<T>, key: T -> string)
    requires multiset(s) == multiset(t) && DistinctKeys(s, key)
    ensures DistinctKeys(t, key)
  {
    forall i, j | 0 <= i < j < |t| ensures key(t[i]) != key(t[j]) {
      assert t[i] in multiset(s) && t[j] in multiset(s);
      var x :| 0 <= x < |s| && s[x] == t[i];
      if key(t[i]) == key(t[j]) {
        var y :| 0 <= y < |s| && s[y] == t[j];
        CountTwice(t, i, j);
        CountOnce(s, x);
      }
    }
  }

  /** Sorting distinct keys leaves no ties. */
  lemma SortStrict<T>(s: seq<T>, key: T -> string)
    requires DistinctKeys(s, key)
    ensures forall i, j :: 0 <= i < j < |Sort(s, key)| ==> Less(key(Sort(s, key)[i]), key(Sort(s, key)[j]))
  {
    var t := Sort(s, key);
    PermutedKeysDistinct(s, t, key);
    forall i, j | 0 <= i < j < |t| ensures Less(key(t[i]), key(t[j])) {
      if !Less(key(t[i]), key(t[j])) {
        AtMostAntisymmetric(key(t[i]), key(t[j]));
      }
    }
  }
}
