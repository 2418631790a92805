/** Framing before hashing: the length-prefixed stream of
    internal/cli/guided_plan.go, its use for adoption in guided_try.go, and the
    NUL-joined frame of wizard.go. Strings are byte strings: characters below
    256. Nothing is said about the hash. */
module Fingerprints {
  import opened Prelude
  import opened Ordering

  type Byte = c: char | c < '\U{100}' witness '\0'

  const WORD: nat := 0x1_0000_0000_0000_0000

  // ---------------------------------------------------------------------------
  // Big-endian lengths
  // ---------------------------------------------------------------------------

  function Power256(k: nat): (p: nat)
    ensures p > 0
  {
    if k == 0 then 1 else 256 * Power256(k - 1)
  }

  /** The last k base-256 digits of n, most significant first. */
  function BigEndian(n: nat, k: nat): (r: seq<Byte>)
    ensures |r| == k
  {
    if k == 0 then [] else BigEndian(n / 256, k - 1) + [(n % 256) as char]
  }

  function Decode(s: seq<Byte>): nat {
    if s == [] then 0 else Decode(s[..|s| - 1]) * 256 + s[|s| - 1] as int
  }

  lemma {:induction false} DecodeInverts(n: nat, k: nat)
    requires n < Power256(k)
    ensures Decode(BigEndian(n, k)) == n
    decreases k
  {
    if k > 0 {
      assert n / 256 < Power256(k - 1);
      DecodeInverts(n / 256, k - 1);
      var s := BigEndian(n, k);
      assert s[..|s| - 1] == BigEndian(n / 256, k - 1);
    }
  }

  lemma WordIsEightBytes()
    ensures Power256(8) == WORD
  {
    assert Power256(1) == 256 && Power256(2) == 0x1_0000 && Power256(3) == 0x100_0000 && Power256(4) == 0x1_0000_0000;
    assert Power256(5) == 0x100_0000_0000 && Power256(6) == 0x1_0000_0000_0000 && Power256(7) == 0x100_0000_0000_0000;
  }

  /** An unsigned 64-bit word: numbers beyond it wrap around. */
  function Word64(n: nat): (r: seq<Byte>)
    ensures |r| == 8
  {
    BigEndian(n % WORD, 8)
  }

  lemma WordsDiffer(m: nat, n: nat)
    requires m < WORD && n < WORD && Word64(m) == Word64(n)
    ensures m == n
  {
    hide BigEndian;
    hide Decode;
    hide Power256;
    WordIsEightBytes();
    DecodeInverts(m, 8);
    DecodeInverts(n, 8);
  }

  /** Writes n into the eight-byte buffer, in place. */
  method PutUint64(buffer: array<Byte>, n: nat)
    requires buffer.Length == 8
    modifies buffer
    ensures buffer[..] == Word64(n)
    ensures n % WORD ==
            buffer[0] as int * 0x100_0000_0000_0000 + buffer[1] as int * 0x1_0000_0000_0000 + buffer[2] as int * 0x100_0000_0000
            + buffer[3] as int * 0x1_0000_0000 + buffer[4] as int * 0x100_0000 + buffer[5] as int * 0x1_0000
            + buffer[6] as int * 0x100 + buffer[7] as int
  {
    var rest: nat := n % WORD;
    assert Word64(n) == BigEndian(rest, 8) + buffer[8..];
    for k := 0 to 8
      invariant Word64(n) == BigEndian(rest, 8 - k) + buffer[8 - k..]
    {
      ghost var tail := buffer[8 - k..];
      buffer[7 - k] := (rest % 256) as char;
      assert buffer[7 - k..] == [(rest % 256) as char] + tail;
      rest := rest / 256;
    }
    assert buffer[0..] == buffer[..];
    WordIsEightBytes();
    DecodeInverts(n % WORD, 8);
    EightBytes(buffer[..]);
  }

  lemma {:induction false} EightBytes(s: seq<Byte>)
    requires |s| == 8
    ensures Decode(s) ==
            s[0] as int * 0x100_0000_0000_0000 + s[1] as int * 0x1_0000_0000_0000 + s[2] as int * 0x100_0000_0000
            + s[3] as int * 0x1_0000_0000 + s[4] as int * 0x100_0000 + s[5] as int * 0x1_0000 + s[6] as int * 0x100 + s[7] as int
  {
    DecodeLast(s[..0], s[0]);
    DecodeLast(s[..1], s[1]);
    DecodeLast(s[..2], s[2]);
    DecodeLast(s[..3], s[3]);
    DecodeLast(s[..4], s[4]);
    DecodeLast(s[..5], s[5]);
    DecodeLast(s[..6], s[6]);
    DecodeLast(s[..7], s[7]);
    assert Decode([]) == 0;
    hide Decode;
    assert s[..0] == [] && s[..0] + [s[0]] == s[..1] && s[..1] + [s[1]] == s[..2] && s[..2] + [s[2]] == s[..3];
    assert s[..3] + [s[3]] == s[..4] && s[..4] + [s[4]] == s[..5] && s[..5] + [s[5]] == s[..6];
    assert s[..6] + [s[6]] == s[..7] && s[..7] + [s[7]] == s;
  }

  lemma DecodeLast(s: seq<Byte>, last: Byte)
    ensures Decode(s + [last]) == Decode(s) * 256 + last as int
  {
    assert (s + [last])[..|s|] == s;
  }

  // ---------------------------------------------------------------------------
  // The framed stream
  // ---------------------------------------------------------------------------

  /** Each part, behind its length as an unsigned 64-bit word. */
  function Stream(parts: seq<string>): string {
    if parts == [] then "" else Word64(|parts[0]|) + parts[0] + Stream(parts[1..])
  }

  lemma {:induction false} StreamAppend(parts: seq<string>, last: string)
    ensures Stream(parts + [last]) == Stream(parts) + Word64(|last|) + last
    decreases |parts|
  {
    if parts == [] {
      assert [last][1..] == [];
    } else {
      assert (parts + [last])[1..] == parts[1..] + [last];
      StreamAppend(parts[1..], last);
    }
  }

  /** What is written to the hash, one reused length buffer and one part at a time. */
  method GuidedStream(parts: seq<string>) returns (written: string)
    ensures written == Stream(parts)
  {
    hide Stream;
    hide Word64;
    var length := new Byte[8](_ => '\0');
    written := "";
    EmptyStream();
    assert parts[..0] == [];
    for k := 0 to |parts|
      invariant written == Stream(parts[..k])
    {
      var part := parts[k];
      PutUint64(length, |part|);
      StreamAppend(parts[..k], part);
      assert parts[..k + 1] == parts[..k] + [part];
      written := written + length[..];
      written := written + part;
    }
    assert parts[..|parts|] == parts;
  }

  lemma EmptyStream()
    ensures Stream([]) == ""
  {
  }

  /** Fronts of equal length of equal texts are equal, and so are the rests. */
  lemma SplitAt(a: string, x: string, b: string, y: string)
    requires |a| == |b| && a + x == b + y
    ensures a == b && x == y
  {
    var s, t := a + x, b + y;
    assert s[..|a|] == a && t[..|b|] == b && s[|a|..] == x && t[|b|..] == y;
  }

  lemma FirstFrame(a: string, x: string, b: string, y: string)
    requires |a| < WORD && |b| < WORD
    requires Word64(|a|) + a + x == Word64(|b|) + b + y
    ensures a == b && x == y
  {
    hide Word64;
    var p, q: string := Word64(|a|), Word64(|b|);
    Regroup(p, a, x);
    Regroup(q, b, y);
    SplitAt(p, a + x, q, b + y);
    WordsDiffer(|a|, |b|);
    SplitAt(a, x, b, y);
  }

  /** The frame cannot be read two ways: equal streams come from equal lists. */
  lemma {:induction false} StreamIsInjective(a: seq<string>, b: seq<string>)
    requires forall p :: p in a || p in b ==> |p| < WORD
    requires Stream(a) == Stream(b)
    ensures a == b
    decreases |a|
  {
    if a != [] && b != [] {
      FirstFrame(a[0], Stream(a[1..]), b[0], Stream(b[1..]));
      StreamIsInjective(a[1..], b[1..]);
      assert a == [a[0]] + a[1..] && b == [b[0]] + b[1..];
    }
  }

  // ---------------------------------------------------------------------------
  // Adoption
  // ---------------------------------------------------------------------------

  /** The parts of a record document that adoption pins. */
  datatype Document = Document(id: string, revision: string)

  function Pairs(keys: seq<string>, parents: map<string, string>): seq<string>
    requires forall k :: k in keys ==> k in parents
  {
    if keys == [] then [] else [keys[0], parents[keys[0]]] + Pairs(keys[1..], parents)
  }

  /** `keys` lists the map's keys once each, in the order iteration happened to give. */
  ghost predicate Enumerates(keys: seq<string>, parents: map<string, string>) {
    DistinctKeys(keys, Id) && forall k :: k in keys <==> k in parents
  }

  lemma SortedMembers(keys: seq<string>)
    ensures forall k :: k in Sort(keys, Id) <==> k in keys
  {
    forall k ensures k in Sort(keys, Id) <==> k in keys {
      assert k in Sort(keys, Id) <==> k in multiset(Sort(keys, Id));
      assert k in keys <==> k in multiset(keys);
    }
  }

  function AdoptParts(document: Option<Document>, keys: seq<string>, parents: map<string, string>): seq<string>
    requires forall k :: k in keys ==> k in parents
  {
    SortedMembers(keys);
    (if document.None? then [] else [document.value.id, document.value.revision]) + Pairs(Sort(keys, Id), parents)
  }

  method GuidedAdoptParts(document: Option<Document>, keys: seq<string>, parents: map<string, string>) returns (parts: seq<string>)
    requires forall k :: k in keys ==> k in parents
    ensures parts == AdoptParts(document, keys, parents)
  {
    parts := [];
    if document.Some? {
      parts := parts + [document.value.id, document.value.revision];
    }
    var sorted := Sort(keys, Id);
    SortedMembers(keys);
    ghost var start := parts;
    for k := 0 to |sorted|
      invariant start + Pairs(sorted, parents) == parts + Pairs(sorted[k..], parents)
    {
      parts := parts + [sorted[k], parents[sorted[k]]];
      assert sorted[k..][1..] == sorted[k + 1..];
    }
    assert parts + [] == parts;
  }

  lemma {:induction false} PairsDetermine(a: seq<string>, m: map<string, string>, b: seq<string>, n: map<string, string>)
    requires (forall k :: k in a ==> k in m) && (forall k :: k in b ==> k in n) && Pairs(a, m) == Pairs(b, n)
    ensures a == b && forall k :: k in a ==> m[k] == n[k]
    decreases |a|
  {
    if a != [] && b != [] {
      var p, q := Pairs(a, m), Pairs(b, n);
      assert p[0] == a[0] && q[0] == b[0] && p[1] == m[a[0]] && q[1] == n[b[0]];
      assert p[2..] == Pairs(a[1..], m) && q[2..] == Pairs(b[1..], n);
      PairsDetermine(a[1..], m, b[1..], n);
      assert a == [a[0]] + a[1..] && b == [b[0]] + b[1..];
    }
  }

  /** For documents, the parts determine ID, revision and the whole parent map. */
  lemma AdoptionIsDetermined(d: Document, keys: seq<string>, m: map<string, string>, e: Document, others: seq<string>, n: map<string, string>)
    requires Enumerates(keys, m) && Enumerates(others, n)
    requires AdoptParts(Some(d), keys, m) == AdoptParts(Some(e), others, n)
    ensures d == e && m == n
  {
    SortedMembers(keys);
    SortedMembers(others);
    var a, b := Sort(keys, Id), Sort(others, Id);
    hide Sort;
    hide DistinctKeys;
    SplitPair([d.id, d.revision], Pairs(a, m), [e.id, e.revision], Pairs(b, n));
    PairsDetermine(a, m, b, n);
    assert forall k :: k in m <==> k in n;
  }

  lemma SplitPair(a: seq<string>, x: seq<string>, b: seq<string>, y: seq<string>)
    requires |a| == |b| == 2 && a + x == b + y
    ensures a[0] == b[0] && a[1] == b[1] && x == y
  {
    var s, t := a + x, b + y;
    assert s[0] == t[0] && s[1] == t[1];
    assert s[2..] == x && t[2..] == y;
  }

  lemma FirstOfSorted(a: seq<string>, b: seq<string>)
    requires a != [] && b != [] && Sorted(a, Id) && Sorted(b, Id) && multiset(a) == multiset(b)
    ensures a[0] == b[0]
  {
    assert a[0] in multiset(b) && b[0] in multiset(a);
    var i :| 0 <= i < |b| && b[i] == a[0];
    var j :| 0 <= j < |a| && a[j] == b[0];
    AtMostReflexive(a[0]);
    assert AtMost(Id(b[0]), Id(b[i])) by { if i == 0 { AtMostReflexive(b[0]); } }
    assert AtMost(Id(a[0]), Id(a[j])) by { if j == 0 { AtMostReflexive(a[0]); } }
    AtMostAntisymmetric(a[0], b[0]);
  }

  lemma AtMostReflexive(a: string)
    ensures AtMost(a, a)
  {
  }

  lemma {:induction false} SortedIsUnique(a: seq<string>, b: seq<string>)
    requires Sorted(a, Id) && Sorted(b, Id) && multiset(a) == multiset(b)
    ensures a == b
    decreases |a|
  {
    assert |a| == |multiset(a)| == |multiset(b)| == |b|;
    if a != [] {
      FirstOfSorted(a, b);
      WithoutFirst(a);
      WithoutFirst(b);
      hide AtMost;
      SortedIsUnique(a[1..], b[1..]);
    }
  }

  lemma WithoutFirst(a: seq<string>)
    requires a != []
    ensures a == [a[0]] + a[1..] && multiset(a[1..]) == multiset(a) - multiset{a[0]}
  {
    assert a == [a[0]] + a[1..];
  }

  /** Map iteration order does not matter. */
  lemma AdoptionIgnoresOrder(document: Option<Document>, keys: seq<string>, others: seq<string>, m: map<string, string>)
    requires Enumerates(keys, m) && Enumerates(others, m)
    ensures AdoptParts(document, keys, m) == AdoptParts(document, others, m)
  {
    SameMultiset(keys, others);
    SortedMembers(keys);
    SortedMembers(others);
    SortedIsUnique(Sort(keys, Id), Sort(others, Id));
  }

  lemma SameMultiset(a: seq<string>, b: seq<string>)
    requires DistinctKeys(a, Id) && DistinctKeys(b, Id) && forall k :: k in a <==> k in b
    ensures multiset(a) == multiset(b)
  {
    forall k ensures multiset(a)[k] == multiset(b)[k] {
      if k in a {
        var i :| 0 <= i < |a| && a[i] == k;
        var j :| 0 <= j < |b| && b[j] == k;
        CountOnce(a, i);
        CountOnce(b, j);
      } else {
        assert k !in multiset(a) && k !in multiset(b);
      }
    }
  }

  /** The parts of two adoptions, one without a document, coincide: its least parent
      and that parent's revision are the other's document, and its other parents are
      the other's parents. */
  ghost predicate Passes(m: map<string, string>, e: Document, n: map<string, string>) {
    && e.id in m && m[e.id] == e.revision && n == m - {e.id}
    && forall k :: k in m ==> AtMost(e.id, k)
  }

  /** Exactly when two adoptions have the same parts: same document, or none, and
      same parents; or one without a document passes for the other. */
  lemma AdoptionCollides(d: Option<Document>, keys: seq<string>, m: map<string, string>,
                         e: Option<Document>, others: seq<string>, n: map<string, string>)
    requires Enumerates(keys, m) && Enumerates(others, n)
    ensures AdoptParts(d, keys, m) == AdoptParts(e, others, n) <==>
      || (d == e && m == n)
      || (d.None? && e.Some? && Passes(m, e.value, n))
      || (d.Some? && e.None? && Passes(n, d.value, m))
  {
    hide AdoptParts;
    hide Passes;
    if d.Some? && e.None? {
      PassesExactly(others, n, d.value, keys, m);
    } else if d.None? && e.Some? {
      PassesExactly(keys, m, e.value, others, n);
    } else {
      if AdoptParts(d, keys, m) == AdoptParts(e, others, n) {
        SameKindDetermined(d, keys, m, e, others, n);
      }
      if d == e && m == n {
        AdoptionIgnoresOrder(d, keys, others, m);
      }
    }
  }

  lemma SameKindDetermined(d: Option<Document>, keys: seq<string>, m: map<string, string>,
                           e: Option<Document>, others: seq<string>, n: map<string, string>)
    requires Enumerates(keys, m) && Enumerates(others, n) && d.Some? == e.Some?
    requires AdoptParts(d, keys, m) == AdoptParts(e, others, n)
    ensures d == e && m == n
  {
    if d.Some? {
      AdoptionIsDetermined(d.value, keys, m, e.value, others, n);
    } else {
      PartsWithout(keys, m);
      PartsWithout(others, n);
      SortedEnumerates(keys, m);
      SortedEnumerates(others, n);
      PairsDetermine(Sort(keys, Id), m, Sort(others, Id), n);
      hide AdoptParts;
      hide Sort;
      hide Pairs;
      SameMap(Sort(keys, Id), m, n);
    }
  }

  lemma SameMap(keys: seq<string>, m: map<string, string>, n: map<string, string>)
    requires Enumerates(keys, m) && Enumerates(keys, n) && forall k :: k in keys ==> m[k] == n[k]
    ensures m == n
  {
    hide DistinctKeys;
    assert forall k :: k in m <==> k in n;
  }

  lemma PartsWithout(keys: seq<string>, m: map<string, string>)
    requires forall k :: k in keys ==> k in m
    ensures (forall k :: k in Sort(keys, Id) ==> k in m)
    ensures AdoptParts(None, keys, m) == Pairs(Sort(keys, Id), m)
  {
    SortedMembers(keys);
  }

  lemma {:induction false} PairsAgree(keys: seq<string>, m: map<string, string>, n: map<string, string>)
    requires forall k :: k in keys ==> k in m && k in n && m[k] == n[k]
    ensures Pairs(keys, m) == Pairs(keys, n)
    decreases |keys|
  {
    if keys != [] {
      PairsAgree(keys[1..], m, n);
    }
  }

  /** Sorted enumerations: increasing, every key once. */
  lemma SortedEnumerates(keys: seq<string>, m: map<string, string>)
    requires Enumerates(keys, m)
    ensures Enumerates(Sort(keys, Id), m)
  {
    SortedMembers(keys);
    PermutedKeysDistinct(keys, Sort(keys, Id), Id);
  }

  /** The rest of an enumeration lists the map without the first key. */
  lemma RestEnumerates(keys: seq<string>, m: map<string, string>)
    requires Enumerates(keys, m) && keys != []
    ensures Enumerates(keys[1..], m - {keys[0]})
  {
    forall k ensures k in keys[1..] <==> k in m && k != keys[0] {
      if k in m && k != keys[0] {
        var i :| 0 <= i < |keys| && keys[i] == k;
        assert keys[1..][i - 1] == k;
      }
      if k in keys[1..] {
        var i :| 0 <= i < |keys[1..]| && keys[1..][i] == k;
        assert keys[0] != keys[i + 1] by { assert Id(keys[0]) != Id(keys[i + 1]); }
      }
    }
    forall i, j | 0 <= i < j < |keys[1..]| ensures Id(keys[1..][i]) != Id(keys[1..][j]) {
      assert Id(keys[i + 1]) != Id(keys[j + 1]);
    }
  }

  /** The first key of a sorted enumeration is the least. */
  lemma FirstIsLeast(keys: seq<string>, m: map<string, string>, least: string)
    requires Enumerates(keys, m) && Sorted(keys, Id) && keys != []
    ensures keys[0] in m && forall k :: k in m ==> AtMost(keys[0], k)
    ensures least in m && (forall k :: k in m ==> AtMost(least, k)) ==> keys[0] == least
  {
    assert keys[0] in keys;
    forall k | k in m ensures AtMost(keys[0], k) {
      var i :| 0 <= i < |keys| && keys[i] == k;
      if i == 0 {
        AtMostReflexive(k);
      } else {
        assert AtMost(Id(keys[0]), Id(keys[i]));
      }
    }
    if least in m && forall k :: k in m ==> AtMost(least, k) {
      AtMostAntisymmetric(least, keys[0]);
    }
  }

  /** Two sorted enumerations of one map are the same. */
  lemma OneSortedEnumeration(a: seq<string>, b: seq<string>, m: map<string, string>)
    requires Enumerates(a, m) && Enumerates(b, m) && Sorted(a, Id) && Sorted(b, Id)
    ensures a == b
  {
    SameMultiset(a, b);
    SortedIsUnique(a, b);
  }

  lemma PassesExactly(keys: seq<string>, m: map<string, string>, e: Document, others: seq<string>, n: map<string, string>)
    requires Enumerates(keys, m) && Enumerates(others, n)
    ensures AdoptParts(None, keys, m) == AdoptParts(Some(e), others, n) <==> Passes(m, e, n)
  {
    SortedEnumerates(keys, m);
    SortedEnumerates(others, n);
    var a, b := Sort(keys, Id), Sort(others, Id);
    PartsWithout(keys, m);
    assert AdoptParts(Some(e), others, n) == [e.id, e.revision] + Pairs(b, n);
    hide AdoptParts;
    hide Sort;
    if a == [] {
      assert e.id in m ==> e.id in a;
    } else {
      FirstIsLeast(a, m, e.id);
      RestEnumerates(a, m);
      PassesSorted(a, m, e, b, n);
    }
  }

  lemma {:induction false} PassesSorted(a: seq<string>, m: map<string, string>, e: Document, b: seq<string>, n: map<string, string>)
    requires Enumerates(a, m) && Enumerates(b, n) && Sorted(a, Id) && Sorted(b, Id) && a != []
    requires Enumerates(a[1..], m - {a[0]})
    requires forall k :: k in m ==> AtMost(a[0], k)
    requires e.id in m && (forall k :: k in m ==> AtMost(e.id, k)) ==> a[0] == e.id
    ensures [a[0], m[a[0]]] + Pairs(a[1..], m) == [e.id, e.revision] + Pairs(b, n) <==> Passes(m, e, n)
  {
    var front, rest := [a[0], m[a[0]]], Pairs(a[1..], m);
    PairsAgree(a[1..], m, m - {a[0]});
    if front + rest == [e.id, e.revision] + Pairs(b, n) {
      SplitPair(front, rest, [e.id, e.revision], Pairs(b, n));
      PairsDetermine(a[1..], m, b, n);
      SameMap(b, n, m - {a[0]});
    }
    if Passes(m, e, n) {
      OneSortedEnumeration(a[1..], b, n);
    }
  }

  /** The fingerprint is made from a Try and its parent Ideas, whose IDs begin with
      their kinds: then the parts determine everything, with a document or without. */
  lemma TypedAdoptionsDiffer(d: Option<Document>, keys: seq<string>, m: map<string, string>,
                             e: Option<Document>, others: seq<string>, n: map<string, string>)
    requires Enumerates(keys, m) && Enumerates(others, n)
    requires (d.Some? ==> "try_" <= d.value.id) && (e.Some? ==> "try_" <= e.value.id)
    requires forall k :: k in m || k in n ==> "idea_" <= k
    ensures AdoptParts(d, keys, m) == AdoptParts(e, others, n) <==> d == e && m == n
  {
    AdoptionCollides(d, keys, m, e, others, n);
    hide AdoptParts;
    hide Enumerates;
    if d.Some? {
      assert d.value.id[0] == 't';
      assert d.value.id in n ==> d.value.id[0] == 'i';
    }
    if e.Some? {
      assert e.value.id[0] == 't';
      assert e.value.id in m ==> e.value.id[0] == 'i';
    }
  }

  ghost predicate ShortParts(d: Option<Document>, m: map<string, string>) {
    && (d.Some? ==> |d.value.id| < WORD && |d.value.revision| < WORD)
    && forall k :: k in m ==> |k| < WORD && |m[k]| < WORD
  }

  lemma {:induction false} ShortPairs(keys: seq<string>, m: map<string, string>)
    requires (forall k :: k in keys ==> k in m) && ShortParts(None, m)
    ensures forall p :: p in Pairs(keys, m) ==> |p| < WORD
    decreases |keys|
  {
    if keys != [] {
      ShortPairs(keys[1..], m);
      assert keys[0] in keys;
    }
  }

  lemma ShortAdoption(d: Option<Document>, keys: seq<string>, m: map<string, string>)
    requires (forall k :: k in keys ==> k in m) && ShortParts(d, m)
    ensures forall p :: p in AdoptParts(d, keys, m) ==> |p| < WORD
  {
    SortedMembers(keys);
    ShortPairs(Sort(keys, Id), m);
  }

  /** So do the bytes written to the hash, for parts shorter than 2^64 bytes. */
  lemma AdoptionStreamsDiffer(d: Option<Document>, keys: seq<string>, m: map<string, string>,
                              e: Option<Document>, others: seq<string>, n: map<string, string>)
    requires Enumerates(keys, m) && Enumerates(others, n)
    requires (d.Some? ==> "try_" <= d.value.id) && (e.Some? ==> "try_" <= e.value.id)
    requires forall k :: k in m || k in n ==> "idea_" <= k
    requires ShortParts(d, m) && ShortParts(e, n)
    ensures Stream(AdoptParts(d, keys, m)) == Stream(AdoptParts(e, others, n)) <==> d == e && m == n
  {
    TypedAdoptionsDiffer(d, keys, m, e, others, n);
    ShortAdoption(d, keys, m);
    ShortAdoption(e, others, n);
    hide AdoptParts;
    hide Stream;
    if Stream(AdoptParts(d, keys, m)) == Stream(AdoptParts(e, others, n)) {
      StreamIsInjective(AdoptParts(d, keys, m), AdoptParts(e, others, n));
    }
  }

  // ---------------------------------------------------------------------------
  // The wizard's frame
  // ---------------------------------------------------------------------------

  datatype Observation = Observation(revision: string, root: string, common: string, head: string, status: string, dirty: string)

  const NUL := "\0"

  function Frame(o: Observation): string {
    o.revision + NUL + o.root + NUL + o.common + NUL + o.head + NUL + o.status + NUL + o.dirty
  }

  /** Every field but the status, which lists paths, is free of NUL. */
  predicate NulFree(o: Observation) {
    '\0' !in o.revision && '\0' !in o.root && '\0' !in o.common && '\0' !in o.head && '\0' !in o.dirty
  }

  lemma SplitFirst(a: string, x: string, b: string, y: string)
    requires '\0' !in a && '\0' !in b && a + (NUL + x) == b + (NUL + y)
    ensures a == b && x == y
  {
    var s := a + (NUL + x);
    forall i | 0 <= i < |a| ensures s[i] != '\0' {
      assert s[i] == a[i];
    }
    forall i | 0 <= i < |b| ensures s[i] != '\0' {
      assert s[i] == b[i];
    }
    assert s[|a|] == '\0' && s[|b|] == '\0';
    SplitAt(a, NUL + x, b, NUL + y);
    SplitAt(NUL, x, NUL, y);
  }

  lemma SplitLast(a: string, x: string, b: string, y: string)
    requires '\0' !in x && '\0' !in y && a + (NUL + x) == b + (NUL + y)
    ensures a == b && x == y
  {
    var s := a + (NUL + x);
    forall i | |a| < i < |s| ensures s[i] != '\0' {
      assert s[i] == x[i - |a| - 1];
    }
    forall i | |b| < i < |s| ensures s[i] != '\0' {
      assert s[i] == y[i - |b| - 1];
    }
    assert s[|a|] == '\0' && s[|b|] == '\0';
    SplitAt(a, NUL + x, b, NUL + y);
    SplitAt(NUL, x, NUL, y);
  }

  /** Reading the frame from the front, and its last field from the back. */
  lemma FrameIsInjective(o: Observation, p: Observation)
    requires NulFree(o) && NulFree(p) && Frame(o) == Frame(p)
    ensures o == p
  {
    var (a3, b3) := (o.status + (NUL + o.dirty), p.status + (NUL + p.dirty));
    var (a2, b2) := (o.head + (NUL + a3), p.head + (NUL + b3));
    var (a1, b1) := (o.common + (NUL + a2), p.common + (NUL + b2));
    var (a0, b0) := (o.root + (NUL + a1), p.root + (NUL + b1));
    FrameNested(o);
    FrameNested(p);
    hide Frame;
    SplitFirst(o.revision, a0, p.revision, b0);
    SplitFirst(o.root, a1, p.root, b1);
    SplitFirst(o.common, a2, p.common, b2);
    SplitFirst(o.head, a3, p.head, b3);
    SplitLast(o.status, o.dirty, p.status, p.dirty);
  }

  lemma {:induction false} FrameNested(o: Observation)
    ensures Frame(o) == o.revision + (NUL + (o.root + (NUL + (o.common + (NUL + (o.head + (NUL + (o.status + (NUL + o.dirty)))))))))
  {
    var s4 := o.head + NUL + o.status + NUL + o.dirty;
    assert s4 == o.head + (NUL + (o.status + (NUL + o.dirty)));
    var s3 := o.common + NUL + s4;
    assert s3 == o.common + (NUL + s4);
    var s2 := o.root + NUL + s3;
    assert s2 == o.root + (NUL + s3);
    assert Frame(o) == o.revision + NUL + s2;
    assert o.revision + NUL + s2 == o.revision + (NUL + s2);
  }

  function Nuls(s: string): nat {
    multiset(s)['\0']
  }

  lemma {:induction false} NulsInFrame(o: Observation)
    ensures Nuls(Frame(o)) == Nuls(o.revision) + Nuls(o.root) + Nuls(o.common) + Nuls(o.head) + Nuls(o.status) + Nuls(o.dirty) + 5
  {
    assert multiset(NUL) == multiset{'\0'};
  }

  /** A NUL at position k: the text is a front, the NUL, and a rest. */
  lemma AtNul(s: string) returns (x: string, y: string)
    requires '\0' in s
    ensures s == x + NUL + y && |x| < |s| && |y| < |s|
  {
    var k :| 0 <= k < |s| && s[k] == '\0';
    x, y := s[..k], s[k + 1..];
  }

  /** The NUL that ends one field, or one inside it, can be taken for the other. */
  lemma MoveText(x: string, y: string, z: string, rest: string)
    ensures (x + NUL + y) + (NUL + (z + rest)) == x + (NUL + ((y + NUL + z) + rest))
  {
    var s, t := (x + NUL + y) + (NUL + (z + rest)), x + (NUL + ((y + NUL + z) + rest));
    assert s == x + NUL + y + NUL + z + rest;
    assert t == x + NUL + y + NUL + z + rest;
  }

  /** Another reading of a frame in which some field contains a NUL: the text before
      or after it moves to the neighbouring field. */
  lemma OtherReading(o: Observation) returns (p: Observation)
    requires !NulFree(o) || '\0' in o.status
    ensures p != o && Frame(p) == Frame(o)
  {
    if '\0' in o.dirty || '\0' in o.status {
      p := ReadBack(o);
    } else {
      p := ReadOn(o);
    }
  }

  lemma ReadBack(o: Observation) returns (p: Observation)
    requires '\0' in o.dirty || '\0' in o.status
    ensures p != o && Frame(p) == Frame(o)
  {
    var x, y;
    if '\0' in o.dirty {
      x, y := AtNul(o.dirty);
      p := o.(status := o.status + NUL + x, dirty := y);
      MoveText(o.status, x, y, "");
      assert (x + NUL + y) + "" == x + NUL + y && y + "" == y;
    } else {
      x, y := AtNul(o.status);
      p := o.(head := o.head + NUL + x, status := y);
      MoveText(o.head, x, y, NUL + o.dirty);
    }
    FrameNested(o);
    FrameNested(p);
    hide Frame;
  }

  lemma ReadOn(o: Observation) returns (p: Observation)
    requires '\0' in o.revision || '\0' in o.root || '\0' in o.common || '\0' in o.head
    ensures p != o && Frame(p) == Frame(o)
  {
    var x, y;
    var t4 := NUL + o.dirty;
    var t3 := NUL + (o.status + t4);
    var t2 := NUL + (o.head + t3);
    var t1 := NUL + (o.common + t2);
    if '\0' in o.revision {
      x, y := AtNul(o.revision);
      p := o.(revision := x, root := y + NUL + o.root);
      MoveText(x, y, o.root, t1);
    } else if '\0' in o.root {
      x, y := AtNul(o.root);
      p := o.(root := x, common := y + NUL + o.common);
      MoveText(x, y, o.common, t2);
    } else if '\0' in o.common {
      x, y := AtNul(o.common);
      p := o.(common := x, head := y + NUL + o.head);
      MoveText(x, y, o.head, t3);
    } else {
      x, y := AtNul(o.head);
      p := o.(head := x, status := y + NUL + o.status);
      MoveText(x, y, o.status, t4);
    }
    FrameNested(o);
    FrameNested(p);
    hide Frame;
  }

  /** A frame can be read in one way only if and only if no field contains a NUL;
      with a NUL in the status alone, `FrameIsInjective` still tells apart all
      observations whose other fields are free of NUL. */
  lemma FrameReadsOneWay(o: Observation)
    ensures (forall p :: Frame(p) == Frame(o) ==> p == o) <==> NulFree(o) && '\0' !in o.status
  {
    hide Frame;
    if NulFree(o) && '\0' !in o.status {
      forall p | Frame(p) == Frame(o) ensures p == o {
        NulsInFrame(o);
        NulsInFrame(p);
        FrameIsInjective(o, p);
      }
    } else {
      var p := OtherReading(o);
    }
  }
}
