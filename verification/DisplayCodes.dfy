/** Short display codes. The completion engine (internal/cli/completion.go) takes
    each code's length from the two neighbours in sorted order; the resolver
    (internal/research/resolve.go) compares with every candidate. Both give the
    shortest unambiguous code, and the resolver reads it back. */
module DisplayCodes {
  import opened Prelude
  import opened Ordering

  datatype Kind =
    | Unknown | Project | Policy | Source | Idea | ResourcePool | Queue | QueueAdvice
    | Battle | Plan | Try | Experiment | Run | Attempt | EvaluationSpec | Evaluation
    | Finding | Candidate | Release | PromotionSpec | Promotion | Decision

  function DisplayLetter(kind: Kind): Option<char> {
    match kind
    case Source => Some('U')
    case Idea => Some('I')
    case ResourcePool => Some('O')
    case Queue => Some('Q')
    case QueueAdvice => Some('V')
    case Battle => Some('B')
    case Plan => Some('P')
    case Try => Some('Y')
    case Experiment => Some('E')
    case Run => Some('R')
    case Attempt => Some('A')
    case EvaluationSpec => Some('S')
    case Evaluation => Some('N')
    case Finding => Some('F')
    case Candidate => Some('C')
    case Release => Some('L')
    case PromotionSpec => Some('T')
    case Promotion => Some('M')
    case Decision => Some('D')
    case _ => None
  }

  predicate LowerHexDigit(c: char) {
    '0' <= c <= '9' || 'a' <= c <= 'f'
  }

  const HEX_LENGTH: nat := 32
  const NIL_HEX := "00000000000000000000000000000000"

  /** The sixteen UUID bytes, written as lower-case hex digits. */
  type UUIDHex = s: string | |s| == 32 && forall i :: 0 <= i < |s| ==> LowerHexDigit(s[i])
    witness "00000000000000000000000000000000"

  datatype ID = ID(kind: Kind, hex: UUIDHex) {
    predicate IsZero() { kind == Unknown || hex == NIL_HEX }
  }

  function Upper(c: char): char {
    if 'a' <= c <= 'f' then c - 'a' + 'A' else c
  }

  function ToUpper(s: string): (r: string)
    ensures |r| == |s| && forall i :: 0 <= i < |s| ==> r[i] == Upper(s[i])
  {
    seq(|s|, i requires 0 <= i < |s| => Upper(s[i]))
  }

  function HexValue(id: ID): (r: string)
    ensures |r| == HEX_LENGTH
  {
    ToUpper(id.hex)
  }

  /** A kind letter, a dash, and the first n upper-case hex digits. */
  function Code(id: ID, n: nat): string
    requires DisplayLetter(id.kind).Some? && n <= HEX_LENGTH
  {
    [DisplayLetter(id.kind).value, '-'] + HexValue(id)[..n]
  }

  // ---------------------------------------------------------------------------
  // The all-pairs definition
  // ---------------------------------------------------------------------------

  predicate Rival(id: ID, other: ID) {
    other != id && other.kind == id.kind && !other.IsZero()
  }

  /** No other ID of the kind starts with the first n digits. */
  ghost predicate Unambiguous(id: ID, ids: seq<ID>, n: nat)
    requires n <= HEX_LENGTH
  {
    forall other :: other in ids && Rival(id, other) ==> !(HexValue(id)[..n] <= HexValue(other))
  }

  ghost predicate IsShortest(id: ID, ids: seq<ID>, n: nat) {
    && 8 <= n <= HEX_LENGTH
    && Unambiguous(id, ids, n)
    && forall m :: 8 <= m < n ==> !Unambiguous(id, ids, m)
  }

  lemma UpperInjective(a: UUIDHex, b: UUIDHex, i: nat)
    requires i < 32 && Upper(a[i]) == Upper(b[i])
    ensures a[i] == b[i]
  {
  }

  /** Upper-casing hex digits keeps common prefixes. */
  lemma CommonUpper(a: ID, b: ID)
    ensures Common(HexValue(a), HexValue(b)) == Common(a.hex, b.hex)
  {
    hide CommonFrom;
    var u, l := Common(HexValue(a), HexValue(b)), Common(a.hex, b.hex);
    if l < u {
      UpperInjective(a.hex, b.hex, l);
    }
  }

  lemma PrefixIffCommon(a: ID, b: ID, n: nat)
    requires n <= HEX_LENGTH
    ensures HexValue(a)[..n] <= HexValue(b) <==> n <= Common(a.hex, b.hex)
  {
    CommonUpper(a, b);
    hide CommonFrom;
    var x, y, k := HexValue(a), HexValue(b), Common(HexValue(a), HexValue(b));
    if n <= k {
      assert x[..n] == x[..k][..n] == y[..k][..n] == y[..n];
    } else {
      assert k < n <= |x[..n]| && x[k] == x[..n][k];
    }
  }

  /** At full length every code is unambiguous: equal digits mean equal IDs. */
  lemma FullLengthUnambiguous(id: ID, ids: seq<ID>)
    ensures Unambiguous(id, ids, HEX_LENGTH)
  {
    forall other | other in ids && Rival(id, other)
      ensures !(HexValue(id)[..HEX_LENGTH] <= HexValue(other))
    {
      PrefixIffCommon(id, other, HEX_LENGTH);
    }
  }

  // ---------------------------------------------------------------------------
  // The resolver's own search for the shortest code
  // ---------------------------------------------------------------------------

  /** Tries every length from eight up against every candidate. */
  method DisplayCode(target: ID, candidates: seq<ID>) returns (code: Option<string>, ghost n: nat)
    ensures code.Some? <==> !target.IsZero() && DisplayLetter(target.kind).Some?
    ensures code.Some? ==> IsShortest(target, candidates, n) && code.value == Code(target, n)
    ensures code.Some? ==> 8 <= n <= 32 && code.value == [DisplayLetter(target.kind).value, '-'] + ToUpper(target.hex)[..n]
    ensures code.Some? ==> !Taken(target, Members(candidates), n)
    ensures code.Some? ==> forall m :: 8 <= m < n ==> Taken(target, Members(candidates), m)
  {
    n := 0;
    if target.IsZero() || DisplayLetter(target.kind) == None {
      return None, 0;
    }
    hide HexValue;
    for length := 8 to HEX_LENGTH + 1
      invariant forall m :: 8 <= m < length ==> !Unambiguous(target, candidates, m)
    {
      var unique := IsUnique(target, candidates, length);
      if unique {
        assert IsShortest(target, candidates, length);
        ShortestExactly(target, candidates, Members(candidates), length);
        return Some(Code(target, length)), length;
      }
    }
    FullLengthUnambiguous(target, candidates);
    assert false;
    code := None;
  }

  function Members(ids: seq<ID>): set<ID> {
    set id | id in ids
  }

  /** Another ID of the kind begins with the first m digits. */
  ghost predicate Taken(id: ID, ids: set<ID>, m: nat)
    requires m <= 32
  {
    exists c :: c in ids && c != id && c.kind == id.kind && !c.IsZero() && ToUpper(id.hex)[..m] <= ToUpper(c.hex)
  }

  lemma ShortestExactly(id: ID, ids: seq<ID>, all: set<ID>, n: nat)
    requires IsShortest(id, ids, n) && forall c: ID :: !c.IsZero() ==> (c in all <==> c in ids)
    ensures 8 <= n <= 32 && !Taken(id, all, n) && forall m :: 8 <= m < n ==> Taken(id, all, m)
  {
    forall m | 8 <= m <= n ensures Taken(id, all, m) <==> !Unambiguous(id, ids, m) {
      TakenExactly(id, ids, all, m);
    }
    hide Unambiguous;
    hide Taken;
  }

  lemma TakenExactly(id: ID, ids: seq<ID>, all: set<ID>, m: nat)
    requires m <= 32 && forall c: ID :: !c.IsZero() ==> (c in all <==> c in ids)
    ensures Taken(id, all, m) <==> !Unambiguous(id, ids, m)
  {
    hide ToUpper;
    hide ID.IsZero;
  }

  method IsUnique(target: ID, candidates: seq<ID>, length: nat) returns (unique: bool)
    requires length <= HEX_LENGTH
    ensures unique <==> Unambiguous(target, candidates, length)
  {
    hide HexValue;
    var prefix := HexValue(target)[..length];
    unique := true;
    for index := 0 to |candidates|
      invariant unique
      invariant forall i :: 0 <= i < index && Rival(target, candidates[i]) ==> !(prefix <= HexValue(candidates[i]))
    {
      var candidate := candidates[index];
      if candidate == target || candidate.kind != target.kind || candidate.IsZero() {
        continue;
      }
      if prefix <= HexValue(candidate) {
        assert candidate in candidates && Rival(target, candidate);
        return false;
      }
    }
  }

  // ---------------------------------------------------------------------------
  // The completion engine's search: sorted neighbours only
  // ---------------------------------------------------------------------------

  function Key(id: ID): string { id.hex }

  method CommonPrefixLength(left: string, right: string) returns (index: nat)
    ensures index == Common(left, right)
  {
    var limit := if |left| <= |right| then |left| else |right|;
    index := 0;
    while index < limit && left[index] == right[index]
      invariant index <= limit
      invariant CommonFrom(left, right, index) == Common(left, right)
    {
      index := index + 1;
    }
  }

  /** IDs of one kind, sorted: what the neighbour scan runs on. */
  ghost predicate SortedKind(ids: seq<ID>, kind: Kind) {
    && Sorted(ids, Key)
    && forall i :: 0 <= i < |ids| ==> ids[i].kind == kind && !ids[i].IsZero()
  }

  function NeighbourLength(ids: seq<ID>, index: nat): (n: nat)
    requires index < |ids|
    ensures 8 <= n <= HEX_LENGTH + 1
  {
    var before := if index > 0 then Common(ids[index].hex, ids[index - 1].hex) + 1 else 0;
    var after := if index + 1 < |ids| then Common(ids[index].hex, ids[index + 1].hex) + 1 else 0;
    Max(Max(8, before), after)
  }

  /** The shared prefix with any other position is bounded by a neighbour's. */
  lemma {:induction false} NeighboursDominate(ids: seq<ID>, kind: Kind, index: nat, other: nat)
    requires SortedKind(ids, kind) && index < |ids| && other < |ids| && other != index
    ensures Common(ids[index].hex, ids[other].hex) + 1 <= NeighbourLength(ids, index)
  {
    hide Common;
    hide AtMost;
    if other + 1 < index {
      assert AtMost(Key(ids[other]), Key(ids[index - 1])) && AtMost(Key(ids[index - 1]), Key(ids[index]));
      CommonBetween(ids[other].hex, ids[index - 1].hex, ids[index].hex);
      CommonSymmetric(ids[other].hex, ids[index].hex);
      CommonSymmetric(ids[index - 1].hex, ids[index].hex);
    } else if index + 1 < other {
      assert AtMost(Key(ids[index]), Key(ids[index + 1])) && AtMost(Key(ids[index + 1]), Key(ids[other]));
      CommonBetween(ids[index].hex, ids[index + 1].hex, ids[other].hex);
    }
  }

  /** The scan's length fits exactly for IDs that occur once. */
  lemma LengthFitsIffOnce(ids: seq<ID>, kind: Kind, index: nat)
    requires SortedKind(ids, kind) && index < |ids|
    ensures NeighbourLength(ids, index) <= HEX_LENGTH <==> multiset(ids)[ids[index]] == 1
  {
    hide NeighbourLength;
    hide CommonFrom;
    if j :| 0 <= j < |ids| && j != index && ids[j] == ids[index] {
      NeighboursDominate(ids, kind, index, j);
      if j < index { CountTwice(ids, j, index); } else { CountTwice(ids, index, j); }
    } else {
      CountOnce(ids, index);
      NeighbourDiffers(ids, kind, index);
    }
  }

  lemma NeighbourDiffers(ids: seq<ID>, kind: Kind, index: nat)
    requires SortedKind(ids, kind) && index < |ids|
    requires forall j :: 0 <= j < |ids| && j != index ==> ids[j] != ids[index]
    ensures NeighbourLength(ids, index) <= HEX_LENGTH
  {
    hide Common;
  }

  /** The neighbours alone give the all-pairs answer. */
  lemma NeighbourLengthIsShortest(ids: seq<ID>, kind: Kind, index: nat)
    requires SortedKind(ids, kind) && index < |ids| && NeighbourLength(ids, index) <= HEX_LENGTH
    ensures IsShortest(ids[index], ids, NeighbourLength(ids, index))
  {
    var id, n := ids[index], NeighbourLength(ids, index);
    forall other | other in ids && Rival(id, other)
      ensures !(HexValue(id)[..n] <= HexValue(other))
    {
      var j :| 0 <= j < |ids| && ids[j] == other;
      NeighboursDominate(ids, kind, index, j);
      PrefixIffCommon(id, other, n);
    }
    forall m | 8 <= m < n
      ensures !Unambiguous(id, ids, m)
    {
      ShorterIsAmbiguous(ids, kind, index, m);
    }
  }

  lemma ShorterIsAmbiguous(ids: seq<ID>, kind: Kind, index: nat, m: nat)
    requires SortedKind(ids, kind) && index < |ids| && NeighbourLength(ids, index) <= HEX_LENGTH
    requires 8 <= m < NeighbourLength(ids, index)
    ensures !Unambiguous(ids[index], ids, m)
  {
    hide CommonFrom;
    LengthFitsIffOnce(ids, kind, index);
    var j := if index > 0 && m <= Common(ids[index].hex, ids[index - 1].hex) then index - 1 else index + 1;
    assert m <= Common(ids[index].hex, ids[j].hex);
    PrefixIffCommon(ids[index], ids[j], m);
    if ids[j] == ids[index] {
      CountTwice(ids, if j < index then j else index, if j < index then index else j);
    }
    assert ids[j] in ids && Rival(ids[index], ids[j]);
  }

  // ---------------------------------------------------------------------------
  // Grouping by kind
  // ---------------------------------------------------------------------------

  /** A record document: its typed ID, when it has one. */
  datatype Document = Document(id: Option<ID>)

  function IDsOf(documents: seq<Document>): (ids: seq<ID>)
    ensures forall id :: id in ids ==> !id.IsZero()
  {
    if documents == [] then []
    else
      var last := documents[|documents| - 1];
      IDsOf(documents[..|documents| - 1]) +
      if last.id.Some? && !last.id.value.IsZero() then [last.id.value] else []
  }

  function OfKind(ids: seq<ID>, kind: Kind): (r: seq<ID>)
    ensures forall id :: id in r ==> id in ids && id.kind == kind
    ensures forall id: ID :: id.kind == kind ==> multiset(r)[id] == multiset(ids)[id]
  {
    if ids == [] then []
    else
      var n := |ids| - 1;
      assert ids == ids[..n] + [ids[n]];
      OfKind(ids[..n], kind) + if ids[n].kind == kind then [ids[n]] else []
  }

  lemma SameMembersOfKind(id: ID, all: seq<ID>, same: seq<ID>)
    requires ListsKind(same, all, id.kind)
    ensures id in all <==> id in same
  {
    assert id in same <==> id in multiset(same);
    assert id in all <==> id in multiset(all);
  }

  /** Only IDs of the same kind matter, in any order and multiplicity. */
  lemma AmbiguityWithinKind(id: ID, all: seq<ID>, same: seq<ID>, n: nat)
    requires n <= HEX_LENGTH && ListsKind(same, all, id.kind)
    ensures Unambiguous(id, same, n) <==> Unambiguous(id, all, n)
  {
    hide ListsKind;
    hide HexValue;
    forall other | Rival(id, other)
      ensures other in all <==> other in same
    {
      SameMembersOfKind(other, all, same);
    }
  }

  lemma ShortestWithinKind(id: ID, all: seq<ID>, same: seq<ID>, n: nat)
    requires ListsKind(same, all, id.kind) && IsShortest(id, same, n)
    ensures IsShortest(id, all, n)
  {
    hide Unambiguous;
    hide ListsKind;
    AmbiguityWithinKind(id, all, same, n);
    forall m | 8 <= m < n ensures !Unambiguous(id, all, m) {
      AmbiguityWithinKind(id, all, same, m);
    }
  }

  /** What the map must hold for `id`, given every ID in the documents. */
  ghost predicate Coded(result: map<ID, string>, ids: seq<ID>, id: ID) {
    && (id in result <==> DisplayLetter(id.kind).Some? && multiset(ids)[id] == 1)
    && (id in result ==> exists n :: IsShortest(id, ids, n) && result[id] == Code(id, n))
  }

  /** A map entry, with Go's empty slice for a missing key. */
  function Group(byKind: map<Kind, seq<ID>>, kind: Kind): seq<ID> {
    if kind in byKind then byKind[kind] else []
  }

  method GroupByKind(documents: seq<Document>) returns (byKind: map<Kind, seq<ID>>)
    ensures forall kind :: Group(byKind, kind) == OfKind(IDsOf(documents), kind)
  {
    hide OfKind;
    hide IDsOf;
    hide ID.IsZero;
    byKind := map[];
    forall kind ensures OfKind(IDsOf(documents[..0]), kind) == [] {
      NothingOfKind(kind);
      assert documents[..0] == [];
    }
    for k := 0 to |documents|
      invariant forall kind :: Group(byKind, kind) == OfKind(IDsOf(documents[..k]), kind)
    {
      var id := documents[k].id;
      if id.Some? && !id.value.IsZero() {
        var kind := id.value.kind;
        byKind := byKind[kind := Group(byKind, kind) + [id.value]];
      }
      forall kind ensures Group(byKind, kind) == OfKind(IDsOf(documents[..k + 1]), kind) {
        GroupStep(documents, k, kind);
      }
    }
    assert documents[..|documents|] == documents;
  }

  lemma OfKindAppend(ids: seq<ID>, id: ID, kind: Kind)
    ensures OfKind(ids + [id], kind) == OfKind(ids, kind) + if id.kind == kind then [id] else []
  {
    assert (ids + [id])[..|ids|] == ids;
  }

  lemma GroupStep(documents: seq<Document>, k: nat, kind: Kind)
    requires k < |documents|
    ensures var id := documents[k].id;
      OfKind(IDsOf(documents[..k + 1]), kind) ==
      if id.Some? && !id.value.IsZero() && id.value.kind == kind
      then OfKind(IDsOf(documents[..k]), kind) + [id.value]
      else OfKind(IDsOf(documents[..k]), kind)
  {
    hide IDsOf;
    var id, before := documents[k].id, IDsOf(documents[..k]);
    IDsOfStep(documents, k);
    if id.Some? && !id.value.IsZero() {
      OfKindAppend(before, id.value, kind);
    } else {
      assert before + [] == before;
    }
    hide OfKind;
  }

  method CompletionDisplayCodes(documents: seq<Document>) returns (result: map<ID, string>)
    ensures forall id :: Coded(result, IDsOf(documents), id)
    // an ID has a code if one document alone has it, and its kind a letter
    ensures forall id :: id in result <==> DisplayLetter(id.kind).Some? && !id.IsZero() && OneHas(documents, id)
    // it is the shortest of at least eight digits that no other ID of the kind begins with
    ensures forall id :: id in result ==> var n := |result[id]| - 2;
              8 <= n <= 32 && result[id] == [DisplayLetter(id.kind).value, '-'] + ToUpper(id.hex)[..n]
    ensures forall id :: id in result ==> !Taken(id, IDsIn(documents), |result[id]| - 2)
    ensures forall id :: id in result ==> forall m :: 8 <= m < |result[id]| - 2 ==> Taken(id, IDsIn(documents), m)
  {
    hide Coded;
    hide OneHas;
    hide Taken;
    hide ID.IsZero;
    hide HexValue;
    hide OfKind;
    hide Sort;
    hide Sorted;
    hide SortedKind;
    hide ListsKind;
    hide IDsOf;
    hide DisplayLetter;
    var byKind := GroupByKind(documents);
    ghost var ids := IDsOf(documents);
    result := map[];
    var remaining := byKind.Keys;
    while remaining != {}
      invariant remaining <= byKind.Keys
      invariant forall id: ID :: id.kind in byKind && id.kind !in remaining ==> Coded(result, ids, id)
      invariant forall id: ID :: id in result ==> id.kind in byKind && id.kind !in remaining
    {
      var kind :| kind in remaining;
      remaining := remaining - {kind};
      var sorted := Sort(Group(byKind, kind), Key);
      SortedOfKind(ids, kind);
      if DisplayLetter(kind).Some? {
        result := AddCodes(result, sorted, kind, ids);
      } else {
        forall id: ID | id.kind == kind ensures Coded(result, ids, id) {
          WithoutCode(result, ids, id);
        }
      }
    }
    forall id ensures Coded(result, ids, id) {
      if id.kind !in byKind {
        assert Group(byKind, id.kind) == [];
        WithoutCode(result, ids, id);
      }
    }
    CodedExactly(documents, result);
  }

  function IDsIn(documents: seq<Document>): set<ID> {
    set k | 0 <= k < |documents| && documents[k].id.Some? :: documents[k].id.value
  }

  ghost predicate OneHas(documents: seq<Document>, id: ID) {
    exists k :: 0 <= k < |documents| && documents[k].id == Some(id)
                && forall j :: 0 <= j < |documents| && documents[j].id == Some(id) ==> j == k
  }

  /** The listed IDs are the documents' IDs, once for each document. */
  lemma {:induction false} IDsOfExactly(documents: seq<Document>, id: ID)
    requires !id.IsZero()
    ensures id in IDsOf(documents) <==> id in IDsIn(documents)
    ensures multiset(IDsOf(documents))[id] == 1 <==> OneHas(documents, id)
    decreases |documents|
  {
    if documents != [] {
      var n := |documents| - 1;
      IDsOfExactly(documents[..n], id);
      OneMoreHas(documents, id);
      var last := documents[n].id;
      assert IDsOf(documents) == IDsOf(documents[..n]) + if last.Some? && !last.value.IsZero() then [last.value] else [];
      hide IDsOf;
      hide IDsIn;
      hide OneHas;
      hide ID.IsZero;
      assert id in IDsOf(documents[..n]) <==> multiset(IDsOf(documents[..n]))[id] > 0;
    }
  }

  lemma {:induction false} OneMoreHas(documents: seq<Document>, id: ID)
    requires documents != []
    ensures var n := |documents| - 1;
      && (id in IDsIn(documents) <==> id in IDsIn(documents[..n]) || documents[n].id == Some(id))
      && (OneHas(documents, id) <==>
          if documents[n].id == Some(id) then id !in IDsIn(documents[..n]) else OneHas(documents[..n], id))
  {
    var n := |documents| - 1;
    var before := documents[..n];
    assert forall k :: 0 <= k < n ==> before[k] == documents[k];
    HasExactly(documents, id);
    HasExactly(before, id);
    hide IDsIn;
    if documents[n].id != Some(id) {
      OneHasBefore(documents, id);
    }
  }

  lemma HasExactly(documents: seq<Document>, id: ID)
    ensures id in IDsIn(documents) <==> exists k :: 0 <= k < |documents| && documents[k].id == Some(id)
  {
  }

  lemma OneHasBefore(documents: seq<Document>, id: ID)
    requires documents != [] && documents[|documents| - 1].id != Some(id)
    ensures OneHas(documents, id) <==> OneHas(documents[..|documents| - 1], id)
  {
    var n := |documents| - 1;
    var before := documents[..n];
    assert forall k :: 0 <= k < n ==> before[k] == documents[k];
    if OneHas(documents, id) {
      var k :| 0 <= k < |documents| && documents[k].id == Some(id)
               && forall j :: 0 <= j < |documents| && documents[j].id == Some(id) ==> j == k;
      assert before[k].id == Some(id);
    }
    if OneHas(before, id) {
      var k :| 0 <= k < |before| && before[k].id == Some(id)
               && forall j :: 0 <= j < |before| && before[j].id == Some(id) ==> j == k;
      assert documents[k].id == Some(id);
    }
  }

  lemma {:induction false} CodedExactly(documents: seq<Document>, result: map<ID, string>)
    requires forall id :: Coded(result, IDsOf(documents), id)
    ensures forall id :: id in result <==> DisplayLetter(id.kind).Some? && !id.IsZero() && OneHas(documents, id)
    ensures forall id :: id in result ==> var n := |result[id]| - 2;
              8 <= n <= 32 && result[id] == [DisplayLetter(id.kind).value, '-'] + ToUpper(id.hex)[..n]
    ensures forall id :: id in result ==> !Taken(id, IDsIn(documents), |result[id]| - 2)
    ensures forall id :: id in result ==> forall m :: 8 <= m < |result[id]| - 2 ==> Taken(id, IDsIn(documents), m)
  {
    hide IDsOf;
    hide OneHas;
    hide IDsIn;
    hide Taken;
    hide ID.IsZero;
    hide DisplayLetter;
    forall id ensures id in result <==> DisplayLetter(id.kind).Some? && !id.IsZero() && OneHas(documents, id) {
      InMap(documents, result, id);
    }
    forall id | id in result
      ensures var n := |result[id]| - 2; 8 <= n <= 32 && result[id] == [DisplayLetter(id.kind).value, '-'] + ToUpper(id.hex)[..n]
      ensures !Taken(id, IDsIn(documents), |result[id]| - 2)
      ensures forall m :: 8 <= m < |result[id]| - 2 ==> Taken(id, IDsIn(documents), m)
    {
      CodeInMap(documents, result, id);
    }
  }

  lemma InMap(documents: seq<Document>, result: map<ID, string>, id: ID)
    requires Coded(result, IDsOf(documents), id)
    ensures id in result <==> DisplayLetter(id.kind).Some? && !id.IsZero() && OneHas(documents, id)
  {
    hide IDsOf;
    hide OneHas;
    hide ID.IsZero;
    hide IsShortest;
    if !id.IsZero() {
      IDsOfExactly(documents, id);
    } else {
      assert multiset(IDsOf(documents))[id] == 0;
    }
  }

  lemma CodeInMap(documents: seq<Document>, result: map<ID, string>, id: ID)
    requires Coded(result, IDsOf(documents), id) && id in result
    ensures var n := |result[id]| - 2; 8 <= n <= 32 && result[id] == [DisplayLetter(id.kind).value, '-'] + ToUpper(id.hex)[..n]
    ensures !Taken(id, IDsIn(documents), |result[id]| - 2)
    ensures forall m :: 8 <= m < |result[id]| - 2 ==> Taken(id, IDsIn(documents), m)
  {
    hide IDsOf;
    hide IDsIn;
    hide ID.IsZero;
    hide Taken;
    var ids := IDsOf(documents);
    var n :| IsShortest(id, ids, n) && result[id] == Code(id, n);
    hide IsShortest;
    forall other: ID | !other.IsZero() ensures other in ids <==> other in IDsIn(documents) {
      IDsOfExactly(documents, other);
    }
    ShortestExactly(id, ids, IDsIn(documents), n);
    CodeLength(id, n);
  }

  lemma CodeLength(id: ID, n: nat)
    requires DisplayLetter(id.kind).Some? && n <= 32
    ensures |Code(id, n)| == n + 2 && Code(id, n) == [DisplayLetter(id.kind).value, '-'] + ToUpper(id.hex)[..n]
  {
  }

  lemma WithoutCode(result: map<ID, string>, ids: seq<ID>, id: ID)
    requires id !in result && (DisplayLetter(id.kind).None? || multiset(ids)[id] != 1)
    ensures Coded(result, ids, id)
  {
  }

  lemma IDsOfStep(documents: seq<Document>, k: nat)
    requires k < |documents|
    ensures IDsOf(documents[..k + 1]) ==
            IDsOf(documents[..k]) + if documents[k].id.Some? && !documents[k].id.value.IsZero() then [documents[k].id.value] else []
    ensures k == 0 ==> IDsOf(documents[..k]) == []
  {
    assert documents[..k + 1][..k] == documents[..k];
  }

  lemma NothingOfKind(kind: Kind)
    ensures IDsOf([]) == [] && OfKind([], kind) == []
  {
  }

  /** `sorted` has the IDs of one kind, each as often as `ids` has it. */
  ghost predicate ListsKind(sorted: seq<ID>, ids: seq<ID>, kind: Kind) {
    forall id: ID :: id.kind == kind ==> multiset(sorted)[id] == multiset(ids)[id]
  }

  lemma SortedOfKind(ids: seq<ID>, kind: Kind)
    requires forall id :: id in ids ==> !id.IsZero()
    ensures SortedKind(Sort(OfKind(ids, kind), Key), kind)
    ensures ListsKind(Sort(OfKind(ids, kind), Key), ids, kind)
  {
    var group := OfKind(ids, kind);
    var sorted := Sort(group, Key);
    forall i | 0 <= i < |sorted|
      ensures sorted[i].kind == kind && !sorted[i].IsZero()
    {
      assert sorted[i] in multiset(sorted);
      assert sorted[i] in group;
    }
  }

  method ScanLength(sorted: seq<ID>, index: nat) returns (length: nat)
    requires index < |sorted|
    ensures length == NeighbourLength(sorted, index)
  {
    hide Common;
    var hexValue := HexValue(sorted[index]);
    length := 8;
    if index > 0 {
      var shared := CommonPrefixLength(hexValue, HexValue(sorted[index - 1]));
      CommonUpper(sorted[index], sorted[index - 1]);
      length := Max(length, shared + 1);
    }
    if index + 1 < |sorted| {
      var shared := CommonPrefixLength(hexValue, HexValue(sorted[index + 1]));
      CommonUpper(sorted[index], sorted[index + 1]);
      length := Max(length, shared + 1);
    }
  }

  lemma CountSorted(id: ID, ids: seq<ID>, sorted: seq<ID>)
    requires ListsKind(sorted, ids, id.kind)
    ensures multiset(sorted)[id] == multiset(ids)[id]
    ensures multiset(ids)[id] > 0 <==> id in sorted
  {
    assert id in sorted <==> id in multiset(sorted);
  }

  /** The same entry, or none, for `id`. */
  predicate SameAt(a: map<ID, string>, b: map<ID, string>, id: ID) {
    (id in a <==> id in b) && (id in a && id in b ==> a[id] == b[id])
  }

  lemma CodedSame(a: map<ID, string>, b: map<ID, string>, ids: seq<ID>, id: ID)
    requires SameAt(a, b, id)
    ensures Coded(a, ids, id) <==> Coded(b, ids, id)
  {
  }

  lemma CodedNow(result: map<ID, string>, ids: seq<ID>, id: ID, length: nat)
    requires DisplayLetter(id.kind).Some? && multiset(ids)[id] == 1
    requires IsShortest(id, ids, length) && id in result && result[id] == Code(id, length)
    ensures Coded(result, ids, id)
  {
    hide IsShortest;
  }

  /** The scan over one sorted kind. */
  method AddCodes(before: map<ID, string>, sorted: seq<ID>, kind: Kind, ghost ids: seq<ID>) returns (result: map<ID, string>)
    requires SortedKind(sorted, kind) && ListsKind(sorted, ids, kind)
    requires DisplayLetter(kind).Some?
    requires forall id :: id in before ==> id.kind != kind
    ensures forall id: ID :: id.kind == kind ==> Coded(result, ids, id)
    ensures forall id: ID :: id.kind != kind ==> (id in result <==> id in before) && Coded(result, ids, id) == Coded(before, ids, id)
  {
    hide Code;
    hide IsShortest;
    hide Sorted;
    hide NeighbourLength;
    hide Coded;
    result := before;
    for index := 0 to |sorted|
      invariant forall id: ID :: id.kind != kind ==> SameAt(result, before, id)
      invariant forall id: ID :: id.kind == kind ==> if id in sorted[..index] then Coded(result, ids, id) else id !in result
    {
      var id := sorted[index];
      ghost var earlier := result;
      var length := ScanLength(sorted, index);
      LengthFitsIffOnce(sorted, kind, index);
      CountSorted(id, ids, sorted);
      if length <= |HexValue(id)| {
        NeighbourLengthIsShortest(sorted, kind, index);
        ShortestWithinKind(id, ids, sorted, length);
        result := result[id := Code(id, length)];
        CodedNow(result, ids, id, length);
      } else if id !in sorted[..index] {
        WithoutCode(result, ids, id);
      }
      OneMoreCoded(earlier, result, ids, sorted, kind, index);
    }
    assert sorted[..|sorted|] == sorted;
    forall id: ID ensures if id.kind == kind then Coded(result, ids, id) else Coded(result, ids, id) == Coded(before, ids, id) {
      if id.kind == kind && id !in sorted {
        CountSorted(id, ids, sorted);
        WithoutCode(result, ids, id);
      } else if id.kind != kind {
        CodedSame(result, before, ids, id);
      }
    }
  }

  lemma OneMoreCoded(earlier: map<ID, string>, result: map<ID, string>, ids: seq<ID>, sorted: seq<ID>, kind: Kind, index: nat)
    requires index < |sorted| && Coded(result, ids, sorted[index])
    requires forall id: ID :: id != sorted[index] ==> SameAt(earlier, result, id)
    requires forall id: ID :: id.kind == kind ==> if id in sorted[..index] then Coded(earlier, ids, id) else id !in earlier
    ensures forall id: ID :: id.kind == kind ==> if id in sorted[..index + 1] then Coded(result, ids, id) else id !in result
  {
    hide Coded;
    assert sorted[..index + 1] == sorted[..index] + [sorted[index]];
    forall id: ID | id.kind == kind ensures if id in sorted[..index + 1] then Coded(result, ids, id) else id !in result {
      if id != sorted[index] {
        assert SameAt(earlier, result, id);
        CodedSame(earlier, result, ids, id);
      }
    }
  }

  // ---------------------------------------------------------------------------
  // The two searches agree
  // ---------------------------------------------------------------------------

  lemma CommonPrefixLengths(id: ID, ids: seq<ID>, n: nat)
    requires IsShortest(id, ids, n)
    ensures forall other :: other in ids && Rival(id, other) ==> Common(id.hex, other.hex) < n
    ensures n == 8 || exists other :: other in ids && Rival(id, other) && n == Common(id.hex, other.hex) + 1
  {
    hide CommonFrom;
    forall other | other in ids && Rival(id, other)
      ensures Common(id.hex, other.hex) < n
    {
      PrefixIffCommon(id, other, n);
    }
    if n > 8 {
      assert !Unambiguous(id, ids, n - 1);
      var other :| other in ids && Rival(id, other) && HexValue(id)[..n - 1] <= HexValue(other);
      PrefixIffCommon(id, other, n - 1);
    }
  }

  /** For an ID that occurs once, the neighbour scan stores exactly the code the
      resolver's all-pairs search returns; for a repeated ID the resolver still
      returns a code and the scan stores none. */
  lemma ScanRefinesSearch(result: map<ID, string>, ids: seq<ID>, id: ID, code: string, n: nat)
    requires Coded(result, ids, id) && id in ids && DisplayLetter(id.kind).Some?
    requires IsShortest(id, ids, n) && code == Code(id, n)
    ensures id in result && result[id] == code <==> multiset(ids)[id] == 1
  {
    if id in result {
      var m :| IsShortest(id, ids, m) && result[id] == Code(id, m);
    }
  }

  /** The order of the documents does not matter. */
  lemma {:induction false} OrderIndependent(r1: map<ID, string>, r2: map<ID, string>, ids1: seq<ID>, ids2: seq<ID>)
    requires forall id :: Coded(r1, ids1, id) && Coded(r2, ids2, id)
    requires multiset(ids1) == multiset(ids2)
    ensures r1 == r2
  {
    forall id | id in r1
      ensures id in r2 && r1[id] == r2[id]
    {
      assert Coded(r1, ids1, id) && Coded(r2, ids2, id);
      var m :| IsShortest(id, ids1, m) && r1[id] == Code(id, m);
      var n :| IsShortest(id, ids2, n) && r2[id] == Code(id, n);
      SameMultisetShortest(id, ids1, ids2, m);
    }
    assert forall id :: id in r2 ==> Coded(r1, ids1, id) && Coded(r2, ids2, id);
  }

  lemma SameMultisetShortest(id: ID, ids1: seq<ID>, ids2: seq<ID>, n: nat)
    requires multiset(ids1) == multiset(ids2) && IsShortest(id, ids1, n)
    ensures IsShortest(id, ids2, n)
  {
    hide HexValue;
    forall other: ID ensures other in ids1 <==> other in ids2 {
      assert other in ids1 <==> other in multiset(ids1);
      assert other in ids2 <==> other in multiset(ids2);
    }
    forall m | 8 <= m <= HEX_LENGTH ensures Unambiguous(id, ids1, m) <==> Unambiguous(id, ids2, m) {
    }
  }

  // ---------------------------------------------------------------------------
  // Reading a code back
  // ---------------------------------------------------------------------------

  datatype ReferenceCandidate = ReferenceCandidate(id: ID, aliases: seq<string>)

  datatype Resolution = Found(id: ID) | NotFound | WrongKind | Ambiguous

  function CandidateIDs(candidates: seq<ReferenceCandidate>): (ids: seq<ID>)
    ensures |ids| == |candidates|
  {
    if candidates == [] then [] else [candidates[0].id] + CandidateIDs(candidates[1..])
  }

  predicate DecimalDigits(s: string) {
    forall i :: 0 <= i < |s| ==> '0' <= s[i] <= '9'
  }

  /** The legacy Finding alias: "F-" and at least three decimal digits. */
  predicate FindingAlias(query: string) {
    |query| >= 5 && query[0] == 'F' && query[1] == '-' && DecimalDigits(query[2..])
  }

  /** The legacy Experiment alias: "#" and at least three decimal digits. */
  predicate ExperimentAlias(query: string) {
    |query| >= 4 && query[0] == '#' && DecimalDigits(query[1..])
  }

  predicate HexDigit(c: char) {
    '0' <= c <= '9' || 'a' <= c <= 'f' || 'A' <= c <= 'F'
  }

  function KindForDisplayLetter(letter: char): Option<Kind> {
    var c := if 'a' <= letter <= 'z' then letter - 'a' + 'A' else letter;
    match c
    case 'U' => Some(Source)
    case 'I' => Some(Idea)
    case 'O' => Some(ResourcePool)
    case 'Q' => Some(Queue)
    case 'V' => Some(QueueAdvice)
    case 'B' => Some(Battle)
    case 'P' => Some(Plan)
    case 'Y' => Some(Try)
    case 'E' => Some(Experiment)
    case 'R' => Some(Run)
    case 'A' => Some(Attempt)
    case 'S' => Some(EvaluationSpec)
    case 'N' => Some(Evaluation)
    case 'F' => Some(Finding)
    case 'C' => Some(Candidate)
    case 'L' => Some(Release)
    case 'T' => Some(PromotionSpec)
    case 'M' => Some(Promotion)
    case 'D' => Some(Decision)
    case _ => None
  }

  predicate DisplayPattern(query: string) {
    && 10 <= |query| <= 34
    && KindForDisplayLetter(query[0]).Some? && query[1] == '-'
    && forall i :: 2 <= i < |query| ==> HexDigit(query[i])
  }

  function Matching(candidates: seq<ReferenceCandidate>, kind: Kind, matches: ReferenceCandidate -> bool): seq<ID> {
    if candidates == [] then []
    else
      var c := candidates[0];
      (if c.id.kind == kind && matches(c) then [c.id] else []) + Matching(candidates[1..], kind, matches)
  }

  function UniqueMatch(candidates: seq<ReferenceCandidate>, kind: Kind, matches: ReferenceCandidate -> bool): Resolution {
    var found := Matching(candidates, kind, matches);
    if |found| == 0 then NotFound else if |found| == 1 then Found(found[0]) else Ambiguous
  }

  function OwnsAlias(query: string): ReferenceCandidate -> bool {
    (c: ReferenceCandidate) => query in c.aliases
  }

  function HasPrefix(prefix: string): ReferenceCandidate -> bool {
    (c: ReferenceCandidate) => prefix <= HexValue(c.id)
  }

  /** Resolution of a query without an underscore: every typed ID and typed prefix
      has one, so only the alias and display branches remain. */
  function Resolve(query: string, expected: Kind, candidates: seq<ReferenceCandidate>): Resolution
    requires '_' !in query
  {
    if query == "" then NotFound
    else if ExperimentAlias(query) then
      if expected != Unknown && expected != Experiment then WrongKind
      else UniqueMatch(candidates, Experiment, OwnsAlias(query))
    else if FindingAlias(query) then
      if expected != Unknown && expected != Finding then WrongKind
      else UniqueMatch(candidates, Finding, OwnsAlias(query))
    else if DisplayPattern(query) then
      var kind := KindForDisplayLetter(query[0]).value;
      if expected != Unknown && expected != kind then WrongKind
      else UniqueMatch(candidates, kind, HasPrefix(ToUpper(query[2..])))
    else NotFound
  }

  /** The kind a query asks for: that of a legacy alias, or of a display letter. */
  ghost function QueryKind(query: string): Option<Kind> {
    if |query| >= 4 && query[0] == '#' && (forall i :: 1 <= i < |query| ==> '0' <= query[i] <= '9') then Some(Experiment)
    else if |query| >= 5 && "F-" <= query && (forall i :: 2 <= i < |query| ==> '0' <= query[i] <= '9') then Some(Finding)
    else if 10 <= |query| <= 34 && query[1] == '-' && forall i :: 2 <= i < |query| ==> HexDigit(query[i])
    then KindForDisplayLetter(query[0])
    else None
  }

  /** Whether a query asks for a candidate: one of its kind that carries it as an
      alias, or whose digits begin with the query's if it is no alias. */
  ghost predicate AsksFor(query: string, c: ReferenceCandidate) {
    && QueryKind(query) == Some(c.id.kind)
    && if query[0] == '#' || (|query| >= 5 && "F-" <= query && forall i :: 2 <= i < |query| ==> '0' <= query[i] <= '9')
       then query in c.aliases else ToUpper(query[2..]) <= HexValue(c.id)
  }

  ghost predicate IsMatch(cs: seq<ReferenceCandidate>, kind: Kind, matches: ReferenceCandidate -> bool, i: int) {
    0 <= i < |cs| && cs[i].id.kind == kind && matches(cs[i])
  }

  /** `found` are the IDs at `places`, the increasing list of all matching positions
      from k on. */
  ghost predicate Lists(cs: seq<ReferenceCandidate>, k: nat, kind: Kind, matches: ReferenceCandidate -> bool, found: seq<ID>, places: seq<int>) {
    && |found| == |places|
    && (forall a, b :: 0 <= a < b < |places| ==> places[a] < places[b])
    && (forall i :: i in places <==> k <= i && IsMatch(cs, kind, matches, i))
    && forall a :: 0 <= a < |places| ==> 0 <= places[a] < |cs| && found[a] == cs[places[a]].id
  }

  lemma {:induction false} ListsMore(cs: seq<ReferenceCandidate>, k: nat, kind: Kind, matches: ReferenceCandidate -> bool, found: seq<ID>, places: seq<int>)
    requires k < |cs| && Lists(cs, k + 1, kind, matches, found, places)
    ensures if IsMatch(cs, kind, matches, k) then Lists(cs, k, kind, matches, [cs[k].id] + found, [k] + places)
            else Lists(cs, k, kind, matches, found, places)
  {
    hide IsMatch;
    if IsMatch(cs, kind, matches, k) {
      var more: seq<int> := [k] + places;
      assert forall i :: i in more <==> i == k || i in places;
      forall a, b | 0 <= a < b < |more| ensures more[a] < more[b] {
        assert more[b] == places[b - 1] && places[b - 1] in places;
        assert a > 0 ==> more[a] == places[a - 1];
      }
    }
  }

  lemma {:induction false} MatchingLists(cs: seq<ReferenceCandidate>, k: nat, kind: Kind, matches: ReferenceCandidate -> bool) returns (places: seq<int>)
    requires k <= |cs|
    ensures Lists(cs, k, kind, matches, Matching(cs[k..], kind, matches), places)
    decreases |cs| - k
  {
    places := [];
    if k < |cs| {
      places := MatchingLists(cs, k + 1, kind, matches);
      assert cs[k..][0] == cs[k] && cs[k..][1..] == cs[k + 1..];
      var rest := Matching(cs[k + 1..], kind, matches);
      ListsMore(cs, k, kind, matches, rest, places);
      assert [] + rest == rest;
      hide Lists;
      if IsMatch(cs, kind, matches, k) {
        places := [k] + places;
      }
    }
  }

  /** What the number of matching candidates decides. */
  lemma {:induction false} UniqueMatchExactly(cs: seq<ReferenceCandidate>, kind: Kind, matches: ReferenceCandidate -> bool)
    ensures var r := UniqueMatch(cs, kind, matches);
      && r != WrongKind
      && (r == NotFound <==> forall i :: !IsMatch(cs, kind, matches, i))
      && (r == Ambiguous <==> exists i, j :: i < j && IsMatch(cs, kind, matches, i) && IsMatch(cs, kind, matches, j))
      && (r.Found? ==> exists i :: IsMatch(cs, kind, matches, i) && cs[i].id == r.id)
  {
    var places := MatchingLists(cs, 0, kind, matches);
    assert cs[0..] == cs;
    assert forall i :: IsMatch(cs, kind, matches, i) ==> 0 <= i;
    hide Matching;
    hide IsMatch;
    if |places| >= 1 {
      assert IsMatch(cs, kind, matches, places[0]);
    }
    if |places| >= 2 {
      assert IsMatch(cs, kind, matches, places[1]) && places[0] < places[1];
    }
  }

  /** Every answer of the resolver, exactly: a query of another kind is refused, and
      otherwise the answer is the one candidate asked for, none, or ambiguous. */
  lemma {:induction false} ResolveExactly(query: string, expected: Kind, cs: seq<ReferenceCandidate>)
    requires '_' !in query
    ensures var r, kind := Resolve(query, expected, cs), QueryKind(query);
      && (r == WrongKind <==> kind.Some? && expected != Unknown && kind != Some(expected))
      && (r != WrongKind ==>
            && (r == NotFound <==> forall i :: 0 <= i < |cs| ==> !AsksFor(query, cs[i]))
            && (r == Ambiguous <==> exists i, j :: 0 <= i < j < |cs| && AsksFor(query, cs[i]) && AsksFor(query, cs[j]))
            && (r.Found? ==> exists i :: 0 <= i < |cs| && cs[i].id == r.id && AsksFor(query, cs[i])))
  {
    QueryCases(query);
    hide QueryKind;
    hide KindForDisplayLetter;
    hide HexValue;
    hide ToUpper;
    hide ExperimentAlias;
    hide FindingAlias;
    hide DisplayPattern;
    hide UniqueMatch;
    var kind := QueryKind(query);
    if kind.Some? {
      if ExperimentAlias(query) || FindingAlias(query) {
        AnswerExactly(query, cs, kind.value, OwnsAlias(query));
      } else {
        AnswerExactly(query, cs, kind.value, HasPrefix(ToUpper(query[2..])));
      }
    }
  }

  lemma {:induction false} AnswerExactly(query: string, cs: seq<ReferenceCandidate>, kind: Kind, matches: ReferenceCandidate -> bool)
    requires forall c :: AsksFor(query, c) <==> c.id.kind == kind && matches(c)
    ensures var r := UniqueMatch(cs, kind, matches);
      && r != WrongKind
      && (r == NotFound <==> forall i :: 0 <= i < |cs| ==> !AsksFor(query, cs[i]))
      && (r == Ambiguous <==> exists i, j :: 0 <= i < j < |cs| && AsksFor(query, cs[i]) && AsksFor(query, cs[j]))
      && (r.Found? ==> exists i :: 0 <= i < |cs| && cs[i].id == r.id && AsksFor(query, cs[i]))
  {
    UniqueMatchExactly(cs, kind, matches);
    assert forall i :: 0 <= i < |cs| ==> (AsksFor(query, cs[i]) <==> IsMatch(cs, kind, matches, i));
    assert forall i :: IsMatch(cs, kind, matches, i) ==> 0 <= i < |cs|;
    hide IsMatch;
    hide AsksFor;
    hide UniqueMatch;
  }

  lemma {:induction false} QueryCases(query: string)
    ensures ExperimentAlias(query) ==> QueryKind(query) == Some(Experiment) && query[0] == '#'
    ensures FindingAlias(query) ==> !ExperimentAlias(query) && QueryKind(query) == Some(Finding) && query[0] != '#'
    ensures FindingAlias(query) <==> |query| >= 5 && "F-" <= query && forall i :: 2 <= i < |query| ==> '0' <= query[i] <= '9'
    ensures DisplayPattern(query) && !FindingAlias(query) ==>
      !ExperimentAlias(query) && QueryKind(query) == KindForDisplayLetter(query[0]) && query[0] != '#'
    ensures !ExperimentAlias(query) && !FindingAlias(query) && !DisplayPattern(query) ==> QueryKind(query).None?
    ensures QueryKind(query).Some? ==> |query| >= 4
    ensures DisplayPattern(query) ==> QueryKind(query).Some?
  {
    if ExperimentAlias(query) {
      assert forall i :: 1 <= i < |query| ==> query[i] == query[1..][i - 1];
    }
    if |query| >= 2 {
      assert forall i :: 2 <= i < |query| ==> query[i] == query[2..][i - 2];
      assert "F-" <= query <==> query[0] == 'F' && query[1] == '-';
    }
    if |query| >= 4 {
      assert forall i :: 0 <= i < |query| - 1 ==> query[1..][i] == query[i + 1];
    }
  }

  /** The code of a record of another kind than the expected one is refused. */
  lemma {:induction false} CodeOfOtherKind(id: ID, n: nat, candidates: seq<ReferenceCandidate>, expected: Kind)
    requires DisplayLetter(id.kind).Some? && 8 <= n <= HEX_LENGTH && expected !in {Unknown, id.kind}
    ensures '_' !in Code(id, n) && Resolve(Code(id, n), expected, candidates) == WrongKind
  {
    CodeShape(id, n);
    hide DisplayPattern;
    hide FindingAlias;
    hide ExperimentAlias;
    hide KindForDisplayLetter;
    hide Code;
    hide DisplayLetter;
    assert Code(id, n) != "";
  }

  lemma LettersRoundTrip(kind: Kind)
    requires DisplayLetter(kind).Some?
    ensures KindForDisplayLetter(DisplayLetter(kind).value) == Some(kind)
    ensures DisplayLetter(kind).value !in {'#', '_'}
    ensures DisplayLetter(kind).value == 'F' <==> kind == Finding
  {
  }

  lemma UpperDigits(id: ID, n: nat)
    requires n <= HEX_LENGTH
    ensures forall i :: 0 <= i < n ==> HexDigit(HexValue(id)[i]) && HexValue(id)[i] != '_'
    ensures ToUpper(HexValue(id)[..n]) == HexValue(id)[..n]
  {
  }

  lemma {:induction false} OnlyMatch(candidates: seq<ReferenceCandidate>, id: ID, n: nat)
    requires n <= HEX_LENGTH && Unambiguous(id, CandidateIDs(candidates), n)
    requires forall c :: c in candidates ==> !c.id.IsZero()
    ensures |Matching(candidates, id.kind, HasPrefix(HexValue(id)[..n]))| == multiset(CandidateIDs(candidates))[id]
    ensures forall other :: other in Matching(candidates, id.kind, HasPrefix(HexValue(id)[..n])) ==> other == id
    decreases |candidates|
  {
    hide HexValue;
    if candidates != [] {
      var c, rest := candidates[0], candidates[1..];
      FirstCandidate(candidates, id, n);
      hide Unambiguous;
      hide CandidateIDs;
      hide Matching;
      OnlyMatch(rest, id, n);
    }
  }

  lemma {:induction false} FirstCandidate(candidates: seq<ReferenceCandidate>, id: ID, n: nat)
    requires candidates != [] && !candidates[0].id.IsZero()
    requires n <= HEX_LENGTH && Unambiguous(id, CandidateIDs(candidates), n)
    ensures var first, rest := candidates[0].id, candidates[1..];
      && Unambiguous(id, CandidateIDs(rest), n)
      && CandidateIDs(candidates) == [first] + CandidateIDs(rest)
      && Matching(candidates, id.kind, HasPrefix(HexValue(id)[..n])) ==
         (if first == id then [id] else []) + Matching(rest, id.kind, HasPrefix(HexValue(id)[..n]))
  {
    hide HexValue;
    var first, ids := candidates[0].id, CandidateIDs(candidates);
    assert ids[0] == first && first in ids;
    assert forall other :: other in ids[1..] ==> other in ids;
  }

  lemma CodeShape(id: ID, n: nat)
    requires DisplayLetter(id.kind).Some? && 8 <= n <= HEX_LENGTH
    ensures var code := Code(id, n);
      && DisplayPattern(code) && !ExperimentAlias(code) && '_' !in code
      && KindForDisplayLetter(code[0]) == Some(id.kind)
      && ToUpper(code[2..]) == HexValue(id)[..n]
      && (FindingAlias(code) <==> id.kind == Finding && DecimalDigits(HexValue(id)[..n]))
  {
    LettersRoundTrip(id.kind);
    UpperDigits(id, n);
    hide DisplayLetter;
    hide KindForDisplayLetter;
    hide HexValue;
    var code := Code(id, n);
    assert code[2..] == HexValue(id)[..n];
    forall i | 2 <= i < |code| ensures HexDigit(code[i]) && code[i] != '_' {
      assert code[i] == HexValue(id)[..n][i - 2] == HexValue(id)[i - 2];
    }
  }

  lemma CodeIsOnlyMatch(id: ID, n: nat, candidates: seq<ReferenceCandidate>)
    requires forall c: ReferenceCandidate :: c in candidates ==> !c.id.IsZero()
    requires n <= HEX_LENGTH
    requires Unambiguous(id, CandidateIDs(candidates), n) && multiset(CandidateIDs(candidates))[id] == 1
    ensures UniqueMatch(candidates, id.kind, HasPrefix(HexValue(id)[..n])) == Found(id)
  {
    OnlyMatch(candidates, id, n);
    hide HexValue;
    hide Matching;
    hide Unambiguous;
    var found := Matching(candidates, id.kind, HasPrefix(HexValue(id)[..n]));
    assert found[0] in found;
  }

  lemma UniqueMatchIsFound(candidates: seq<ReferenceCandidate>, kind: Kind, matches: ReferenceCandidate -> bool, id: ID)
    ensures UniqueMatch(candidates, kind, matches) == Found(id) <==> Matching(candidates, kind, matches) == [id]
  {
  }

  /** A stored code names its record again, except that the code of a Finding
      whose digits are all decimal is read as a legacy alias: then it names the
      record only if that record alone carries the alias. */
  lemma CodeResolves(id: ID, n: nat, candidates: seq<ReferenceCandidate>, expected: Kind)
    requires forall c: ReferenceCandidate :: c in candidates ==> !c.id.IsZero()
    requires DisplayLetter(id.kind).Some? && expected in {Unknown, id.kind}
    requires IsShortest(id, CandidateIDs(candidates), n) && multiset(CandidateIDs(candidates))[id] == 1
    ensures '_' !in Code(id, n)
    ensures Resolve(Code(id, n), expected, candidates) == Found(id) <==>
            !(id.kind == Finding && DecimalDigits(HexValue(id)[..n]))
            || Matching(candidates, Finding, OwnsAlias(Code(id, n))) == [id]
  {
    CodeShape(id, n);
    CodeIsOnlyMatch(id, n, candidates);
    hide DisplayPattern;
    hide FindingAlias;
    hide ExperimentAlias;
    hide KindForDisplayLetter;
    hide HexValue;
    hide ToUpper;
    hide Code;
    hide DecimalDigits;
    hide Unambiguous;
    hide DisplayLetter;
    UniqueMatchIsFound(candidates, Finding, OwnsAlias(Code(id, n)), id);
    hide UniqueMatch;
    hide Matching;
    assert Code(id, n) != "";
  }

  /** No stored code begins another stored code. */
  lemma CodesArePrefixFree(result: map<ID, string>, ids: seq<ID>, a: ID, b: ID)
    requires forall id :: Coded(result, ids, id)
    requires a in result && b in result && a != b && !b.IsZero()
    ensures !(result[a] <= result[b])
  {
    assert Coded(result, ids, a) && Coded(result, ids, b);
    var m :| IsShortest(a, ids, m) && result[a] == Code(a, m);
    var n :| IsShortest(b, ids, n) && result[b] == Code(b, n);
    assert b in ids by { assert b in multiset(ids); }
    if result[a] <= result[b] {
      LettersRoundTrip(a.kind);
      LettersRoundTrip(b.kind);
      assert result[a][0] == result[b][0];
      CodePrefix(a, m, b, n);
    }
  }

  lemma CodePrefix(a: ID, m: nat, b: ID, n: nat)
    requires DisplayLetter(a.kind).Some? && DisplayLetter(b.kind).Some? && m <= HEX_LENGTH && n <= HEX_LENGTH
    requires Code(a, m) <= Code(b, n)
    ensures HexValue(a)[..m] <= HexValue(b)
  {
    hide HexValue;
    forall i | 0 <= i < m ensures HexValue(a)[i] == HexValue(b)[i] {
      assert Code(a, m)[i + 2] == Code(b, n)[i + 2];
    }
  }

  /** A Finding that its own display code does not name. UUIDs begin with a
      timestamp, so eight decimal digits do occur. */
  lemma DecimalFindingCodeIsLost(id: ID)
    requires id.kind == Finding && "01912345" <= id.hex
    ensures IsShortest(id, [id], 8) && Code(id, 8) == "F-01912345"
    ensures '_' !in Code(id, 8) && Resolve(Code(id, 8), Unknown, [ReferenceCandidate(id, [])]) == NotFound
  {
    var candidates := [ReferenceCandidate(id, [])];
    assert CandidateIDs(candidates[1..]) == [];
    assert CandidateIDs(candidates) == [id];
    CodeShape(id, 8);
    assert IsShortest(id, [id], 8);
    DecimalDigitsOf(id);
    AliasUnowned(id, Code(id, 8));
    hide HexValue;
    hide DisplayPattern;
    hide Matching;
    hide Code;
    hide KindForDisplayLetter;
    hide ExperimentAlias;
    assert Code(id, 8) != "";
  }

  lemma {:induction false} DecimalDigitsOf(id: ID)
    requires id.kind == Finding && "01912345" <= id.hex
    ensures HexValue(id)[..8] == "01912345" && DecimalDigits(HexValue(id)[..8])
    ensures Code(id, 8) == "F-01912345"
  {
    forall i | 0 <= i < 8 ensures HexValue(id)[..8][i] == "01912345"[i] {
      assert id.hex[i] == "01912345"[i];
    }
    assert HexValue(id)[..8] == "01912345";
  }

  lemma AliasUnowned(id: ID, query: string)
    ensures Matching([ReferenceCandidate(id, [])], Finding, OwnsAlias(query)) == []
  {
    assert [ReferenceCandidate(id, [])][1..] == [];
  }
}
