/** Strict inspection of a Plan request (internal/cli/plan.go): a recursive descent
    over JSON tokens that rejects unknown, duplicate and misplaced fields. */
module PlanRequest {
  import opened Prelude

  /** What the JSON decoder hands out. `Invalid` stands for a place where it
      reports a syntax error. */
  datatype Token = ObjectOpen | ObjectClose | ArrayOpen | ArrayClose | Text(s: string) | Scalar | Invalid

  datatype JSON = Object(fields: seq<Field>) | Array(items: seq<JSON>) | String(s: string) | Other

  datatype Field = Field(key: string, value: JSON)

  function Tokens(v: JSON): (r: seq<Token>)
    ensures r != [] && !(r[0] in {ObjectClose, ArrayClose})
    decreases v
  {
    match v
    case Object(fields) => [ObjectOpen] + FieldTokens(fields) + [ObjectClose]
    case Array(items) => [ArrayOpen] + ItemTokens(items) + [ArrayClose]
    case String(s) => [Text(s)]
    case Other => [Scalar]
  }

  function FieldTokens(fields: seq<Field>): seq<Token>
    decreases fields
  {
    if fields == [] then [] else [Text(fields[0].key)] + Tokens(fields[0].value) + FieldTokens(fields[1..])
  }

  function ItemTokens(items: seq<JSON>): seq<Token>
    decreases items
  {
    if items == [] then [] else Tokens(items[0]) + ItemTokens(items[1..])
  }

  // ---------------------------------------------------------------------------
  // Fields and paths
  // ---------------------------------------------------------------------------

  const REQUEST := "request"
  const PAYOFF := "request.expected_payoff"

  predicate RequestField(key: string) {
    key in {"schema_version", "title", "body", "priority", "effort", "expected_payoff", "tags", "assumptions"}
  }

  predicate PayoffField(key: string) {
    key in {"summary", "metric", "unit", "estimate"}
  }

  predicate ObjectAllowed(path: string) {
    path == REQUEST || path == PAYOFF
  }

  predicate Allowed(path: string, key: string) {
    (path == REQUEST && RequestField(key)) || (path == PAYOFF && PayoffField(key))
  }

  function ChildPath(path: string, key: string): string {
    path + "." + key
  }

  function Digits(n: nat): (r: string)
    ensures r != ""
  {
    var last := [('0' as int + n % 10) as char];
    if n < 10 then last else Digits(n / 10) + last
  }

  function ItemPath(path: string, index: nat): string {
    path + "[" + Digits(index) + "]"
  }

  // ---------------------------------------------------------------------------
  // The inspector as a function of the remaining tokens
  // ---------------------------------------------------------------------------

  predicate More(s: seq<Token>) {
    s != [] && s[0] != ObjectClose && s[0] != ArrayClose
  }

  /** Whether a key folds to the same text as a key seen before. */
  predicate FoldsLikeSeen(fold: string -> string, key: string, seen: set<string>) {
    exists k :: k in seen && fold(k) == fold(key)
  }

  function Value(fold: string -> string, s: seq<Token>, path: string, requireObject: bool): (r: Option<seq<Token>>)
    ensures r.Some? ==> |r.value| < |s|
    decreases |s|, 1
  {
    if s == [] then None
    else
      match s[0]
      case Text(_) => if requireObject then None else Some(s[1..])
      case Scalar => if requireObject then None else Some(s[1..])
      case ObjectOpen => if ObjectAllowed(path) then Fields(fold, s[1..], path, {}) else None
      case ArrayOpen => if requireObject then None else Items(fold, s[1..], path, 0)
      case _ => None
  }

  function Fields(fold: string -> string, s: seq<Token>, path: string, seen: set<string>): (r: Option<seq<Token>>)
    ensures r.Some? ==> |r.value| < |s|
    decreases |s|, 2
  {
    if !More(s) then
      if s != [] && s[0] == ObjectClose then Some(s[1..]) else None
    else if !s[0].Text? then None
    else
      var key := s[0].s;
      if key in seen || FoldsLikeSeen(fold, key, seen) || !Allowed(path, key) then None
      else
        match Value(fold, s[1..], ChildPath(path, key), ChildPath(path, key) == PAYOFF)
        case None => None
        case Some(rest) => Fields(fold, rest, path, seen + {key})
  }

  function Items(fold: string -> string, s: seq<Token>, path: string, index: nat): (r: Option<seq<Token>>)
    ensures r.Some? ==> |r.value| < |s|
    decreases |s|, 2
  {
    if !More(s) then
      if s != [] && s[0] == ArrayClose then Some(s[1..]) else None
    else
      match Value(fold, s, ItemPath(path, index), false)
      case None => None
      case Some(rest) => Items(fold, rest, path, index + 1)
  }

  /** The whole check: one value, then the end of the input. */
  predicate Valid(fold: string -> string, s: seq<Token>) {
    Value(fold, s, REQUEST, true) == Some([])
  }

  // ---------------------------------------------------------------------------
  // The code
  // ---------------------------------------------------------------------------

  class Decoder {
    const tokens: seq<Token>
    var pos: nat

    ghost predicate Ready()
      reads this
    {
      pos <= |tokens|
    }

    constructor (tokens: seq<Token>)
      ensures Ready() && this.tokens == tokens && pos == 0
    {
      this.tokens, pos := tokens, 0;
    }

    function Rest(): seq<Token>
      requires Ready()
      reads this
    {
      tokens[pos..]
    }

    /** The next token, or an error at the end or at a syntax error. */
    method Token() returns (token: Option<Token>)
      requires Ready()
      modifies this
      ensures Ready()
      ensures if old(Rest()) == [] || old(Rest())[0] == Invalid then token == None
              else token == Some(old(Rest())[0]) && Rest() == old(Rest())[1..]
    {
      if pos == |tokens| || tokens[pos] == Invalid {
        return None;
      }
      token := Some(tokens[pos]);
      pos := pos + 1;
    }

    method HasMore() returns (more: bool)
      requires Ready()
      ensures more == More(Rest())
    {
      more := pos < |tokens| && tokens[pos] != ObjectClose && tokens[pos] != ArrayClose;
    }
  }

  /** What a part of the inspection must do to the decoder. */
  ghost predicate Leaves(decoder: Decoder, ok: bool, expected: Option<seq<Token>>)
    reads decoder
  {
    && decoder.Ready()
    && ok == expected.Some?
    && (ok ==> decoder.Rest() == expected.value)
  }

  method InspectPlanAddJSONValue(fold: string -> string, decoder: Decoder, path: string, requireObject: bool) returns (ok: bool)
    requires decoder.Ready()
    modifies decoder
    ensures Leaves(decoder, ok, Value(fold, old(decoder.Rest()), path, requireObject))
    decreases |decoder.Rest()|, 1
  {
    ghost var s := decoder.Rest();
    var token := decoder.Token();
    if token == None {
      return false;
    }
    match token.value {
      case Text(_) => return !requireObject;
      case Scalar => return !requireObject;
      case ObjectOpen =>
        if !ObjectAllowed(path) {
          return false;
        }
        ok := InspectFields(fold, decoder, path);
      case ArrayOpen =>
        if requireObject {
          return false;
        }
        ok := InspectItems(fold, decoder, path);
      case _ => return false;
    }
  }

  /** The loop over an object's fields and its closing brace. */
  method InspectFields(fold: string -> string, decoder: Decoder, path: string) returns (ok: bool)
    requires decoder.Ready()
    modifies decoder
    ensures Leaves(decoder, ok, Fields(fold, old(decoder.Rest()), path, {}))
    decreases |decoder.Rest()|, 2
  {
    ghost var start := decoder.Rest();
    var seen: set<string> := {};
    var semantic: map<string, string> := map[];
    var more := decoder.HasMore();
    while more
      invariant decoder.Ready() && more == More(decoder.Rest()) && |decoder.Rest()| <= |start|
      invariant Fields(fold, decoder.Rest(), path, seen) == Fields(fold, start, path, {})
      invariant forall t :: t in semantic <==> exists k :: k in seen && fold(k) == t
      decreases |decoder.Rest()|
    {
      var keyToken := decoder.Token();
      if keyToken == None || !keyToken.value.Text? {
        return false;
      }
      var key := keyToken.value.s;
      if key in seen {
        return false;
      }
      var folded := fold(key);
      if folded in semantic {
        return false;
      }
      if !Allowed(path, key) {
        assert !FoldsLikeSeen(fold, key, seen);
        return false;
      }
      assert !FoldsLikeSeen(fold, key, seen);
      seen, semantic := seen + {key}, semantic[folded := key];
      var childPath := ChildPath(path, key);
      var inspected := InspectPlanAddJSONValue(fold, decoder, childPath, childPath == PAYOFF);
      if !inspected {
        return false;
      }
      more := decoder.HasMore();
    }
    var closing := decoder.Token();
    return closing == Some(ObjectClose);
  }

  /** The loop over an array's items and its closing bracket. */
  method InspectItems(fold: string -> string, decoder: Decoder, path: string) returns (ok: bool)
    requires decoder.Ready()
    modifies decoder
    ensures Leaves(decoder, ok, Items(fold, old(decoder.Rest()), path, 0))
    decreases |decoder.Rest()|, 2
  {
    ghost var start := decoder.Rest();
    var index := 0;
    var more := decoder.HasMore();
    while more
      invariant decoder.Ready() && more == More(decoder.Rest()) && |decoder.Rest()| <= |start|
      invariant Items(fold, decoder.Rest(), path, index) == Items(fold, start, path, 0)
      decreases |decoder.Rest()|
    {
      var inspected := InspectPlanAddJSONValue(fold, decoder, ItemPath(path, index), false);
      if !inspected {
        return false;
      }
      index := index + 1;
      more := decoder.HasMore();
    }
    var closing := decoder.Token();
    return closing == Some(ArrayClose);
  }

  method ValidatePlanAddJSON(fold: string -> string, content: seq<Token>) returns (ok: bool)
    ensures ok == Valid(fold, content)
    ensures KeepsAllowed(fold) ==> (ok <==> exists v :: content == Tokens(v) && RequestObject(v))
  {
    if KeepsAllowed(fold) {
      ValidRequests(fold, content);
    }
    hide KeepsAllowed;
    hide Tokens;
    hide RequestObject;
    var decoder := new Decoder(content);
    assert decoder.Rest() == content;
    ok := InspectPlanAddJSONValue(fold, decoder, REQUEST, true);
    if ok {
      ok := decoder.pos == |decoder.tokens|;
    }
  }

  // ---------------------------------------------------------------------------
  // Which trees are accepted
  // ---------------------------------------------------------------------------

  predicate Acceptable(v: JSON, path: string, requireObject: bool)
    decreases v
  {
    match v
    case Object(fields) => ObjectAllowed(path) && FieldsAcceptable(fields, path, {})
    case Array(items) => !requireObject && ItemsAcceptable(items, path, 0)
    case _ => !requireObject
  }

  predicate FieldsAcceptable(fields: seq<Field>, path: string, seen: set<string>)
    decreases fields
  {
    if fields == [] then true
    else
      var key := fields[0].key;
      && key !in seen && Allowed(path, key)
      && Acceptable(fields[0].value, ChildPath(path, key), ChildPath(path, key) == PAYOFF)
      && FieldsAcceptable(fields[1..], path, seen + {key})
  }

  predicate ItemsAcceptable(items: seq<JSON>, path: string, index: nat)
    decreases items
  {
    if items == [] then true
    else Acceptable(items[0], ItemPath(path, index), false) && ItemsAcceptable(items[1..], path, index + 1)
  }

  /** The allowed names are lower case, so folding leaves them alone. */
  ghost predicate KeepsAllowed(fold: string -> string) {
    forall k :: RequestField(k) || PayoffField(k) ==> fold(k) == k
  }

  /** Folding adds nothing: among allowed keys only a repeated key folds alike. */
  lemma FoldedDuplicateIsDuplicate(fold: string -> string, path: string, key: string, seen: set<string>)
    requires KeepsAllowed(fold) && Allowed(path, key) && forall k :: k in seen ==> Allowed(path, k)
    ensures FoldsLikeSeen(fold, key, seen) <==> key in seen
  {
    hide RequestField;
    hide PayoffField;
  }

  /** The inspector consumes exactly an acceptable tree, whatever follows it, and
      rejects every other tree. */
  lemma {:induction false} InspectTree(fold: string -> string, v: JSON, path: string, requireObject: bool, rest: seq<Token>)
    requires KeepsAllowed(fold)
    ensures Value(fold, Tokens(v) + rest, path, requireObject) ==
            if Acceptable(v, path, requireObject) then Some(rest) else None
    decreases v, 1
  {
    var s := Tokens(v) + rest;
    match v {
      case Object(fields) =>
        assert s[0] == ObjectOpen && s[1..] == FieldTokens(fields) + [ObjectClose] + rest;
        if ObjectAllowed(path) {
          InspectFieldList(fold, fields, path, {}, rest);
        }
      case Array(items) =>
        assert s[0] == ArrayOpen && s[1..] == ItemTokens(items) + [ArrayClose] + rest;
        InspectItemList(fold, items, path, 0, rest);
      case String(t) => assert s[1..] == rest;
      case Other => assert s[1..] == rest;
    }
  }

  lemma {:induction false} FieldText(first: Field, more: seq<Field>, rest: seq<Token>)
    ensures var s := FieldTokens([first] + more) + [ObjectClose] + rest;
      && s[0] == Text(first.key)
      && s[1..] == Tokens(first.value) + (FieldTokens(more) + [ObjectClose] + rest)
  {
    assert ([first] + more)[1..] == more;
  }

  lemma FieldsStep(fold: string -> string, s: seq<Token>, path: string, seen: set<string>)
    requires s != [] && s[0].Text?
    ensures var key := s[0].s;
      var r := Value(fold, s[1..], ChildPath(path, key), ChildPath(path, key) == PAYOFF);
      Fields(fold, s, path, seen) ==
      if key in seen || FoldsLikeSeen(fold, key, seen) || !Allowed(path, key) || r.None? then None
      else Fields(fold, r.value, path, seen + {key})
  {
  }

  lemma {:induction false} InspectFieldList(fold: string -> string, fields: seq<Field>, path: string, seen: set<string>, rest: seq<Token>)
    requires KeepsAllowed(fold) && forall k :: k in seen ==> Allowed(path, k)
    ensures Fields(fold, FieldTokens(fields) + [ObjectClose] + rest, path, seen) ==
            if FieldsAcceptable(fields, path, seen) then Some(rest) else None
    decreases fields, 0
  {
    var s := FieldTokens(fields) + [ObjectClose] + rest;
    if fields == [] {
      assert s == [ObjectClose] + rest && s[1..] == rest;
      return;
    }
    var first, more := fields[0], fields[1..];
    assert [first] + more == fields;
    FieldText(first, more, rest);
    FieldsStep(fold, s, path, seen);
    hide Fields;
    hide Value;
    hide Allowed;
    hide FoldsLikeSeen;
    hide ChildPath;
    if Allowed(path, first.key) {
      FoldedDuplicateIsDuplicate(fold, path, first.key, seen);
      var child := ChildPath(path, first.key);
      InspectTree(fold, first.value, child, child == PAYOFF, FieldTokens(more) + [ObjectClose] + rest);
      InspectFieldList(fold, more, path, seen + {first.key}, rest);
    }
  }

  lemma {:induction false} InspectItemList(fold: string -> string, items: seq<JSON>, path: string, index: nat, rest: seq<Token>)
    requires KeepsAllowed(fold)
    ensures Items(fold, ItemTokens(items) + [ArrayClose] + rest, path, index) ==
            if ItemsAcceptable(items, path, index) then Some(rest) else None
    decreases items, 0
  {
    var s := ItemTokens(items) + [ArrayClose] + rest;
    if items == [] {
      assert s == [ArrayClose] + rest && s[1..] == rest;
      return;
    }
    var after := ItemTokens(items[1..]) + [ArrayClose] + rest;
    assert s == Tokens(items[0]) + after;
    assert s[0] == Tokens(items[0])[0];
    InspectTree(fold, items[0], ItemPath(path, index), false, after);
    InspectItemList(fold, items[1..], path, index + 1, rest);
  }

  // ---------------------------------------------------------------------------
  // Whatever is accepted is a tree
  // ---------------------------------------------------------------------------

  lemma {:induction false} FindTree(fold: string -> string, s: seq<Token>, path: string, requireObject: bool) returns (v: JSON)
    requires Value(fold, s, path, requireObject).Some?
    ensures s == Tokens(v) + Value(fold, s, path, requireObject).value
    decreases |s|, 1
  {
    hide Fields;
    hide Items;
    hide FieldTokens;
    hide ItemTokens;
    var rest := Value(fold, s, path, requireObject).value;
    match s[0] {
      case Text(t) => v := String(t);
      case Scalar => v := Other;
      case ObjectOpen =>
        var fields := FindFields(fold, s[1..], path, {});
        v := Object(fields);
        assert s == [ObjectOpen] + s[1..];
      case ArrayOpen =>
        var items := FindItems(fold, s[1..], path, 0);
        v := Array(items);
        assert s == [ArrayOpen] + s[1..];
      case _ => assert false;
    }
  }

  lemma {:induction false} FindFields(fold: string -> string, s: seq<Token>, path: string, seen: set<string>) returns (fields: seq<Field>)
    requires Fields(fold, s, path, seen).Some?
    ensures s == FieldTokens(fields) + [ObjectClose] + Fields(fold, s, path, seen).value
    decreases |s|, 2
  {
    if !More(s) {
      return [];
    }
    var key := s[0].s;
    FieldsStep(fold, s, path, seen);
    var child := ChildPath(path, key);
    var rest := Value(fold, s[1..], child, child == PAYOFF).value;
    var value := FindTree(fold, s[1..], child, child == PAYOFF);
    var more := FindFields(fold, rest, path, seen + {key});
    fields := [Field(key, value)] + more;
    hide Fields;
    hide Value;
    FieldText(Field(key, value), more, Fields(fold, s, path, seen).value);
    assert s == [s[0]] + s[1..];
  }

  lemma {:induction false} FindItems(fold: string -> string, s: seq<Token>, path: string, index: nat) returns (items: seq<JSON>)
    requires Items(fold, s, path, index).Some?
    ensures s == ItemTokens(items) + [ArrayClose] + Items(fold, s, path, index).value
    decreases |s|, 2
  {
    if !More(s) {
      return [];
    }
    var rest := Value(fold, s, ItemPath(path, index), false).value;
    var first := FindTree(fold, s, ItemPath(path, index), false);
    var more := FindItems(fold, rest, path, index + 1);
    items := [first] + more;
    assert items[1..] == more;
  }

  // ---------------------------------------------------------------------------
  // The accepted requests, without paths
  // ---------------------------------------------------------------------------

  /** No object anywhere inside, at any array depth. */
  predicate ObjectFree(v: JSON)
    decreases v
  {
    match v
    case Object(_) => false
    case Array(items) => forall i :: 0 <= i < |items| ==> ObjectFree(items[i])
    case _ => true
  }

  predicate DistinctKeys(fields: seq<Field>) {
    forall i, j :: 0 <= i < j < |fields| ==> fields[i].key != fields[j].key
  }

  predicate PayoffObject(v: JSON) {
    && v.Object? && DistinctKeys(v.fields)
    && forall i :: 0 <= i < |v.fields| ==>
         v.fields[i].key in {"summary", "metric", "unit", "estimate"} && ObjectFree(v.fields[i].value)
  }

  predicate RequestObject(v: JSON) {
    && v.Object? && DistinctKeys(v.fields)
    && forall i :: 0 <= i < |v.fields| ==>
         && v.fields[i].key in {"schema_version", "title", "body", "priority", "effort", "expected_payoff", "tags", "assumptions"}
         && if v.fields[i].key == "expected_payoff" then PayoffObject(v.fields[i].value) else ObjectFree(v.fields[i].value)
  }

  lemma ItemPathsAllowNothing(path: string, index: nat)
    ensures !ObjectAllowed(ItemPath(path, index))
  {
    var p := ItemPath(path, index);
    assert p[|p| - 1] == ']';
    assert REQUEST[|REQUEST| - 1] == 't' && PAYOFF[|PAYOFF| - 1] == 'f';
  }

  /** Away from the two object paths, acceptance is freedom from objects. */
  lemma {:induction false} PlainAcceptable(v: JSON, path: string)
    requires !ObjectAllowed(path)
    ensures Acceptable(v, path, false) <==> ObjectFree(v)
    decreases v, 1
  {
    hide ObjectAllowed;
    if v.Array? {
      PlainItems(v.items, path, 0);
    }
  }

  lemma {:induction false} PlainItems(items: seq<JSON>, path: string, index: nat)
    ensures ItemsAcceptable(items, path, index) <==> forall i :: 0 <= i < |items| ==> ObjectFree(items[i])
    decreases items, 0
  {
    if items != [] {
      ItemPathsAllowNothing(path, index);
      PlainAcceptable(items[0], ItemPath(path, index));
      PlainItems(items[1..], path, index + 1);
    }
  }

  lemma {:induction false} ChildPaths(key: string)
    ensures RequestField(key) ==> (ChildPath(REQUEST, key) == PAYOFF <==> key == "expected_payoff")
    ensures !ObjectAllowed(ChildPath(PAYOFF, key))
    ensures ChildPath(REQUEST, key) != REQUEST
  {
    assert |ChildPath(PAYOFF, key)| > |PAYOFF| > |REQUEST|;
    assert |ChildPath(REQUEST, key)| > |REQUEST|;
    var p := ChildPath(REQUEST, key);
    assert p[8..] == key && PAYOFF[8..] == "expected_payoff";
    if key == "expected_payoff" {
      assert p == REQUEST + "." + "expected_payoff" == PAYOFF;
    }
  }

  /** One field of an accepted object. */
  predicate GoodField(path: string, f: Field) {
    Allowed(path, f.key) && Acceptable(f.value, ChildPath(path, f.key), ChildPath(path, f.key) == PAYOFF)
  }

  lemma {:induction false} FieldsAreGood(fields: seq<Field>, path: string, seen: set<string>)
    ensures FieldsAcceptable(fields, path, seen) <==>
            && DistinctKeys(fields)
            && (forall i :: 0 <= i < |fields| ==> fields[i].key !in seen && GoodField(path, fields[i]))
    decreases |fields|
  {
    if fields != [] {
      hide Acceptable;
      hide Allowed;
      var more := fields[1..];
      FieldsAreGood(more, path, seen + {fields[0].key});
      assert forall i :: 0 <= i < |more| ==> more[i] == fields[i + 1];
      assert forall i :: 0 < i < |fields| ==> fields[i] == more[i - 1];
    }
  }

  lemma PayoffAcceptable(v: JSON)
    ensures Acceptable(v, PAYOFF, true) <==> PayoffObject(v)
  {
    if v.Object? {
      FieldsAreGood(v.fields, PAYOFF, {});
      forall i | 0 <= i < |v.fields|
        ensures GoodField(PAYOFF, v.fields[i]) <==> PayoffField(v.fields[i].key) && ObjectFree(v.fields[i].value)
      {
        PayoffFieldGood(v.fields[i]);
      }
      hide GoodField;
      hide PayoffField;
    }
  }

  lemma PayoffFieldGood(f: Field)
    ensures GoodField(PAYOFF, f) <==> PayoffField(f.key) && ObjectFree(f.value)
  {
    ChildPaths(f.key);
    var child := ChildPath(PAYOFF, f.key);
    PlainAcceptable(f.value, child);
    assert child != PAYOFF && PAYOFF != REQUEST;
    hide PayoffField;
    hide Acceptable;
  }

  lemma RequestFieldGood(f: Field)
    ensures GoodField(REQUEST, f) <==>
            RequestField(f.key) && if f.key == "expected_payoff" then PayoffObject(f.value) else ObjectFree(f.value)
  {
    ChildPaths(f.key);
    var child := ChildPath(REQUEST, f.key);
    assert PAYOFF != REQUEST by { assert |PAYOFF| > |REQUEST|; }
    if RequestField(f.key) {
      if f.key == "expected_payoff" {
        PayoffAcceptable(f.value);
      } else {
        PlainAcceptable(f.value, child);
      }
    }
    hide RequestField;
    hide PayoffField;
    hide Acceptable;
    hide PayoffObject;
  }

  /** A request is valid exactly when its tokens are those of an object with
      distinct allowed fields, whose expected payoff, if any, is such an object
      too, and that holds no other object at any depth. */
  lemma ValidRequests(fold: string -> string, s: seq<Token>)
    requires KeepsAllowed(fold)
    ensures Valid(fold, s) <==> exists v :: s == Tokens(v) && RequestObject(v)
  {
    if Valid(fold, s) {
      var v := FindTree(fold, s, REQUEST, true);
      assert Tokens(v) + [] == Tokens(v);
      InspectTree(fold, v, REQUEST, true, []);
      RequestAcceptable(v);
      assert s == Tokens(v) && RequestObject(v);
    }
    if v :| s == Tokens(v) && RequestObject(v) {
      assert Tokens(v) + [] == Tokens(v);
      InspectTree(fold, v, REQUEST, true, []);
      RequestAcceptable(v);
    }
  }

  lemma RequestAcceptable(v: JSON)
    ensures Acceptable(v, REQUEST, true) <==> RequestObject(v)
  {
    if v.Object? {
      FieldsAreGood(v.fields, REQUEST, {});
      forall i | 0 <= i < |v.fields|
        ensures GoodField(REQUEST, v.fields[i]) <==>
                RequestField(v.fields[i].key) && if v.fields[i].key == "expected_payoff" then PayoffObject(v.fields[i].value) else ObjectFree(v.fields[i].value)
      {
        RequestFieldGood(v.fields[i]);
      }
      hide GoodField;
      hide RequestField;
      hide PayoffObject;
      hide ObjectFree;
    }
  }
}
