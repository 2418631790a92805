/** The capped, de-duplicating completion list of internal/cli/completion.go. */
module CompletionBuilder {
  import opened Ordering

  const MAX_ITEMS: nat := 100

  /** The prefix being completed, and the text functions the builder relies on
      but does not define. */
  datatype Rules = Rules(
    prefix: string,
    safe: string -> string,        // diagnostic-text sanitiser
    lower: string -> string,       // lower-casing
    describe: string -> string,    // description sanitiser
    isControl: char -> bool)
  {
    predicate Sane(value: string) {
      && value != "" && safe(value) == value
      && forall i :: 0 <= i < |value| ==>
           value[i] != '\t' && value[i] != '\r' && value[i] != '\n' && value[i] != '\0' && !isControl(value[i])
    }

    predicate Admissible(value: string) {
      Sane(value) && (prefix == "" || lower(prefix) <= lower(value))
    }

    /** A list entry: the value, and after a tab its description if it has one. */
    function Item(offer: Offer): string {
      var description := describe(offer.description);
      if description == "" then offer.value else offer.value + "\t" + description
    }

    function Items(offers: seq<Offer>): (r: seq<string>)
      ensures |r| == |offers| && forall i :: 0 <= i < |r| ==> r[i] == Item(offers[i])
    {
      seq(|offers|, i requires 0 <= i < |offers| => Item(offers[i]))
    }

    /** The admissible offers, each value at its first occurrence. */
    function Firsts(history: seq<Offer>): (r: seq<Offer>)
      ensures DistinctKeys(r, Offer.Value)
      ensures ValueSet(r) == set v | v in ValueSet(history) && Admissible(v)
    {
      if history == [] then []
      else
        var earlier, last := Firsts(history[..|history| - 1]), history[|history| - 1];
        assert history == history[..|history| - 1] + [last];
        ValueSetAppend(history[..|history| - 1], last);
        if Admissible(last.value) && last.value !in ValueSet(earlier) then
          ValueSetAppend(earlier, last);
          earlier + [last]
        else earlier
    }

    /** The first hundred distinct admissible offers. */
    function Kept(history: seq<Offer>): seq<Offer> {
      var r := Firsts(history);
      if |r| <= MAX_ITEMS then r else r[..MAX_ITEMS]
    }
  }

  datatype Offer = Offer(value: string, description: string) {
    static function Value(o: Offer): string { o.value }
  }

  function ValueSet(offers: seq<Offer>): set<string> {
    set i | 0 <= i < |offers| :: offers[i].value
  }

  lemma ValueSetAppend(offers: seq<Offer>, last: Offer)
    ensures ValueSet(offers + [last]) == ValueSet(offers) + {last.value}
  {
    var longer := offers + [last];
    forall v | v in ValueSet(offers) + {last.value} ensures v in ValueSet(longer) {
      var i :| 0 <= i < |longer| && longer[i].value == v && (i < |offers| ==> offers[i].value == v);
    }
  }

  /** The sort key of a list entry: its text before the first tab. */
  function Key(item: string): string {
    if item == "" || item[0] == '\t' then "" else [item[0]] + Key(item[1..])
  }

  class Builder {
    const rules: Rules
    var seen: set<string>
    var items: seq<string>
    var truncated: bool
    ghost var offers: seq<Offer>    // everything offered so far

    ghost predicate Valid()
      reads this
    {
      && multiset(items) == multiset(rules.Items(rules.Kept(offers)))
      && seen == ValueSet(rules.Kept(offers))
      && (truncated <==> |rules.Firsts(offers)| > MAX_ITEMS)
    }

    constructor (rules: Rules)
      ensures Valid() && offers == [] && this.rules == rules
    {
      this.rules := rules;
      seen, items, truncated, offers := {}, [], false, [];
    }

    /** One more offer; the list stays the first hundred distinct ones. */
    method Add(value: string, description: string)
      requires Valid()
      modifies this
      ensures Valid() && offers == old(offers) + [Offer(value, description)]
      ensures (truncated <==> |rules.Firsts(offers)| > 100) && |items| <= 100
      ensures
        var fits :=
          && value != "" && rules.safe(value) == value
          && (forall i :: 0 <= i < |value| ==> value[i] !in {'\t', '\r', '\n', '\0'} && !rules.isControl(value[i]))
          && (rules.prefix == "" || rules.lower(rules.prefix) <= rules.lower(value));
        var described := if rules.describe(description) == "" then value else value + "\t" + rules.describe(description);
        if fits && value !in old(seen) && |old(items)| < 100
        then items == old(items) + [described] && seen == old(seen) + {value} && truncated == old(truncated)
        else && items == old(items) && seen == old(seen)
             && (truncated <==> old(truncated) || (fits && value !in old(seen)))
    {
      ghost var offer := Offer(value, description);
      KeptStep(rules, offers, offer);
      SameLength(items, rules.Items(rules.Kept(offers)));
      offers := offers + [offer];
      if !rules.Admissible(value) {
        return;
      }
      if value in seen {
        return;
      }
      if |items| >= MAX_ITEMS {
        truncated := true;
        return;
      }
      seen := seen + {value};
      items := items + [rules.Item(Offer(value, description))];
    }

    /** Sorts the list by value, in place, and returns it. */
    method Values() returns (result: seq<string>)
      requires Valid()
      modifies this`items
      ensures Valid() && result == items == Sort(old(items), Key) && multiset(items) == multiset(old(items))
      ensures forall i, j :: 0 <= i < j < |items| ==> Less(Key(items[i]), Key(items[j]))
    {
      KeptKeysDistinct(rules, offers);
      PermutedKeysDistinct(rules.Items(rules.Kept(offers)), items, Key);
      SortStrict(items, Key);
      items := Sort(items, Key);
      result := items;
    }

    /** Whether completion reports that the list was capped. */
    method Capped() returns (capped: bool)
      requires Valid()
      ensures capped <==> |rules.Firsts(offers)| > 100
    {
      capped := truncated;
    }
  }

  lemma SameLength(a: seq<string>, b: seq<string>)
    requires multiset(a) == multiset(b)
    ensures |a| == |b|
  {
    assert |multiset(a)| == |multiset(b)|;
  }

  /** What one more offer does to the kept entries. */
  lemma {:induction false} KeptStep(rules: Rules, history: seq<Offer>, offer: Offer)
    ensures var kept, kept' := rules.Kept(history), rules.Kept(history + [offer]);
      var d, d' := |rules.Firsts(history)|, |rules.Firsts(history + [offer])|;
      if !rules.Admissible(offer.value) || offer.value in ValueSet(kept) then kept' == kept && d' == d
      else if |kept| >= MAX_ITEMS then kept' == kept && d' > MAX_ITEMS
      else && d' == d + 1 && d' <= MAX_ITEMS
           && ValueSet(kept') == ValueSet(kept) + {offer.value}
           && rules.Items(kept') == rules.Items(kept) + [rules.Item(offer)]
  {
    var firsts := rules.Firsts(history);
    FirstsStep(rules, history, offer);
    hide Rules.Firsts;
    hide Rules.Item;
    hide Rules.Admissible;
    if |firsts| < MAX_ITEMS && offer.value !in ValueSet(firsts) {
      ValueSetAppend(firsts, offer);
    } else if |firsts| > MAX_ITEMS {
      assert ValueSet(firsts[..MAX_ITEMS]) <= ValueSet(firsts);
    }
  }

  lemma FirstsStep(rules: Rules, history: seq<Offer>, offer: Offer)
    ensures var firsts := rules.Firsts(history);
      rules.Firsts(history + [offer]) ==
      if rules.Admissible(offer.value) && offer.value !in ValueSet(firsts) then firsts + [offer] else firsts
  {
    assert (history + [offer])[..|history|] == history;
    hide Rules.Admissible;
  }

  /** An admissible offer whose value was not offered before. */
  ghost predicate IsFirst(rules: Rules, history: seq<Offer>, i: nat)
    requires i < |history|
  {
    rules.Admissible(history[i].value) && forall j :: 0 <= j < i ==> history[j].value != history[i].value
  }

  /** The distinct admissible offers come from an increasing list of places, which
      are exactly the first occurrences. */
  lemma {:induction false} FirstOccurrences(rules: Rules, history: seq<Offer>) returns (places: seq<nat>)
    ensures forall a, b :: 0 <= a < b < |places| ==> places[a] < places[b]
    ensures forall i: nat :: i in places <==> i < |history| && IsFirst(rules, history, i)
    ensures |places| == |rules.Firsts(history)|
    ensures forall a :: 0 <= a < |places| ==> places[a] < |history| && rules.Firsts(history)[a] == history[places[a]]
    decreases |history|
  {
    if history == [] {
      return [];
    }
    var n := |history| - 1;
    var earlier, last := history[..n], history[n];
    places := FirstOccurrences(rules, earlier);
    assert forall i: nat :: i < n ==> (IsFirst(rules, earlier, i) <==> IsFirst(rules, history, i));
    if IsFirst(rules, history, n) {
      places := places + [n];
    }
  }

  lemma KeptKeysDistinct(rules: Rules, history: seq<Offer>)
    ensures DistinctKeys(rules.Items(rules.Kept(history)), Key)
  {
    var firsts, kept := rules.Firsts(history), rules.Kept(history);
    forall i | 0 <= i < |kept| ensures Key(rules.Item(kept[i])) == Offer.Value(kept[i]) {
      assert kept[i] == firsts[i] && firsts[i].value in ValueSet(firsts);
      KeyOfItem(rules, kept[i]);
    }
  }

  lemma KeyOfItem(rules: Rules, offer: Offer)
    requires rules.Admissible(offer.value)
    ensures Key(rules.Item(offer)) == offer.value
  {
    var description := rules.describe(offer.description);
    if description == "" {
      KeyBeforeTab(offer.value, "");
      assert offer.value + "" == offer.value;
    } else {
      KeyBeforeTab(offer.value, "\t" + description);
      assert offer.value + "\t" + description == offer.value + ("\t" + description);
    }
  }

  lemma {:induction false} KeyBeforeTab(value: string, rest: string)
    requires forall i :: 0 <= i < |value| ==> value[i] != '\t'
    requires rest == "" || rest[0] == '\t'
    ensures Key(value + rest) == value
    decreases |value|
  {
    if value == "" {
      assert value + rest == rest;
    } else {
      assert (value + rest)[1..] == value[1..] + rest;
      KeyBeforeTab(value[1..], rest);
    }
  }
}
