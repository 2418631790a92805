/** The promotion chain of a target (internal/cli/scientific.go,
    `promotionExpectations`): records linked by `previous`, walked from the root
    to the tip, with the champion folded along the way. */
module PromotionChain {

  /** A canonical ID; zero stands for a missing reference. */
  type ID = nat

  const ZERO: ID := 0

  datatype Outcome = Accepted | Rejected | RolledBack

  datatype Document = Document(id: ID, target: string, previous: ID, outcome: Outcome, challenger: ID, revision: string)

  datatype Expectation = Expectation(tip: ID, champion: ID, tipRevision: string, incumbentRevision: string)

  datatype Error = MultipleRoots | Branches | Cyclic | ChampionMissing

  datatype Result = Ok(value: Expectation) | Err(error: Error)

  // ---------------------------------------------------------------------------
  // What the chain is
  // ---------------------------------------------------------------------------

  predicate UniqueIDs(docs: seq<Document>) {
    && (forall i :: 0 <= i < |docs| ==> docs[i].id != ZERO)
    && forall i, j :: 0 <= i < j < |docs| ==> docs[i].id != docs[j].id
  }

  predicate Of(docs: seq<Document>, target: string, d: Document) {
    d in docs && d.target == target
  }

  predicate TwoRoots(docs: seq<Document>, target: string) {
    exists i, j :: 0 <= i < j < |docs| && docs[i].target == docs[j].target == target
                   && docs[i].previous == docs[j].previous == ZERO
  }

  predicate Branch(docs: seq<Document>, target: string) {
    exists i, j :: 0 <= i < j < |docs| && docs[i].target == docs[j].target == target
                   && docs[i].previous == docs[j].previous != ZERO
  }

  /** `d` is the root, if the chain is still empty, or follows its last record. */
  predicate Follows(d: Document, chain: seq<Document>) {
    if chain == [] then d.previous == ZERO else d.previous != ZERO && d.previous == Tip(chain)
  }

  predicate IsPath(docs: seq<Document>, target: string, chain: seq<Document>) {
    forall i :: 0 <= i < |chain| ==> Of(docs, target, chain[i]) && Follows(chain[i], chain[..i])
  }

  /** `chain` starts at the root, follows `previous`, and cannot be extended. */
  predicate IsChain(docs: seq<Document>, target: string, chain: seq<Document>) {
    && IsPath(docs, target, chain)
    && forall d :: d in docs && d.target == target ==> !Follows(d, chain)
  }

  function Tip(chain: seq<Document>): ID {
    if chain == [] then ZERO else chain[|chain| - 1].id
  }

  function TipRevision(chain: seq<Document>): string {
    if chain == [] then "" else chain[|chain| - 1].revision
  }

  predicate Crowns(d: Document) {
    d.outcome == Accepted || d.outcome == RolledBack
  }

  /** The challenger of the last accepted or rolled-back record. */
  function Champion(chain: seq<Document>): ID {
    if chain == [] then ZERO
    else if Crowns(chain[|chain| - 1]) then chain[|chain| - 1].challenger
    else Champion(chain[..|chain| - 1])
  }

  /** The revision of the champion's record: a promotion of this target if one has
      that ID, else any other record of the inventory. */
  ghost predicate HasRevision(docs: seq<Document>, target: string, revisions: map<ID, string>, id: ID, revision: string) {
    if exists d :: Of(docs, target, d) && d.id == id
    then exists d :: Of(docs, target, d) && d.id == id && d.revision == revision
    else id in revisions && revisions[id] == revision
  }

  ghost predicate Answers(docs: seq<Document>, target: string, revisions: map<ID, string>, chain: seq<Document>, result: Result) {
    var champion := Champion(chain);
    match result
    case Err(error) =>
      && error == ChampionMissing && champion != ZERO
      && !exists revision :: HasRevision(docs, target, revisions, champion, revision)
    case Ok(e) =>
      && e.tip == Tip(chain) && e.tipRevision == TipRevision(chain) && e.champion == champion
      && if champion == ZERO then e.incumbentRevision == ""
         else HasRevision(docs, target, revisions, champion, e.incumbentRevision)
  }

  // ---------------------------------------------------------------------------
  // The code
  // ---------------------------------------------------------------------------

  /** A pointer to a record is its place in the inventory. */
  type Place = nat

  datatype Pointer = Nil | To(place: Place)

  /** `documents` finds every record of the target among the first k. */
  ghost predicate ByID(docs: seq<Document>, k: nat, target: string, documents: map<ID, Place>)
    requires k <= |docs|
  {
    && (forall id :: id in documents ==> documents[id] < k && docs[documents[id]].target == target && docs[documents[id]].id == id)
    && (forall i :: 0 <= i < k && docs[i].target == target ==> docs[i].id in documents)
  }

  /** `followers` finds every record that follows another, and there is only one
      for each. */
  ghost predicate ByPrevious(docs: seq<Document>, k: nat, target: string, followers: map<ID, Place>)
    requires k <= |docs|
  {
    && (forall id :: id in followers ==> followers[id] < k && docs[followers[id]].target == target
                                         && docs[followers[id]].previous == id && id != ZERO)
    && (forall i :: 0 <= i < k && docs[i].target == target && docs[i].previous != ZERO ==>
          docs[i].previous in followers && followers[docs[i].previous] == i)
  }

  /** `root` is the one record without a predecessor, if any. */
  ghost predicate IsRoot(docs: seq<Document>, k: nat, target: string, root: Pointer)
    requires k <= |docs|
  {
    && (root.To? ==> root.place < k && docs[root.place].target == target && docs[root.place].previous == ZERO)
    && (forall i :: 0 <= i < k && docs[i].target == target && docs[i].previous == ZERO ==> root == To(i))
  }

  /** The result of the first pass over the first k records. */
  ghost predicate Collected(docs: seq<Document>, k: nat, target: string, documents: map<ID, Place>, followers: map<ID, Place>, root: Pointer)
    requires k <= |docs|
  {
    ByID(docs, k, target, documents) && ByPrevious(docs, k, target, followers) && IsRoot(docs, k, target, root)
  }

  lemma OtherTarget(docs: seq<Document>, k: nat, target: string, documents: map<ID, Place>, followers: map<ID, Place>, root: Pointer)
    requires k < |docs| && Collected(docs, k, target, documents, followers, root) && docs[k].target != target
    ensures Collected(docs, k + 1, target, documents, followers, root)
  {
  }

  lemma {:induction false} OneMoreRoot(docs: seq<Document>, k: nat, target: string, documents: map<ID, Place>, followers: map<ID, Place>, root: Pointer)
    requires k < |docs| && Collected(docs, k, target, documents, followers, root)
    requires docs[k].target == target && docs[k].previous == ZERO
    ensures root.To? ==> TwoRoots(docs, target)
    ensures root.Nil? ==> Collected(docs, k + 1, target, documents[docs[k].id := k], followers, To(k))
  {
  }

  lemma {:induction false} OneMoreFollower(docs: seq<Document>, k: nat, target: string, documents: map<ID, Place>, followers: map<ID, Place>, root: Pointer)
    requires k < |docs| && Collected(docs, k, target, documents, followers, root)
    requires docs[k].target == target && docs[k].previous != ZERO
    ensures docs[k].previous in followers ==> Branch(docs, target)
    ensures docs[k].previous !in followers ==>
      Collected(docs, k + 1, target, documents[docs[k].id := k], followers[docs[k].previous := k], root)
  {
  }

  lemma NoConflict(docs: seq<Document>, target: string, documents: map<ID, Place>, followers: map<ID, Place>, root: Pointer)
    requires Collected(docs, |docs|, target, documents, followers, root)
    ensures !TwoRoots(docs, target) && !Branch(docs, target)
  {
  }

  method Collect(docs: seq<Document>, target: string)
    returns (documents: map<ID, Place>, followers: map<ID, Place>, root: Pointer, failure: seq<Error>)
    ensures failure == [] ==> Collected(docs, |docs|, target, documents, followers, root)
    ensures failure == [] ==> !TwoRoots(docs, target) && !Branch(docs, target)
    ensures failure in {[], [MultipleRoots], [Branches]}
    ensures failure == [MultipleRoots] ==> TwoRoots(docs, target)
    ensures failure == [Branches] ==> Branch(docs, target)
  {
    documents, followers, root, failure := map[], map[], Nil, [];
    assert Collected(docs, 0, target, documents, followers, root);
    hide Collected;
    for k := 0 to |docs|
      invariant failure == [] && Collected(docs, k, target, documents, followers, root)
    {
      var document := docs[k];
      if document.target != target {
        OtherTarget(docs, k, target, documents, followers, root);
        continue;
      }
      if document.previous == ZERO {
        OneMoreRoot(docs, k, target, documents, followers, root);
        documents := documents[document.id := k];
        if root != Nil {
          failure := [MultipleRoots];
          return;
        }
        root := To(k);
      } else {
        OneMoreFollower(docs, k, target, documents, followers, root);
        documents := documents[document.id := k];
        if document.previous in followers {
          failure := [Branches];
          return;
        }
        followers := followers[document.previous := k];
      }
    }
    NoConflict(docs, target, documents, followers, root);
  }

  ghost function Next(followers: map<ID, Place>, root: Pointer, chain: seq<Document>): Pointer {
    if chain == [] then root
    else if Tip(chain) in followers then To(followers[Tip(chain)])
    else Nil
  }

  function IDs(chain: seq<Document>): set<ID> {
    set d | d in chain :: d.id
  }

  /** The next record of a walk belongs to the path. */
  lemma PathGrows(docs: seq<Document>, target: string, documents: map<ID, Place>, followers: map<ID, Place>, root: Pointer, chain: seq<Document>, place: Place)
    requires Collected(docs, |docs|, target, documents, followers, root)
    requires IsPath(docs, target, chain) && Next(followers, root, chain) == To(place)
    ensures place < |docs| && IsPath(docs, target, chain + [docs[place]]) && docs[place].id in documents
  {
    ExtendPath(docs, target, chain, docs[place]);
  }

  lemma ExtendPath(docs: seq<Document>, target: string, chain: seq<Document>, d: Document)
    requires IsPath(docs, target, chain) && Of(docs, target, d) && Follows(d, chain)
    ensures IsPath(docs, target, chain + [d])
  {
    var longer := chain + [d];
    forall i | 0 <= i < |longer| ensures Of(docs, target, longer[i]) && Follows(longer[i], longer[..i]) {
      assert longer[..i] == chain[..i];
    }
  }

  /** Each record of a path but the first names the one before it. */
  lemma Linked(docs: seq<Document>, target: string, chain: seq<Document>, i: nat)
    requires IsPath(docs, target, chain) && i < |chain|
    ensures Of(docs, target, chain[i])
    ensures if i == 0 then chain[i].previous == ZERO else chain[i].previous == chain[i - 1].id != ZERO
  {
    assert Follows(chain[i], chain[..i]);
  }

  /** No record is visited twice. */
  lemma {:induction false} NoRecordTwice(docs: seq<Document>, target: string, chain: seq<Document>, i: nat, j: nat)
    requires UniqueIDs(docs) && IsPath(docs, target, chain) && i < j < |chain|
    ensures chain[i].id != chain[j].id
    decreases i
  {
    Linked(docs, target, chain, i);
    Linked(docs, target, chain, j);
    if i > 0 {
      NoRecordTwice(docs, target, chain, i - 1, j - 1);
    }
  }

  lemma NotVisited(docs: seq<Document>, target: string, chain: seq<Document>, d: Document)
    requires UniqueIDs(docs) && IsPath(docs, target, chain + [d])
    ensures d.id !in IDs(chain)
  {
    var longer := chain + [d];
    forall x | x in chain ensures x.id != d.id {
      var i :| 0 <= i < |chain| && chain[i] == x;
      NoRecordTwice(docs, target, longer, i, |chain|);
    }
  }

  /** The second pass. Without unique IDs it still ends, at the latest when an ID
      is met twice. */
  method Walk(docs: seq<Document>, target: string, documents: map<ID, Place>, followers: map<ID, Place>, root: Pointer)
    returns (cyclic: bool, tip: ID, champion: ID, tipRevision: string, ghost chain: seq<Document>)
    requires Collected(docs, |docs|, target, documents, followers, root)
    ensures UniqueIDs(docs) ==> !cyclic
    ensures !cyclic ==> tip == Tip(chain) && champion == Champion(chain) && tipRevision == TipRevision(chain)
    ensures !cyclic ==> IsChain(docs, target, chain) && |chain| <= |documents|
  {
    hide Collected;
    hide IsPath;
    hide UniqueIDs;
    var current := root;
    var visited: set<ID> := {};
    tip, champion, tipRevision, chain := ZERO, ZERO, "", [];
    EmptyPath(docs, target);
    while current != Nil
      invariant current == Next(followers, root, chain)
      invariant IsPath(docs, target, chain) && visited == IDs(chain)
      invariant visited <= documents.Keys && |visited| == |chain|
      invariant tip == Tip(chain) && champion == Champion(chain) && tipRevision == TipRevision(chain)
      decreases documents.Keys - visited
    {
      PathGrows(docs, target, documents, followers, root, chain, current.place);
      var promotion := docs[current.place];
      if UniqueIDs(docs) {
        NotVisited(docs, target, chain, promotion);
      }
      if promotion.id in visited {
        cyclic := true;
        return;
      }
      visited := visited + {promotion.id};
      tip, tipRevision := promotion.id, promotion.revision;
      if promotion.outcome == Accepted || promotion.outcome == RolledBack {
        champion := promotion.challenger;
      }
      ChampionStep(chain, promotion);
      chain := chain + [promotion];
      current := if promotion.id in followers then To(followers[promotion.id]) else Nil;
    }
    cyclic := false;
    NothingFollows(docs, target, documents, followers, root, chain);
    Subset(visited, documents.Keys);
  }

  lemma ChampionStep(chain: seq<Document>, d: Document)
    ensures Champion(chain + [d]) == if Crowns(d) then d.challenger else Champion(chain)
    ensures Tip(chain + [d]) == d.id && TipRevision(chain + [d]) == d.revision
    ensures IDs(chain + [d]) == IDs(chain) + {d.id}
  {
    var longer := chain + [d];
    assert longer[..|longer| - 1] == chain;
    assert forall x :: x in longer <==> x in chain || x == d;
  }

  lemma EmptyPath(docs: seq<Document>, target: string)
    ensures IsPath(docs, target, [])
  {
  }

  lemma Subset(a: set<ID>, b: set<ID>)
    requires a <= b
    ensures |a| <= |b|
  {
    assert b == a + (b - a);
  }

  lemma NothingFollows(docs: seq<Document>, target: string, documents: map<ID, Place>, followers: map<ID, Place>, root: Pointer, chain: seq<Document>)
    requires Collected(docs, |docs|, target, documents, followers, root)
    requires IsPath(docs, target, chain) && Next(followers, root, chain) == Nil
    ensures IsChain(docs, target, chain)
  {
    forall d | d in docs && d.target == target ensures !Follows(d, chain) {
      var i :| 0 <= i < |docs| && docs[i] == d;
    }
  }

  lemma {:induction false} ConflictsExactly(docs: seq<Document>, target: string)
    ensures TwoRoots(docs, target) || Branch(docs, target) <==>
      exists i, j :: 0 <= i < j < |docs| && docs[i].target == docs[j].target == target && docs[i].previous == docs[j].previous
    ensures TwoRoots(docs, target) ==>
      exists i, j :: 0 <= i < j < |docs| && docs[i].target == docs[j].target == target && docs[i].previous == docs[j].previous == ZERO
    ensures Branch(docs, target) ==>
      exists i, j :: 0 <= i < j < |docs| && docs[i].target == docs[j].target == target && docs[i].previous == docs[j].previous != ZERO
  {
  }

  lemma {:induction false} ChainExactly(docs: seq<Document>, target: string, chain: seq<Document>)
    requires IsChain(docs, target, chain)
    ensures forall i :: 0 <= i < |chain| ==> chain[i] in docs && chain[i].target == target
    ensures chain != [] ==> chain[0].previous == ZERO
    ensures forall i, j :: 0 <= i < |chain| - 1 && j == i + 1 ==> chain[j].previous == chain[i].id
    ensures forall d :: d in docs && d.target == target ==>
      if chain == [] then d.previous != ZERO else d.previous == ZERO || d.previous != chain[|chain| - 1].id
  {
    forall i | 0 <= i < |chain|
      ensures chain[i] in docs && chain[i].target == target
      ensures if i == 0 then chain[i].previous == ZERO else chain[i].previous == chain[i - 1].id
    {
      Linked(docs, target, chain, i);
    }
  }

  /** The champion is the challenger of the last accepted or rolled-back record. */
  lemma {:induction false} ChampionExactly(chain: seq<Document>)
    ensures (Champion(chain) == ZERO && forall k :: 0 <= k < |chain| ==> chain[k].outcome == Rejected)
            || exists k :: 0 <= k < |chain| && chain[k].outcome in {Accepted, RolledBack} && Champion(chain) == chain[k].challenger
                           && forall j :: k < j < |chain| ==> chain[j].outcome == Rejected
  {
    var k := LastCrowning(chain);
    hide Champion;
    if k >= 0 {
      assert chain[k].outcome in {Accepted, RolledBack};
    }
  }

  lemma {:induction false} LastCrowning(chain: seq<Document>) returns (k: int)
    ensures -1 <= k < |chain| && forall j :: k < j < |chain| ==> chain[j].outcome == Rejected
    ensures if k < 0 then Champion(chain) == ZERO
            else chain[k].outcome != Rejected && Champion(chain) == chain[k].challenger
    decreases |chain|
  {
    k := |chain| - 1;
    if chain != [] && chain[k].outcome == Rejected {
      k := LastCrowning(chain[..k]);
    }
  }

  lemma {:induction false} AnswerExactly(docs: seq<Document>, target: string, revisions: map<ID, string>, chain: seq<Document>, result: Result)
    requires Answers(docs, target, revisions, chain, result)
    ensures result.Ok? ==>
      var e := result.value;
      && (e.tip, e.tipRevision) == (if chain == [] then (ZERO, "") else (chain[|chain| - 1].id, chain[|chain| - 1].revision))
      && ((e.champion == ZERO && forall k :: 0 <= k < |chain| ==> chain[k].outcome == Rejected)
          || exists k :: 0 <= k < |chain| && chain[k].outcome in {Accepted, RolledBack} && e.champion == chain[k].challenger
                         && forall j :: k < j < |chain| ==> chain[j].outcome == Rejected)
      && (e.champion == ZERO ==> e.incumbentRevision == "")
      && (e.champion != ZERO && (exists d :: d in docs && d.target == target && d.id == e.champion) ==>
            exists d :: d in docs && d.target == target && d.id == e.champion && d.revision == e.incumbentRevision)
      && (e.champion != ZERO && !(exists d :: d in docs && d.target == target && d.id == e.champion) ==>
            e.champion in revisions && revisions[e.champion] == e.incumbentRevision)
    ensures result == Err(ChampionMissing) ==>
      exists k :: 0 <= k < |chain| && chain[k].outcome in {Accepted, RolledBack} && chain[k].challenger != ZERO
        && (forall j :: k < j < |chain| ==> chain[j].outcome == Rejected)
        && chain[k].challenger !in revisions && !exists d :: d in docs && d.target == target && d.id == chain[k].challenger
  {
    ChampionExactly(chain);
    hide Champion;
    var champion := Champion(chain);
    if result.Err? {
      assert forall d :: Of(docs, target, d) && d.id == champion ==> HasRevision(docs, target, revisions, champion, d.revision);
      assert !(exists d :: Of(docs, target, d) && d.id == champion) && champion in revisions ==>
        HasRevision(docs, target, revisions, champion, revisions[champion]);
    }
  }

  /** The revision of the champion, if there is one. */
  method IncumbentRevision(docs: seq<Document>, target: string, documents: map<ID, Place>, followers: map<ID, Place>, root: Pointer, revisions: map<ID, string>, champion: ID)
    returns (revision: string, ok: bool)
    requires Collected(docs, |docs|, target, documents, followers, root)
    ensures ok && champion == ZERO ==> revision == ""
    ensures ok && champion != ZERO ==> HasRevision(docs, target, revisions, champion, revision)
    ensures !ok ==> champion != ZERO && !exists r :: HasRevision(docs, target, revisions, champion, r)
  {
    if champion == ZERO {
      return "", true;
    }
    if champion in documents {
      assert Of(docs, target, docs[documents[champion]]);
      return docs[documents[champion]].revision, true;
    }
    NotAPromotion(docs, target, documents, followers, root, champion);
    if champion !in revisions {
      return "", false;
    }
    return revisions[champion], true;
  }

  method PromotionExpectations(docs: seq<Document>, target: string, revisions: map<ID, string>) returns (result: Result, ghost chain: seq<Document>)
    // two roots, or two records with one predecessor
    ensures result in {Err(MultipleRoots), Err(Branches)} <==>
      exists i, j :: 0 <= i < j < |docs| && docs[i].target == docs[j].target == target && docs[i].previous == docs[j].previous
    ensures result == Err(MultipleRoots) ==>
      exists i, j :: 0 <= i < j < |docs| && docs[i].target == docs[j].target == target && docs[i].previous == docs[j].previous == ZERO
    ensures result == Err(Branches) ==>
      exists i, j :: 0 <= i < j < |docs| && docs[i].target == docs[j].target == target && docs[i].previous == docs[j].previous != ZERO
    ensures result == Err(Cyclic) ==>
      (exists i :: 0 <= i < |docs| && docs[i].id == ZERO) || exists i, j :: 0 <= i < j < |docs| && docs[i].id == docs[j].id
    ensures result !in {Err(MultipleRoots), Err(Branches), Err(Cyclic)} ==>
      IsChain(docs, target, chain) && Answers(docs, target, revisions, chain, result)
    // the chain starts at the root, follows `previous`, and ends where nothing follows
    ensures result !in {Err(MultipleRoots), Err(Branches), Err(Cyclic)} ==>
      && (forall i :: 0 <= i < |chain| ==> chain[i] in docs && chain[i].target == target)
      && (chain != [] ==> chain[0].previous == ZERO)
      && (forall i, j :: 0 <= i < |chain| - 1 && j == i + 1 ==> chain[j].previous == chain[i].id)
      && forall d :: d in docs && d.target == target ==>
           if chain == [] then d.previous != ZERO else d.previous == ZERO || d.previous != chain[|chain| - 1].id
    // the tip is its last record, the champion that of the last accepted or rolled-back
    // one, and the champion's revision that of its record
    ensures result.Ok? ==>
      var e := result.value;
      && (e.tip, e.tipRevision) == (if chain == [] then (ZERO, "") else (chain[|chain| - 1].id, chain[|chain| - 1].revision))
      && ((e.champion == ZERO && forall k :: 0 <= k < |chain| ==> chain[k].outcome == Rejected)
          || exists k :: 0 <= k < |chain| && chain[k].outcome in {Accepted, RolledBack} && e.champion == chain[k].challenger
                         && forall j :: k < j < |chain| ==> chain[j].outcome == Rejected)
      && (e.champion == ZERO ==> e.incumbentRevision == "")
      && (e.champion != ZERO && (exists d :: d in docs && d.target == target && d.id == e.champion) ==>
            exists d :: d in docs && d.target == target && d.id == e.champion && d.revision == e.incumbentRevision)
      && (e.champion != ZERO && !(exists d :: d in docs && d.target == target && d.id == e.champion) ==>
            e.champion in revisions && revisions[e.champion] == e.incumbentRevision)
    ensures result == Err(ChampionMissing) ==>
      exists k :: 0 <= k < |chain| && chain[k].outcome in {Accepted, RolledBack} && chain[k].challenger != ZERO
        && (forall j :: k < j < |chain| ==> chain[j].outcome == Rejected)
        && chain[k].challenger !in revisions && !exists d :: d in docs && d.target == target && d.id == chain[k].challenger
  {
    ConflictsExactly(docs, target);
    hide TwoRoots;
    hide Branch;
    hide IsPath;
    hide IsChain;
    hide Collected;
    hide HasRevision;
    chain := [];
    var documents, followers, root, failure := Collect(docs, target);
    if failure != [] {
      result := Err(failure[0]);
      return;
    }
    var cyclic, tip, champion, tipRevision;
    cyclic, tip, champion, tipRevision, chain := Walk(docs, target, documents, followers, root);
    if cyclic {
      result := Err(Cyclic);
      return;
    }
    var incumbentRevision, ok := IncumbentRevision(docs, target, documents, followers, root, revisions, champion);
    result := if ok then Ok(Expectation(tip, champion, tipRevision, incumbentRevision)) else Err(ChampionMissing);
    assert Answers(docs, target, revisions, chain, result);
    hide Answers;
    ChainExactly(docs, target, chain);
    AnswerExactly(docs, target, revisions, chain, result);
  }

  lemma NotAPromotion(docs: seq<Document>, target: string, documents: map<ID, Place>, followers: map<ID, Place>, root: Pointer, id: ID)
    requires Collected(docs, |docs|, target, documents, followers, root) && id !in documents
    ensures !exists d :: Of(docs, target, d) && d.id == id
  {
    forall d | Of(docs, target, d) ensures d.id != id {
      var i :| 0 <= i < |docs| && docs[i] == d;
    }
  }

  // ---------------------------------------------------------------------------
  // Properties of the chain
  // ---------------------------------------------------------------------------

  ghost predicate SameRecords(a: seq<Document>, b: seq<Document>) {
    forall d :: d in a <==> d in b
  }

  /** Two records of the target with the same `previous` are one record. */
  lemma OneFollower(docs: seq<Document>, target: string, a: Document, b: Document)
    requires !TwoRoots(docs, target) && !Branch(docs, target)
    requires Of(docs, target, a) && Of(docs, target, b) && a.previous == b.previous
    ensures a == b
  {
    var i :| 0 <= i < |docs| && docs[i] == a;
    var j :| 0 <= j < |docs| && docs[j] == b;
    assert i == j;
  }

  /** The chain depends on which records there are, not on their order. */
  lemma {:induction false} PathsAgree(docs: seq<Document>, other: seq<Document>, target: string, a: seq<Document>, b: seq<Document>, k: nat)
    requires !TwoRoots(docs, target) && !Branch(docs, target) && SameRecords(docs, other)
    requires IsPath(docs, target, a) && IsPath(other, target, b) && k <= |a| && k <= |b|
    ensures a[..k] == b[..k]
    decreases k
  {
    hide *;
    if k > 0 {
      PathsAgree(docs, other, target, a, b, k - 1);
      NextAgrees(docs, other, target, a, b, k - 1);
      assert a[..k] == a[..k - 1] + [a[k - 1]] && b[..k] == b[..k - 1] + [b[k - 1]];
    }
  }

  lemma {:induction false} NextAgrees(docs: seq<Document>, other: seq<Document>, target: string, a: seq<Document>, b: seq<Document>, k: nat)
    requires !TwoRoots(docs, target) && !Branch(docs, target) && SameRecords(docs, other)
    requires IsPath(docs, target, a) && IsPath(other, target, b) && k < |a| && k < |b| && a[..k] == b[..k]
    ensures a[k] == b[k]
  {
    hide TwoRoots;
    hide Branch;
    assert Follows(a[k], a[..k]) && Follows(b[k], b[..k]);
    OneFollower(docs, target, a[k], b[k]);
  }

  lemma OrderIndependent(docs: seq<Document>, other: seq<Document>, target: string, a: seq<Document>, b: seq<Document>)
    requires !TwoRoots(docs, target) && !Branch(docs, target) && SameRecords(docs, other)
    requires IsChain(docs, target, a) && IsChain(other, target, b)
    ensures a == b
  {
    var k := if |a| <= |b| then |a| else |b|;
    PathsAgree(docs, other, target, a, b, k);
    assert a[..|a|] == a && b[..|b|] == b;
  }

  /** The failures of the first pass do not depend on the order either. */
  lemma FailureIgnoresOrder(docs: seq<Document>, other: seq<Document>, target: string)
    requires UniqueIDs(docs) && UniqueIDs(other) && SameRecords(docs, other)
    ensures TwoRoots(docs, target) <==> TwoRoots(other, target)
    ensures Branch(docs, target) <==> Branch(other, target)
  {
    ConflictsMove(docs, other, target);
    ConflictsMove(other, docs, target);
  }

  lemma ConflictsMove(docs: seq<Document>, other: seq<Document>, target: string)
    requires UniqueIDs(docs) && SameRecords(docs, other)
    ensures TwoRoots(docs, target) ==> TwoRoots(other, target)
    ensures Branch(docs, target) ==> Branch(other, target)
  {
    forall i, j | 0 <= i < j < |docs| && docs[i].target == docs[j].target == target && docs[i].previous == docs[j].previous
      ensures if docs[i].previous == ZERO then TwoRoots(other, target) else Branch(other, target)
    {
      assert docs[i] in other && docs[j] in other;
      var p :| 0 <= p < |other| && other[p] == docs[i];
      var q :| 0 <= q < |other| && other[q] == docs[j];
      assert p < q || q < p;
    }
  }

  /** Appending a record whose `previous` is the tip, and that nothing points to,
      makes it the tip and changes the champion only if it was accepted or rolled
      back. */
  lemma AppendedRecordIsTip(docs: seq<Document>, target: string, chain: seq<Document>, d: Document)
    requires IsChain(docs, target, chain) && d.target == target && Follows(d, chain) && d.id != d.previous
    requires forall x :: x in docs ==> x.previous != d.id
    ensures IsChain(docs + [d], target, chain + [d])
    ensures Tip(chain + [d]) == d.id && TipRevision(chain + [d]) == d.revision
    ensures Champion(chain + [d]) == if d.outcome in {Accepted, RolledBack} then d.challenger else Champion(chain)
  {
    ChampionStep(chain, d);
    var more := docs + [d];
    assert forall x :: x in more <==> x in docs || x == d;
    assert IsPath(more, target, chain);
    ExtendPath(more, target, chain, d);
  }

  /** Each record's `previous` is zero or names an earlier record of its target. */
  predicate Ordered(docs: seq<Document>, target: string) {
    forall i :: 0 <= i < |docs| && docs[i].target == target && docs[i].previous != ZERO ==>
      exists j :: 0 <= j < i && docs[j].target == target && docs[j].id == docs[i].previous
  }

  /** An append-only history that passes the first phase is visited completely. */
  lemma {:induction false} EveryRecordIsVisited(docs: seq<Document>, target: string, chain: seq<Document>, i: nat)
    requires Ordered(docs, target) && !TwoRoots(docs, target) && !Branch(docs, target)
    requires IsChain(docs, target, chain) && i < |docs| && docs[i].target == target
    ensures docs[i] in chain
    decreases i
  {
    var d := docs[i];
    assert Of(docs, target, d);
    if d.previous == ZERO {
      assert chain != [];
      Linked(docs, target, chain, 0);
      OneFollower(docs, target, chain[0], d);
    } else {
      var j :| 0 <= j < i && docs[j].target == target && docs[j].id == d.previous;
      EveryRecordIsVisited(docs, target, chain, j);
      FollowerIsVisited(docs, target, chain, docs[j], d);
    }
  }

  lemma FollowerIsVisited(docs: seq<Document>, target: string, chain: seq<Document>, before: Document, d: Document)
    requires !TwoRoots(docs, target) && !Branch(docs, target) && IsChain(docs, target, chain)
    requires before in chain && Of(docs, target, d) && d.previous == before.id != ZERO
    ensures d in chain
  {
    var p :| 0 <= p < |chain| && chain[p] == before;
    assert !Follows(d, chain);
    assert p < |chain| - 1;
    Linked(docs, target, chain, p + 1);
    hide IsChain;
    OneFollower(docs, target, chain[p + 1], d);
  }
}
