/** Publishing a release (scripts/release.py, `publish_complete`): a resumable
    sequence of remote calls that creates a draft, uploads what is missing,
    verifies every asset, and publishes. */
module ReleasePublication {
  import opened Prelude
  import opened Ordering

  type Digest = string

  datatype Asset = Asset(name: string, digest: Digest)

  /** One release of the tag. A new draft may be invisible to lookups at first. */
  datatype Release = Release(draft: bool, prerelease: bool, visible: bool, assets: seq<Asset>)

  /** The local files: name to digest, and the order they are listed in. */
  datatype Plan = Plan(expected: map<string, Digest>, order: seq<string>) {
    ghost predicate Valid() {
      && (forall n :: n in order <==> n in expected)
      && (forall i, j :: 0 <= i < j < |order| ==> order[i] != order[j])
    }
  }

  // ---------------------------------------------------------------------------
  // The remote
  // ---------------------------------------------------------------------------

  datatype Found = Absent | Ambiguous | At(index: nat)

  function IndexWhere(rs: seq<Release>, draft: bool): (i: nat)
    ensures i <= |rs| && (i < |rs| ==> rs[i].visible && rs[i].draft == draft)
    ensures forall k :: 0 <= k < i ==> !(rs[k].visible && rs[k].draft == draft)
  {
    if rs == [] || (rs[0].visible && rs[0].draft == draft) then 0 else 1 + IndexWhere(rs[1..], draft)
  }

  function VisibleDrafts(rs: seq<Release>): nat {
    if rs == [] then 0 else (if rs[0].visible && rs[0].draft then 1 else 0) + VisibleDrafts(rs[1..])
  }

  /** What a call that names the tag hits: the published release if there is one,
      else the only visible draft. If several drafts are visible, any of them may be
      hit, or the call may refuse: `choice` says which. */
  function Lookup(rs: seq<Release>, choice: nat): (f: Found)
    ensures f.At? ==> f.index < |rs|
  {
    var published, draft := IndexWhere(rs, false), IndexWhere(rs, true);
    if published < |rs| then At(published)
    else if VisibleDrafts(rs) > 1 then
      if choice < |rs| && rs[choice].visible then At(choice) else Ambiguous
    else if draft < |rs| then At(draft)
    else Absent
  }

  predicate ShownDraft(r: Release) {
    r.visible && r.draft
  }

  lemma {:induction false} CountDrafts(rs: seq<Release>)
    ensures VisibleDrafts(rs) == 0 <==> forall k :: 0 <= k < |rs| ==> !ShownDraft(rs[k])
    ensures VisibleDrafts(rs) <= 1 <==> forall j, k :: 0 <= j < k < |rs| ==> !(ShownDraft(rs[j]) && ShownDraft(rs[k]))
    decreases |rs|
  {
    if rs != [] {
      var rest := rs[1..];
      CountDrafts(rest);
      assert forall k :: 0 <= k < |rest| ==> rest[k] == rs[k + 1];
      assert forall k :: 1 <= k < |rs| ==> rs[k] == rest[k - 1];
    }
  }

  /** What a call can hit: the first published release, or any visible draft if no
      published release is visible. */
  predicate CanHit(rs: seq<Release>, j: nat) {
    && j < |rs| && rs[j].visible
    && forall k :: 0 <= k < (if rs[j].draft then |rs| else j) && rs[k].visible ==> rs[k].draft
  }

  /** What a call must hit. */
  predicate IsFound(rs: seq<Release>, j: nat) {
    CanHit(rs, j) && (rs[j].draft ==> forall k :: 0 <= k < |rs| && k != j ==> !rs[k].visible)
  }

  predicate NoneVisible(rs: seq<Release>) {
    forall k :: 0 <= k < |rs| ==> !rs[k].visible
  }

  /** Two drafts are visible, and nothing else is. */
  predicate DraftsCompete(rs: seq<Release>) {
    && (forall k :: 0 <= k < |rs| && rs[k].visible ==> rs[k].draft)
    && exists j, k :: 0 <= j < k < |rs| && rs[j].visible && rs[k].visible
  }

  /** What calls can hit, must hit, and when they refuse or find nothing. */
  lemma LookupRules(rs: seq<Release>)
    ensures forall j: nat :: CanHit(rs, j) <==> Lookup(rs, j) == At(j)
    ensures forall c: nat, j: nat :: Lookup(rs, c) == At(j) ==> CanHit(rs, j) && (c == j || IsFound(rs, j))
    ensures forall c: nat, j: nat :: IsFound(rs, j) ==> Lookup(rs, c) == At(j)
    ensures forall c: nat :: Lookup(rs, c).Absent? <==> NoneVisible(rs)
    ensures forall c: nat :: Lookup(rs, c).Ambiguous? ==> DraftsCompete(rs)
    ensures DraftsCompete(rs) ==> Lookup(rs, |rs|).Ambiguous?
  {
    CountDrafts(rs);
    hide VisibleDrafts;
    hide IndexWhere;
  }

  function Names(assets: seq<Asset>): (r: seq<string>)
    ensures |r| == |assets| && forall i :: 0 <= i < |r| ==> r[i] == assets[i].name
  {
    seq(|assets|, i requires 0 <= i < |assets| => assets[i].name)
  }

  predicate Distinct(names: seq<string>) {
    forall i, j :: 0 <= i < j < |names| ==> names[i] != names[j]
  }

  /** Whether the first asset of that name has the expected digest. */
  predicate DigestMatches(plan: Plan, assets: seq<Asset>, name: string) {
    if assets == [] then false
    else if assets[0].name == name then name in plan.expected && assets[0].digest == plan.expected[name]
    else DigestMatches(plan, assets[1..], name)
  }

  predicate RemoteMatches(plan: Plan, rs: seq<Release>, choice: nat, name: string) {
    var f := Lookup(rs, choice);
    f.At? && DigestMatches(plan, rs[f.index].assets, name)
  }

  // ---------------------------------------------------------------------------
  // One run, one remote call at a time
  // ---------------------------------------------------------------------------

  /** Where a run stands before its next remote call. */
  datatype Stage =
    | Looking
    | Creating
    | Polling(left: nat)
    | CheckingExisting(seen: Release, todo: seq<string>)
    | Uploading(todo: seq<string>)
    | Relooking
    | Verifying(draft: bool, todo: seq<string>)
    | Publishing
    | Done
    | Failed

  function Missing(order: seq<string>, present: seq<string>): (r: seq<string>)
    ensures forall n :: n in r <==> n in order && n !in present
  {
    if order == [] then []
    else if order[0] in present then Missing(order[1..], present)
    else [order[0]] + Missing(order[1..], present)
  }

  /** The local checks after a lookup found a release. */
  function Inspect(plan: Plan, seen: Release): Stage {
    var names := Names(seen.assets);
    if seen.prerelease then Failed
    else if !Distinct(names) || !(forall n :: n in names ==> n in plan.expected) then Failed
    else if names == [] then AfterExisting(plan, seen)
    else CheckingExisting(seen, Sort(names, Id))
  }

  function AfterExisting(plan: Plan, seen: Release): Stage {
    var missing := Sort(Missing(plan.order, Names(seen.assets)), Id);
    if missing == [] then Relooking
    else if !seen.draft then Failed
    else Uploading(missing)
  }

  predicate NamesComplete(plan: Plan, assets: seq<Asset>) {
    && |assets| == |plan.expected|
    && (forall n :: n in Names(assets) ==> n in plan.expected)
    && (forall n :: n in plan.expected ==> n in Names(assets))
  }

  function AfterRelook(plan: Plan, current: Release): Stage {
    if !NamesComplete(plan, current.assets) then Failed
    else if plan.order == [] then AfterVerify(current.draft)
    else Verifying(current.draft, plan.order)
  }

  function AfterVerify(draft: bool): Stage {
    if draft then Publishing else Done
  }

  /** The answer to a lookup, while a run waits for its release. */
  function AfterLookup(plan: Plan, rs: seq<Release>, choice: nat, ifAbsent: Stage): Stage {
    match Lookup(rs, choice)
    case Absent => ifAbsent
    case Ambiguous => Failed
    case At(i) => Inspect(plan, rs[i])
  }

  /** The stages whose call only reads the remote. */
  function Read(plan: Plan, rs: seq<Release>, choice: nat, stage: Stage): Stage {
    match stage
    case Looking => AfterLookup(plan, rs, choice, Creating)
    case Polling(left) => AfterLookup(plan, rs, choice, if left <= 1 then Failed else Polling(left - 1))
    case CheckingExisting(seen, todo) =>
      if todo == [] || !RemoteMatches(plan, rs, choice, todo[0]) then Failed
      else if |todo| == 1 then AfterExisting(plan, seen)
      else CheckingExisting(seen, todo[1..])
    case Relooking =>
      var f := Lookup(rs, choice);
      if f.At? then AfterRelook(plan, rs[f.index]) else Failed
    case Verifying(draft, todo) =>
      if todo == [] || !RemoteMatches(plan, rs, choice, todo[0]) then Failed
      else if |todo| == 1 then AfterVerify(draft)
      else Verifying(draft, todo[1..])
    case _ => stage
  }

  /** An upload fails if the name exists; it does not look at the draft flag. */
  function Upload(plan: Plan, rs: seq<Release>, choice: nat, todo: seq<string>): (seq<Release>, Stage) {
    var f := Lookup(rs, choice);
    if todo == [] || !f.At? || todo[0] !in plan.expected || todo[0] in Names(rs[f.index].assets) then (rs, Failed)
    else
      var r := rs[f.index];
      (rs[f.index := r.(assets := r.assets + [Asset(todo[0], plan.expected[todo[0]])])],
       if |todo| == 1 then Relooking else Uploading(todo[1..]))
  }

  function Publish(rs: seq<Release>, choice: nat): (seq<Release>, Stage) {
    var f := Lookup(rs, choice);
    if f.At? then (rs[f.index := rs[f.index].(draft := false)], Done) else (rs, Failed)
  }

  const NEW_DRAFT: Release := Release(true, false, false, [])

  /** One remote call and what the run does with its answer. */
  function Step(plan: Plan, rs: seq<Release>, choice: nat, stage: Stage): (seq<Release>, Stage) {
    match stage
    case Creating => (rs + [NEW_DRAFT], Polling(4))
    case Uploading(todo) => Upload(plan, rs, choice, todo)
    case Publishing => Publish(rs, choice)
    case _ => (rs, Read(plan, rs, choice, stage))
  }

  // ---------------------------------------------------------------------------
  // Any number of runs, interleaved and cut off
  // ---------------------------------------------------------------------------

  datatype World = World(releases: seq<Release>, runs: seq<Stage>)

  /** A run makes its next call; a run is cut off before or after the effect of
      its next call; a release becomes visible; another run starts. */
  datatype Event =
    | Turn(run: nat, choice: nat)
    | CutOff(run: nat, effect: bool, choice: nat)
    | Show(release: nat)
    | Start

  function Next(plan: Plan, w: World, e: Event): World {
    match e
    case Turn(i, choice) =>
      if i >= |w.runs| then w
      else
        var (rs, stage) := Step(plan, w.releases, choice, w.runs[i]);
        World(rs, w.runs[i := stage])
    case CutOff(i, effect, choice) =>
      if i >= |w.runs| then w
      else World(if effect then Step(plan, w.releases, choice, w.runs[i]).0 else w.releases, w.runs[i := Failed])
    case Show(j) =>
      if j >= |w.releases| then w
      else w.(releases := w.releases[j := w.releases[j].(visible := true)])
    case Start => w.(runs := w.runs + [Looking])
  }

  function After(plan: Plan, w: World, events: seq<Event>): World {
    if events == [] then w else Next(plan, After(plan, w, events[..|events| - 1]), events[|events| - 1])
  }

  // ---------------------------------------------------------------------------
  // Safety of every interleaving
  // ---------------------------------------------------------------------------

  /** Distinct names, all expected, each with its expected digest. */
  predicate Correct(plan: Plan, assets: seq<Asset>) {
    && Distinct(Names(assets))
    && forall i :: 0 <= i < |assets| ==> assets[i].name in plan.expected && assets[i].digest == plan.expected[assets[i].name]
  }

  /** Exactly the expected names and digests. */
  predicate Complete(plan: Plan, assets: seq<Asset>) {
    Correct(plan, assets) && forall n :: n in plan.expected ==> n in Names(assets)
  }

  predicate Good(plan: Plan, r: Release) {
    !r.prerelease && Correct(plan, r.assets) && (!r.draft ==> Complete(plan, r.assets))
  }

  /** Assets are only ever added, and never to a published release. */
  predicate Grows(before: Release, after: Release) {
    && before.assets <= after.assets
    && (!before.draft ==> after == before)
  }

  /** With one visible release, what calls hit is not in question. */
  lemma OneVisible(r: Release)
    requires r.visible
    ensures forall c: nat :: Lookup([r], c) == At(0)
  {
    LookupRules([r]);
    assert IsFound([r], 0);
  }

  /** The two size checks of the code amount to completeness. */
  lemma NamesCompleteIsComplete(plan: Plan, assets: seq<Asset>)
    requires Correct(plan, assets)
    ensures NamesComplete(plan, assets) <==> Complete(plan, assets)
  {
    if Complete(plan, assets) {
      DistinctCount(Names(assets));
      assert (set n | n in Names(assets)) == plan.expected.Keys;
    }
  }

  lemma {:induction false} DistinctCount(names: seq<string>)
    requires Distinct(names)
    ensures |set n | n in names| == |names|
    decreases |names|
  {
    if names != [] {
      var last, front := names[|names| - 1], names[..|names| - 1];
      DistinctCount(front);
      assert last !in front;
      assert (set n | n in names) == (set n | n in front) + {last};
    }
  }

  /** All releases are stable, hold only correct assets, and are drafts, except at
      most one, which is published, visible and complete. */
  ghost predicate GoodReleases(plan: Plan, rs: seq<Release>) {
    && (forall k :: 0 <= k < |rs| ==> Good(plan, rs[k]) && (rs[k].draft || rs[k].visible))
    && forall j, k :: 0 <= j < k < |rs| ==> rs[j].draft || rs[k].draft
  }

  /** Every release only grows; new ones may appear behind. */
  ghost predicate AllGrow(before: seq<Release>, after: seq<Release>) {
    |before| <= |after| && forall k :: 0 <= k < |before| ==> Grows(before[k], after[k])
  }

  ghost predicate Published(rs: seq<Release>) {
    exists k :: 0 <= k < |rs| && !rs[k].draft
  }

  ghost predicate AllComplete(plan: Plan, rs: seq<Release>) {
    forall k :: 0 <= k < |rs| ==> Complete(plan, rs[k].assets)
  }

  /** It makes no difference which release a call hits: there is one at most, or one
      is published and so always hit, or all are complete. */
  ghost predicate Settled(plan: Plan, rs: seq<Release>) {
    |rs| <= 1 || Published(rs) || AllComplete(plan, rs)
  }

  /** Whatever a call to publish hits is complete. */
  ghost predicate Ready(plan: Plan, rs: seq<Release>) {
    Published(rs) || (rs != [] && AllComplete(plan, rs))
  }

  /** What a run has learned. */
  ghost predicate Knows(plan: Plan, rs: seq<Release>, stage: Stage) {
    match stage
    case Uploading(todo) => forall n :: n in todo ==> n in plan.expected
    case Verifying(draft, _) => Ready(plan, rs) && (!draft ==> Published(rs))
    case Publishing => Ready(plan, rs)
    case Done => Published(rs)
    case _ => true
  }

  /** What is kept from one moment to a later one. */
  ghost predicate Onward(plan: Plan, before: seq<Release>, after: seq<Release>) {
    && GoodReleases(plan, after) && Settled(plan, after) && AllGrow(before, after)
    && (Published(before) ==> Published(after)) && (Ready(plan, before) ==> Ready(plan, after))
  }

  lemma ExistingKnows(plan: Plan, rs: seq<Release>, seen: Release)
    requires plan.Valid()
    ensures Knows(plan, rs, AfterExisting(plan, seen))
  {
    var missing := Missing(plan.order, Names(seen.assets));
    assert forall n :: n in missing ==> n in plan.expected;
    SameMembers(missing);
    var next := AfterExisting(plan, seen);
    assert next.Relooking? || next.Failed? || next == Uploading(Sort(missing, Id));
    hide *;
    assert Knows(plan, rs, next) by {
      var sorted := Sort(missing, Id);
      UploadsKnown(plan, rs, next, sorted);
    }
  }

  lemma UploadsKnown(plan: Plan, rs: seq<Release>, next: Stage, todo: seq<string>)
    requires forall n :: n in todo ==> n in plan.expected
    requires next.Relooking? || next.Failed? || next == Uploading(todo)
    ensures Knows(plan, rs, next)
  {
    hide Ready;
    hide Published;
  }

  lemma SameMembers(names: seq<string>)
    ensures forall n :: n in Sort(names, Id) <==> n in names
  {
    forall n ensures n in Sort(names, Id) <==> n in names {
      assert n in Sort(names, Id) <==> n in multiset(Sort(names, Id));
      assert n in names <==> n in multiset(names);
    }
  }

  lemma {:induction false} InspectKnows(plan: Plan, rs: seq<Release>, seen: Release)
    requires plan.Valid()
    ensures Knows(plan, rs, Inspect(plan, seen))
  {
    ExistingKnows(plan, rs, seen);
    hide AfterExisting;
    hide Distinct;
    hide Ready;
    hide Published;
  }

  /** A second lookup that finds everything finds it in whatever calls hit. */
  lemma {:induction false} RelookKnows(plan: Plan, rs: seq<Release>, j: nat)
    requires GoodReleases(plan, rs) && Settled(plan, rs) && j < |rs|
    ensures Knows(plan, rs, AfterRelook(plan, rs[j]))
  {
    NamesCompleteIsComplete(plan, rs[j].assets);
    hide NamesComplete;
    hide Correct;
    hide Complete;
    assert |rs| <= 1 ==> j == 0;
  }

  /** Reading keeps a run's knowledge right. */
  lemma ReadKnows(plan: Plan, rs: seq<Release>, c: nat, stage: Stage)
    requires plan.Valid() && GoodReleases(plan, rs) && Settled(plan, rs) && Knows(plan, rs, stage)
    requires !stage.Uploading? && !stage.Publishing? && !stage.Creating?
    ensures Knows(plan, rs, Read(plan, rs, c, stage))
  {
    hide Read;
    hide GoodReleases;
    hide Settled;
    if stage.CheckingExisting? || stage.Verifying? {
      ChecksKnow(plan, rs, c, stage);
    } else {
      LookKnows(plan, rs, c, stage);
    }
  }

  lemma {:induction false} ChecksKnow(plan: Plan, rs: seq<Release>, c: nat, stage: Stage)
    requires plan.Valid() && Knows(plan, rs, stage) && (stage.CheckingExisting? || stage.Verifying?)
    ensures Knows(plan, rs, Read(plan, rs, c, stage))
  {
    if stage.CheckingExisting? {
      ExistingKnows(plan, rs, stage.seen);
    }
    hide RemoteMatches;
    hide AfterExisting;
    hide Ready;
    hide Published;
  }

  lemma LookKnows(plan: Plan, rs: seq<Release>, c: nat, stage: Stage)
    requires plan.Valid() && GoodReleases(plan, rs) && Settled(plan, rs) && Knows(plan, rs, stage)
    requires stage.Looking? || stage.Polling? || stage.Relooking? || stage.Done? || stage.Failed?
    ensures Knows(plan, rs, Read(plan, rs, c, stage))
  {
    LookupKnows(plan, rs, c, Creating);
    LookupKnows(plan, rs, c, Failed);
    if stage.Polling? && stage.left > 1 {
      LookupKnows(plan, rs, c, Polling(stage.left - 1));
    }
    var f := Lookup(rs, c);
    if f.At? {
      RelookKnows(plan, rs, f.index);
    }
    hide AfterLookup;
    hide Lookup;
    hide AfterRelook;
    hide GoodReleases;
    hide Settled;
    hide Ready;
    hide Published;
  }

  lemma LookupKnows(plan: Plan, rs: seq<Release>, c: nat, ifAbsent: Stage)
    requires plan.Valid() && (ifAbsent.Creating? || ifAbsent.Polling? || ifAbsent.Failed?)
    ensures Knows(plan, rs, AfterLookup(plan, rs, c, ifAbsent))
  {
    var f := Lookup(rs, c);
    if f.At? {
      InspectKnows(plan, rs, rs[f.index]);
    }
    hide Lookup;
    hide Inspect;
    hide Ready;
    hide Published;
  }

  /** An upload that has an effect goes to the only release there is, a draft. */
  lemma {:induction false} UploadOnward(plan: Plan, rs: seq<Release>, c: nat, todo: seq<string>)
    requires GoodReleases(plan, rs) && Settled(plan, rs) && Knows(plan, rs, Uploading(todo))
    ensures var (rs', next) := Upload(plan, rs, c, todo);
      Onward(plan, rs, rs') && Knows(plan, rs', next)
  {
    LookupRules(rs);
    var f := Lookup(rs, c);
    hide Lookup;
    GrowsItself(rs);
    if todo != [] && f.At? && todo[0] !in Names(rs[f.index].assets) {
      var r := rs[f.index];
      assert !Complete(plan, r.assets) && r.draft && CanHit(rs, f.index);
      assert !Published(rs) && !AllComplete(plan, rs);
      assert rs == [r];
      UploadAlone(plan, r, todo[0]);
    }
  }

  lemma UploadAlone(plan: Plan, r: Release, name: string)
    requires Good(plan, r) && r.draft && name in plan.expected && name !in Names(r.assets)
    ensures var r' := r.(assets := r.assets + [Asset(name, plan.expected[name])]);
      [r][0 := r'] == [r'] && GoodReleases(plan, [r']) && AllGrow([r], [r'])
  {
    var more := r.assets + [Asset(name, plan.expected[name])];
    assert Names(more) == Names(r.assets) + [name];
  }

  /** Publishing publishes a complete draft, or a published release once more. */
  lemma {:induction false} PublishOnward(plan: Plan, rs: seq<Release>, c: nat)
    requires GoodReleases(plan, rs) && Settled(plan, rs) && Ready(plan, rs)
    ensures var (rs', next) := Publish(rs, c);
      Onward(plan, rs, rs') && Knows(plan, rs', next)
  {
    LookupRules(rs);
    var f := Lookup(rs, c);
    hide Lookup;
    GrowsItself(rs);
    hide Correct;
    if f.At? {
      var j := f.index;
      var rs' := rs[j := rs[j].(draft := false)];
      assert !rs'[j].draft && CanHit(rs, j);
      if !rs[j].draft {
        assert rs' == rs;
      }
    }
  }

  /** One more draft does no harm if it is the first, or if nothing is expected. */
  lemma CreateOnward(plan: Plan, rs: seq<Release>)
    requires GoodReleases(plan, rs) && (rs == [] || plan.expected == map[])
    ensures Onward(plan, rs, rs + [NEW_DRAFT])
  {
    var more := rs + [NEW_DRAFT];
    assert Good(plan, NEW_DRAFT);
    if plan.expected == map[] {
      assert forall k :: 0 <= k < |more| ==> Complete(plan, more[k].assets);
    }
    assert forall k :: 0 <= k < |rs| ==> more[k] == rs[k];
    hide Correct;
    hide Complete;
  }

  lemma GrowsItself(rs: seq<Release>)
    ensures AllGrow(rs, rs)
  {
  }

  /** One call by one run: releases only grow and stay good, what any run has learned
      stays right, and so is what this one learns. */
  lemma StepIsSafe(plan: Plan, rs: seq<Release>, c: nat, stage: Stage)
    requires plan.Valid() && GoodReleases(plan, rs) && Settled(plan, rs) && Knows(plan, rs, stage)
    requires stage.Creating? ==> rs == [] || plan.expected == map[]
    ensures var (rs', next) := Step(plan, rs, c, stage);
      Onward(plan, rs, rs') && Knows(plan, rs', next)
  {
    GrowsItself(rs);
    if stage.Creating? {
      CreateOnward(plan, rs);
    } else if stage.Uploading? {
      UploadOnward(plan, rs, c, stage.todo);
    } else if stage.Publishing? {
      PublishOnward(plan, rs, c);
    } else {
      ReadKnows(plan, rs, c, stage);
    }
    hide Read;
    hide Upload;
    hide Publish;
    hide GoodReleases;
    hide Settled;
    hide Ready;
    hide Published;
    hide AllGrow;
  }

  lemma {:induction false} ShowOnward(plan: Plan, rs: seq<Release>, k: nat)
    requires GoodReleases(plan, rs) && Settled(plan, rs) && k < |rs|
    ensures Onward(plan, rs, rs[k := rs[k].(visible := true)])
  {
    var shown := rs[k := rs[k].(visible := true)];
    assert rs[k].visible ==> rs[k].(visible := true) == rs[k];
    assert forall i :: 0 <= i < |rs| ==> shown[i].assets == rs[i].assets && shown[i].draft == rs[i].draft;
    hide Correct;
    hide Complete;
  }

  lemma KnowsOnward(plan: Plan, before: seq<Release>, after: seq<Release>, stage: Stage)
    requires Onward(plan, before, after) && Knows(plan, before, stage)
    ensures Knows(plan, after, stage)
  {
    hide Ready;
    hide Published;
    hide GoodReleases;
    hide Settled;
    hide AllGrow;
  }

  ghost predicate Kept(plan: Plan, w: World) {
    && GoodReleases(plan, w.releases) && Settled(plan, w.releases)
    && forall i :: 0 <= i < |w.runs| ==> Knows(plan, w.releases, w.runs[i])
  }

  /** No run is about to create a draft that could do harm. */
  predicate NoHarm(plan: Plan, w: World) {
    plan.expected == map[] || w.releases == [] || forall i :: 0 <= i < |w.runs| ==> !w.runs[i].Creating?
  }

  lemma {:induction false} NextIsKept(plan: Plan, w: World, e: Event)
    requires plan.Valid() && Kept(plan, w) && NoHarm(plan, w)
    ensures Kept(plan, Next(plan, w, e)) && AllGrow(w.releases, Next(plan, w, e).releases)
  {
    var w' := Next(plan, w, e);
    GrowsItself(w.releases);
    if (e.Turn? || e.CutOff?) && e.run < |w.runs| {
      StepIsSafe(plan, w.releases, e.choice, w.runs[e.run]);
    } else if e.Show? && e.release < |w.releases| {
      ShowOnward(plan, w.releases, e.release);
    }
    hide Step;
    hide GoodReleases;
    hide Settled;
    hide Ready;
    hide Published;
    hide AllGrow;
    if Onward(plan, w.releases, w'.releases) {
      forall i | 0 <= i < |w.runs| ensures Knows(plan, w'.releases, w.runs[i]) {
        KnowsOnward(plan, w.releases, w'.releases, w.runs[i]);
      }
    }
  }

  lemma GrowsOn(a: seq<Release>, b: seq<Release>, c: seq<Release>)
    requires AllGrow(a, b) && AllGrow(b, c)
    ensures AllGrow(a, c)
  {
    forall k | 0 <= k < |a| ensures Grows(a[k], c[k]) {
      assert Grows(a[k], b[k]) && Grows(b[k], c[k]);
    }
  }

  /** Where the runs start: any number of drafts, visible or not, stable and with
      correct assets only, or besides them one complete published release. */
  ghost predicate Begins(plan: Plan, w: World) {
    GoodReleases(plan, w.releases) && forall i :: 0 <= i < |w.runs| ==> w.runs[i] == Looking
  }

  lemma DraftsBegin(plan: Plan, w: World)
    requires forall k :: 0 <= k < |w.releases| ==>
      w.releases[k].draft && !w.releases[k].prerelease && Correct(plan, w.releases[k].assets)
    requires forall i :: 0 <= i < |w.runs| ==> w.runs[i] == Looking
    ensures Begins(plan, w)
    ensures |w.releases| == 1 && w.releases[0].visible ==> SafeStart(plan, w.releases)
  {
  }

  /** Nothing is expected; or a release is published; or one is visible, and it is
      the only one or all are complete. */
  ghost predicate SafeStart(plan: Plan, rs: seq<Release>) {
    || plan.expected == map[] || Published(rs)
    || (!NoneVisible(rs) && (|rs| == 1 || AllComplete(plan, rs)))
  }

  /** Some release is visible, and no run is about to create one. */
  ghost predicate Seen(w: World) {
    !NoneVisible(w.releases) && forall i :: 0 <= i < |w.runs| ==> !w.runs[i].Creating?
  }

  lemma {:induction false} NextSeen(plan: Plan, w: World, e: Event)
    requires Seen(w)
    ensures var w' := Next(plan, w, e); Seen(w') && |w'.releases| == |w.releases|
  {
    if (e.Turn? || e.CutOff?) && e.run < |w.runs| {
      OnlyLookingCreates(plan, w.releases, e.choice, w.runs[e.run]);
      StepCounts(plan, w.releases, e.choice, w.runs[e.run]);
      LookupRules(w.releases);
      hide Lookup;
      StepStaysVisible(plan, w.releases, e.choice, w.runs[e.run]);
      hide Step;
    } else if e.Show? && e.release < |w.releases| {
      assert Next(plan, w, e).releases[e.release].visible;
    }
  }

  lemma StepStaysVisible(plan: Plan, rs: seq<Release>, c: nat, stage: Stage)
    requires !NoneVisible(rs)
    ensures !NoneVisible(Step(plan, rs, c, stage).0)
  {
    hide Read;
    hide Lookup;
    var k :| 0 <= k < |rs| && rs[k].visible;
    assert Step(plan, rs, c, stage).0[k].visible;
  }

  lemma {:induction false} KeptAfter(plan: Plan, w: World, earlier: seq<Event>, later: seq<Event>)
    requires plan.Valid() && Kept(plan, w) && (plan.expected == map[] || Seen(w))
    ensures var (now, end) := (After(plan, w, earlier), After(plan, w, earlier + later));
      && Kept(plan, now) && Kept(plan, end) && AllGrow(now.releases, end.releases)
      && (plan.expected == map[] || Seen(end))
    decreases |earlier| + |later|
  {
    hide Next;
    hide Kept;
    hide AllGrow;
    hide NoneVisible;
    if later != [] {
      var n := |later| - 1;
      KeptAfter(plan, w, earlier, later[..n]);
      assert (earlier + later)[..|earlier + later| - 1] == earlier + later[..n];
      var before := After(plan, w, earlier + later[..n]);
      NextIsKept(plan, before, later[n]);
      if plan.expected != map[] {
        NextSeen(plan, before, later[n]);
      }
      GrowsOn(After(plan, w, earlier).releases, before.releases, After(plan, w, earlier + later).releases);
    } else {
      assert earlier + later == earlier;
      if earlier != [] {
        var n := |earlier| - 1;
        KeptAfter(plan, w, [], earlier[..n]);
        assert [] + earlier[..n] == earlier[..n];
        NextIsKept(plan, After(plan, w, earlier[..n]), earlier[n]);
        if plan.expected != map[] {
          NextSeen(plan, After(plan, w, earlier[..n]), earlier[n]);
        }
      }
      GrowsItself(After(plan, w, earlier).releases);
    }
  }

  lemma SafeStartIsKept(plan: Plan, w: World)
    requires Begins(plan, w) && SafeStart(plan, w.releases)
    ensures Kept(plan, w) && (plan.expected == map[] || Seen(w))
  {
    if plan.expected == map[] {
      assert forall k :: 0 <= k < |w.releases| ==> Good(plan, w.releases[k]) ==> Complete(plan, w.releases[k].assets);
    }
    hide Correct;
    hide Complete;
  }

  /** From a safe start, whatever the interleaving, wherever runs are cut off, and
      whichever release calls hit while drafts compete: a published release holds
      exactly the expected names and digests, there is at most one, no asset ever
      changes, nothing is added after publication, and a run that reports success
      has left a published release. */
  lemma {:induction false} EveryInterleavingIsSafe(plan: Plan, w: World, earlier: seq<Event>, later: seq<Event>)
    requires plan.Valid() && Begins(plan, w) && SafeStart(plan, w.releases)
    ensures var (now, end) := (After(plan, w, earlier), After(plan, w, earlier + later));
      && GoodReleases(plan, now.releases) && AllGrow(now.releases, end.releases)
      && forall i :: 0 <= i < |now.runs| && now.runs[i].Done? ==> Published(now.releases)
  {
    SafeStartIsKept(plan, w);
    KeptAfter(plan, w, earlier, later);
    hide After;
    hide GoodReleases;
    hide Settled;
    hide AllGrow;
    hide Published;
    var now := After(plan, w, earlier);
    forall i | 0 <= i < |now.runs| && now.runs[i].Done? ensures Published(now.releases) {
      assert Knows(plan, now.releases, now.runs[i]);
    }
  }

  // ---------------------------------------------------------------------------
  // A run on its own terminates
  // ---------------------------------------------------------------------------

  predicate Ended(stage: Stage) {
    stage.Done? || stage.Failed?
  }

  function Phase(stage: Stage): nat {
    match stage
    case Looking => 9
    case Creating => 8
    case Polling(_) => 7
    case CheckingExisting(_, _) => 6
    case Uploading(_) => 5
    case Relooking => 4
    case Verifying(_, _) => 3
    case Publishing => 2
    case _ => 0
  }

  function Left(stage: Stage): nat {
    match stage
    case Polling(left) => left
    case CheckingExisting(_, todo) => |todo|
    case Uploading(todo) => |todo|
    case Verifying(_, todo) => |todo|
    case _ => 0
  }

  /** Every call brings the run closer to its end, whatever the remote answers. */
  lemma {:induction false} StepDescends(plan: Plan, rs: seq<Release>, c: nat, stage: Stage)
    requires !Ended(stage)
    ensures var next := Step(plan, rs, c, stage).1;
      Phase(next) < Phase(stage) || (Phase(next) == Phase(stage) && Left(next) < Left(stage))
  {
    hide Lookup;
    hide RemoteMatches;
    hide NamesComplete;
    hide Distinct;
    hide Sort;
    hide Names;
  }

  /** Where an undisturbed run ends, if all its calls have the same choice. */
  function Finish(plan: Plan, rs: seq<Release>, c: nat, stage: Stage): (seq<Release>, Stage)
    decreases Phase(stage), Left(stage)
  {
    if Ended(stage) then (rs, stage)
    else
      StepDescends(plan, rs, c, stage);
      Finish(plan, Step(plan, rs, c, stage).0, c, Step(plan, rs, c, stage).1)
  }

  /** An undisturbed run, as far as its calls have been chosen for. */
  function Steps(plan: Plan, rs: seq<Release>, stage: Stage, choices: seq<nat>): (seq<Release>, Stage)
    decreases |choices|
  {
    if choices == [] then (rs, stage)
    else Steps(plan, Step(plan, rs, choices[0], stage).0, Step(plan, rs, choices[0], stage).1, choices[1..])
  }

  lemma {:induction false} StepsEnded(plan: Plan, rs: seq<Release>, stage: Stage, choices: seq<nat>)
    requires Ended(stage)
    ensures Steps(plan, rs, stage, choices) == (rs, stage)
    decreases |choices|
  {
    if choices != [] {
      StepsEnded(plan, rs, stage, choices[1..]);
    }
  }

  /** Some choices lead where the same choice for all calls does. */
  lemma {:induction false} FinishIsSteps(plan: Plan, rs: seq<Release>, c: nat, stage: Stage) returns (choices: seq<nat>)
    ensures Steps(plan, rs, stage, choices) == Finish(plan, rs, c, stage) && Ended(Finish(plan, rs, c, stage).1)
    decreases Phase(stage), Left(stage)
  {
    choices := [];
    if !Ended(stage) {
      StepDescends(plan, rs, c, stage);
      var (rs', next) := Step(plan, rs, c, stage);
      var rest := FinishIsSteps(plan, rs', c, next);
      choices := [c] + rest;
      assert choices[1..] == rest;
    }
  }

  /** `create` is called at most once in a run, right after a first lookup that
      found no release, even while other runs change the remote between calls. */
  lemma {:induction false} CreatesOnce(plan: Plan, remotes: seq<seq<Release>>, choices: seq<nat>, stages: seq<Stage>, k: nat)
    requires |remotes| == |choices| == |stages| && k < |stages| && stages[0] == Looking
    requires forall i :: 0 <= i < |stages| - 1 ==> stages[i + 1] == Step(plan, remotes[i], choices[i], stages[i]).1
    ensures stages[k] == Creating ==> k == 1 && Lookup(remotes[0], choices[0]) == Absent
    ensures k > 0 ==> Phase(stages[k]) <= 8
    ensures k > 1 ==> Phase(stages[k]) <= 7
    decreases k
  {
    if k > 0 {
      CreatesOnce(plan, remotes, choices, stages, k - 1);
      assert stages[k - 1 + 1] == Step(plan, remotes[k - 1], choices[k - 1], stages[k - 1]).1;
      OnlyLookingCreates(plan, remotes[k - 1], choices[k - 1], stages[k - 1]);
      hide Step;
      if !Ended(stages[k - 1]) {
        StepDescends(plan, remotes[k - 1], choices[k - 1], stages[k - 1]);
      }
    }
  }

  lemma OnlyLookingCreates(plan: Plan, rs: seq<Release>, c: nat, stage: Stage)
    ensures Step(plan, rs, c, stage).1 == Creating ==> stage == Looking && Lookup(rs, c) == Absent
    ensures Ended(stage) ==> Step(plan, rs, c, stage).1 == stage
  {
    hide RemoteMatches;
    hide NamesComplete;
    hide Lookup;
    hide Sort;
  }

  /** Only creation adds a release, and only a lookup leads to it. */
  lemma StepCounts(plan: Plan, rs: seq<Release>, c: nat, stage: Stage)
    ensures |Step(plan, rs, c, stage).0| == |rs| + if stage.Creating? then 1 else 0
    ensures !Step(plan, rs, c, stage).1.Looking? && (stage.Looking? ==> Step(plan, rs, c, stage).0 == rs)
  {
    hide Lookup;
    hide RemoteMatches;
    hide NamesComplete;
    hide Distinct;
    hide Sort;
    hide Names;
  }

  // ---------------------------------------------------------------------------
  // What an undisturbed run does
  // ---------------------------------------------------------------------------

  /** The releases a run completes: stable, holding only correct assets, and
      complete if already published. */
  predicate Publishable(plan: Plan, r: Release) {
    !r.prerelease && Correct(plan, r.assets) && (r.draft || Complete(plan, r.assets))
  }

  function Uploads(plan: Plan, names: seq<string>): seq<Asset>
    requires forall n :: n in names ==> n in plan.expected
  {
    seq(|names|, i requires 0 <= i < |names| => Asset(names[i], plan.expected[names[i]]))
  }

  lemma FinishEnded(plan: Plan, rs: seq<Release>, c: nat, stage: Stage)
    requires Ended(stage)
    ensures Finish(plan, rs, c, stage) == (rs, stage)
  {
  }

  /** Reading in a loop: all names checked, or stopped at the first mismatch. */
  lemma {:induction false} CheckLoop(plan: Plan, r: Release, todo: seq<string>)
    requires r.visible && todo != []
    ensures Finish(plan, [r], 0, CheckingExisting(r, todo)) ==
            if forall n :: n in todo ==> DigestMatches(plan, r.assets, n)
            then Finish(plan, [r], 0, AfterExisting(plan, r)) else ([r], Failed)
    decreases |todo|
  {
    CheckOne(plan, r, todo);
    hide Finish;
    hide DigestMatches;
    hide AfterExisting;
    assert todo[0] in todo;
    if |todo| > 1 {
      CheckLoop(plan, r, todo[1..]);
      assert forall n :: n in todo <==> n == todo[0] || n in todo[1..];
    } else {
      assert forall n :: n in todo ==> n == todo[0];
    }
  }

  lemma {:induction false} CheckOne(plan: Plan, r: Release, todo: seq<string>)
    requires r.visible && todo != []
    ensures Finish(plan, [r], 0, CheckingExisting(r, todo)) ==
            if !DigestMatches(plan, r.assets, todo[0]) then ([r], Failed)
            else Finish(plan, [r], 0, if |todo| == 1 then AfterExisting(plan, r) else CheckingExisting(r, todo[1..]))
  {
    OneVisible(r);
    FinishEnded(plan, [r], 0, Failed);
    hide Lookup;
    hide DigestMatches;
    hide AfterExisting;
  }

  lemma {:induction false} VerifyLoop(plan: Plan, r: Release, draft: bool, todo: seq<string>)
    requires r.visible && todo != []
    requires forall n :: n in todo ==> DigestMatches(plan, r.assets, n)
    ensures Finish(plan, [r], 0, Verifying(draft, todo)) == Finish(plan, [r], 0, AfterVerify(draft))
    decreases |todo|
  {
    OneVisible(r);
    hide Finish;
    hide Lookup;
    hide DigestMatches;
    assert todo[0] in todo;
    if |todo| > 1 {
      VerifyLoop(plan, r, draft, todo[1..]);
    }
  }

  lemma {:induction false} UploadLoop(plan: Plan, r: Release, todo: seq<string>)
    requires r.visible && todo != [] && Distinct(todo)
    requires forall n :: n in todo ==> n in plan.expected && n !in Names(r.assets)
    ensures Finish(plan, [r], 0, Uploading(todo)) ==
            Finish(plan, [r.(assets := r.assets + Uploads(plan, todo))], 0, Relooking)
    decreases |todo|
  {
    assert todo[0] in todo;
    var first := Asset(todo[0], plan.expected[todo[0]]);
    var r' := r.(assets := r.assets + [first]);
    UploadOne(plan, r, todo);
    hide Finish;
    if |todo| > 1 {
      assert Names(r'.assets) == Names(r.assets) + [todo[0]];
      UploadLoop(plan, r', todo[1..]);
      assert Uploads(plan, todo) == [first] + Uploads(plan, todo[1..]);
      Regroup(r.assets, [first], Uploads(plan, todo[1..]));
    } else {
      assert Uploads(plan, todo) == [first];
    }
  }

  lemma {:induction false} UploadOne(plan: Plan, r: Release, todo: seq<string>)
    requires r.visible && todo != [] && todo[0] in plan.expected && todo[0] !in Names(r.assets)
    ensures var r' := r.(assets := r.assets + [Asset(todo[0], plan.expected[todo[0]])]);
      Finish(plan, [r], 0, Uploading(todo)) ==
      Finish(plan, [r'], 0, if |todo| == 1 then Relooking else Uploading(todo[1..]))
  {
    OneVisible(r);
    hide Lookup;
    var r' := r.(assets := r.assets + [Asset(todo[0], plan.expected[todo[0]])]);
    assert [r][0 := r'] == [r'];
  }

  /** With distinct expected names, checking every digest is checking correctness. */
  lemma {:induction false} DigestsDecide(plan: Plan, assets: seq<Asset>)
    requires Distinct(Names(assets)) && forall n :: n in Names(assets) ==> n in plan.expected
    ensures Correct(plan, assets) <==> forall n :: n in Names(assets) ==> DigestMatches(plan, assets, n)
  {
    hide DigestMatches;
    forall i | 0 <= i < |assets|
      ensures Names(assets)[i] in Names(assets)
      ensures DigestMatches(plan, assets, assets[i].name) <==> assets[i].digest == plan.expected[assets[i].name]
    {
      assert Names(assets)[i] == assets[i].name;
      DigestAt(plan, assets, i);
    }
    forall n | n in Names(assets) ensures exists i :: 0 <= i < |assets| && assets[i].name == n {
      var i :| 0 <= i < |assets| && Names(assets)[i] == n;
    }
  }

  lemma {:induction false} DigestAt(plan: Plan, assets: seq<Asset>, i: nat)
    requires i < |assets| && Distinct(Names(assets)) && assets[i].name in plan.expected
    ensures DigestMatches(plan, assets, assets[i].name) <==> assets[i].digest == plan.expected[assets[i].name]
    decreases i
  {
    if i > 0 {
      assert Names(assets)[0] != Names(assets)[i];
      assert Names(assets[1..]) == Names(assets)[1..];
      DigestAt(plan, assets[1..], i - 1);
    }
  }

  lemma SortedNames(names: seq<string>)
    ensures forall n :: n in Sort(names, Id) <==> n in names
    ensures Sort(names, Id) == [] <==> names == []
    ensures Distinct(names) ==> Distinct(Sort(names, Id))
  {
    SameMembers(names);
    if Distinct(names) {
      PermutedKeysDistinct(names, Sort(names, Id), Id);
    }
  }

  lemma {:induction false} MissingDistinct(order: seq<string>, present: seq<string>)
    requires Distinct(order)
    ensures Distinct(Missing(order, present))
    decreases |order|
  {
    if order != [] {
      MissingDistinct(order[1..], present);
    }
  }

  /** From the second lookup on: a complete release is verified and published. */
  lemma {:induction false} FinishComplete(plan: Plan, r: Release)
    requires plan.Valid() && r.visible && Complete(plan, r.assets)
    ensures Finish(plan, [r], 0, Relooking) == ([r.(draft := false)], Done)
  {
    OneVisible(r);
    NamesCompleteIsComplete(plan, r.assets);
    DigestsDecide(plan, r.assets);
    FinishVerified(plan, r);
    assert Finish(plan, [r], 0, Relooking) == Finish(plan, [r], 0, AfterRelook(plan, r));
    hide Finish;
    hide Lookup;
    hide NamesComplete;
    hide DigestMatches;
    hide Correct;
    if plan.order != [] {
      VerifyLoop(plan, r, r.draft, plan.order);
    }
  }

  lemma {:induction false} FinishVerified(plan: Plan, r: Release)
    requires r.visible
    ensures Finish(plan, [r], 0, AfterVerify(r.draft)) == ([r.(draft := false)], Done)
  {
    OneVisible(r);
    hide Lookup;
    FinishEnded(plan, [r.(draft := false)], 0, Done);
    if r.draft {
      assert [r][0 := r.(draft := false)] == [r.(draft := false)];
    } else {
      assert r.(draft := false) == r;
    }
  }

  /** What a run adds to a release. */
  function Added(plan: Plan, r: Release): seq<Asset>
    requires plan.Valid()
  {
    var missing := Sort(Missing(plan.order, Names(r.assets)), Id);
    SortedNames(Missing(plan.order, Names(r.assets)));
    Uploads(plan, missing)
  }

  lemma UploadsComplete(plan: Plan, assets: seq<Asset>, names: seq<string>)
    requires Correct(plan, assets) && Distinct(names)
    requires forall n :: n in names ==> n in plan.expected && n !in Names(assets)
    requires forall n :: n in plan.expected ==> n in Names(assets) || n in names
    ensures Complete(plan, assets + Uploads(plan, names))
  {
    var more := assets + Uploads(plan, names);
    var all := Names(more);
    assert all == Names(assets) + names;
    forall i, j | 0 <= i < j < |all| ensures all[i] != all[j] {
      if i < |assets| <= j {
        assert all[i] in Names(assets) && all[j] in names;
      }
    }
    forall i | |assets| <= i < |more| ensures more[i].name in names {
      assert more[i].name == names[i - |assets|];
    }
  }

  lemma AddedCompletes(plan: Plan, r: Release)
    requires plan.Valid() && Correct(plan, r.assets)
    ensures Complete(plan, r.assets + Added(plan, r))
    ensures Added(plan, r) == [] <==> Complete(plan, r.assets)
  {
    var absent := Missing(plan.order, Names(r.assets));
    var missing := Sort(absent, Id);
    SortedNames(absent);
    MissingDistinct(plan.order, Names(r.assets));
    hide Sort;
    hide Missing;
    hide Distinct;
    hide Names;
    UploadsComplete(plan, r.assets, missing);
    assert |Added(plan, r)| == |missing|;
    if missing != [] {
      assert missing[0] in missing;
    }
  }

  /** After the checks: uploads, second lookup, verification, publication. */
  lemma {:induction false} FinishUploads(plan: Plan, r: Release)
    requires plan.Valid() && r.visible && Correct(plan, r.assets)
    ensures Finish(plan, [r], 0, AfterExisting(plan, r)) ==
            if r.draft || Complete(plan, r.assets)
            then ([r.(assets := r.assets + Added(plan, r), draft := false)], Done) else ([r], Failed)
  {
    AddedCompletes(plan, r);
    var absent := Missing(plan.order, Names(r.assets));
    var missing := Sort(absent, Id);
    SortedNames(absent);
    MissingDistinct(plan.order, Names(r.assets));
    hide Finish;
    hide Missing;
    hide Sort;
    hide Correct;
    hide Complete;
    var full := r.(assets := r.assets + Added(plan, r));
    if missing == [] {
      assert r.assets + [] == r.assets;
      assert Added(plan, r) == [];
      FinishComplete(plan, r);
    } else if r.draft {
      UploadLoop(plan, r, missing);
      FinishComplete(plan, full);
    } else {
      FinishEnded(plan, [r], 0, Failed);
      assert |Added(plan, r)| == |missing|;
    }
  }

  /** The outcome of an undisturbed run on one visible release, for every such
      release: it ends published and complete exactly when the release is
      publishable, and otherwise fails without touching it. */
  lemma {:induction false} RunOutcome(plan: Plan, r: Release)
    requires plan.Valid() && r.visible
    ensures Finish(plan, [r], 0, Looking) ==
            if Publishable(plan, r)
            then ([r.(assets := r.assets + Added(plan, r), draft := false)], Done) else ([r], Failed)
    ensures Publishable(plan, r) ==> Complete(plan, r.assets + Added(plan, r))
    ensures Publishable(plan, r) && !r.draft ==> r.(assets := r.assets + Added(plan, r), draft := false) == r
  {
    OneVisible(r);
    FinishEnded(plan, [r], 0, Failed);
    assert Step(plan, [r], 0, Looking) == ([r], Inspect(plan, r));
    if Correct(plan, r.assets) {
      AddedCompletes(plan, r);
    }
    InspectOutcome(plan, r);
    assert r.assets + [] == r.assets;
  }

  /** The first checks: on to the uploads exactly if the assets are correct. */
  lemma {:induction false} InspectDecides(plan: Plan, r: Release)
    requires r.visible
    ensures Finish(plan, [r], 0, Inspect(plan, r)) ==
            if !r.prerelease && Correct(plan, r.assets) then Finish(plan, [r], 0, AfterExisting(plan, r)) else ([r], Failed)
  {
    var names := Names(r.assets);
    FinishEnded(plan, [r], 0, Failed);
    ExpectedNames(plan, r.assets);
    hide Finish;
    hide AfterExisting;
    hide DigestMatches;
    if Distinct(names) && forall n :: n in names ==> n in plan.expected {
      DigestsDecide(plan, r.assets);
      SortedNames(names);
      hide Sort;
      hide Correct;
      hide Distinct;
      if names != [] {
        CheckLoop(plan, r, Sort(names, Id));
      } else {
        assert forall n :: n in names ==> DigestMatches(plan, r.assets, n);
      }
    }
  }

  lemma InspectOutcome(plan: Plan, r: Release)
    requires plan.Valid() && r.visible
    ensures Finish(plan, [r], 0, Inspect(plan, r)) ==
            if Publishable(plan, r)
            then ([r.(assets := r.assets + Added(plan, r), draft := false)], Done) else ([r], Failed)
  {
    InspectDecides(plan, r);
    hide Finish;
    hide Inspect;
    hide AfterExisting;
    hide Added;
    if Correct(plan, r.assets) {
      FinishUploads(plan, r);
    }
  }

  lemma ExpectedNames(plan: Plan, assets: seq<Asset>)
    ensures Correct(plan, assets) ==> Distinct(Names(assets)) && forall n :: n in Names(assets) ==> n in plan.expected
  {
  }

  // ---------------------------------------------------------------------------
  // A fresh run on whatever other runs left
  // ---------------------------------------------------------------------------

  /** A call does to the release it hits what it does to it alone. */
  lemma {:induction false} LiftStep(plan: Plan, rs: seq<Release>, c: nat, j: nat, stage: Stage)
    requires Lookup(rs, c) == At(j) && !stage.Creating?
    ensures var alone := Step(plan, [rs[j]], 0, stage);
      |alone.0| == 1 && Step(plan, rs, c, stage) == (rs[j := alone.0[0]], alone.1)
    ensures var r := Step(plan, [rs[j]], 0, stage).0[0];
      Lookup(rs[j := r], c) == At(j) && !Step(plan, [rs[j]], 0, stage).1.Creating?
  {
    LookupRules(rs);
    assert rs[j].visible;
    OneVisible(rs[j]);
    OnlyLookingCreates(plan, [rs[j]], 0, stage);
    StepOnVisible(plan, rs[j], stage);
    StaysHit(rs, c, j, Step(plan, [rs[j]], 0, stage).0[0]);
    hide Lookup;
    hide Inspect;
    hide AfterRelook;
    hide AfterExisting;
    hide DigestMatches;
    assert rs[j := rs[j]] == rs;
  }

  /** A call on a visible release leaves it visible, and a draft only if it was. */
  lemma StepOnVisible(plan: Plan, r: Release, stage: Stage)
    requires r.visible && !stage.Creating?
    ensures var rs := Step(plan, [r], 0, stage).0;
      |rs| == 1 && rs[0].visible && (rs[0].draft ==> r.draft)
  {
    OneVisible(r);
    hide Lookup;
    hide Read;
  }

  /** The release hit stays the one hit by the same choice. */
  lemma {:induction false} StaysHit(rs: seq<Release>, c: nat, j: nat, r: Release)
    requires Lookup(rs, c) == At(j) && r.visible && (r.draft ==> rs[j].draft)
    ensures Lookup(rs[j := r], c) == At(j)
  {
    LookupRules(rs);
    LookupRules(rs[j := r]);
    hide Lookup;
    assert CanHit(rs[j := r], j);
    assert IsFound(rs, j) ==> IsFound(rs[j := r], j);
  }

  lemma {:induction false} LiftFinish(plan: Plan, rs: seq<Release>, c: nat, j: nat, stage: Stage)
    requires Lookup(rs, c) == At(j) && !stage.Creating?
    ensures var alone := Finish(plan, [rs[j]], 0, stage);
      |alone.0| == 1 && Finish(plan, rs, c, stage) == (rs[j := alone.0[0]], alone.1)
    decreases Phase(stage), Left(stage)
  {
    var r := rs[j];
    if Ended(stage) {
      FinishEnded(plan, rs, c, stage);
      FinishEnded(plan, [r], 0, stage);
      assert rs[j := r] == rs;
      return;
    }
    LiftStep(plan, rs, c, j, stage);
    StepDescends(plan, [r], 0, stage);
    hide Finish;
    hide Lookup;
    hide Step;
    var alone := Step(plan, [r], 0, stage);
    var r' := alone.0[0];
    LiftFinish(plan, rs[j := r'], c, j, alone.1);
    assert alone.0 == [r'] && rs[j := r'][j] == r';
    var end := Finish(plan, [r'], 0, alone.1).0[0];
    assert rs[j := r'][j := end] == rs[j := end];
  }

  /** Where one release must be hit, choices make no difference. */
  lemma {:induction false} FoundForAllChoices(plan: Plan, rs: seq<Release>, j: nat, stage: Stage, choices: seq<nat>)
    requires IsFound(rs, j) && !stage.Creating? && Ended(Steps(plan, rs, stage, choices).1)
    ensures Steps(plan, rs, stage, choices) == Finish(plan, rs, 0, stage)
    decreases |choices|
  {
    if Ended(stage) {
      StepsEnded(plan, rs, stage, choices);
      FinishEnded(plan, rs, 0, stage);
      return;
    }
    var c := choices[0];
    LookupRules(rs);
    LiftStep(plan, rs, c, j, stage);
    LiftStep(plan, rs, 0, j, stage);
    StepOnVisible(plan, rs[j], stage);
    hide Step;
    hide Lookup;
    var (rs', next) := Step(plan, rs, c, stage);
    assert IsFound(rs', j);
    FoundForAllChoices(plan, rs', j, next, choices[1..]);
  }

  /** One call that hits nothing. */
  lemma StepUnfound(plan: Plan, rs: seq<Release>, c: nat, stage: Stage)
    requires !Lookup(rs, c).At? && !stage.Creating?
    ensures Step(plan, rs, c, stage) == (rs,
      if Ended(stage) then stage
      else if Lookup(rs, c).Absent? && stage.Looking? then Creating
      else if Lookup(rs, c).Absent? && stage.Polling? && stage.left > 1 then Polling(stage.left - 1)
      else Failed)
  {
    hide Lookup;
    hide AfterRelook;
    hide AfterExisting;
    hide AfterVerify;
    hide Inspect;
  }

  /** A release nobody sees changes no lookup. */
  lemma UnseenDraft(rs: seq<Release>, r: Release)
    requires !r.visible && NoneVisible(rs)
    ensures NoneVisible(rs + [r])
  {
  }

  /** What a fresh, undisturbed run does if its calls hit a release, whichever: it
      completes and publishes that one. */
  lemma FreshRun(plan: Plan, rs: seq<Release>, c: nat, j: nat)
    requires plan.Valid() && GoodReleases(plan, rs) && Lookup(rs, c) == At(j)
    ensures var full := rs[j].(assets := rs[j].assets + Added(plan, rs[j]), draft := false);
      Finish(plan, rs, c, Looking) == (rs[j := full], Done) && Complete(plan, full.assets)
  {
    LookupRules(rs);
    LiftFinish(plan, rs, c, j, Looking);
    RunOutcome(plan, rs[j]);
    hide Finish;
    hide Lookup;
    assert Good(plan, rs[j]);
  }

  /** If nothing is visible, and stays so, it leaves one more draft and fails. */
  lemma FreshRunInVain(plan: Plan, rs: seq<Release>, c: nat)
    requires NoneVisible(rs)
    ensures Finish(plan, rs, c, Looking) == (rs + [NEW_DRAFT], Failed)
  {
    LookupRules(rs);
    UnseenDraft(rs, NEW_DRAFT);
    var more := rs + [NEW_DRAFT];
    hide Lookup;
    hide NoneVisible;
    StepUnfound(plan, rs, c, Looking);
    PollsInVain(plan, more, c, 4);
    hide Finish;
  }

  lemma {:induction false} PollsInVain(plan: Plan, rs: seq<Release>, c: nat, left: nat)
    requires NoneVisible(rs)
    ensures Finish(plan, rs, c, Polling(left)) == (rs, Failed)
    decreases left
  {
    LookupRules(rs);
    StepUnfound(plan, rs, c, Polling(left));
    FinishEnded(plan, rs, c, Failed);
    hide Finish;
    hide Step;
    hide Lookup;
    hide NoneVisible;
    if left > 1 {
      PollsInVain(plan, rs, c, left - 1);
    }
  }

  /** If drafts compete, the first lookup may refuse. */
  lemma FreshRunRefused(plan: Plan, rs: seq<Release>)
    requires DraftsCompete(rs)
    ensures Finish(plan, rs, |rs|, Looking) == (rs, Failed)
  {
    LookupRules(rs);
    StepUnfound(plan, rs, |rs|, Looking);
    FinishEnded(plan, rs, |rs|, Failed);
    hide Lookup;
    hide Step;
  }

  /** Ended, and successfully: a release is published and complete. */
  ghost predicate Succeeds(plan: Plan, end: (seq<Release>, Stage)) {
    end.1 == Done && exists j :: 0 <= j < |end.0| && !end.0[j].draft && Complete(plan, end.0[j].assets)
  }

  /** A fresh undisturbed run on good releases succeeds whatever its calls hit if and
      only if there is one release they must hit; it can succeed if and only if there
      is one they can hit. */
  lemma {:induction false} AnyWorldResumes(plan: Plan, rs: seq<Release>)
    requires plan.Valid() && GoodReleases(plan, rs)
    ensures (forall choices :: Ended(Steps(plan, rs, Looking, choices).1) ==> Succeeds(plan, Steps(plan, rs, Looking, choices)))
            <==> exists j: nat :: IsFound(rs, j)
    ensures (exists choices :: Steps(plan, rs, Looking, choices).1 == Done) <==> exists j: nat :: CanHit(rs, j)
  {
    LookupRules(rs);
    hide Lookup;
    hide Steps;
    hide Finish;
    hide GoodReleases;
    if NoneVisible(rs) {
      FreshRunInVain(plan, rs, 0);
      var choices := FinishIsSteps(plan, rs, 0, Looking);
      forall choices ensures Steps(plan, rs, Looking, choices).1 != Done {
        InVain(plan, rs, Looking, choices);
      }
      return;
    }
    var j := VisibleIsHit(rs);
    FreshRun(plan, rs, j, j);
    var done := FinishIsSteps(plan, rs, j, Looking);
    if IsFound(rs, j) {
      FreshRun(plan, rs, 0, j);
      forall choices | Ended(Steps(plan, rs, Looking, choices).1) ensures Succeeds(plan, Steps(plan, rs, Looking, choices)) {
        FoundForAllChoices(plan, rs, j, Looking, choices);
        assert !Finish(plan, rs, 0, Looking).0[j].draft;
      }
    } else {
      FreshRunRefused(plan, rs);
      var choices := FinishIsSteps(plan, rs, |rs|, Looking);
      assert forall k: nat :: IsFound(rs, k) ==> Lookup(rs, |rs|) == At(k);
    }
  }

  /** If something is visible, something can be hit. */
  lemma VisibleIsHit(rs: seq<Release>) returns (j: nat)
    requires !NoneVisible(rs)
    ensures CanHit(rs, j) && (IsFound(rs, j) || DraftsCompete(rs))
  {
    var k :| 0 <= k < |rs| && rs[k].visible;
    var p := IndexWhere(rs, false);
    j := if p < |rs| then p else k;
    if !IsFound(rs, j) {
      var i :| 0 <= i < |rs| && i != j && rs[i].visible;
      assert 0 <= (if i < j then i else j) < (if i < j then j else i) < |rs|;
    }
  }

  lemma {:induction false} InVain(plan: Plan, rs: seq<Release>, stage: Stage, choices: seq<nat>)
    requires NoneVisible(rs) && (stage.Looking? || stage.Creating? || stage.Polling? || stage.Failed?)
    ensures Steps(plan, rs, stage, choices).1 != Done
    decreases |choices|
  {
    if choices != [] {
      LookupRules(rs);
      if stage.Creating? {
        UnseenDraft(rs, NEW_DRAFT);
      } else {
        StepUnfound(plan, rs, choices[0], stage);
      }
      hide Lookup;
      hide NoneVisible;
      InVain(plan, Step(plan, rs, choices[0], stage).0, Step(plan, rs, choices[0], stage).1, choices[1..]);
    }
  }

  // ---------------------------------------------------------------------------
  // A single run from nothing
  // ---------------------------------------------------------------------------

  /** A single run on a tag that had no release creates one draft at most. */
  predicate Alone(w: World) {
    && |w.runs| == 1 && |w.releases| <= 1
    && (w.runs[0].Looking? || w.runs[0].Creating? ==> w.releases == [])
  }

  /** The run's own events and visibility. */
  predicate OwnEvent(e: Event) {
    match e
    case Turn(i, _) => i == 0
    case CutOff(i, _, _) => i == 0
    case Show(_) => true
    case Start => false
  }

  lemma NextAlone(plan: Plan, w: World, e: Event)
    requires Alone(w) && OwnEvent(e)
    ensures Alone(Next(plan, w, e))
  {
    if e.Turn? || e.CutOff? {
      OnlyLookingCreates(plan, w.releases, e.choice, w.runs[0]);
      StepCounts(plan, w.releases, e.choice, w.runs[0]);
      hide Step;
    }
  }

  lemma AloneIsHarmless(plan: Plan, w: World)
    requires Alone(w)
    ensures NoHarm(plan, w)
  {
  }

  lemma {:induction false} AloneAfter(plan: Plan, events: seq<Event>)
    requires plan.Valid() && forall e :: e in events ==> OwnEvent(e)
    ensures var w := After(plan, World([], [Looking]), events); Alone(w) && Kept(plan, w)
    decreases |events|
  {
    if events == [] {
      return;
    }
    hide Next;
    hide Kept;
    hide Alone;
    hide NoHarm;
    hide OwnEvent;
    var n := |events| - 1;
    AloneAfter(plan, events[..n]);
    var before := After(plan, World([], [Looking]), events[..n]);
    AloneIsHarmless(plan, before);
    NextAlone(plan, before, events[n]);
    NextIsKept(plan, before, events[n]);
  }

  /** A run that started on a tag without a release, cut off anywhere, leaves
      either nothing or one good release; if that is visible, an undisturbed
      rerun ends published and complete. */
  lemma {:induction false} CutOffRunResumes(plan: Plan, events: seq<Event>, choices: seq<nat>)
    requires plan.Valid() && forall e :: e in events ==> OwnEvent(e)
    ensures var rs := After(plan, World([], [Looking]), events).releases;
      && |rs| <= 1 && GoodReleases(plan, rs)
      && (|rs| == 1 && rs[0].visible && Ended(Steps(plan, rs, Looking, choices).1) ==>
            var (rs', stage) := Steps(plan, rs, Looking, choices);
            stage == Done && |rs'| == 1 && !rs'[0].draft && Complete(plan, rs'[0].assets) && rs[0].assets <= rs'[0].assets)
  {
    AloneAfter(plan, events);
    var rs := After(plan, World([], [Looking]), events).releases;
    hide After;
    hide Steps;
    hide Finish;
    if |rs| == 1 && rs[0].visible && Ended(Steps(plan, rs, Looking, choices).1) {
      assert IsFound(rs, 0);
      LookupRules(rs);
      hide Lookup;
      FoundForAllChoices(plan, rs, 0, Looking, choices);
      FreshRun(plan, rs, 0, 0);
    }
  }
}
