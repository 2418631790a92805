/** Releases created twice, and when publishing can go wrong because drafts compete
    (scripts/release.py, `publish_complete`, run more than once at a time). */
module ReleaseRaces {
  import opened Prelude
  import opened Ordering
  import opened ReleasePublication

  lemma AfterOne(plan: Plan, w: World, events: seq<Event>, e: Event)
    ensures After(plan, w, []) == w
    ensures After(plan, w, events + [e]) == Next(plan, After(plan, w, events), e)
  {
    assert (events + [e])[..|events|] == events;
  }

  lemma {:induction false} AfterAppend(plan: Plan, w: World, a: seq<Event>, b: seq<Event>)
    ensures After(plan, w, a + b) == After(plan, After(plan, w, a), b)
    decreases |b|
  {
    hide Next;
    if b == [] {
      assert a + b == a;
      return;
    }
    var n := |b| - 1;
    AfterAppend(plan, w, a, b[..n]);
    AfterOne(plan, w, a + b[..n], b[n]);
    AfterOne(plan, After(plan, w, a), b[..n], b[n]);
    hide After;
    assert a + b == a + b[..n] + [b[n]] && b == b[..n] + [b[n]];
  }

  // ---------------------------------------------------------------------------
  // When a release is created twice
  // ---------------------------------------------------------------------------

  lemma {:induction false} SeenAfter(plan: Plan, w: World, events: seq<Event>)
    requires Seen(w)
    ensures Seen(After(plan, w, events)) && |After(plan, w, events).releases| == |w.releases|
    decreases |events|
  {
    hide Next;
    hide Seen;
    if events != [] {
      SeenAfter(plan, w, events[..|events| - 1]);
      NextSeen(plan, After(plan, w, events[..|events| - 1]), events[|events| - 1]);
    }
  }

  lemma CreatingStep(plan: Plan, rs: seq<Release>)
    ensures Step(plan, rs, 0, Creating) == (rs + [NEW_DRAFT], Polling(4))
  {
  }

  /** A run starts, looks in vain, and creates a draft nobody sees yet. */
  lemma {:induction false} OneCreates(plan: Plan, w: World) returns (events: seq<Event>)
    requires NoneVisible(w.releases)
    ensures var w' := After(plan, w, events);
      w'.releases == w.releases + [NEW_DRAFT] && NoneVisible(w'.releases)
  {
    var n := |w.runs|;
    var turn := Turn(n, 0);
    AfterOne(plan, w, [], Start);
    AfterOne(plan, w, [Start], turn);
    AfterOne(plan, w, [Start, turn], turn);
    events := [Start, turn, turn];
    assert [] + [Start] == [Start] && [Start] + [turn] == [Start, turn] && [Start, turn] + [turn] == events;
    LookupRules(w.releases);
    StepUnfound(plan, w.releases, 0, Looking);
    CreatingStep(plan, w.releases);
    hide Lookup;
    hide After;
    hide Step;
    var w1 := World(w.releases, w.runs + [Looking]);
    var w2 := World(w.releases, w.runs + [Creating]);
    assert (w.runs + [Looking])[n := Creating] == w.runs + [Creating];
    assert Next(plan, w, Start) == w1;
    assert Next(plan, w1, turn) == w2;
    assert Next(plan, w2, turn).releases == w.releases + [NEW_DRAFT];
  }

  lemma TwoCreate(plan: Plan, w: World) returns (events: seq<Event>)
    requires NoneVisible(w.releases)
    ensures After(plan, w, events).releases == w.releases + [NEW_DRAFT, NEW_DRAFT]
  {
    var first := OneCreates(plan, w);
    var second := OneCreates(plan, After(plan, w, first));
    AfterAppend(plan, w, first, second);
    events := first + second;
    hide After;
    Regroup(w.releases, [NEW_DRAFT], [NEW_DRAFT]);
    assert [NEW_DRAFT] + [NEW_DRAFT] == [NEW_DRAFT, NEW_DRAFT];
  }

  /** Runs create a release if and only if none is visible when they start. */
  lemma CreationExactly(plan: Plan, w: World)
    requires forall i :: 0 <= i < |w.runs| ==> w.runs[i] == Looking
    ensures (forall events :: |After(plan, w, events).releases| == |w.releases|) <==> !NoneVisible(w.releases)
  {
    if NoneVisible(w.releases) {
      var events := OneCreates(plan, w);
      hide After;
      assert |After(plan, w, events).releases| == |w.releases| + 1;
    } else {
      forall events ensures |After(plan, w, events).releases| == |w.releases| {
        SeenAfter(plan, w, events);
      }
    }
  }

  /** A second release can appear unless the one there is was visible from the start. */
  lemma SecondReleaseExactly(plan: Plan, w: World)
    requires |w.releases| <= 1 && forall i :: 0 <= i < |w.runs| ==> w.runs[i] == Looking
    ensures (forall events :: |After(plan, w, events).releases| <= 1) <==> |w.releases| == 1 && w.releases[0].visible
  {
    if |w.releases| == 1 && w.releases[0].visible {
      forall events ensures |After(plan, w, events).releases| <= 1 {
        SeenAfter(plan, w, events);
      }
    } else {
      var events := TwoCreate(plan, w);
      hide After;
      assert |After(plan, w, events).releases| == |w.releases| + 2;
    }
  }

  // ---------------------------------------------------------------------------
  // When an incomplete release can be published
  // ---------------------------------------------------------------------------

  /** The run at `stage` will succeed on the draft `r`, and has yet to publish it. */
  predicate OnCourse(plan: Plan, r: Release, stage: Stage) {
    && r.visible && r.draft && !stage.Creating? && !stage.Done? && (stage.Verifying? ==> stage.draft)
    && Finish(plan, [r], 0, stage).1 == Done
  }

  lemma StaysOnCourse(plan: Plan, r: Release, stage: Stage)
    requires OnCourse(plan, r, stage) && !stage.Publishing?
    ensures !Ended(stage)
    ensures var (rs', next) := Step(plan, [r], 0, stage);
      |rs'| == 1 && OnCourse(plan, rs'[0], next)
  {
    OneVisible(r);
    StepOnVisible(plan, r, stage);
    OnlyLookingCreates(plan, [r], 0, stage);
    StillDraft(plan, r, stage);
    var (rs', next) := Step(plan, [r], 0, stage);
    assert rs' == [rs'[0]];
    hide Step;
    hide Lookup;
  }

  lemma {:induction false} StillDraft(plan: Plan, r: Release, stage: Stage)
    requires r.visible && r.draft && !stage.Creating? && !stage.Publishing? && !Ended(stage)
    requires stage.Verifying? ==> stage.draft
    ensures var (rs', next) := Step(plan, [r], 0, stage);
      |rs'| == 1 && rs'[0].draft && !next.Done? && (next.Verifying? ==> next.draft)
  {
    OneVisible(r);
    hide Lookup;
    hide DigestMatches;
    hide NamesComplete;
    hide Distinct;
    hide Sort;
    hide Names;
  }

  /** Calls that hit draft `a` take a run to the point of publishing it, and leave
      all other releases alone. */
  lemma {:induction false} DriveToPublishing(plan: Plan, w: World, i: nat, a: nat) returns (events: seq<Event>)
    requires i < |w.runs| && CanHit(w.releases, a) && OnCourse(plan, w.releases[a], w.runs[i])
    ensures var w' := After(plan, w, events);
      && |w'.runs| == |w.runs| && w'.runs[i] == Publishing
      && |w'.releases| == |w.releases| && w'.releases[a].draft
      && forall k :: 0 <= k < |w.releases| && k != a ==> w'.releases[k] == w.releases[k]
    decreases Phase(w.runs[i]), Left(w.runs[i])
  {
    var rs, stage := w.releases, w.runs[i];
    if stage.Publishing? {
      return [];
    }
    LookupRules(rs);
    StaysOnCourse(plan, rs[a], stage);
    LiftStep(plan, rs, a, a, stage);
    StepDescends(plan, [rs[a]], 0, stage);
    hide Step;
    hide Lookup;
    hide OnCourse;
    var turn := Turn(i, a);
    var w1 := Next(plan, w, turn);
    LookupRules(w1.releases);
    var rest := DriveToPublishing(plan, w1, i, a);
    events := [turn] + rest;
    AfterAppend(plan, w, [turn], rest);
    AfterOne(plan, w, [], turn);
    assert [] + [turn] == [turn];
  }

  lemma {:induction false} ShowBoth(plan: Plan, w: World, a: nat, b: nat) returns (events: seq<Event>)
    requires a < |w.releases| && b < |w.releases| && a != b
    ensures After(plan, w, events) ==
      World(w.releases[a := w.releases[a].(visible := true)][b := w.releases[b].(visible := true)], w.runs + [Looking])
  {
    events := [Show(a), Show(b), Start];
    AfterOne(plan, w, [], Show(a));
    AfterOne(plan, w, [Show(a)], Show(b));
    AfterOne(plan, w, [Show(a), Show(b)], Start);
    hide After;
    assert [] + [Show(a)] == [Show(a)] && [Show(a)] + [Show(b)] == [Show(a), Show(b)];
    assert [Show(a), Show(b)] + [Start] == events;
  }

  lemma ShownIsOnCourse(plan: Plan, r: Release)
    requires plan.Valid() && Good(plan, r) && r.draft && r.visible
    ensures OnCourse(plan, r, Looking)
  {
    RunOutcome(plan, r);
    hide Finish;
  }

  /** A call to publish may hit any visible draft while none is published. */
  lemma PublishHits(plan: Plan, w: World, i: nat, b: nat)
    requires i < |w.runs| && w.runs[i] == Publishing && b < |w.releases| && w.releases[b].visible
    requires forall k :: 0 <= k < |w.releases| ==> w.releases[k].draft
    ensures Next(plan, w, Turn(i, b)).releases == w.releases[b := w.releases[b].(draft := false)]
  {
    LookupRules(w.releases);
    hide Lookup;
    assert CanHit(w.releases, b);
  }

  lemma Incomplete(plan: Plan, rs: seq<Release>, b: nat)
    requires b < |rs| && !rs[b].draft && !Complete(plan, rs[b].assets)
    ensures !GoodReleases(plan, rs)
  {
    assert !Good(plan, rs[b]);
  }

  /** Among drafts only, an incomplete one can be published: another one becomes
      complete and is verified, and then the call to publish hits this one. */
  lemma {:induction false} Misfire(plan: Plan, w: World, a: nat, b: nat) returns (events: seq<Event>)
    requires plan.Valid() && GoodReleases(plan, w.releases) && !Published(w.releases)
    requires a < |w.releases| && b < |w.releases| && a != b && !Complete(plan, w.releases[b].assets)
    ensures var rs := After(plan, w, events).releases;
      b < |rs| && !rs[b].draft && rs[b].assets == w.releases[b].assets && !GoodReleases(plan, rs)
  {
    var n := |w.runs|;
    var shown := ShowBoth(plan, w, a, b);
    var w1 := After(plan, w, shown);
    assert Good(plan, w.releases[a]);
    ShownIsOnCourse(plan, w1.releases[a]);
    hide OnCourse;
    hide GoodReleases;
    hide Good;
    hide Complete;
    hide After;
    hide Next;
    var drive := DriveToPublishing(plan, w1, n, a);
    hide CanHit;
    var w2 := After(plan, w1, drive);
    PublishHits(plan, w2, n, b);
    AfterAppend(plan, w, shown, drive);
    AfterOne(plan, w, shown + drive, Turn(n, b));
    events := (shown + drive) + [Turn(n, b)];
    Incomplete(plan, After(plan, w, events).releases, b);
  }

  /** Safety, exactly: every published release is complete in every interleaving,
      whichever releases calls hit, if and only if nothing is expected, or a release
      is published at the start, or one is visible and it is the only one or all are
      complete. */
  lemma {:induction false} SafetyExactly(plan: Plan, w: World)
    requires plan.Valid() && Begins(plan, w)
    ensures (forall events :: GoodReleases(plan, After(plan, w, events).releases)) <==> SafeStart(plan, w.releases)
  {
    var rs := w.releases;
    if SafeStart(plan, rs) {
      forall events ensures GoodReleases(plan, After(plan, w, events).releases) {
        EveryInterleavingIsSafe(plan, w, events, []);
      }
    } else if NoneVisible(rs) {
      var create := TwoCreate(plan, w);
      var w1 := After(plan, w, create);
      NewDraftsAreGood(plan, rs);
      var fire := Misfire(plan, w1, |rs|, |rs| + 1);
      AfterAppend(plan, w, create, fire);
      hide GoodReleases;
      assert !GoodReleases(plan, After(plan, w, create + fire).releases);
    } else {
      var b :| 0 <= b < |rs| && !Complete(plan, rs[b].assets);
      var fire := Misfire(plan, w, if b == 0 then 1 else 0, b);
    }
  }

  lemma NewDraftsAreGood(plan: Plan, rs: seq<Release>)
    requires GoodReleases(plan, rs) && !Published(rs) && plan.expected != map[]
    ensures var more := rs + [NEW_DRAFT, NEW_DRAFT];
      GoodReleases(plan, more) && !Published(more) && !Complete(plan, NEW_DRAFT.assets)
  {
    assert Good(plan, NEW_DRAFT);
    var n :| n in plan.expected;
    assert n !in Names(NEW_DRAFT.assets);
    hide Good;
  }

  /** With at most one release at the start, the condition is that it is there and
      visible, or that nothing is expected. */
  lemma {:induction false} SafetyWithOneRelease(plan: Plan, w: World)
    requires plan.Valid() && Begins(plan, w) && |w.releases| <= 1
    ensures (forall events :: GoodReleases(plan, After(plan, w, events).releases)) <==>
      plan.expected == map[] || (|w.releases| == 1 && w.releases[0].visible)
  {
    SafetyExactly(plan, w);
    hide After;
    hide Good;
  }

  // ---------------------------------------------------------------------------
  // An example
  // ---------------------------------------------------------------------------

  const ONE_FILE: Plan := Plan(map["a" := "x"], ["a"])
  const FILE: Asset := Asset("a", "x")

  /** A draft of the tag that is visible, with the given assets. */
  function Shown(assets: seq<Asset>): Release {
    Release(true, false, true, assets)
  }

  /** Two runs look, and both create a draft; the first run sees its own draft only. */
  const BOTH_CREATE: seq<Event> := [Turn(0, 0), Turn(1, 0), Turn(0, 0), Turn(1, 0), Show(0)]

  /** The first run finds its draft, uploads, looks again, and verifies; then the
      second draft becomes visible, and publishing hits that one. */
  const PUBLISH_OTHER: seq<Event> := [Turn(0, 0), Turn(0, 0), Turn(0, 0), Turn(0, 0), Show(1), Turn(0, 1)]

  lemma AfterThree(plan: Plan, w: World, a: Event, b: Event, c: Event)
    ensures After(plan, w, [a, b, c]) == Next(plan, Next(plan, Next(plan, w, a), b), c)
  {
    AfterOne(plan, w, [], a);
    AfterOne(plan, w, [a], b);
    AfterOne(plan, w, [a, b], c);
    hide After;
    hide Next;
    assert [] + [a] == [a] && [a] + [b] == [a, b] && [a, b] + [c] == [a, b, c];
  }

  lemma {:induction false} BothLook()
    ensures After(ONE_FILE, World([], [Looking, Looking]), [Turn(0, 0), Turn(1, 0), Turn(0, 0)]) ==
      World([NEW_DRAFT], [Polling(4), Creating])
  {
    var p := ONE_FILE;
    AfterThree(p, World([], [Looking, Looking]), Turn(0, 0), Turn(1, 0), Turn(0, 0));
    LookupRules([]);
    StepUnfound(p, [], 0, Looking);
    CreatingStep(p, []);
    hide After;
    hide Step;
    hide Lookup;
    assert [] + [NEW_DRAFT] == [NEW_DRAFT];
    assert Next(p, World([], [Looking, Looking]), Turn(0, 0)) == World([], [Creating, Looking]);
    assert Next(p, World([], [Creating, Looking]), Turn(1, 0)) == World([], [Creating, Creating]);
  }

  lemma {:induction false} BothCreate()
    ensures After(ONE_FILE, World([], [Looking, Looking]), BOTH_CREATE) ==
      World([Shown([]), NEW_DRAFT], [Polling(4), Polling(4)])
  {
    var p, w := ONE_FILE, World([], [Looking, Looking]);
    var look := [Turn(0, 0), Turn(1, 0), Turn(0, 0)];
    BothLook();
    AfterOne(p, w, look, Turn(1, 0));
    AfterOne(p, w, look + [Turn(1, 0)], Show(0));
    CreatingStep(p, [NEW_DRAFT]);
    hide After;
    hide Step;
    assert look + [Turn(1, 0)] + [Show(0)] == BOTH_CREATE;
    assert [NEW_DRAFT] + [NEW_DRAFT] == [NEW_DRAFT, NEW_DRAFT];
    assert Next(p, World([NEW_DRAFT], [Polling(4), Creating]), Turn(1, 0)) == World([NEW_DRAFT, NEW_DRAFT], [Polling(4), Polling(4)]);
  }

  /** While only the first draft is visible, every call hits it. */
  lemma FirstIsFound(assets: seq<Asset>)
    ensures forall c: nat :: Lookup([Shown(assets), NEW_DRAFT], c) == At(0)
  {
    var rs := [Shown(assets), NEW_DRAFT];
    LookupRules(rs);
    assert IsFound(rs, 0);
  }

  lemma {:induction false} FindAndUpload()
    ensures var empty, full := [Shown([]), NEW_DRAFT], [Shown([FILE]), NEW_DRAFT];
      && Step(ONE_FILE, empty, 0, Polling(4)) == (empty, Uploading(["a"]))
      && Step(ONE_FILE, empty, 0, Uploading(["a"])) == (full, Relooking)
  {
    FirstIsFound([]);
    hide Lookup;
    assert Names([]) == [];
    assert Missing([], []) == [] && ["a"][1..] == [];
    assert Missing(["a"], []) == ["a"] && Sort(["a"], Id) == ["a"];
    assert Inspect(ONE_FILE, Shown([])) == Uploading(["a"]);
    assert [] + [FILE] == [FILE];
    assert [Shown([]), NEW_DRAFT][0 := Shown([FILE])] == [Shown([FILE]), NEW_DRAFT];
  }

  lemma {:induction false} RelookAndVerify()
    ensures var full := [Shown([FILE]), NEW_DRAFT];
      && Step(ONE_FILE, full, 0, Relooking) == (full, Verifying(true, ["a"]))
      && Step(ONE_FILE, full, 0, Verifying(true, ["a"])) == (full, Publishing)
  {
    FirstIsFound([FILE]);
    hide Lookup;
    assert Names([FILE]) == ["a"];
    assert |ONE_FILE.expected| == 1;
    assert NamesComplete(ONE_FILE, [FILE]);
    assert DigestMatches(ONE_FILE, [FILE], "a");
  }

  lemma {:induction false} FirstThree()
    ensures var turn := Turn(0, 0);
      After(ONE_FILE, World([Shown([]), NEW_DRAFT], [Polling(4), Polling(4)]), [turn, turn, turn]) ==
      World([Shown([FILE]), NEW_DRAFT], [Verifying(true, ["a"]), Polling(4)])
  {
    var p, turn := ONE_FILE, Turn(0, 0);
    var empty, full := [Shown([]), NEW_DRAFT], [Shown([FILE]), NEW_DRAFT];
    var w := World(empty, [Polling(4), Polling(4)]);
    FindAndUpload();
    RelookAndVerify();
    AfterThree(p, w, turn, turn, turn);
    hide After;
    hide Step;
    assert Next(p, w, turn) == World(empty, [Uploading(["a"]), Polling(4)]);
    assert Next(p, World(empty, [Uploading(["a"]), Polling(4)]), turn) == World(full, [Relooking, Polling(4)]);
  }

  lemma {:induction false} LastThree()
    ensures After(ONE_FILE, World([Shown([FILE]), NEW_DRAFT], [Verifying(true, ["a"]), Polling(4)]),
                  [Turn(0, 0), Show(1), Turn(0, 1)]).releases == [Shown([FILE]), Shown([]).(draft := false)]
  {
    var p := ONE_FILE;
    var full, both := [Shown([FILE]), NEW_DRAFT], [Shown([FILE]), Shown([])];
    var w := World(full, [Verifying(true, ["a"]), Polling(4)]);
    RelookAndVerify();
    AfterThree(p, w, Turn(0, 0), Show(1), Turn(0, 1));
    hide After;
    hide Step;
    assert Next(p, w, Turn(0, 0)) == World(full, [Publishing, Polling(4)]);
    assert Next(p, World(full, [Publishing, Polling(4)]), Show(1)) == World(both, [Publishing, Polling(4)]);
    PublishHits(p, World(both, [Publishing, Polling(4)]), 0, 1);
  }

  /** With two runs and no release at the start, an empty release can be published. */
  lemma {:induction false} TwoRunsPublishIncomplete()
    ensures After(ONE_FILE, World([], [Looking, Looking]), BOTH_CREATE + PUBLISH_OTHER).releases ==
      [Shown([FILE]), Shown([]).(draft := false)]
    ensures !Complete(ONE_FILE, [])
  {
    var p, start, turn := ONE_FILE, World([], [Looking, Looking]), Turn(0, 0);
    BothCreate();
    FirstThree();
    LastThree();
    AfterAppend(p, start, BOTH_CREATE, PUBLISH_OTHER);
    AfterAppend(p, World([Shown([]), NEW_DRAFT], [Polling(4), Polling(4)]), [turn, turn, turn], [turn, Show(1), Turn(0, 1)]);
    hide After;
    assert PUBLISH_OTHER == [turn, turn, turn] + [turn, Show(1), Turn(0, 1)];
    assert !Complete(p, []) by { assert "a" in p.expected && "a" !in Names([]); }
  }
}
