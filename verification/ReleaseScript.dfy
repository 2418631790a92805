/** The publishing code of scripts/release.py, call by call, against the protocol.
    Between its calls anything may happen to the releases. */
module ReleaseScript {
  import opened Prelude
  import opened Ordering
  import Protocol = ReleasePublication
  import opened ReleasePublication

  datatype Answer<T> = Down | Refused | Nothing | Got(value: T)

  /** One call: the releases it met, what it hit if drafts competed, and the releases
      it left. */
  datatype Call = Call(met: seq<Protocol.Release>, choice: nat, left: seq<Protocol.Release>)

  /** The remote, answering `budget` more calls before the run is cut off. */
  class GitHub {
    const quiet: bool                 // nobody else changes the releases
    var releases: seq<Protocol.Release>
    var budget: nat
    ghost const start: seq<Protocol.Release>
    ghost var calls: seq<Call>

    ghost predicate Valid()
      reads this
    {
      quiet ==> Chained(start, calls, releases)
    }

    constructor (quiet: bool, releases: seq<Protocol.Release>, budget: nat)
      ensures Valid() && calls == [] && this.quiet == quiet
      ensures start == this.releases == releases && this.budget == budget
    {
      this.quiet, this.releases, this.budget := quiet, releases, budget;
      start, calls := releases, [];
    }

    /** What every call leaves behind: one call fewer to go and one more made, unless
        already cut off. */
    twostate predicate Called(cut: bool)
      reads this
    {
      && Valid() && cut == (old(budget) == 0)
      && if cut then budget == 0 && releases == old(releases) && calls == old(calls)
         else budget == old(budget) - 1 && |calls| == |old(calls)| + 1
              && calls == old(calls) + [Last()] && Last().left == releases
    }

    ghost function Last(): Call
      reads this
      requires calls != []
    {
      calls[|calls| - 1]
    }

    /** Others do as they like, unless the remote is quiet; and calls that could hit
        several drafts hit any. */
    method Meet() returns (choice: nat)
      modifies this`releases
      ensures quiet ==> releases == old(releases)
    {
      if !quiet {
        releases := *;
      }
      choice := *;
    }

    method Release() returns (answer: Answer<Protocol.Release>)
      requires Valid()
      modifies this
      ensures Called(answer.Down?)
      ensures !answer.Down? ==> Last().left == Last().met
      ensures !answer.Down? ==>
        var f := Lookup(Last().met, Last().choice);
        answer == if f.Absent? then Nothing else if f.Ambiguous? then Refused else Got(Last().met[f.index])
    {
      if budget == 0 { return Down; }
      budget := budget - 1;
      var choice := Meet();
      calls := calls + [Call(releases, choice, releases)];
      var f := Lookup(releases, choice);
      match f {
        case Absent => answer := Nothing;
        case Ambiguous => answer := Refused;
        case At(i) => answer := Got(releases[i]);
      }
    }

    method Create() returns (answer: Answer<()>)
      requires Valid()
      modifies this
      ensures Called(answer.Down?)
      ensures !answer.Down? ==> answer == Got(()) && Last().left == Last().met + [NEW_DRAFT]
    {
      if budget == 0 { return Down; }
      budget := budget - 1;
      var choice := Meet();
      calls := calls + [Call(releases, choice, releases + [NEW_DRAFT])];
      releases := releases + [NEW_DRAFT];
      answer := Got(());
    }

    /** Downloads an asset and compares its digest with the local file's. */
    method SameDigest(plan: Plan, name: string) returns (answer: Answer<()>)
      requires Valid()
      modifies this
      ensures Called(answer.Down?)
      ensures !answer.Down? ==> Last().left == Last().met
      ensures !answer.Down? ==>
        answer == if RemoteMatches(plan, Last().met, Last().choice, name) then Got(()) else Refused
    {
      if budget == 0 { return Down; }
      budget := budget - 1;
      var choice := Meet();
      calls := calls + [Call(releases, choice, releases)];
      answer := if RemoteMatches(plan, releases, choice, name) then Got(()) else Refused;
    }

    method Upload(plan: Plan, name: string) returns (answer: Answer<()>)
      requires Valid()
      modifies this
      ensures Called(answer.Down?)
      ensures !answer.Down? ==>
        var (rs, stage) := Protocol.Upload(plan, Last().met, Last().choice, [name]);
        Last().left == rs && answer == if stage == Failed then Refused else Got(())
    {
      if budget == 0 { return Down; }
      budget := budget - 1;
      var choice := Meet();
      var f := Lookup(releases, choice);
      if !f.At? || name !in plan.expected || name in Names(releases[f.index].assets) {
        calls := calls + [Call(releases, choice, releases)];
        return Refused;
      }
      var r := releases[f.index];
      var updated := releases[f.index := r.(assets := r.assets + [Asset(name, plan.expected[name])])];
      calls := calls + [Call(releases, choice, updated)];
      releases := updated;
      answer := Got(());
    }

    method Publish() returns (answer: Answer<()>)
      requires Valid()
      modifies this
      ensures Called(answer.Down?)
      ensures !answer.Down? ==>
        var (rs, stage) := Protocol.Publish(Last().met, Last().choice);
        Last().left == rs && answer == if stage == Done then Got(()) else Refused
    {
      if budget == 0 { return Down; }
      budget := budget - 1;
      var choice := Meet();
      var f := Lookup(releases, choice);
      if !f.At? {
        calls := calls + [Call(releases, choice, releases)];
        return Refused;
      }
      var updated := releases[f.index := releases[f.index].(draft := false)];
      calls := calls + [Call(releases, choice, updated)];
      releases := updated;
      answer := Got(());
    }
  }

  // ---------------------------------------------------------------------------
  // Calls and the protocol
  // ---------------------------------------------------------------------------

  /** Each call met what the one before left. */
  ghost predicate Chained(start: seq<Protocol.Release>, calls: seq<Call>, end: seq<Protocol.Release>)
    decreases |calls|
  {
    if calls == [] then start == end
    else
      var n := |calls| - 1;
      calls[n].left == end && Chained(start, calls[..n], calls[n].met)
  }

  /** The stage of a run after these calls. */
  ghost function StageAfter(plan: Plan, calls: seq<Call>): Stage
    decreases |calls|
  {
    if calls == [] then Looking
    else
      var n := |calls| - 1;
      Step(plan, calls[n].met, calls[n].choice, StageAfter(plan, calls[..n])).1
  }

  /** Every call left what one step of the protocol leaves of what it met. */
  ghost predicate Obeys(plan: Plan, calls: seq<Call>)
    decreases |calls|
  {
    calls == [] ||
    var n := |calls| - 1;
    && calls[n].left == Step(plan, calls[n].met, calls[n].choice, StageAfter(plan, calls[..n])).0
    && Obeys(plan, calls[..n])
  }

  function Choices(calls: seq<Call>): (r: seq<nat>)
    ensures |r| == |calls| && forall k :: 0 <= k < |r| ==> r[k] == calls[k].choice
  {
    seq(|calls|, k requires 0 <= k < |calls| => calls[k].choice)
  }

  lemma {:induction false} StepsMore(plan: Plan, rs: seq<Protocol.Release>, stage: Stage, choices: seq<nat>, c: nat)
    ensures var (rs', next) := Steps(plan, rs, stage, choices);
      Steps(plan, rs, stage, choices + [c]) == Step(plan, rs', c, next)
    decreases |choices|
  {
    hide Step;
    if choices == [] {
      assert [] + [c] == [c] && [c][1..] == [];
    } else {
      assert (choices + [c])[1..] == choices[1..] + [c];
      var (rs', next) := Step(plan, rs, choices[0], stage);
      StepsMore(plan, rs', next, choices[1..], c);
    }
  }

  /** Undisturbed calls make an undisturbed run. */
  lemma {:induction false} UndisturbedCalls(plan: Plan, start: seq<Protocol.Release>, calls: seq<Call>, end: seq<Protocol.Release>)
    requires Obeys(plan, calls) && Chained(start, calls, end)
    ensures Steps(plan, start, Looking, Choices(calls)) == (end, StageAfter(plan, calls))
    decreases |calls|
  {
    hide Step;
    if calls != [] {
      var n := |calls| - 1;
      UndisturbedCalls(plan, start, calls[..n], calls[n].met);
      StepsMore(plan, start, Looking, Choices(calls[..n]), calls[n].choice);
      assert Choices(calls) == Choices(calls[..n]) + [calls[n].choice];
    }
  }

  datatype Verdict = Going | Interrupted | Refusal | Published

  /** All calls so far obey the protocol and have led to `stage`. */
  ghost predicate Tracks(plan: Plan, remote: GitHub, stage: Stage)
    reads remote
  {
    remote.Valid() && Obeys(plan, remote.calls) && StageAfter(plan, remote.calls) == stage
  }

  /** How a part of the run reports back. */
  ghost predicate Reports(plan: Plan, remote: GitHub, verdict: Verdict, next: Stage)
    reads remote
  {
    match verdict
    case Going => Tracks(plan, remote, next)
    case Interrupted => Tracks(plan, remote, StageAfter(plan, remote.calls)) && !Ended(StageAfter(plan, remote.calls)) && remote.budget == 0
    case Refusal => Tracks(plan, remote, Failed)
    case Published => Tracks(plan, remote, Done)
  }

  /** One more call, as the protocol has it. */
  lemma OneCall(plan: Plan, before: seq<Call>, calls: seq<Call>, stage: Stage)
    requires Obeys(plan, before) && StageAfter(plan, before) == stage
    requires |calls| == |before| + 1 && calls == before + [calls[|before|]]
    requires calls[|before|].left == Step(plan, calls[|before|].met, calls[|before|].choice, stage).0
    ensures Obeys(plan, calls)
    ensures StageAfter(plan, calls) == Step(plan, calls[|before|].met, calls[|before|].choice, stage).1
  {
    assert calls[..|before|] == before;
    hide Step;
  }

  // ---------------------------------------------------------------------------
  // What the calls of each part look like
  // ---------------------------------------------------------------------------

  /** The release a call hit. */
  ghost function Hit(call: Call): Protocol.Release
    requires Lookup(call.met, call.choice).At?
  {
    call.met[Lookup(call.met, call.choice).index]
  }

  /** A lookup found nothing, a draft was created, and all lookups since then found
      nothing. */
  ghost predicate CreatedInVain(s: seq<Call>) {
    && |s| >= 2 && s[1].left == s[1].met + [Protocol.Release(true, false, false, [])]
    && forall k :: 0 <= k < |s| && k != 1 ==> Lookup(s[k].met, s[k].choice).Absent? && s[k].left == s[k].met
  }

  /** One call for each name, and each found the expected digest. */
  ghost predicate Compared(plan: Plan, s: seq<Call>, names: seq<string>) {
    && |s| == |names|
    && forall k :: 0 <= k < |s| ==> RemoteMatches(plan, s[k].met, s[k].choice, names[k]) && s[k].left == s[k].met
  }

  /** The last of these calls found another digest, or none. */
  ghost predicate Mismatched(plan: Plan, s: seq<Call>, names: seq<string>) {
    0 < |s| <= |names| && !RemoteMatches(plan, s[|s| - 1].met, s[|s| - 1].choice, names[|s| - 1])
  }

  /** Whether an upload of this name is refused: nothing is hit, or what is hit has
      an asset of the name. */
  ghost predicate UploadRefused(plan: Plan, call: Call, name: string) {
    !Lookup(call.met, call.choice).At? || name !in plan.expected || name in Names(Hit(call).assets)
  }

  /** The call added the asset to what it hit. */
  ghost predicate Uploaded(plan: Plan, call: Call, name: string) {
    && !UploadRefused(plan, call, name)
    && call.left == call.met[Lookup(call.met, call.choice).index :=
         Hit(call).(assets := Hit(call).assets + [Asset(name, plan.expected[name])])]
  }

  ghost predicate AllUploaded(plan: Plan, s: seq<Call>, names: seq<string>) {
    |s| == |names| && forall k :: 0 <= k < |s| ==> Uploaded(plan, s[k], names[k])
  }

  ghost predicate NotUploaded(plan: Plan, s: seq<Call>, names: seq<string>) {
    0 < |s| <= |names| && UploadRefused(plan, s[|s| - 1], names[|s| - 1])
  }

  /** The lookups that found `seen`: at once, or among four lookups after a creation. */
  ghost predicate Finds(s: seq<Call>, seen: Protocol.Release) {
    && s != [] && Lookup(s[|s| - 1].met, s[|s| - 1].choice).At? && seen == Hit(s[|s| - 1])
    && (|s| == 1 || (3 <= |s| <= 6 && CreatedInVain(s[..|s| - 1])))
  }

  /** The last lookup was ambiguous, or the fourth after a creation found nothing. */
  ghost predicate FindsNone(s: seq<Call>) {
    s != [] && (Lookup(s[|s| - 1].met, s[|s| - 1].choice).Ambiguous? || (|s| == 6 && CreatedInVain(s)))
  }

  /** Stable, and its assets have distinct expected names. */
  ghost predicate Acceptable(plan: Plan, seen: Protocol.Release) {
    && !seen.prerelease
    && (forall i, j :: 0 <= i < j < |seen.assets| ==> seen.assets[i].name != seen.assets[j].name)
    && forall i :: 0 <= i < |seen.assets| ==> seen.assets[i].name in plan.expected
  }

  /** The names the release has, and those it lacks, each in sorted order. */
  ghost function Existing(seen: Protocol.Release): seq<string> { Sort(Names(seen.assets), Id) }

  ghost function Lacking(plan: Plan, seen: Protocol.Release): seq<string> {
    Sort(Missing(plan.order, Names(seen.assets)), Id)
  }

  /** Every asset of the release was compared, and every file it lacks uploaded; a
      published release lacks none. */
  ghost predicate CheckedAndUploaded(plan: Plan, seen: Protocol.Release, a: seq<Call>, b: seq<Call>) {
    && Acceptable(plan, seen) && Compared(plan, a, Existing(seen)) && AllUploaded(plan, b, Lacking(plan, seen))
    && (!seen.draft ==> Lacking(plan, seen) == [])
  }

  /** Which of the checks stopped the run, or that an upload did. */
  ghost predicate NotCheckedOrUploaded(plan: Plan, seen: Protocol.Release, a: seq<Call>, b: seq<Call>) {
    if !Acceptable(plan, seen) then a == [] && b == []
    else
      || (Mismatched(plan, a, Existing(seen)) && b == [])
      || (Compared(plan, a, Existing(seen))
          && if !seen.draft then b == [] && Lacking(plan, seen) != [] else NotUploaded(plan, b, Lacking(plan, seen)))
  }

  /** A lookup found all expected names; then every expected file was compared, in
      order, and found as expected; then a draft, and only a draft, was published. */
  ghost predicate VerifiedAndPublished(plan: Plan, look: Call, c: seq<Call>, d: seq<Call>) {
    && Lookup(look.met, look.choice).At? && NamesComplete(plan, Hit(look).assets) && look.left == look.met
    && Compared(plan, c, plan.order)
    && if !Hit(look).draft then d == []
       else |d| == 1 && Lookup(d[0].met, d[0].choice).At?
            && d[0].left == d[0].met[Lookup(d[0].met, d[0].choice).index := Hit(d[0]).(draft := false)]
  }

  /** The lookup found nothing or not all names, or a file differs, or the call to
      publish hit nothing. */
  ghost predicate NotVerifiedOrPublished(plan: Plan, look: Call, c: seq<Call>, d: seq<Call>) {
    if !Lookup(look.met, look.choice).At? || !NamesComplete(plan, Hit(look).assets) then c == [] && d == []
    else
      || (Mismatched(plan, c, plan.order) && d == [])
      || (Compared(plan, c, plan.order) && Hit(look).draft && |d| == 1 && !Lookup(d[0].met, d[0].choice).At?)
  }

  lemma {:induction false} LookedFirst(call: Call)
    ensures Lookup(call.met, call.choice).At? ==> Finds([call], Hit(call))
    ensures Lookup(call.met, call.choice).Ambiguous? ==> FindsNone([call])
  {
  }

  lemma {:induction false} LookedAgain(s: seq<Call>, call: Call)
    requires CreatedInVain(s) && |s| <= 5 && call.left == call.met
    ensures Lookup(call.met, call.choice).At? ==> Finds(s + [call], Hit(call))
    ensures Lookup(call.met, call.choice).Ambiguous? ==> FindsNone(s + [call])
    ensures Lookup(call.met, call.choice).Absent? ==> CreatedInVain(s + [call]) && (|s| == 5 ==> FindsNone(s + [call]))
  {
    hide Lookup;
    var t := s + [call];
    assert t[..|t| - 1] == s;
  }

  lemma {:induction false} OneCompared(plan: Plan, s: seq<Call>, call: Call, names: seq<string>)
    requires |s| < |names| && Compared(plan, s, names[..|s|])
    ensures RemoteMatches(plan, call.met, call.choice, names[|s|]) && call.left == call.met ==>
      Compared(plan, s + [call], names[..|s| + 1])
    ensures !RemoteMatches(plan, call.met, call.choice, names[|s|]) ==> Mismatched(plan, s + [call], names)
  {
    hide RemoteMatches;
  }

  lemma {:induction false} OneUploaded(plan: Plan, s: seq<Call>, call: Call, names: seq<string>)
    requires |s| < |names| && AllUploaded(plan, s, names[..|s|])
    ensures Uploaded(plan, call, names[|s|]) ==> AllUploaded(plan, s + [call], names[..|s| + 1])
    ensures UploadRefused(plan, call, names[|s|]) ==> NotUploaded(plan, s + [call], names)
  {
    hide Uploaded;
    hide UploadRefused;
  }

  // ---------------------------------------------------------------------------
  // The code
  // ---------------------------------------------------------------------------

  /** Looks the release up, creating a draft if there is none and then reading
      four times at most. */
  method FindOrCreate(remote: GitHub, plan: Plan) returns (verdict: Verdict, seen: Release, ghost s: seq<Call>)
    requires Tracks(plan, remote, Looking)
    modifies remote
    ensures !verdict.Published? && Reports(plan, remote, verdict, Inspect(plan, seen))
    ensures remote.calls == old(remote.calls) + s
    ensures verdict.Going? ==> Finds(s, seen)
    ensures verdict.Refusal? ==> FindsNone(s)
  {
    hide Finds;
    hide FindsNone;
    s := [];
    hide Inspect;
    hide Lookup;
    hide StageAfter;
    hide Obeys;
    seen := NEW_DRAFT;
    ghost var beforeFirst := remote.calls;
    var answer := remote.Release();
    match answer {
      case Down => return Interrupted, seen, s;
      case _ => OneCall(plan, beforeFirst, remote.calls, Looking);
    }
    s := [remote.Last()];
    LookedFirst(remote.Last());
    match answer {
      case Refused => return Refusal, seen, s;
      case Got(r) => return Going, r, s;
      case Nothing =>
    }
    ghost var beforeSecond := remote.calls;
    var created := remote.Create();
    if created.Down? {
      return Interrupted, seen, s;
    }
    OneCall(plan, beforeSecond, remote.calls, Creating);
    s := s + [remote.Last()];
    assert CreatedInVain(s);
    hide CreatedInVain;
    var left := 4;
    while left > 0
      invariant 0 <= left <= 4
      invariant Tracks(plan, remote, if left > 0 then Polling(left) else Failed)
      invariant remote.calls == old(remote.calls) + s && |s| == 6 - left && CreatedInVain(s)
      invariant left == 0 ==> FindsNone(s)
    {
      ghost var beforePoll := remote.calls;
      answer := remote.Release();
      match answer {
        case Down => return Interrupted, seen, s;
        case _ => OneCall(plan, beforePoll, remote.calls, Polling(left));
      }
      LookedAgain(s, remote.Last());
      s := s + [remote.Last()];
      match answer {
        case Refused => return Refusal, seen, s;
        case Got(r) => return Going, r, s;
        case Nothing =>
      }
      left := left - 1;
    }
    return Refusal, seen, s;
  }

  /** Compares the digest of every existing asset. */
  method CheckExisting(remote: GitHub, plan: Plan, seen: Release, names: seq<string>) returns (verdict: Verdict, ghost s: seq<Call>)
    requires Tracks(plan, remote, if names == [] then AfterExisting(plan, seen) else CheckingExisting(seen, names))
    modifies remote
    ensures !verdict.Published? && Reports(plan, remote, verdict, AfterExisting(plan, seen))
    ensures remote.calls == old(remote.calls) + s
    ensures verdict.Going? ==> Compared(plan, s, names)
    ensures verdict.Refusal? ==> Mismatched(plan, s, names)
  {
    s := [];
    NoneCompared(plan);
    hide Compared;
    hide Mismatched;
    hide AfterExisting;
    hide RemoteMatches;
    hide StageAfter;
    hide Obeys;
    assert names[0..] == names;
    assert names[..0] == [] && names[..|names|] == names;
    for k := 0 to |names|
      invariant Tracks(plan, remote, if k == |names| then AfterExisting(plan, seen) else CheckingExisting(seen, names[k..]))
      invariant remote.calls == old(remote.calls) + s && |s| == k && Compared(plan, s, names[..k])
    {
      ghost var before := remote.calls;
      var answer := remote.SameDigest(plan, names[k]);
      if answer.Down? {
        return Interrupted, s;
      }
      OneCall(plan, before, remote.calls, CheckingExisting(seen, names[k..]));
      OneCompared(plan, s, remote.Last(), names);
      s := s + [remote.Last()];
      if answer.Refused? {
        return Refusal, s;
      }
      assert names[k..][1..] == names[k + 1..];
    }
    return Going, s;
  }

  /** Uploading the first of several names is uploading it alone, and going on. */
  lemma UploadFirst(plan: Plan, rs: seq<Protocol.Release>, choice: nat, todo: seq<string>)
    requires todo != []
    ensures var (one, all) := (Protocol.Upload(plan, rs, choice, [todo[0]]), Protocol.Upload(plan, rs, choice, todo));
      && one.0 == all.0
      && all.1 == if one.1 == Failed then Failed else if |todo| == 1 then Relooking else Uploading(todo[1..])
  {
  }

  /** Uploads every missing asset. */
  method UploadMissing(remote: GitHub, plan: Plan, names: seq<string>) returns (verdict: Verdict, ghost s: seq<Call>)
    requires Tracks(plan, remote, if names == [] then Relooking else Uploading(names))
    modifies remote
    ensures !verdict.Published? && Reports(plan, remote, verdict, Relooking)
    ensures remote.calls == old(remote.calls) + s
    ensures verdict.Going? ==> AllUploaded(plan, s, names)
    ensures verdict.Refusal? ==> NotUploaded(plan, s, names)
  {
    s := [];
    NoneUploaded(plan);
    hide Lookup;
    hide StageAfter;
    hide Obeys;
    hide AllUploaded;
    hide NotUploaded;
    hide Protocol.Upload;
    assert names[0..] == names;
    assert names[..0] == [] && names[..|names|] == names;
    for k := 0 to |names|
      invariant Tracks(plan, remote, if k == |names| then Relooking else Uploading(names[k..]))
      invariant remote.calls == old(remote.calls) + s && |s| == k && AllUploaded(plan, s, names[..k])
    {
      ghost var before := remote.calls;
      var answer := remote.Upload(plan, names[k]);
      if answer.Down? {
        return Interrupted, s;
      }
      UploadFirst(plan, remote.Last().met, remote.Last().choice, names[k..]);
      UploadAnswer(plan, remote.Last(), names[k]);
      OneCall(plan, before, remote.calls, Uploading(names[k..]));
      OneUploaded(plan, s, remote.Last(), names);
      s := s + [remote.Last()];
      if answer.Refused? {
        return Refusal, s;
      }
      assert names[k..][1..] == names[k + 1..];
    }
    return Going, s;
  }

  /** Compares the digest of every expected asset. */
  method VerifyAll(remote: GitHub, plan: Plan, draft: bool) returns (verdict: Verdict, ghost s: seq<Call>)
    requires Tracks(plan, remote, if plan.order == [] then AfterVerify(draft) else Verifying(draft, plan.order))
    modifies remote
    ensures !verdict.Published? && Reports(plan, remote, verdict, AfterVerify(draft))
    ensures remote.calls == old(remote.calls) + s
    ensures verdict.Going? ==> Compared(plan, s, plan.order)
    ensures verdict.Refusal? ==> Mismatched(plan, s, plan.order)
  {
    s := [];
    NoneCompared(plan);
    hide Compared;
    hide Mismatched;
    hide RemoteMatches;
    hide StageAfter;
    hide Obeys;
    var names := plan.order;
    assert names[0..] == names;
    assert names[..0] == [] && names[..|names|] == names;
    for k := 0 to |names|
      invariant Tracks(plan, remote, if k == |names| then AfterVerify(draft) else Verifying(draft, names[k..]))
      invariant remote.calls == old(remote.calls) + s && |s| == k && Compared(plan, s, names[..k])
    {
      ghost var before := remote.calls;
      var answer := remote.SameDigest(plan, names[k]);
      if answer.Down? {
        return Interrupted, s;
      }
      OneCall(plan, before, remote.calls, Verifying(draft, names[k..]));
      OneCompared(plan, s, remote.Last(), names);
      s := s + [remote.Last()];
      if answer.Refused? {
        return Refusal, s;
      }
      assert names[k..][1..] == names[k + 1..];
    }
    return Going, s;
  }

  /** The second half: look again, verify, publish. */
  method VerifyAndPublish(remote: GitHub, plan: Plan)
    returns (verdict: Verdict, ghost look: seq<Call>, ghost c: seq<Call>, ghost d: seq<Call>)
    requires Tracks(plan, remote, Relooking)
    modifies remote
    ensures !verdict.Going? && Reports(plan, remote, verdict, Done)
    ensures remote.calls == old(remote.calls) + look + c + d
    ensures verdict.Published? ==> |look| == 1 && VerifiedAndPublished(plan, look[0], c, d)
    ensures verdict.Refusal? ==> |look| == 1 && NotVerifiedOrPublished(plan, look[0], c, d)
  {
    look, c, d := [], [], [];
    hide Lookup;
    hide NamesComplete;
    hide Compared;
    hide Mismatched;
    hide StageAfter;
    hide Obeys;
    ghost var beforeFirst := remote.calls;
    var answer := remote.Release();
    if answer.Down? {
      verdict := Interrupted;
      return;
    }
    OneCall(plan, beforeFirst, remote.calls, Relooking);
    look := [remote.Last()];
    if !answer.Got? || !NamesComplete(plan, answer.value.assets) {
      verdict := Refusal;
      return;
    }
    var current := answer.value;
    verdict, c := VerifyAll(remote, plan, current.draft);
    if !verdict.Going? {
      return;
    }
    if current.draft {
      ghost var beforeSecond := remote.calls;
      var published := remote.Publish();
      if published.Down? {
        verdict := Interrupted;
        return;
      }
      OneCall(plan, beforeSecond, remote.calls, Publishing);
      d := [remote.Last()];
      if published.Refused? {
        verdict := Refusal;
        return;
      }
    }
    verdict := Published;
  }

  /** The first half: the local checks, the digests of what exists, the uploads. */
  method CheckAndUpload(remote: GitHub, plan: Plan, seen: Release) returns (verdict: Verdict, ghost a: seq<Call>, ghost b: seq<Call>)
    requires Tracks(plan, remote, Inspect(plan, seen))
    modifies remote
    ensures !verdict.Published? && Reports(plan, remote, verdict, Relooking)
    ensures remote.calls == old(remote.calls) + a + b
    ensures verdict.Going? ==> CheckedAndUploaded(plan, seen, a, b)
    ensures verdict.Refusal? ==> NotCheckedOrUploaded(plan, seen, a, b)
  {
    a, b := [], [];
    AcceptableNames(plan, seen);
    hide Acceptable;
    hide Compared;
    hide Mismatched;
    hide AllUploaded;
    hide StageAfter;
    hide Obeys;
    var names := Names(seen.assets);
    if seen.prerelease {
      verdict := Refusal;
      return;
    }
    if !Distinct(names) || !(forall n :: n in names ==> n in plan.expected) {
      verdict := Refusal;
      return;
    }
    var existing := Sort(names, Id);
    SortedNames(names);
    hide Distinct;
    hide Sort;
    hide Names;
    hide Inspect;
    verdict, a := CheckExisting(remote, plan, seen, existing);
    if !verdict.Going? {
      return;
    }
    var missing := Sort(Missing(plan.order, names), Id);
    if missing != [] && !seen.draft {
      verdict := Refusal;
      return;
    }
    verdict, b := UploadMissing(remote, plan, missing);
  }

  lemma {:induction false} NoneCompared(plan: Plan)
    ensures Compared(plan, [], [])
  {
  }

  lemma {:induction false} NoneUploaded(plan: Plan)
    ensures AllUploaded(plan, [], [])
  {
  }

  lemma {:induction false} AcceptableNames(plan: Plan, seen: Protocol.Release)
    ensures Acceptable(plan, seen) <==>
      !seen.prerelease && Distinct(Names(seen.assets)) && forall n :: n in Names(seen.assets) ==> n in plan.expected
  {
    var names := Names(seen.assets);
    assert forall i :: 0 <= i < |names| ==> names[i] == seen.assets[i].name && names[i] in names;
  }

  lemma {:induction false} UploadAnswer(plan: Plan, call: Call, name: string)
    requires call.left == Protocol.Upload(plan, call.met, call.choice, [name]).0
    ensures if Protocol.Upload(plan, call.met, call.choice, [name]).1 == Failed then UploadRefused(plan, call, name)
            else Uploaded(plan, call, name)
  {
    hide Lookup;
  }

  /** The calls of a successful run: finding the release, comparing its assets,
      uploading what it lacks, looking again, comparing all files, publishing. */
  ghost predicate RunSucceeds(plan: Plan, s: seq<Call>, seen: Protocol.Release, a: seq<Call>, b: seq<Call>, look: Call, c: seq<Call>, d: seq<Call>) {
    Finds(s, seen) && CheckedAndUploaded(plan, seen, a, b) && VerifiedAndPublished(plan, look, c, d)
  }

  /** Calls of a run that fails, in one of its three parts. */
  ghost predicate RunFails(plan: Plan, s: seq<Call>, seen: Protocol.Release, a: seq<Call>, b: seq<Call>, look: seq<Call>, c: seq<Call>, d: seq<Call>) {
    || (FindsNone(s) && a + b + look + c + d == [])
    || (Finds(s, seen) && NotCheckedOrUploaded(plan, seen, a, b) && look + c + d == [])
    || (Finds(s, seen) && CheckedAndUploaded(plan, seen, a, b) && |look| == 1 && NotVerifiedOrPublished(plan, look[0], c, d))
  }

  lemma {:induction false} FilesCompared(plan: Plan, look: Call, c: seq<Call>, d: seq<Call>)
    requires VerifiedAndPublished(plan, look, c, d)
    ensures |c| == |plan.order| && |d| <= 1
    ensures forall i :: 0 <= i < |plan.order| ==> RemoteMatches(plan, c[i].met, c[i].choice, plan.order[i])
  {
    hide RemoteMatches;
    hide NamesComplete;
    hide Lookup;
  }

  /** The three parts of a run give its outcome. */
  lemma {:induction false} WholeRun(plan: Plan, verdict: Verdict, s: seq<Call>, seen: Protocol.Release, a: seq<Call>, b: seq<Call>,
                                    look: seq<Call>, c: seq<Call>, d: seq<Call>)
    requires verdict.Published? ==>
      |look| == 1 && Finds(s, seen) && CheckedAndUploaded(plan, seen, a, b) && VerifiedAndPublished(plan, look[0], c, d)
    requires verdict.Refusal? ==>
      || (FindsNone(s) && a == b == look == c == d == [])
      || (Finds(s, seen) && NotCheckedOrUploaded(plan, seen, a, b) && look == c == d == [])
      || (Finds(s, seen) && CheckedAndUploaded(plan, seen, a, b) && |look| == 1 && NotVerifiedOrPublished(plan, look[0], c, d))
    ensures verdict.Published? ==> |look| == 1 && RunSucceeds(plan, s, seen, a, b, look[0], c, d)
    ensures verdict.Refusal? ==> RunFails(plan, s, seen, a, b, look, c, d)
  {
    hide Finds;
    hide FindsNone;
    hide CheckedAndUploaded;
    hide NotCheckedOrUploaded;
    hide VerifiedAndPublished;
    hide NotVerifiedOrPublished;
  }

  /** What follows when a release was found or created. */
  method CompleteRelease(remote: GitHub, plan: Plan, seen: Release)
    returns (verdict: Verdict, ghost a: seq<Call>, ghost b: seq<Call>, ghost look: seq<Call>, ghost c: seq<Call>, ghost d: seq<Call>)
    requires Tracks(plan, remote, Inspect(plan, seen))
    modifies remote
    ensures !verdict.Going? && Reports(plan, remote, verdict, Done)
    ensures remote.calls == old(remote.calls) + (a + b + (look + c + d))
    ensures verdict.Published? ==> |look| == 1 && CheckedAndUploaded(plan, seen, a, b) && VerifiedAndPublished(plan, look[0], c, d)
    ensures verdict.Published? ==> |c| == |plan.order| && |d| <= 1
    ensures verdict.Published? ==>
      forall i :: 0 <= i < |plan.order| ==> RemoteMatches(plan, c[i].met, c[i].choice, plan.order[i])
    ensures verdict.Refusal? ==>
      || (NotCheckedOrUploaded(plan, seen, a, b) && look == c == d == [])
      || (CheckedAndUploaded(plan, seen, a, b) && |look| == 1 && NotVerifiedOrPublished(plan, look[0], c, d))
  {
    hide Inspect;
    hide StageAfter;
    hide Obeys;
    hide CheckedAndUploaded;
    hide NotCheckedOrUploaded;
    hide NotVerifiedOrPublished;
    hide VerifiedAndPublished;
    hide RemoteMatches;
    look, c, d := [], [], [];
    verdict, a, b := CheckAndUpload(remote, plan, seen);
    if verdict.Going? {
      verdict, look, c, d := VerifyAndPublish(remote, plan);
      if verdict.Published? {
        FilesCompared(plan, look[0], c, d);
      }
    }
  }

  /** The whole run, cut off after any number of calls, whatever happens between them:
      each call does to the releases it meets what the protocol's next step does, and
      the verdict says where the run stands then. Undisturbed, it is `Steps`. */
  method PublishComplete(remote: GitHub, plan: Plan)
    returns (verdict: Verdict, ghost seen: Protocol.Release, ghost s: seq<Call>, ghost a: seq<Call>, ghost b: seq<Call>,
             ghost look: seq<Call>, ghost c: seq<Call>, ghost d: seq<Call>)
    requires remote.Valid() && remote.calls == []
    modifies remote
    ensures Obeys(plan, remote.calls)
    ensures var stage := StageAfter(plan, remote.calls);
      && verdict == (if stage == Done then Published else if stage == Failed then Refusal else Interrupted)
      && (verdict.Interrupted? ==> remote.budget == 0)
      && (remote.quiet ==> Steps(plan, remote.start, Looking, Choices(remote.calls)) == (remote.releases, stage))
    // success and failure, in terms of the calls alone
    ensures remote.calls == s + a + b + look + c + d
    ensures verdict.Published? ==> |look| == 1 && RunSucceeds(plan, s, seen, a, b, look[0], c, d)
    ensures verdict.Refusal? ==> RunFails(plan, s, seen, a, b, look, c, d)
    // in particular, every expected file was compared since the last lookup
    ensures verdict.Published? ==> |c| == |plan.order| && |d| <= 1
    ensures verdict.Published? ==>
      forall i :: 0 <= i < |plan.order| ==> RemoteMatches(plan, c[i].met, c[i].choice, plan.order[i])
  {
    assert Tracks(plan, remote, Looking);
    hide Inspect;
    hide Steps;
    hide StageAfter;
    hide Obeys;
    hide Finds;
    hide FindsNone;
    hide CheckedAndUploaded;
    hide NotCheckedOrUploaded;
    hide NotVerifiedOrPublished;
    hide VerifiedAndPublished;
    hide RemoteMatches;
    hide RunSucceeds;
    hide RunFails;
    a, b, look, c, d := [], [], [], [], [];
    var found;
    verdict, found, s := FindOrCreate(remote, plan);
    seen := found;
    if verdict.Going? {
      verdict, a, b, look, c, d := CompleteRelease(remote, plan, found);
    }
    InOneRow(s, a, b, look, c, d);
    WholeRun(plan, verdict, s, seen, a, b, look, c, d);
    if remote.quiet {
      UndisturbedCalls(plan, remote.start, remote.calls, remote.releases);
    }
  }

  lemma InOneRow(s: seq<Call>, a: seq<Call>, b: seq<Call>, look: seq<Call>, c: seq<Call>, d: seq<Call>)
    ensures [] + s + (a + b + (look + c + d)) == s + a + b + look + c + d
    ensures a == b == look == c == d == [] ==> s + (a + b + (look + c + d)) == s
  {
  }
}
