/** Creating a dedicated repository with undo (internal/cli/guided_init.go). Every
    filesystem call can fail, and between calls anything else on the machine may
    change the disk. */
module DedicatedRepository {
  import opened Prelude

  type Inode = nat

  /** What a name in a directory stands for. */
  datatype Entry = Nothing | Directory(inode: Inode) | Symlink(inode: Inode) | File(inode: Inode)

  /** The directory the parent path leads to, what each possible parent directory
      holds under the target's name, and the names in each directory. */
  datatype Disk = Disk(parentPath: Inode, targetIn: map<Inode, Entry>, names: map<Inode, set<string>>, nextInode: Inode) {
    function EntryIn(parent: Inode): Entry {
      if parent in targetIn then targetIn[parent] else Nothing
    }

    /** The target as the path sees it. */
    function Target(): Entry { EntryIn(parentPath) }

    function NamesIn(inode: Inode): set<string> {
      if inode in names then names[inode] else {}
    }

    function TargetNames(): set<string> {
      if Target().Directory? then NamesIn(Target().inode) else {}
    }
  }

  const GIT := ".git"

  datatype TargetState = Missing | Empty | Git

  /** The plan made by inspecting the target. */
  datatype Observation = Observation(state: TargetState, parentIdentity: Inode, targetIdentity: Inode)

  /** What the call itself removed: from which directory, which names, and what the
      last listing had shown. */
  datatype Removal = WholeTarget | FromDirectory(inode: Inode, lost: set<string>, listed: set<string>)

  /** What the caller is told. */
  datatype Outcome =
    | Ready
    | Refused
    | CreationFailed(cleaned: bool)

  // ---------------------------------------------------------------------------
  // The machine
  // ---------------------------------------------------------------------------

  class Machine {
    const quiet: bool                 // nothing else touches the disk
    var disk: Disk
    ghost var removals: seq<Removal>
    ghost var faulted: bool           // a call failed without the disk being the reason

    constructor (quiet: bool, disk: Disk)
      ensures this.quiet == quiet && this.disk == disk && removals == [] && !faulted
    {
      this.quiet, this.disk, removals, faulted := quiet, disk, [], false;
    }

    /** Other processes do as they like, unless the machine is quiet. */
    method Interfere()
      modifies this`disk
      ensures quiet ==> disk == old(disk)
    {
      if !quiet {
        disk := *;
      }
    }

    /** The inspection; on a machine that is not quiet it may be outdated at once. */
    method Inspect() returns (planned: Option<Observation>)
      modifies this`disk, this`faulted
      ensures old(faulted) ==> faulted
      ensures quiet ==> disk == old(disk)
      ensures quiet && !faulted ==>
        (planned.Some? <==> disk.Target() == Nothing || (disk.Target().Directory? && (disk.TargetNames() == {} || GIT in disk.TargetNames())))
      ensures planned.Some? && planned.value.state == Git ==> GIT in disk.TargetNames()
      ensures planned.Some? ==> planned.value.parentIdentity == disk.parentPath
      ensures planned.Some? ==>
        match planned.value.state
        case Missing => disk.Target() == Nothing
        case Empty => disk.Target() == Directory(planned.value.targetIdentity) && disk.TargetNames() == {}
        case Git => disk.Target() == Directory(planned.value.targetIdentity)
    {
      Interfere();
      if * { faulted := true; return None; }
      match disk.Target() {
        case Nothing => planned := Some(Observation(Missing, disk.parentPath, 0));
        case Directory(inode) =>
          if GIT in disk.NamesIn(inode) {
            planned := Some(Observation(Git, disk.parentPath, inode));
          } else if disk.NamesIn(inode) == {} {
            planned := Some(Observation(Empty, disk.parentPath, inode));
          } else {
            planned := None;
          }
        case _ => planned := None;
      }
    }

    /** Pins the directory the parent path leads to now. */
    method OpenParent() returns (parent: Option<Inode>)
      modifies this`disk, this`faulted
      ensures old(faulted) ==> faulted
      ensures quiet ==> disk == old(disk)
      ensures parent.Some? ==> parent.value == disk.parentPath
      ensures !faulted ==> parent.Some?
    {
      Interfere();
      if * { faulted := true; return None; }
      parent := Some(disk.parentPath);
    }

    /** The directory the parent path leads to now. */
    method ParentIdentity() returns (identity: Option<Inode>)
      modifies this`disk, this`faulted
      ensures old(faulted) ==> faulted
      ensures quiet ==> disk == old(disk)
      ensures identity.Some? ==> identity.value == disk.parentPath
      ensures !faulted ==> identity.Some?
    {
      Interfere();
      if * { faulted := true; return None; }
      identity := Some(disk.parentPath);
    }

    /** Makes the target in the pinned parent; fails if the name is taken. */
    method Mkdir(parent: Inode) returns (ok: bool)
      modifies this`disk, this`faulted
      ensures old(faulted) ==> faulted
      ensures quiet && !ok ==> disk == old(disk)
      ensures quiet && !faulted ==> (ok <==> old(disk).EntryIn(parent) == Nothing)
      ensures quiet && ok ==> old(disk).EntryIn(parent) == Nothing && disk.parentPath == old(disk).parentPath
                              && disk.EntryIn(parent).Directory? && disk.NamesIn(disk.EntryIn(parent).inode) == {}
    {
      Interfere();
      if * { faulted := true; return false; }
      if disk.EntryIn(parent) != Nothing { return false; }
      var inode := disk.nextInode;
      disk := disk.(targetIn := disk.targetIn[parent := Directory(inode)], names := disk.names[inode := {}], nextInode := inode + 1);
      ok := true;
    }

    /** The target's entry in the pinned parent. */
    method Lstat(parent: Inode) returns (info: Option<Entry>)
      modifies this`disk, this`faulted
      ensures old(faulted) ==> faulted
      ensures quiet ==> disk == old(disk)
      ensures info.Some? ==> info.value != Nothing && info.value == disk.EntryIn(parent)
      ensures !faulted ==> (info.Some? <==> disk.EntryIn(parent) != Nothing)
    {
      Interfere();
      if * { faulted := true; return None; }
      if disk.EntryIn(parent) == Nothing { return None; }
      info := Some(disk.EntryIn(parent));
    }

    /** The entry at the target path. */
    method LstatPath() returns (info: Option<Entry>)
      modifies this`disk, this`faulted
      ensures old(faulted) ==> faulted
      ensures quiet ==> disk == old(disk)
      ensures info.Some? ==> info.value != Nothing && info.value == disk.Target()
      ensures !faulted ==> (info.Some? <==> disk.Target() != Nothing)
    {
      Interfere();
      if * { faulted := true; return None; }
      if disk.Target() == Nothing { return None; }
      info := Some(disk.Target());
    }

    /** The identity of the directory at the target path. */
    method TargetIdentity() returns (identity: Option<Inode>)
      modifies this`disk, this`faulted
      ensures old(faulted) ==> faulted
      ensures quiet ==> disk == old(disk)
      ensures identity.Some? ==> disk.Target() == Directory(identity.value)
      ensures !faulted ==> (identity.Some? <==> disk.Target().Directory?)
    {
      Interfere();
      if * { faulted := true; return None; }
      if !disk.Target().Directory? { return None; }
      identity := Some(disk.Target().inode);
    }

    /** The names in the directory at the target path. */
    method DirectoryNames() returns (names: Option<set<string>>)
      modifies this`disk, this`faulted
      ensures old(faulted) ==> faulted
      ensures quiet ==> disk == old(disk)
      ensures names.Some? ==> disk.Target().Directory? && names.value == disk.TargetNames()
      ensures !faulted ==> (names.Some? <==> disk.Target().Directory?)
    {
      Interfere();
      if * { faulted := true; return None; }
      if !disk.Target().Directory? { return None; }
      names := Some(disk.TargetNames());
    }

    /** Runs `git init` in the directory at the target path: it may leave `.git`
        there whether it succeeds or not. */
    method GitInit() returns (ok: bool)
      modifies this`disk, this`faulted
      ensures old(faulted) ==> faulted
      ensures quiet ==> disk.parentPath == old(disk).parentPath && disk.targetIn == old(disk).targetIn
      ensures quiet ==> disk.TargetNames() == old(disk).TargetNames() || disk.TargetNames() == old(disk).TargetNames() + {GIT}
      ensures !faulted ==> (ok <==> disk.Target().Directory?) && (ok ==> GIT in disk.TargetNames())
    {
      Interfere();
      if !disk.Target().Directory? {
        return false;
      }
      if * {
        faulted := true;
        if * {
          ok := true;      // reported as done, with or without a repository
        } else {
          ok := false;
        }
        if * { return; }
      } else {
        ok := true;
      }
      var inode := disk.Target().inode;
      disk := disk.(names := disk.names[inode := disk.NamesIn(inode) + {GIT}]);
    }

    /** Repository discovery at the target path. */
    method Discover() returns (ok: bool)
      modifies this`disk, this`faulted
      ensures old(faulted) ==> faulted
      ensures quiet ==> disk == old(disk)
      ensures !faulted ==> (ok <==> GIT in disk.TargetNames())
    {
      Interfere();
      if * {
        faulted := true;
        ok := *;
      } else {
        ok := GIT in disk.TargetNames();
      }
    }

    /** Removes the target from the pinned parent. */
    method RemoveTarget(parent: Inode) returns (ok: bool)
      modifies this`disk, this`removals, this`faulted
      ensures old(faulted) ==> faulted
      ensures removals == old(removals) + [WholeTarget]
      ensures quiet ==> disk.parentPath == old(disk).parentPath
      ensures quiet && ok ==> disk.EntryIn(parent) == Nothing
    {
      Interfere();
      removals := removals + [WholeTarget];
      if * {
        disk := disk.(targetIn := disk.targetIn - {parent});
        return true;
      }
      faulted := true;
      ok := false;
    }

    /** Pins the directory at the target path. */
    method OpenTarget() returns (inode: Option<Inode>)
      modifies this`disk, this`faulted
      ensures old(faulted) ==> faulted
      ensures quiet ==> disk == old(disk)
      ensures inode.Some? ==> disk.Target() == Directory(inode.value)
    {
      inode := TargetIdentity();
    }

    /** Removes `.git` from a pinned directory; its absence is no error. */
    method RemoveGit(inode: Inode, ghost listed: set<string>) returns (ok: bool)
      modifies this`disk, this`removals, this`faulted
      ensures old(faulted) ==> faulted
      ensures |removals| == |old(removals)| + 1 && removals[..|old(removals)|] == old(removals)
      ensures var r := removals[|old(removals)|]; r.FromDirectory? && r.inode == inode && r.lost <= {GIT} && r.listed == listed
      ensures quiet ==> disk.parentPath == old(disk).parentPath && disk.targetIn == old(disk).targetIn
      ensures quiet && ok ==> disk.NamesIn(inode) == old(disk).NamesIn(inode) - {GIT}
    {
      Interfere();
      removals := removals + [FromDirectory(inode, disk.NamesIn(inode) * {GIT}, listed)];
      if * {
        disk := disk.(names := disk.names[inode := disk.NamesIn(inode) - {GIT}]);
        return true;
      }
      faulted := true;
      ok := false;
    }
  }

  // ---------------------------------------------------------------------------
  // Undo
  // ---------------------------------------------------------------------------

  /** All an undo may remove: the whole target if this call made it; otherwise
      `.git`, from the pinned directory, once a listing showed nothing else. */
  ghost predicate Permitted(r: Removal, created: bool, expected: Option<Entry>) {
    match r
    case WholeTarget => created
    case FromDirectory(inode, lost, listed) =>
      !created && expected == Some(Directory(inode)) && lost <= {GIT} && listed == {GIT}
  }

  method CleanupDedicatedGitInit(m: Machine, parent: Inode, expected: Option<Entry>, created: bool, gitInvoked: bool) returns (ok: bool)
    modifies m`disk, m`removals, m`faulted
    ensures old(m.faulted) ==> m.faulted
    ensures |m.removals| >= |old(m.removals)| && m.removals[..|old(m.removals)|] == old(m.removals)
    ensures forall i :: |old(m.removals)| <= i < |m.removals| ==> Permitted(m.removals[i], created, expected)
    ensures !created && !gitInvoked ==> m.removals == old(m.removals)
    ensures m.quiet ==> m.disk.parentPath == old(m.disk).parentPath
    ensures m.quiet && ok && created ==> m.disk.EntryIn(parent) == Nothing
    ensures m.quiet && !created ==> m.disk.targetIn == old(m.disk).targetIn
    ensures m.quiet && !created && !gitInvoked ==> m.disk == old(m.disk)
    ensures m.quiet && ok && !created && gitInvoked ==> m.disk.TargetNames() == {}
  {
    if expected == None {
      return false;
    }
    var current := m.Lstat(parent);
    if current == None || current != expected {
      return false;
    }
    if created {
      ok := m.RemoveTarget(parent);
      return;
    }
    if !gitInvoked {
      return true;
    }
    var entries := m.DirectoryNames();
    if entries == None {
      return false;
    }
    if entries.value == {} {
      return true;
    }
    if entries.value != {GIT} {
      return false;
    }
    var pinned := m.OpenTarget();
    if pinned == None || Some(Directory(pinned.value)) != expected {
      return false;
    }
    ok := m.RemoveGit(pinned.value, entries.value);
  }

  // ---------------------------------------------------------------------------
  // Creation
  // ---------------------------------------------------------------------------

  /** What a verification saw: where the parent path led, the target's entry in the
      pinned parent, the entry at the target path, and the identity of the directory
      there, each at the time it was asked for. */
  datatype PathChecks = PathChecks(parentPath: Inode, inParent: Entry, atPath: Entry, identity: Inode)

  /** The pinned parent and the path still lead to the expected directory. */
  method VerifyDedicatedTargetPath(m: Machine, parent: Inode, expected: Entry, identity: Inode) returns (ok: bool, ghost seen: Option<PathChecks>)
    modifies m`disk, m`faulted
    ensures old(m.faulted) ==> m.faulted
    ensures m.quiet ==> m.disk == old(m.disk)
    // disturbed or not, exactly if every observation showed the expected directory
    ensures ok <==> seen == Some(PathChecks(parent, expected, expected, identity)) && expected.Directory?
    ensures m.quiet && !m.faulted && expected == Directory(identity) && m.disk.parentPath == parent && m.disk.Target() == expected ==> ok
    ensures seen.Some? ==> m.disk.Target() == Directory(seen.value.identity)
    ensures m.quiet && seen.Some? ==>
      seen.value == PathChecks(m.disk.parentPath, m.disk.EntryIn(parent), m.disk.Target(), seen.value.identity)
  {
    seen := None;
    var parentNow := m.ParentIdentity();
    if parentNow != Some(parent) {
      return false, seen;
    }
    var rootInfo := m.Lstat(parent);
    var pathInfo := m.LstatPath();
    var pathIdentity := m.TargetIdentity();
    if rootInfo == None || pathInfo == None || pathIdentity == None {
      return false, seen;
    }
    seen := Some(PathChecks(parentNow.value, rootInfo.value, pathInfo.value, pathIdentity.value));
    ok := rootInfo.value.Directory? && rootInfo == pathInfo == Some(expected) && pathIdentity.value == identity;
  }

  /** What the last checks saw before success was reported: the entry in the pinned
      parent, the directory at the target path, and the names in it. */
  datatype FinalChecks = FinalChecks(inParent: Entry, identity: Inode, names: set<string>)

  /** What the run saw of the target: its entry when first looked up in the pinned
      parent, the verification before `git init`, and the last checks. */
  datatype Sightings = Sightings(pinned: Option<Entry>, before: Option<PathChecks>, last: Option<FinalChecks>)

  const UNSEEN := Sightings(None, None, None)

  /** Before and after `git init` the pinned parent and the path led to one and the
      same directory, as far as each observation could tell, and at the end its
      only entry was `.git`. */
  ghost predicate UnchangedTarget(s: Sightings) {
    && s.before.Some? && s.last.Some? && s.before.value.inParent.Directory?
    && s.pinned == Some(s.before.value.inParent)
    && s.before.value.atPath == s.last.value.inParent == s.before.value.inParent
    && s.last.value.identity == s.before.value.identity
    && s.last.value.names == {GIT}
  }

  method EnsureDedicatedRepository(m: Machine, create: bool, expectedPlan: Option<Observation>)
    returns (outcome: Outcome, planned: Option<Observation>, ghost sightings: Sightings)
    modifies m`disk, m`removals, m`faulted
    ensures old(m.faulted) ==> m.faulted
    ensures |m.removals| >= |old(m.removals)| && m.removals[..|old(m.removals)|] == old(m.removals)
    // undisturbed, an error without a cleanup error leaves the target as it was
    ensures m.quiet && (outcome == Refused || outcome == CreationFailed(true)) ==>
      m.disk.Target() == old(m.disk).Target() && m.disk.TargetNames() == old(m.disk).TargetNames()
    // disturbed or not, an adopted directory loses at most a sole `.git`, and only as
    // the directory that was pinned; undisturbed, that is the planned one
    ensures planned.Some? ==>
      forall i :: |old(m.removals)| <= i < |m.removals| ==>
        var r := m.removals[i];
        && (r.WholeTarget? ==> planned.value.state == Missing)
        && (r.FromDirectory? ==> planned.value.state == Empty && sightings.pinned == Some(Directory(r.inode))
                                 && r.lost <= {".git"} && r.listed == {".git"})
    ensures m.quiet && planned.Some? && planned.value.state == Empty && sightings.pinned.Some? ==>
      sightings.pinned.value == Directory(planned.value.targetIdentity)
    ensures planned.None? || planned.value.state == Git || !create ==> m.removals == old(m.removals)
    // undisturbed, a repository is taken as it is, and without leave nothing is created
    ensures m.quiet && (planned.None? || planned.value.state == Git || !create) ==> m.disk == old(m.disk)
    // a planned repository is taken; and if nobody disturbs and no call fails, the
    // call succeeds exactly if the target is suitable and the plan is as expected
    ensures planned.Some? && planned.value.state == Git && (expectedPlan.Some? ==> planned == expectedPlan) ==> outcome == Ready
    ensures m.quiet && !m.faulted ==>
      var target, names := old(m.disk).Target(), old(m.disk).TargetNames();
      && (planned.Some? <==> target == Nothing || (target.Directory? && (names == {} || GIT in names)))
      && (planned.Some? ==>
            && planned.value.parentIdentity == old(m.disk).parentPath
            && (planned.value.state == Missing <==> target == Nothing)
            && (planned.value.state == Git <==> target.Directory? && GIT in names))
      && (outcome == Ready <==>
            && planned.Some? && (expectedPlan.Some? ==> planned == expectedPlan)
            && (create || (target.Directory? && GIT in names)))
    // success on a target that was no repository: unchanged identity, only `.git`
    ensures outcome == Ready ==> planned.Some? && (expectedPlan.Some? ==> planned == expectedPlan)
    ensures outcome == Ready && planned.value.state != Git ==>
      && create && UnchangedTarget(sightings) && sightings.last.value.names == {".git"}
      && (planned.value.state == Empty ==> sightings.last.value.identity == planned.value.targetIdentity)
    ensures m.quiet && outcome == Ready && planned.value.state != Git ==>
      && m.disk.Target() == Directory(sightings.last.value.identity) == sightings.last.value.inParent
      && m.disk.TargetNames() == {GIT}
  {
    sightings := UNSEEN;
    planned := m.Inspect();
    if planned == None {
      return Refused, planned, sightings;
    }
    if expectedPlan.Some? && planned != expectedPlan {
      return Refused, planned, sightings;
    }
    var plan := planned.value;
    if plan.state == Git {
      return Ready, planned, sightings;
    }
    if !create {
      return Refused, planned, sightings;
    }
    var parent := m.OpenParent();
    if parent == None {
      return Refused, planned, sightings;
    }
    var verified := m.ParentIdentity();
    if verified != parent {
      return Refused, planned, sightings;
    }
    var identity := m.ParentIdentity();
    if identity == None || identity.value != plan.parentIdentity {
      return Refused, planned, sightings;
    }
    var created := false;
    if plan.state == Missing {
      var made := m.Mkdir(parent.value);
      if !made {
        return Refused, planned, sightings;
      }
      created := true;
    }
    outcome, sightings := CreateInTarget(m, parent.value, plan, created);
  }

  /** From the pinned target on: every failure is undone. */
  method CreateInTarget(m: Machine, parent: Inode, plan: Observation, created: bool) returns (outcome: Outcome, ghost sightings: Sightings)
    requires created == (plan.state == Missing) && plan.state != Git
    requires m.quiet ==> m.disk.parentPath == parent && m.disk.Target().Directory? && m.disk.TargetNames() == {}
    modifies m`disk, m`removals, m`faulted
    ensures old(m.faulted) ==> m.faulted
    ensures |m.removals| >= |old(m.removals)| && m.removals[..|old(m.removals)|] == old(m.removals)
    ensures outcome != Refused || !created
    ensures m.quiet && !m.faulted && (!created ==> old(m.disk).Target() == Directory(plan.targetIdentity)) ==> outcome == Ready
    ensures m.quiet && outcome == Refused ==> m.disk == old(m.disk)
    ensures m.quiet && outcome == CreationFailed(true) ==>
      && m.disk.parentPath == parent
      && if created then m.disk.Target() == Nothing
         else m.disk.Target() == old(m.disk).Target() && m.disk.TargetNames() == {}
    ensures forall i :: |old(m.removals)| <= i < |m.removals| ==> Permitted(m.removals[i], created, sightings.pinned)
    ensures m.quiet && sightings.pinned.Some? ==> sightings.pinned.value == old(m.disk).Target()
    ensures outcome == Ready ==>
      UnchangedTarget(sightings) && (!created ==> sightings.last.value.identity == plan.targetIdentity)
    ensures m.quiet && outcome == Ready ==>
      && m.disk.Target() == Directory(sightings.last.value.identity) == sightings.last.value.inParent
      && m.disk.TargetNames() == {GIT}
  {
    var cleaned;
    var targetInfo := m.Lstat(parent);
    sightings := Sightings(targetInfo, None, None);
    if targetInfo == None || !targetInfo.value.Directory? {
      cleaned := CleanupDedicatedGitInit(m, parent, targetInfo, created, false);
      return CreationFailed(cleaned), sightings;
    }
    var targetIdentity := m.TargetIdentity();
    if targetIdentity == None {
      cleaned := CleanupDedicatedGitInit(m, parent, targetInfo, created, false);
      return CreationFailed(cleaned), sightings;
    }
    if plan.state == Empty && targetIdentity.value != plan.targetIdentity {
      return Refused, sightings;
    }
    var entries := m.DirectoryNames();
    if entries == None || entries.value != {} {
      cleaned := CleanupDedicatedGitInit(m, parent, targetInfo, created, false);
      return CreationFailed(cleaned), sightings;
    }
    var verified;
    ghost var before;
    verified, before := VerifyDedicatedTargetPath(m, parent, targetInfo.value, targetIdentity.value);
    if !verified {
      cleaned := CleanupDedicatedGitInit(m, parent, targetInfo, created, false);
      return CreationFailed(cleaned), sightings;
    }
    ghost var last;
    outcome, last := InitialiseAndCheck(m, parent, targetInfo.value, targetIdentity.value, created);
    sightings := Sightings(targetInfo, before, last);
  }

  /** `git init` and the checks after it. */
  method InitialiseAndCheck(m: Machine, parent: Inode, targetInfo: Entry, targetIdentity: Inode, created: bool) returns (outcome: Outcome, ghost checks: Option<FinalChecks>)
    requires targetInfo.Directory?
    requires m.quiet ==> targetInfo == Directory(targetIdentity)
    requires m.quiet ==> m.disk.parentPath == parent && m.disk.Target() == targetInfo && m.disk.TargetNames() == {}
    modifies m`disk, m`removals, m`faulted
    ensures old(m.faulted) ==> m.faulted
    ensures |m.removals| >= |old(m.removals)| && m.removals[..|old(m.removals)|] == old(m.removals)
    ensures outcome != Refused
    ensures m.quiet && !m.faulted ==> outcome == Ready
    ensures m.quiet && outcome == CreationFailed(true) ==>
      && m.disk.parentPath == parent
      && if created then m.disk.Target() == Nothing else m.disk.Target() == targetInfo && m.disk.TargetNames() == {}
    ensures forall i :: |old(m.removals)| <= i < |m.removals| ==> Permitted(m.removals[i], created, Some(targetInfo))
    ensures outcome == Ready ==> checks == Some(FinalChecks(targetInfo, targetIdentity, {GIT}))
    ensures m.quiet && outcome == Ready ==> m.disk.Target() == targetInfo && m.disk.TargetNames() == {GIT}
  {
    checks := None;
    var cleaned;
    var initialised := m.GitInit();
    if !initialised {
      cleaned := CleanupDedicatedGitInit(m, parent, Some(targetInfo), created, true);
      return CreationFailed(cleaned), checks;
    }
    var discovered := m.Discover();
    if !discovered {
      cleaned := CleanupDedicatedGitInit(m, parent, Some(targetInfo), created, true);
      return CreationFailed(cleaned), checks;
    }
    var currentInfo := m.Lstat(parent);
    var currentIdentity := m.TargetIdentity();
    if currentInfo != Some(targetInfo) || currentIdentity != Some(targetIdentity) {
      cleaned := CleanupDedicatedGitInit(m, parent, Some(targetInfo), created, true);
      return CreationFailed(cleaned), checks;
    }
    var entries := m.DirectoryNames();
    if entries == None || entries.value != {GIT} {
      cleaned := CleanupDedicatedGitInit(m, parent, Some(targetInfo), created, true);
      return CreationFailed(cleaned), checks;
    }
    checks := Some(FinalChecks(currentInfo.value, currentIdentity.value, entries.value));
    outcome := Ready;
  }
}
