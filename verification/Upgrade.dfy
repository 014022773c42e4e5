/**
 Replacing an installed framework tree by a new release: what is copied, carried forward and
 dropped, the report computed before the swap, and the rollback after it.
 A file tree is a map from relative paths to contents.
 */
module Upgrade {
  import opened Ids
  import opened Options
  import opened Text

  type Tree = map<string, string>

  // ---- classification of relative paths ----

  predicate Protected(rel: string) {
    rel == "settings.local.json" || rel == "harness.config.yaml"
  }

  predicate VersionMetadata(rel: string) {
    rel == "VERSION" || rel == "CHANGELOG.md" || rel == "UPGRADE.md"
  }

  predicate OwnedDir(dir: string) {
    dir in {"runtime", "schemas", "templates", "rules", "references", "docs", "evals", "fixtures", "workflows"}
  }

  /** `_is_framework_owned`: the first segment is a framework-controlled directory. */
  predicate Owned(rel: string) {
    OwnedDir(Split(rel, '/')[0])
  }

  predicate StartsWith(s: string, prefix: string) {
    prefix <= s
  }

  predicate Excluded(rel: string, roots: seq<string>) {
    exists i :: 0 <= i < |roots| && (rel == roots[i] || StartsWith(rel, roots[i] + "/"))
  }

  predicate EndsWith(s: string, suffix: string) {
    |suffix| <= |s| && s[|s| - |suffix|..] == suffix
  }

  /** A name that no release copy ships. */
  predicate IgnoredName(name: string) {
    name == "__pycache__" || EndsWith(name, ".pyc") || name == "node_modules" || name == "settings.local.json"
  }

  /** Ignoring a directory ignores all below it, so one ignored segment is enough. */
  predicate ShipIgnored(rel: string) {
    exists i :: 0 <= i < |Split(rel, '/')| && IgnoredName(Split(rel, '/')[i])
  }

  lemma ProtectedIsNotOwned(rel: string)
    requires Protected(rel)
    ensures !Owned(rel)
  {
    assert '/' !in rel;
    SplitPlain(rel, "", '/');
    assert rel + "" == rel;
  }

  // ---- the new tree ----

  /** The release's files that are not excluded. */
  predicate InRelease(rel: string, src: Tree, roots: seq<string>) {
    rel in src && !Excluded(rel, roots)
  }

  predicate Ships(rel: string, src: Tree, roots: seq<string>) {
    InRelease(rel, src, roots) && !ShipIgnored(rel)
  }

  /** The old files that the carry-forward loop copies back. */
  predicate Carried(rel: string, src: Tree, roots: seq<string>) {
    && !Excluded(rel, roots)
    && (Protected(rel) || !InRelease(rel, src, roots))
    && !(!InRelease(rel, src, roots) && Owned(rel))
  }

  function FreshTree(src: Tree, roots: seq<string>): Tree {
    map rel | rel in src && Ships(rel, src, roots) :: src[rel]
  }

  function CarriedSet(src: Tree, was: Tree, roots: seq<string>): set<string> {
    set rel | rel in was && Carried(rel, src, roots)
  }

  function NewTree(src: Tree, was: Tree, roots: seq<string>): Tree {
    FreshTree(src, roots) + map rel | rel in was && rel in CarriedSet(src, was, roots) :: was[rel]
  }

  /** The old files that the carry-forward loop passes over as stale or excluded. */
  function StaleSet(src: Tree, was: Tree, roots: seq<string>): set<string> {
    set rel | rel in was && (Excluded(rel, roots) || (!InRelease(rel, src, roots) && Owned(rel)))
  }

  // ---- the swap ----

  datatype SwapError =
    | ProjectState | ForeignDirectory | BackupFailed | TemporaryFailed | CopyFailed | CarryFailed | ReportFailed

  /**
   Where an exception strikes: while the old tree is renamed to the backup, while the temporary
   directory is made, while the release is copied, before an old file is carried, or while the
   merge report is written.
   */
  datatype Strike = Never | AtBackup | AtTemporary | AtCopy | AtCarry(before: string) | AtReport

  /** The install directory and its `.bak` neighbor. */
  class Installation {
    var dst: Option<Tree>
    var backup: Option<Tree>

    constructor (dst: Option<Tree>, backup: Option<Tree>)
      ensures this.dst == dst && this.backup == backup
    {
      this.dst := dst;
      this.backup := backup;
    }

    /** `_replace_framework_dir`.  `isProjectState` says that the target is named `.cairness`. */
    method ReplaceFrameworkDir(src: Tree, isProjectState: bool, force: bool, roots: seq<string>, strike: Strike)
      returns (r: Result<bool, SwapError>, dropped: seq<string>)
      modifies this
      ensures r == SwapResult(src, old(dst), isProjectState, force, roots, strike)
      ensures dst == TreeAfter(src, old(dst), roots, strike, r)
      ensures backup == BackupAfter(old(dst), old(backup), r)
      ensures r.Ok? && r.value ==> dropped == Sorted(StaleSet(src, old(dst).value, roots))
    {
      if isProjectState {
        return Err(ProjectState), [];
      }
      if dst.None? {
        r, dropped := BuildFresh(src, false, None, roots, strike);
        return;
      }
      if !force && "VERSION" !in dst.value {
        return Err(ForeignDirectory), [];
      }
      backup := None;
      if strike.AtBackup? {
        return Err(BackupFailed), [];
      }
      backup, dst := dst, None;
      r, dropped := BuildFresh(src, true, backup, roots, strike);
    }

    /** The rest of it, once the old tree `was`, if any, is out of the way. */
    method BuildFresh(src: Tree, hadExisting: bool, ghost was: Option<Tree>, roots: seq<string>, strike: Strike)
      returns (r: Result<bool, SwapError>, dropped: seq<string>)
      requires dst == None && hadExisting == was.Some? && (hadExisting ==> backup == was)
      modifies this
      ensures r == BuildResult(src, was, roots, strike)
      ensures dst == TreeAfter(src, was, roots, strike, r)
      ensures backup == if hadExisting && r.Err? && r.error.CopyFailed? then None else old(backup)
      ensures r.Ok? && r.value ==> dropped == Sorted(StaleSet(src, was.value, roots))
    {
      dropped := [];
      if strike.AtTemporary? {
        return Err(TemporaryFailed), dropped;
      }
      if strike.AtCopy? {
        if hadExisting {
          backup, dst := None, backup;
        }
        return Err(CopyFailed), dropped;
      }
      var release := FreshTree(src, roots);
      dst := Some(release);
      if !hadExisting {
        return Ok(false), dropped;
      }
      var failed, carried;
      failed, carried, dropped := CarryAndReport(src, backup.value, release, roots, strike);
      dst := Some(carried);
      r := match failed case Some(error) => Err(error) case None => Ok(true);
    }

    /** `_restore_failed_adapter_swap` */
    method RestoreFailedSwap(madeBackup: bool)
      modifies this
      ensures madeBackup && old(backup).Some? ==> dst == old(backup) && backup == None
      ensures !(madeBackup && old(backup).Some?) ==> dst == None && backup == old(backup)
    {
      dst := None;
      if madeBackup && backup.Some? {
        dst := backup;
        backup := None;
      }
    }
  }

  /** How the work on the old files ends: an exception, or none. */
  function CarryFailure(src: Tree, was: Tree, roots: seq<string>, strike: Strike): Option<SwapError> {
    if StrikesCarry(was, strike) then Some(CarryFailed)
    else if strike.AtReport? && OverwrittenSet(src, was, roots) != {} then Some(ReportFailed)
    else None
  }

  predicate StrikesCarry(was: Tree, strike: Strike) {
    strike.AtCarry? && strike.before in was
  }

  predicate Earlier(a: string, b: string) {
    a != b && Le(a, b)
  }

  /** The release with the kept files among those before `before` copied over it. */
  function CarriedFirst(src: Tree, was: Tree, roots: seq<string>, before: string): Tree {
    var some := set rel | rel in was && Carried(rel, src, roots) && Earlier(rel, before);
    FreshTree(src, roots) + map rel | rel in was && rel in some :: was[rel]
  }

  /** The installed tree once the work on the old files has ended. */
  function CarriedTree(src: Tree, was: Tree, roots: seq<string>, strike: Strike): Tree {
    if StrikesCarry(was, strike) then CarriedFirst(src, was, roots, strike.before) else NewTree(src, was, roots)
  }

  /** How building the new tree ends, with or without an old tree. */
  function BuildResult(src: Tree, was: Option<Tree>, roots: seq<string>, strike: Strike): Result<bool, SwapError> {
    if strike.AtTemporary? then Err(TemporaryFailed)
    else if strike.AtCopy? then Err(CopyFailed)
    else if was.None? then Ok(false)
    else
      match CarryFailure(src, was.value, roots, strike)
      case Some(error) => Err(error)
      case None => Ok(true)
  }

  /** How a swap ends: refused, failed, or done. */
  function SwapResult(
    src: Tree, dst: Option<Tree>, isProjectState: bool, force: bool, roots: seq<string>, strike: Strike)
    : (r: Result<bool, SwapError>)
  {
    if isProjectState then Err(ProjectState)
    else if dst.Some? && !force && "VERSION" !in dst.value then Err(ForeignDirectory)
    else if dst.Some? && strike.AtBackup? then Err(BackupFailed)
    else BuildResult(src, dst, roots, strike)
  }

  /** The installed tree after a swap that ended with `r`. */
  ghost function TreeAfter(
    src: Tree, dst: Option<Tree>, roots: seq<string>, strike: Strike, r: Result<bool, SwapError>): Option<Tree>
  {
    match r
    case Ok(existed) =>
      if existed && dst.Some? then Some(CarriedTree(src, dst.value, roots, strike)) else Some(FreshTree(src, roots))
    case Err(e) =>
      if e.TemporaryFailed? then None
      else if dst.Some? && (e.CarryFailed? || e.ReportFailed?) then Some(CarriedTree(src, dst.value, roots, strike))
      else dst
  }

  /** The backup after a swap. */
  function BackupAfter(dst: Option<Tree>, backup: Option<Tree>, r: Result<bool, SwapError>): Option<Tree> {
    if dst.None? || (r.Err? && (r.error.ProjectState? || r.error.ForeignDirectory?)) then backup
    else if r.Err? && (r.error.BackupFailed? || r.error.CopyFailed?) then None
    else dst
  }

  /** The carry-forward loop over the backup's files, in sorted order. */
  method CarryForward(src: Tree, was: Tree, release: Tree, roots: seq<string>, strike: Strike)
    returns (ok: bool, tree: Tree, dropped: seq<string>)
    requires release == FreshTree(src, roots)
    ensures ok <==> !StrikesCarry(was, strike)
    ensures ok ==> tree == NewTree(src, was, roots) && dropped == Sorted(StaleSet(src, was, roots))
    ensures !ok ==> tree == CarriedFirst(src, was, roots, strike.before)
  {
    tree := release;
    dropped := [];
    var files := SortIds(was.Keys);
    ghost var stale, keep := StaleSet(src, was, roots), CarriedSet(src, was, roots);
    CopyNone(release, was, keep);
    for i := 0 to |files|
      invariant tree == CopiedOver(release, was, keep, files[..i])
      invariant dropped == Filter(files[..i], stale)
      invariant strike.AtCarry? ==> strike.before !in files[..i]
    {
      var rel := files[i];
      assert rel in Elements(files);
      if strike == AtCarry(rel) {
        CopyBefore(src, was, roots, files, i);
        return false, tree, dropped;
      }
      FilterNext(files, stale, i);
      CopyNext(release, was, keep, files, i);
      if Excluded(rel, roots) {
        dropped := dropped + [rel];
      } else if Protected(rel) || !InRelease(rel, src, roots) {
        if !InRelease(rel, src, roots) && Owned(rel) {
          dropped := dropped + [rel];
        } else {
          tree := tree[rel := was[rel]];
        }
      }
    }
    ok := true;
    TakeAll(files);
    FilterSorted(was.Keys, stale);
    CopyAll(release, was, keep, files);
  }

  /** The carry-forward loop and the merge report. */
  method CarryAndReport(src: Tree, was: Tree, release: Tree, roots: seq<string>, strike: Strike)
    returns (failed: Option<SwapError>, tree: Tree, dropped: seq<string>)
    requires release == FreshTree(src, roots)
    ensures failed == CarryFailure(src, was, roots, strike) && tree == CarriedTree(src, was, roots, strike)
    ensures failed.None? ==> dropped == Sorted(StaleSet(src, was, roots))
  {
    var ok;
    ok, tree, dropped := CarryForward(src, was, release, roots, strike);
    if !ok {
      return Some(CarryFailed), tree, dropped;
    }
    var modified := ModifiedFrameworkFiles(was, src, roots);
    if modified != [] && strike.AtReport? {
      return Some(ReportFailed), tree, dropped;
    }
    failed := None;
  }

  /** `base` with the kept files among `files` copied over it. */
  ghost function CopiedOver(base: Tree, was: Tree, keep: set<string>, files: seq<string>): Tree {
    base + map rel | rel in was && rel in keep && rel in files :: was[rel]
  }

  /** Copying the files up to position `i` copies those that come earlier than the file there. */
  lemma CopyBefore(src: Tree, was: Tree, roots: seq<string>, files: seq<string>, i: nat)
    requires IsSorted(files) && Elements(files) == was.Keys && i < |files|
    ensures CopiedOver(FreshTree(src, roots), was, CarriedSet(src, was, roots), files[..i]) ==
      CarriedFirst(src, was, roots, files[i])
  {
    var front := files[..i];
    var some := set rel | rel in was && Carried(rel, src, roots) && Earlier(rel, files[i]);
    forall rel | rel in was ensures rel in front <==> Earlier(rel, files[i]) {
      EarlierIff(files, i, rel);
    }
    CopySame(FreshTree(src, roots), was, CarriedSet(src, was, roots), front, some);
  }

  lemma CopySame(base: Tree, was: Tree, keep: set<string>, files: seq<string>, some: set<string>)
    requires forall rel :: rel in was ==> (rel in some <==> rel in keep && rel in files)
    ensures CopiedOver(base, was, keep, files) == base + map rel | rel in was && rel in some :: was[rel]
  {}

  lemma EarlierIff(files: seq<string>, i: nat, rel: string)
    requires IsSorted(files) && i < |files| && rel in Elements(files)
    ensures rel in files[..i] <==> Earlier(rel, files[i])
  {
    var j :| 0 <= j < |files| && files[j] == rel;
    if j < i {
      assert files[..i][j] == rel;
    } else if j > i && Le(rel, files[i]) {
      LeAntisymmetric(rel, files[i]);
    }
    if k :| 0 <= k < i && files[..i][k] == rel { assert files[k] == rel; }
  }

  lemma CopyNext(base: Tree, was: Tree, keep: set<string>, files: seq<string>, n: nat)
    requires n < |files| && files[n] in was
    ensures CopiedOver(base, was, keep, files[..n + 1]) ==
      if files[n] in keep then CopiedOver(base, was, keep, files[..n])[files[n] := was[files[n]]]
      else CopiedOver(base, was, keep, files[..n])
  {
    assert files[..n + 1] == files[..n] + [files[n]];
  }

  lemma CopyNone(base: Tree, was: Tree, keep: set<string>)
    ensures CopiedOver(base, was, keep, []) == base
  {}

  lemma CopyAll(base: Tree, was: Tree, keep: set<string>, files: seq<string>)
    requires Elements(files) == was.Keys
    ensures CopiedOver(base, was, keep, files) == base + map rel | rel in was && rel in keep :: was[rel]
  {
    assert forall rel :: rel in files <==> rel in Elements(files);
  }

  // ---- the report made before the swap ----

  datatype Report = Report(overwritten: seq<string>, dropped: seq<string>, preserved: seq<string>)

  function OverwrittenSet(src: Tree, was: Tree, roots: seq<string>): set<string> {
    set rel | rel in was && !Protected(rel) && !VersionMetadata(rel) && rel in src && !Excluded(rel, roots)
              && was[rel] != src[rel]
  }

  function PreservedSet(src: Tree, was: Tree, roots: seq<string>): set<string> {
    set rel | rel in was
              && (Protected(rel) || (!Excluded(rel, roots) && !InRelease(rel, src, roots) && !Owned(rel)))
  }

  /** `_modified_framework_files` */
  method ModifiedFrameworkFiles(backup: Tree, src: Tree, roots: seq<string>) returns (modified: seq<string>)
    ensures modified == Sorted(OverwrittenSet(src, backup, roots))
  {
    modified := [];
    var files := SortIds(backup.Keys);
    ghost var changed := OverwrittenSet(src, backup, roots);
    for i := 0 to |files|
      invariant modified == Filter(files[..i], changed)
    {
      var rel := files[i];
      assert rel in Elements(files);
      FilterNext(files, changed, i);
      if !(Protected(rel) || VersionMetadata(rel) || rel !in src || Excluded(rel, roots)) {
        if backup[rel] != src[rel] {
          modified := modified + [rel];
        }
      }
    }
    TakeAll(files);
    FilterSorted(backup.Keys, changed);
  }

  /** `_upgrade_file_changes` */
  method UpgradeFileChanges(src: Tree, dst: Option<Tree>, roots: seq<string>) returns (r: Report)
    ensures dst.None? ==> r == Report([], [], [])
    ensures dst.Some? ==>
      && r.overwritten == Sorted(OverwrittenSet(src, dst.value, roots))
      && r.dropped == Sorted(StaleSet(src, dst.value, roots))
      && r.preserved == Sorted(PreservedSet(src, dst.value, roots))
  {
    if dst.None? {
      return Report([], [], []);
    }
    var overwritten := ModifiedFrameworkFiles(dst.value, src, roots);
    var dropped := SortIds(StaleSet(src, dst.value, roots));
    var preserved := SortIds(PreservedSet(src, dst.value, roots));
    r := Report(overwritten, dropped, preserved);
  }
}
