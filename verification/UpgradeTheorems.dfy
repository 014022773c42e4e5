/** The upgrade report predicts the swap, and the swap can be repeated and undone. */
module UpgradeTheorems {
  import opened Options
  import opened Text
  import opened Upgrade

  /** An old file that the release also lists, but that no release copy ships. */
  ghost predicate IgnoredOverlap(rel: string, src: Tree, was: Tree, roots: seq<string>) {
    rel in was && InRelease(rel, src, roots) && !Protected(rel) && ShipIgnored(rel)
  }

  ghost predicate ProtectedUnderExcluded(rel: string, was: Tree, roots: seq<string>) {
    rel in was && Protected(rel) && Excluded(rel, roots)
  }

  lemma NewTreeAt(src: Tree, was: Tree, roots: seq<string>, rel: string)
    ensures var tree := NewTree(src, was, roots);
      if rel in was && Carried(rel, src, roots) then rel in tree && tree[rel] == was[rel]
      else if Ships(rel, src, roots) then rel in tree && tree[rel] == src[rel]
      else rel !in tree
  {}

  /** Files the swap really loses. */
  function LostSet(src: Tree, was: Tree, roots: seq<string>): set<string> {
    set rel | rel in was && rel !in NewTree(src, was, roots)
  }

  /**
   The report's stale list is the set of files the swap loses, exactly when the release ships
   every unprotected file that it shares with the old tree.
   */
  lemma DroppedIsPredictedIff(src: Tree, was: Tree, roots: seq<string>)
    ensures StaleSet(src, was, roots) == LostSet(src, was, roots) <==>
      forall rel :: !IgnoredOverlap(rel, src, was, roots)
  {
    var stale, lost := StaleSet(src, was, roots), LostSet(src, was, roots);
    forall rel | rel in was
      ensures (rel in lost <==> rel in stale || IgnoredOverlap(rel, src, was, roots))
      ensures !(rel in stale && IgnoredOverlap(rel, src, was, roots))
    {
      NewTreeAt(src, was, roots, rel);
      if Protected(rel) { ProtectedIsNotOwned(rel); }
    }
    if stale == lost {
      forall rel ensures !IgnoredOverlap(rel, src, was, roots) {
        assert rel in lost <==> rel in stale;
      }
    }
    if forall rel :: !IgnoredOverlap(rel, src, was, roots) {
      assert stale == lost;
    }
  }

  /** Files that keep their old content whatever content the release ships under the same names. */
  ghost predicate KeptRegardless(rel: string, src: Tree, was: Tree, roots: seq<string>) {
    rel in was && forall other: Tree :: other.Keys == src.Keys ==>
      rel in NewTree(other, was, roots) && NewTree(other, was, roots)[rel] == was[rel]
  }

  lemma KeptIffCarried(rel: string, src: Tree, was: Tree, roots: seq<string>)
    ensures KeptRegardless(rel, src, was, roots) <==> rel in was && Carried(rel, src, roots)
  {
    if rel in was {
      if Carried(rel, src, roots) {
        forall other: Tree | other.Keys == src.Keys
          ensures rel in NewTree(other, was, roots) && NewTree(other, was, roots)[rel] == was[rel]
        {
          assert Carried(rel, other, roots);
          NewTreeAt(other, was, roots, rel);
        }
      } else if rel in src {
        var other := src[rel := was[rel] + "x"];
        assert other.Keys == src.Keys && !Carried(rel, other, roots);
        NewTreeAt(other, was, roots, rel);
      } else {
        NewTreeAt(src, was, roots, rel);
      }
    }
  }

  /**
   The report's preserved list is the set of files that survive whatever the release contains,
   exactly when no protected file lies under an excluded root.
   */
  lemma PreservedIsPredictedIff(src: Tree, was: Tree, roots: seq<string>)
    ensures (forall rel :: rel in PreservedSet(src, was, roots) <==> KeptRegardless(rel, src, was, roots)) <==>
      forall rel :: !ProtectedUnderExcluded(rel, was, roots)
  {
    forall rel
      ensures rel in PreservedSet(src, was, roots) <==>
        KeptRegardless(rel, src, was, roots) || ProtectedUnderExcluded(rel, was, roots)
      ensures !(KeptRegardless(rel, src, was, roots) && ProtectedUnderExcluded(rel, was, roots))
    {
      KeptIffCarried(rel, src, was, roots);
      if Protected(rel) { ProtectedIsNotOwned(rel); }
    }
  }

  /** Files whose content the swap really changes, version metadata aside. */
  function ChangedSet(src: Tree, was: Tree, roots: seq<string>): set<string> {
    set rel | rel in was && rel in NewTree(src, was, roots) && NewTree(src, was, roots)[rel] != was[rel]
              && !VersionMetadata(rel)
  }

  ghost predicate IgnoredChange(rel: string, src: Tree, was: Tree, roots: seq<string>) {
    IgnoredOverlap(rel, src, was, roots) && !VersionMetadata(rel) && was[rel] != src[rel]
  }

  /** The report's overwritten list is the set of changed files, exactly when no ignored file differs. */
  lemma OverwrittenIsPredictedIff(src: Tree, was: Tree, roots: seq<string>)
    ensures OverwrittenSet(src, was, roots) == ChangedSet(src, was, roots) <==>
      forall rel :: !IgnoredChange(rel, src, was, roots)
  {
    var reported, changed := OverwrittenSet(src, was, roots), ChangedSet(src, was, roots);
    forall rel | rel in was
      ensures rel in reported <==> rel in changed || IgnoredChange(rel, src, was, roots)
      ensures !(rel in changed && IgnoredChange(rel, src, was, roots))
    {
      NewTreeAt(src, was, roots, rel);
      if Protected(rel) { ProtectedIsNotOwned(rel); }
    }
    if reported == changed {
      forall rel ensures !IgnoredChange(rel, src, was, roots) {
        assert rel in reported <==> rel in changed;
      }
    }
    if forall rel :: !IgnoredChange(rel, src, was, roots) {
      assert reported == changed;
    }
  }

  /** Upgrading again with the same release changes nothing. */
  lemma UpgradeIsIdempotent(src: Tree, was: Tree, roots: seq<string>)
    ensures NewTree(src, NewTree(src, was, roots), roots) == NewTree(src, was, roots)
  {
    var once := NewTree(src, was, roots);
    var twice := NewTree(src, once, roots);
    forall rel ensures rel in twice <==> rel in once
      ensures rel in once ==> rel in twice && twice[rel] == once[rel]
    {
      NewTreeAt(src, was, roots, rel);
      NewTreeAt(src, once, roots, rel);
    }
  }

  // ---- what a failed replacement leaves ----

  /** The old tree is never lost: it stays installed, or it is whole in the backup. */
  lemma OldTreeSurvives(
    src: Tree, was: Tree, backup: Option<Tree>, isProjectState: bool, force: bool, roots: seq<string>, strike: Strike)
    ensures var r := SwapResult(src, Some(was), isProjectState, force, roots, strike);
      TreeAfter(src, Some(was), roots, strike, r) == Some(was) || BackupAfter(Some(was), backup, r) == Some(was)
  {}

  /** Which backup a swap leaves: the old tree, none where it was put back or moved in vain, or the one before. */
  lemma BackupIs(
    src: Tree, dst: Option<Tree>, backup: Option<Tree>, isProjectState: bool, force: bool, roots: seq<string>,
    strike: Strike)
    ensures var r := SwapResult(src, dst, isProjectState, force, roots, strike);
      var after := BackupAfter(dst, backup, r);
      && (dst.None? ==> after == backup)
      && (dst.Some? && r.Ok? ==> after == dst)
      && (dst.Some? && r.Err? ==>
            match r.error
            case ProjectState => after == backup
            case ForeignDirectory => after == backup
            case BackupFailed => after == None
            case CopyFailed => after == None
            case TemporaryFailed => after == dst
            case CarryFailed => after == dst
            case ReportFailed => after == dst)
  {}

  /** The file is carried before `before`, or shipped as it was. */
  ghost predicate BackInPlace(rel: string, src: Tree, was: Tree, roots: seq<string>, before: string) {
    || (Carried(rel, src, roots) && Earlier(rel, before))
    || (Ships(rel, src, roots) && rel in src && rel in was && src[rel] == was[rel])
  }

  /** Nothing new is shipped, and every old file is back in its place. */
  ghost predicate Restored(src: Tree, was: Tree, roots: seq<string>, before: string) {
    && (forall rel :: Ships(rel, src, roots) ==> rel in was)
    && (forall rel :: rel in was ==> BackInPlace(rel, src, was, roots, before))
  }

  lemma CarriedFirstAt(src: Tree, was: Tree, roots: seq<string>, before: string, rel: string)
    ensures var tree := CarriedFirst(src, was, roots, before);
      if rel in was && Carried(rel, src, roots) && Earlier(rel, before) then rel in tree && tree[rel] == was[rel]
      else if Ships(rel, src, roots) then rel in tree && tree[rel] == src[rel]
      else rel !in tree
  {}

  /** With the files before `before` carried, the tree is the old one exactly if all of it is back in place. */
  lemma CarriedFirstIsOldIff(src: Tree, was: Tree, roots: seq<string>, before: string)
    ensures CarriedFirst(src, was, roots, before) == was <==> Restored(src, was, roots, before)
  {
    var tree := CarriedFirst(src, was, roots, before);
    if tree == was {
      forall rel | Ships(rel, src, roots) ensures rel in was {
        CarriedFirstAt(src, was, roots, before, rel);
      }
      forall rel | rel in was ensures BackInPlace(rel, src, was, roots, before) {
        CarriedFirstAt(src, was, roots, before, rel);
      }
    }
    if Restored(src, was, roots, before) {
      forall rel ensures rel in tree <==> rel in was
        ensures rel in tree ==> tree[rel] == was[rel]
      {
        CarriedFirstAt(src, was, roots, before, rel);
        if rel in was { assert BackInPlace(rel, src, was, roots, before); }
      }
    }
  }

  /** A tree with an overwritten file is not the old tree. */
  lemma OverwrittenChanges(src: Tree, was: Tree, roots: seq<string>)
    requires OverwrittenSet(src, was, roots) != {}
    ensures NewTree(src, was, roots) != was
  {
    var rel :| rel in OverwrittenSet(src, was, roots);
    NewTreeAt(src, was, roots, rel);
  }

  /** Failures that leave the installed tree as it was, told from the trees and the point of failure. */
  ghost predicate Harmless(src: Tree, dst: Option<Tree>, roots: seq<string>, strike: Strike, error: SwapError) {
    match error
    case TemporaryFailed => dst.None?
    case CarryFailed => dst.Some? && strike.AtCarry? && Restored(src, dst.value, roots, strike.before)
    case ReportFailed => false
    case _ => true
  }

  lemma CarryFailureKeepsIff(src: Tree, was: Tree, roots: seq<string>, strike: Strike)
    requires CarryFailure(src, was, roots, strike) == Some(CarryFailed)
    ensures CarriedTree(src, was, roots, strike) == was <==> Restored(src, was, roots, strike.before)
  {
    CarriedFirstIsOldIff(src, was, roots, strike.before);
  }

  lemma ReportFailureChanges(src: Tree, was: Tree, roots: seq<string>, strike: Strike)
    requires CarryFailure(src, was, roots, strike) == Some(ReportFailed)
    ensures CarriedTree(src, was, roots, strike) != was
  {
    OverwrittenChanges(src, was, roots);
  }

  /** Only the work on old files fails with these two errors. */
  lemma LateErrors(
    src: Tree, dst: Option<Tree>, isProjectState: bool, force: bool, roots: seq<string>, strike: Strike, e: SwapError)
    requires SwapResult(src, dst, isProjectState, force, roots, strike) == Err(e)
    ensures e.CarryFailed? || e.ReportFailed? ==> dst.Some? && CarryFailure(src, dst.value, roots, strike) == Some(e)
    ensures e.CarryFailed? ==> strike.AtCarry?
  {}

  /**
   A failed replacement leaves the installed tree as it was exactly if it failed before the
   rename or while copying, or had no old tree, or had carried enough to be back at the old tree.
   */
  lemma FailureKeepsTreeIff(
    src: Tree, dst: Option<Tree>, isProjectState: bool, force: bool, roots: seq<string>, strike: Strike, e: SwapError)
    requires SwapResult(src, dst, isProjectState, force, roots, strike) == Err(e)
    ensures TreeAfter(src, dst, roots, strike, Err(e)) == dst <==> Harmless(src, dst, roots, strike, e)
  {
    LateErrors(src, dst, isProjectState, force, roots, strike, e);
    if e.CarryFailed? { CarryFailureKeepsIff(src, dst.value, roots, strike); }
    if e.ReportFailed? { ReportFailureChanges(src, dst.value, roots, strike); }
  }

  /** Any installed tree is gone, though whole in the backup, if the temporary directory cannot be made. */
  lemma TemporaryFailureUninstalls(src: Tree, was: Tree, backup: Option<Tree>, roots: seq<string>)
    ensures var r := SwapResult(src, Some(was), false, true, roots, AtTemporary);
      r == Err(TemporaryFailed) && TreeAfter(src, Some(was), roots, AtTemporary, r) == None
      && BackupAfter(Some(was), backup, r) == Some(was)
  {}

  /** A file that the release lacks is missing until it is carried. */
  lemma UncarriedIsMissing(src: Tree, was: Tree, roots: seq<string>, rel: string)
    requires rel in was && rel !in src
    ensures CarriedFirst(src, was, roots, rel) != was
  {
    CarriedFirstAt(src, was, roots, rel, rel);
  }

  /** A failure before the version file, which the release lacks, is carried is not undone. */
  lemma CarryFailureIsNotUndone()
    ensures var src, was: Tree := map["a" := "new"], map["VERSION" := "1", "a" := "old"];
      var r := SwapResult(src, Some(was), false, false, [], AtCarry("VERSION"));
      r == Err(CarryFailed) && TreeAfter(src, Some(was), [], AtCarry("VERSION"), r) != Some(was)
  {
    UncarriedIsMissing(map["a" := "new"], map["VERSION" := "1", "a" := "old"], [], "VERSION");
  }

  /** Rolling back restores the old tree, whatever later steps have made of the new one. */
  method SwapThenRollBack(host: Installation, src: Tree, force: bool, roots: seq<string>, altered: Option<Tree>)
    returns (swapped: bool)
    modifies host
    ensures host.dst == old(host.dst)
    ensures host.backup == if swapped && old(host.dst).Some? then None else old(host.backup)
    ensures swapped <==> (old(host.dst).Some? && !force ==> "VERSION" in old(host.dst).value)
  {
    var r, _ := host.ReplaceFrameworkDir(src, false, force, roots, Never);
    swapped := r.Ok?;
    if r.Ok? {
      host.dst := altered;
      host.RestoreFailedSwap(r.value);
    }
  }

  // ---- where the report is wrong ----

  lemma CacheFileIsIgnored()
    ensures ShipIgnored("x.pyc") && !Protected("x.pyc") && !VersionMetadata("x.pyc") && !Owned("x.pyc")
  {
    var name := "x.pyc";
    assert '/' !in name;
    SplitPlain(name, "", '/');
    assert name + "" == name;
    assert Split(name, '/')[0] == name && name[1..] == ".pyc";
    assert IgnoredName(Split(name, '/')[0]);
  }

  /** A cache file in both trees is lost, and not reported as dropped. */
  lemma UnreportedLoss(content: string, cached: string)
    ensures var src, was := map["x.pyc" := content], map["x.pyc" := cached];
      "x.pyc" in LostSet(src, was, []) && "x.pyc" !in StaleSet(src, was, [])
  {
    CacheFileIsIgnored();
    NewTreeAt(map["x.pyc" := content], map["x.pyc" := cached], [], "x.pyc");
  }

  /** If its contents differ, it is reported as overwritten, though the new tree does not hold it. */
  lemma FalseOverwrite(content: string, cached: string)
    requires content != cached
    ensures var src, was := map["x.pyc" := content], map["x.pyc" := cached];
      "x.pyc" in OverwrittenSet(src, was, []) && "x.pyc" !in ChangedSet(src, was, [])
      && "x.pyc" !in NewTree(src, was, [])
  {
    CacheFileIsIgnored();
    NewTreeAt(map["x.pyc" := content], map["x.pyc" := cached], [], "x.pyc");
  }

  lemma ExcludedIsLost(rel: string, src: Tree, was: Tree, roots: seq<string>)
    requires ProtectedUnderExcluded(rel, was, roots)
    ensures rel in PreservedSet(src, was, roots) && rel in StaleSet(src, was, roots)
    ensures rel !in NewTree(src, was, roots)
  {
    NewTreeAt(src, was, roots, rel);
  }

  const CONFIG := "harness.config.yaml"

  /** A protected file that is an excluded root is reported as preserved and as dropped, and is lost. */
  lemma FalsePreserve(src: Tree, was: Tree)
    requires CONFIG in was
    ensures CONFIG in PreservedSet(src, was, [CONFIG]) && CONFIG in StaleSet(src, was, [CONFIG])
    ensures CONFIG !in NewTree(src, was, [CONFIG])
  {
    assert [CONFIG][0] == CONFIG;
    ExcludedIsLost(CONFIG, src, was, [CONFIG]);
  }

  // ---- what the names mean ----

  const FRAMEWORK_DIRS := {
    "runtime", "schemas", "templates", "rules", "references", "docs", "evals", "fixtures", "workflows"}

  /** The path is `dir`, or lies below it. */
  ghost predicate InDirectory(rel: string, dir: string) {
    rel == dir || exists tail :: rel == dir + ("/" + tail)
  }

  /** Files of framework-owned directories, by name. */
  lemma OwnedIff(rel: string)
    ensures Owned(rel) <==> exists dir :: dir in FRAMEWORK_DIRS && InDirectory(rel, dir)
  {
    var first := Split(rel, '/')[0];
    FirstPart(rel);
    if Owned(rel) { assert first in FRAMEWORK_DIRS && InDirectory(rel, first); }
    forall dir | dir in FRAMEWORK_DIRS && InDirectory(rel, dir) ensures first == dir {
      OwnedHasNoSlash(dir);
      FirstIs(rel, dir);
    }
  }

  lemma FirstIs(rel: string, dir: string)
    requires '/' !in dir && InDirectory(rel, dir)
    ensures Split(rel, '/')[0] == dir
  {
    if rel == dir {
      SplitPlain(dir, "", '/');
      assert dir + "" == dir;
    } else {
      var tail :| rel == dir + ("/" + tail);
      SplitPlain(dir, "/" + tail, '/');
      assert dir + "" == dir;
    }
  }

  lemma OwnedHasNoSlash(dir: string)
    requires dir in FRAMEWORK_DIRS
    ensures '/' !in dir && OwnedDir(dir)
  {}

  lemma FirstPart(rel: string)
    ensures InDirectory(rel, Split(rel, '/')[0])
  {
    var parts := Split(rel, '/');
    JoinSplit(rel, '/');
    if |parts| > 1 { assert rel == parts[0] + ("/" + Join(parts[1..], '/')); }
  }

  /** Below a framework-owned directory the new tree holds just what the release ships. */
  lemma OwnedFollowsRelease(src: Tree, was: Tree, roots: seq<string>, rel: string)
    requires Owned(rel)
    ensures rel in NewTree(src, was, roots) <==> Ships(rel, src, roots)
    ensures rel in NewTree(src, was, roots) ==> NewTree(src, was, roots)[rel] == src[rel]
  {
    NewTreeAt(src, was, roots, rel);
    if Protected(rel) { ProtectedIsNotOwned(rel); }
  }

  /** Neither an excluded root nor anything below it is ever installed. */
  lemma ExcludedIsNeverInstalled(src: Tree, was: Tree, roots: seq<string>, root: string, tail: string)
    requires root in roots
    ensures root !in NewTree(src, was, roots) && root + "/" + tail !in NewTree(src, was, roots)
  {
    var i :| 0 <= i < |roots| && roots[i] == root;
    NewTreeAt(src, was, roots, root);
    NewTreeAt(src, was, roots, root + "/" + tail);
    assert StartsWith(root + "/" + tail, roots[i] + "/");
  }

  /** And a path is excluded only for one of these two reasons. */
  lemma ExcludedIff(rel: string, roots: seq<string>)
    ensures Excluded(rel, roots) <==>
      exists root :: root in roots && (rel == root || exists tail :: rel == root + "/" + tail)
  {
    if i :| 0 <= i < |roots| && (rel == roots[i] || StartsWith(rel, roots[i] + "/")) {
      assert roots[i] in roots;
      if rel != roots[i] { assert rel == roots[i] + "/" + rel[|roots[i] + "/"|..]; }
    }
    if root, tail :| root in roots && rel == root + "/" + tail {
      var i :| 0 <= i < |roots| && roots[i] == root;
      assert StartsWith(rel, roots[i] + "/");
    }
  }

  /** The two protected files always keep their content, unless they are excluded. */
  lemma ProtectedIsKept(src: Tree, was: Tree, roots: seq<string>, rel: string)
    requires rel in {"settings.local.json", "harness.config.yaml"} && rel in was && !Excluded(rel, roots)
    ensures rel in NewTree(src, was, roots) && NewTree(src, was, roots)[rel] == was[rel]
  {
    ProtectedIsNotOwned(rel);
    NewTreeAt(src, was, roots, rel);
  }

  /** A file of the user's own, outside framework-owned directories, is kept. */
  lemma OwnFilesAreKept(src: Tree, was: Tree, roots: seq<string>, rel: string)
    requires rel in was && rel !in src && !Owned(rel) && !Excluded(rel, roots)
    ensures rel in NewTree(src, was, roots) && NewTree(src, was, roots)[rel] == was[rel]
  {
    NewTreeAt(src, was, roots, rel);
  }

  /** Any other file of the release takes the place of the old one. */
  lemma ReleaseReplaces(src: Tree, was: Tree, roots: seq<string>, rel: string)
    requires rel in src && rel !in {"settings.local.json", "harness.config.yaml"}
    requires !Excluded(rel, roots) && !ShipIgnored(rel)
    ensures rel in NewTree(src, was, roots) && NewTree(src, was, roots)[rel] == src[rel]
  {
    NewTreeAt(src, was, roots, rel);
  }

  /** A name that is never shipped, or one with a compiled-file suffix. */
  ghost predicate Unshipped(part: string) {
    part in {"__pycache__", "node_modules", "settings.local.json"} || exists stem :: part == stem + ".pyc"
  }

  lemma IgnoredIff(part: string)
    ensures IgnoredName(part) <==> Unshipped(part)
  {
    if EndsWith(part, ".pyc") { assert part == part[..|part| - 4] + ".pyc"; }
    if stem :| part == stem + ".pyc" { assert part[|part| - 4..] == ".pyc"; }
  }

  /** What no release copy ships, by the name of some part of the path. */
  lemma ShipIgnoredIff(rel: string)
    ensures ShipIgnored(rel) <==> exists part :: part in Split(rel, '/') && Unshipped(part)
  {
    var parts := Split(rel, '/');
    forall part { IgnoredIff(part); }
    if i :| 0 <= i < |parts| && IgnoredName(parts[i]) { assert parts[i] in parts && Unshipped(parts[i]); }
    if part :| part in parts && Unshipped(part) {
      var i :| 0 <= i < |parts| && parts[i] == part;
      assert IgnoredName(parts[i]);
    }
  }

  /** Version metadata and protected files are never reported as overwritten. */
  lemma NeverReported(src: Tree, was: Tree, roots: seq<string>, rel: string)
    requires rel in {"VERSION", "CHANGELOG.md", "UPGRADE.md", "settings.local.json", "harness.config.yaml"}
    ensures rel !in OverwrittenSet(src, was, roots)
  {}

  /** Any other file that both trees hold with different contents is, unless it is excluded. */
  lemma DifferenceIsReported(src: Tree, was: Tree, roots: seq<string>, rel: string)
    requires rel !in {"VERSION", "CHANGELOG.md", "UPGRADE.md", "settings.local.json", "harness.config.yaml"}
    requires rel in src && rel in was && src[rel] != was[rel] && !Excluded(rel, roots)
    ensures rel in OverwrittenSet(src, was, roots)
  {}
}
