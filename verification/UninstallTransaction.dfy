/** The uninstall transaction: whichever step fails, the project's files are as before. */
module UninstallTransaction {
  import opened Ids
  import opened Uninstall

  predicate UnderAny(roots: seq<Path>, q: Path) {
    exists i :: 0 <= i < |roots| && Under(roots[i], q)
  }

  predicate AsideAny(originals: seq<Path>, q: Path) {
    exists i :: 0 <= i < |originals| && originals[i] != [] && Under(Temporary(originals[i]), q)
  }

  function Without(fs: Files, roots: seq<Path>): Files {
    map q | q in fs && !UnderAny(roots, q) :: fs[q]
  }

  // ---- undoing the renames ----

  /** Undoing the last rename of a staging, or skipping it when nothing was moved. */
  lemma UnstageLast(fs: Files, originals: seq<Path>)
    requires Stageable(fs, originals) && originals != []
    ensures var p := originals[|originals| - 1];
      p != [] &&
      (if Exists(Staged(fs, originals), Temporary(p)) then Renamed(Staged(fs, originals), Temporary(p), p)
       else Staged(fs, originals)) == Staged(fs, originals[..|originals| - 1])
  {
    var p := originals[|originals| - 1];
    var front := Staged(fs, originals[..|originals| - 1]);
    TemporaryIsApart(p);
    RenameBack(front, p, Temporary(p));
    if !Exists(Staged(fs, originals), Temporary(p)) { NothingMoved(front, p, Temporary(p)); }
  }

  lemma NothingMoved(fs: Files, p: Path, t: Path)
    requires !Exists(fs, t) && !Exists(Renamed(fs, p, t), t)
    ensures Renamed(fs, p, t) == fs
  {
    forall q | Under(p, q) ensures q !in fs {
      var r := t + q[|p|..];
      assert Under(t, r) && r[|t|..] == q[|p|..] && p + q[|p|..] == q;
      RenamedAt(fs, p, t, r);
    }
    forall q ensures (q in Renamed(fs, p, t) <==> q in fs) && (q in fs ==> Renamed(fs, p, t)[q] == fs[q]) {
      RenamedAt(fs, p, t, q);
      assert Under(t, q) ==> q !in fs && q !in Renamed(fs, p, t);
    }
  }

  // ---- what is left after a committed uninstall ----

  /** Apart from the files set aside, staging leaves the files outside the originals, unchanged. */
  lemma {:induction false} StagedOutside(fs: Files, originals: seq<Path>, q: Path)
    requires Stageable(fs, originals)
    ensures !AsideAny(originals, q) ==>
      (q in Staged(fs, originals) <==> q in fs && !UnderAny(originals, q))
      && (q in Staged(fs, originals) ==> Staged(fs, originals)[q] == fs[q])
    ensures q in fs && !UnderAny(originals, q) ==> !AsideAny(originals, q)
  {
    if originals != [] {
      var n := |originals| - 1;
      var p, front := originals[n], originals[..n];
      StageableFront(fs, originals);
      StagedOutside(fs, front, q);
      RenamedAt(Staged(fs, front), p, Temporary(p), q);
      assert UnderAny(originals, q) <==> UnderAny(front, q) || Under(p, q) by { AnySplit(originals, q); }
      assert AsideAny(originals, q) <==> AsideAny(front, q) || Under(Temporary(p), q) by { AnySplit(originals, q); }
    }
  }

  lemma AnySplit(originals: seq<Path>, q: Path)
    requires originals != []
    ensures var n := |originals| - 1;
      && (UnderAny(originals, q) <==> UnderAny(originals[..n], q) || Under(originals[n], q))
      && (AsideAny(originals, q) <==>
            AsideAny(originals[..n], q) || (originals[n] != [] && Under(Temporary(originals[n]), q)))
  {
    var n := |originals| - 1;
    var front := originals[..n];
    if i :| 0 <= i < |originals| && Under(originals[i], q) { assert i < n ==> front[i] == originals[i]; }
    if i :| 0 <= i < |front| && Under(front[i], q) { assert originals[i] == front[i]; }
    if i :| 0 <= i < |originals| && originals[i] != [] && Under(Temporary(originals[i]), q) {
      assert i < n ==> front[i] == originals[i];
    }
    if i :| 0 <= i < |front| && front[i] != [] && Under(Temporary(front[i]), q) { assert originals[i] == front[i]; }
  }

  /** `fs` without what lies below the temporaries of the first `n` originals. */
  function Cleared(fs: Files, originals: seq<Path>): Files {
    map q | q in fs && !AsideAny(originals, q) :: fs[q]
  }

  lemma ClearNext(fs: Files, originals: seq<Path>, n: nat)
    requires n < |originals| && originals[n] != []
    ensures var before := Cleared(fs, originals[..n]);
      Cleared(fs, originals[..n + 1]) == map q | q in before && !Under(Temporary(originals[n]), q) :: before[q]
  {
    var more := originals[..n + 1];
    assert more[..n] == originals[..n];
    forall q { AnySplit(more, q); }
  }

  lemma StateIsNotAside(originals: seq<Path>, f: Path)
    requires f in STATE_FILES && forall i :: 0 <= i < |originals| ==> ClearOfState(originals[i])
    ensures !AsideAny(originals, f) && !UnderAny(originals, f)
  {}

  lemma ClearedIsWithout(fs: Files, originals: seq<Path>, changed: Files)
    requires Stageable(fs, originals)
    ensures Cleared(WithStateOf(Staged(fs, originals), changed), originals) ==
      WithStateOf(Without(fs, originals), changed)
  {
    var staged := Staged(fs, originals);
    forall q
      ensures q in Cleared(WithStateOf(staged, changed), originals) <==>
        q in WithStateOf(Without(fs, originals), changed)
      ensures q in WithStateOf(Without(fs, originals), changed) ==>
        q in Cleared(WithStateOf(staged, changed), originals)
        && Cleared(WithStateOf(staged, changed), originals)[q] == WithStateOf(Without(fs, originals), changed)[q]
    {
      StagedOutside(fs, originals, q);
      if q in STATE_FILES { StateIsNotAside(originals, q); }
    }
  }

  // ---- which assets are removed ----

  /** `_asset_matches`: something is there, and it has the content of the installed source. */
  predicate Unmodified(fs: Files, target: Path, source: Path) {
    Signature(fs, target) == Signature(fs, source) && Signature(fs, target) != map[]
  }

  /** The targets that still match their source when their turn comes. */
  ghost function Matching(fs: Files, assets: seq<(Path, Path)>): seq<Path> {
    if assets == [] then []
    else
      var n := |assets| - 1;
      var front := Matching(fs, assets[..n]);
      if Unmodified(Staged(fs, front), assets[n].0, assets[n].1) then front + [assets[n].0] else front
  }

  /** Everything the command sets aside: the matching assets and the framework root. */
  ghost function ToStage(fs: Files, assets: seq<(Path, Path)>, root: Path): seq<Path> {
    var front := Matching(fs, assets);
    if Exists(Staged(fs, front), root) then front + [root] else front
  }

  lemma {:induction false} MatchingPrefix(fs: Files, assets: seq<(Path, Path)>, n: nat)
    requires n <= |assets|
    ensures Matching(fs, assets[..n]) <= Matching(fs, assets)
  {
    if n == |assets| {
      TakeAll(assets);
    } else {
      var front := assets[..|assets| - 1];
      MatchingPrefix(fs, front, n);
      assert front[..n] == assets[..n];
    }
  }

  lemma MatchingNext(fs: Files, assets: seq<(Path, Path)>, i: nat)
    requires i < |assets|
    ensures var front := Matching(fs, assets[..i]);
      Matching(fs, assets[..i + 1]) ==
        if Unmodified(Staged(fs, front), assets[i].0, assets[i].1) then front + [assets[i].0] else front
    ensures Matching(fs, assets[..i + 1]) <= Matching(fs, assets)
  {
    assert assets[..i + 1][..i] == assets[..i];
    MatchingPrefix(fs, assets, i + 1);
  }

  lemma StageablePrefix(fs: Files, a: seq<Path>, b: seq<Path>)
    requires Stageable(fs, b) && a <= b
    ensures Stageable(fs, a)
  {
    forall i | 0 <= i < |a| ensures a[..i] == b[..i] {}
  }

  /** A temporary name that is taken makes every longer staging impossible. */
  lemma StagingStops(fs: Files, staged: seq<Path>, p: Path, all: seq<Path>)
    ensures p != [] && Exists(Staged(fs, staged), Temporary(p)) && staged + [p] <= all ==> !Stageable(fs, all)
  {
    if Stageable(fs, all) && staged + [p] <= all {
      StageablePrefix(fs, staged + [p], all);
      assert (staged + [p])[..|staged|] == staged && (staged + [p])[|staged|] == p;
    }
  }

  lemma RootStaysAway(aside: Files, originals: seq<Path>, root: Path, changed: Files)
    requires !Exists(aside, root) && ClearOfState(root)
    ensures !Exists(Cleared(WithStateOf(aside, changed), originals), root)
  {}

  lemma SnapshotRestores(fs: Files, current: Files, initial: Files, changed: Files)
    requires SameState(fs, initial) && (current == fs || current == WithStateOf(fs, changed))
    ensures WithStateOf(current, initial) == fs
  {}

  lemma NextStateFile(i: nat)
    requires i < |STATE_LIST|
    ensures (Elements(STATE_LIST[..i + 1])) == (Elements(STATE_LIST[..i])) + {STATE_LIST[i]}
  {
    assert STATE_LIST[..i + 1] == STATE_LIST[..i] + [STATE_LIST[i]];
  }

  /** The project's files, as the uninstall command changes them. */
  class Project {
    var files: Files

    constructor (files: Files)
      ensures this.files == files
    {
      this.files := files;
    }

    /** The nested `stage`: returns false where it raises. */
    method Stage(path: Path, ghost initial: Files, staged: seq<Path>) returns (ok: bool, staged': seq<Path>)
      requires ClearOfState(path) && Stageable(initial, staged) && files == Staged(initial, staged)
      modifies this
      ensures Stageable(initial, staged') && files == Staged(initial, staged')
      ensures ok <==> !Exists(old(files), path) || !Exists(old(files), Temporary(path))
      ensures staged' == if ok && Exists(old(files), path) then staged + [path] else staged
      ensures ok ==> !Exists(files, path)
    {
      staged' := staged;
      if !Exists(files, path) {
        return true, staged;
      }
      var temporary := Temporary(path);
      if Exists(files, temporary) {
        return false, staged;
      }
      StageableSnoc(initial, staged, path);
      TemporaryIsApart(path);
      NothingLeftUnder(files, path, temporary);
      files := Renamed(files, path, temporary);
      staged' := staged + [path];
      ok := true;
    }

    /** Put one state file back as its snapshot has it. */
    method RestoreStateFile(f: Path, snapshots: Files)
      modifies this
      ensures files == WithFileOf(old(files), snapshots, f)
    {
      if f in snapshots {
        files := files[f := snapshots[f]];
      } else {
        files := map q | q in files && q != f :: files[q];
      }
    }

    /** The five restoring calls. */
    method RestoreStateFiles(snapshots: Files)
      modifies this
      ensures files == WithStateOf(old(files), snapshots)
    {
      assert WithFilesOf(old(files), snapshots, {}) == old(files);
      for i := 0 to |STATE_LIST|
        invariant files == WithFilesOf(old(files), snapshots, Elements(STATE_LIST[..i]))
      {
        WithOneMore(old(files), snapshots, Elements(STATE_LIST[..i]), STATE_LIST[i]);
        NextStateFile(i);
        RestoreStateFile(STATE_LIST[i], snapshots);
      }
      TakeAll(STATE_LIST);
    }

    /** Rename everything staged back, last first. */
    method Unstage(staged: seq<Path>, ghost initial: Files)
      requires Stageable(initial, staged) && files == Staged(initial, staged)
      modifies this
      ensures files == initial
    {
      var rest := staged;
      while rest != []
        invariant Stageable(initial, rest) && files == Staged(initial, rest)
      {
        UnstageLast(initial, rest);
        StageableFront(initial, rest);
        var original := rest[|rest| - 1];
        var temporary := Temporary(original);
        if Exists(files, temporary) {
          files := Renamed(files, temporary, original);
        }
        rest := rest[..|rest| - 1];
      }
    }

    /** After the commit: delete what was set aside. */
    method DeleteStaged(staged: seq<Path>)
      requires forall i :: 0 <= i < |staged| ==> staged[i] != []
      modifies this
      ensures files == Cleared(old(files), staged)
    {
      for i := 0 to |staged|
        invariant files == Cleared(old(files), staged[..i])
      {
        ClearNext(old(files), staged, i);
        var temporary := Temporary(staged[i]);
        files := map q | q in files && !Under(temporary, q) :: files[q];
      }
      TakeAll(staged);
    }

    /** The loop over the assets: stage each one that still matches its installed source. */
    method StageAssets(assets: seq<(Path, Path)>, raiseAt: nat) returns (ok: bool, staged: seq<Path>)
      requires forall i :: 0 <= i < |assets| ==> ClearOfState(assets[i].0)
      modifies this
      ensures Stageable(old(files), staged) && files == Staged(old(files), staged)
      ensures ok <==> raiseAt >= |assets| && Stageable(old(files), Matching(old(files), assets))
      ensures ok ==> staged == Matching(old(files), assets)
    {
      staged := [];
      for i := 0 to |assets|
        invariant Stageable(old(files), staged) && files == Staged(old(files), staged)
        invariant staged == Matching(old(files), assets[..i]) && raiseAt >= i
      {
        if raiseAt == i {
          return false, staged;
        }
        var (target, source) := assets[i];
        MatchingNext(old(files), assets, i);
        if Unmodified(files, target, source) {
          StagingStops(old(files), staged, target, Matching(old(files), assets));
          ok, staged := Stage(target, old(files), staged);
          if !ok {
            return;
          }
        }
      }
      TakeAll(assets);
      ok := true;
    }

    /**
     Stage the assets, then the framework root.  `raiseAt` is the step at which an exception
     strikes: asset `i`, the root, or later.
     */
    method StageAll(assets: seq<(Path, Path)>, root: Path, raiseAt: nat) returns (ok: bool, staged: seq<Path>)
      requires ClearOfState(root) && forall i :: 0 <= i < |assets| ==> ClearOfState(assets[i].0)
      modifies this
      ensures Stageable(old(files), staged) && files == Staged(old(files), staged)
      ensures ok <==> raiseAt > |assets| && Stageable(old(files), ToStage(old(files), assets, root))
      ensures ok ==> staged == ToStage(old(files), assets, root) && !Exists(files, root)
    {
      ghost var all := ToStage(old(files), assets, root);
      ok, staged := StageAssets(assets, raiseAt);
      if !ok || raiseAt == |assets| {
        if Stageable(old(files), all) { StageablePrefix(old(files), Matching(old(files), assets), all); }
        return false, staged;
      }
      StagingStops(old(files), staged, root, all);
      ok, staged := Stage(root, old(files), staged);
    }

    /**
     The transaction of `cmd_uninstall`.  `changed` holds what the metadata and hook updates
     have made of the state files when they end or raise.
     */
    method Uninstall(assets: seq<(Path, Path)>, root: Path, raiseAt: nat, changed: Files)
      returns (committed: bool, staged: seq<Path>)
      requires ClearOfState(root) && forall i :: 0 <= i < |assets| ==> ClearOfState(assets[i].0)
      modifies this
      ensures !committed ==> files == old(files)
      ensures committed ==> files == WithStateOf(Without(old(files), staged), changed)
      ensures committed <==> raiseAt > |assets| + 1 && Stageable(old(files), ToStage(old(files), assets, root))
      ensures committed ==> staged == ToStage(old(files), assets, root) && !Exists(files, root)
    {
      var snapshots := map q | q in files && q in STATE_FILES :: files[q];
      committed, staged := StageAll(assets, root, raiseAt);
      ghost var aside := files;
      StagingKeepsState(old(files), staged);
      if committed {
        files := WithStateOf(files, changed);
        if raiseAt == |assets| + 1 {
          committed := false;
        }
      }
      if !committed {
        SnapshotRestores(aside, files, snapshots, changed);
        RestoreStateFiles(snapshots);
        Unstage(staged, old(files));
      } else {
        ClearedIsWithout(old(files), staged, changed);
        RootStaysAway(aside, staged, root, changed);
        DeleteStaged(staged);
      }
    }
  }
}
