/**
 Removing an adapter: assets and the framework root are first renamed aside, then the shared
 metadata and the git hook are updated; any exception before the end undoes everything.
 Files are keyed by their path segments below the project root.
 */
module Uninstall {
  import opened Ids

  type Path = seq<string>

  datatype File = File(content: string, mode: nat)

  type Files = map<Path, File>

  predicate Under(root: Path, p: Path) {
    root <= p
  }

  predicate Exists(fs: Files, p: Path) {
    exists q :: q in fs && Under(p, q)
  }

  /** The relative paths and contents below `p`; permissions are not compared. */
  function Signature(fs: Files, p: Path): map<Path, string> {
    map rel | rel in (set q | q in fs && Under(p, q) :: q[|p|..]) && p + rel in fs :: fs[p + rel].content
  }

  /** `os.rename(p, t)` when `t` does not exist: everything below `p` moves below `t`. */
  function Renamed(fs: Files, p: Path, t: Path): Files {
    (map q | q in fs && !Under(p, q) :: fs[q])
    + map q | q in (set r | r in fs && Under(p, r) :: t + r[|p|..]) && p + q[|t|..] in fs :: fs[p + q[|t|..]]
  }

  function Temporary(p: Path): Path
    requires p != []
  {
    p[..|p| - 1] + ["." + p[|p| - 1] + ".cairness-uninstall"]
  }

  /** Aside means: in the same directory, under a hidden name with a suffix of its own. */
  lemma TemporaryIsSibling(parent: Path, name: string)
    ensures Temporary(parent + [name]) == parent + ["." + name + ".cairness-uninstall"]
  {
    assert (parent + [name])[..|parent|] == parent;
  }

  lemma TemporaryIsApart(p: Path)
    requires p != []
    ensures Temporary(p) != [] && !(Under(p, Temporary(p))) && !(Under(Temporary(p), p))
  {
    var n := |p| - 1;
    assert Temporary(p)[n] != p[n] by {
      assert |Temporary(p)[n]| > |p[n]|;
    }
  }

  /** What a rename of `p` to `t` makes of the entry `q`. */
  ghost predicate RenamesAt(fs: Files, p: Path, t: Path, moved: Files, q: Path) {
    if Under(t, q) then
      var from := p + q[|t|..];
      (q in moved <==> from in fs) && (q in moved ==> moved[q] == fs[from])
    else
      (q in moved <==> q in fs && !Under(p, q)) && (q in moved ==> moved[q] == fs[q])
  }

  lemma RenamedAt(fs: Files, p: Path, t: Path, q: Path)
    requires !Exists(fs, t)
    ensures RenamesAt(fs, p, t, Renamed(fs, p, t), q)
  {
    if Under(t, q) {
      assert q == t + q[|t|..];
      var r := p + q[|t|..];
      assert Under(p, r) && r[|p|..] == q[|t|..];
      assert q !in fs;
    } else {
      forall r | r in fs && Under(p, r) ensures t + r[|p|..] != q {
        assert Under(t, t + r[|p|..]);
      }
    }
  }

  lemma NothingLeftUnder(fs: Files, p: Path, t: Path)
    requires !Exists(fs, t) && !Under(p, t) && !Under(t, p)
    ensures !Exists(Renamed(fs, p, t), p)
  {
    forall q | Under(p, q) ensures q !in Renamed(fs, p, t) {
      if Under(t, q) { Comparable(p, t, q); }
      RenamedAt(fs, p, t, q);
    }
  }

  lemma ThereAndBack(fs: Files, moved: Files, back: Files, p: Path, t: Path, q: Path)
    requires RenamesAt(moved, t, p, back, q) && RenamesAt(fs, p, t, moved, q) && !Exists(fs, t)
    requires Under(p, q) ==> RenamesAt(fs, p, t, moved, t + q[|p|..])
    ensures q in back <==> q in fs
    ensures q in fs ==> back[q] == fs[q]
  {
    if Under(p, q) {
      var rel := q[|p|..];
      assert (t + rel)[|t|..] == rel && p + rel == q;
    } else {
      assert q in fs ==> !Under(t, q);
    }
  }

  /** Renaming back restores the files. */
  lemma RenameBack(fs: Files, p: Path, t: Path)
    requires !Exists(fs, t) && !Under(p, t) && !Under(t, p)
    ensures Renamed(Renamed(fs, p, t), t, p) == fs
  {
    var moved := Renamed(fs, p, t);
    var back := Renamed(moved, t, p);
    NothingLeftUnder(fs, p, t);
    forall q ensures (q in back <==> q in fs) && (q in fs ==> back[q] == fs[q]) {
      RenamedAt(moved, t, p, q);
      RenamedAt(fs, p, t, q);
      if Under(p, q) { RenamedAt(fs, p, t, t + q[|p|..]); }
      ThereAndBack(fs, moved, back, p, t, q);
    }
  }

  /** Two prefixes of one path are prefixes of each other. */
  lemma Comparable(p: Path, t: Path, q: Path)
    requires Under(p, q) && Under(t, q)
    ensures Under(p, t) || Under(t, p)
  {
    if |p| <= |t| { assert p == t[..|p|]; } else { assert t == p[..|t|]; }
  }

  // ---- the five state files ----

  const METADATA: Path := [".cairness", "install.yaml"]
  const REPORT: Path := [".cairness", "upgrade-report.json"]
  const HOOK: Path := [".git", "hooks", "pre-commit"]
  const HOOK_BACKUP: Path := [".git", "hooks", "pre-commit.bak"]
  const HOOK_CAIRNESS_BACKUP: Path := [".git", "hooks", "pre-commit.cairness.bak"]

  const STATE_LIST: seq<Path> := [METADATA, REPORT, HOOK, HOOK_BACKUP, HOOK_CAIRNESS_BACKUP]

  const STATE_FILES: set<Path> := Elements(STATE_LIST)

  /** `fs` with the files of `which` as in `other`. */
  function WithFilesOf(fs: Files, other: Files, which: set<Path>): Files {
    (map q | q in fs && q !in which :: fs[q]) + map q | q in other && q in which :: other[q]
  }

  /** `fs` with the state files as in `other`. */
  function WithStateOf(fs: Files, other: Files): Files {
    WithFilesOf(fs, other, STATE_FILES)
  }

  /** One file written back, or removed when it was absent. */
  function WithFileOf(fs: Files, other: Files, f: Path): Files {
    if f in other then fs[f := other[f]] else map q | q in fs && q != f :: fs[q]
  }

  lemma WithOneMore(fs: Files, other: Files, which: set<Path>, f: Path)
    ensures WithFilesOf(fs, other, which + {f}) == WithFileOf(WithFilesOf(fs, other, which), other, f)
  {}

  /** The path and its temporary name are clear of the state files. */
  predicate ClearOfState(p: Path) {
    p != [] && forall f :: f in STATE_FILES ==> !Under(p, f) && !Under(Temporary(p), f)
  }

  lemma RenameKeepsState(fs: Files, p: Path, t: Path)
    requires !Exists(fs, t) && forall f :: f in STATE_FILES ==> !Under(p, f) && !Under(t, f)
    ensures SameState(Renamed(fs, p, t), fs)
  {
    forall f | f in STATE_FILES { RenamedAt(fs, p, t, f); }
  }

  ghost predicate SameState(a: Files, b: Files) {
    forall f :: f in STATE_FILES ==> (f in a <==> f in b) && (f in a ==> a[f] == b[f])
  }

  // ---- staging ----

  /** The files after staging: each original renamed to its temporary, in order. */
  ghost function Staged(fs: Files, originals: seq<Path>): Files {
    if originals == [] then fs
    else
      var p := originals[|originals| - 1];
      var front := Staged(fs, originals[..|originals| - 1]);
      if p == [] then front else Renamed(front, p, Temporary(p))
  }

  /** What `stage` checks before each rename, and the layout keeps clear of the state files. */
  ghost predicate Stageable(fs: Files, originals: seq<Path>) {
    forall i :: 0 <= i < |originals| ==>
      && ClearOfState(originals[i])
      && !Exists(Staged(fs, originals[..i]), Temporary(originals[i]))
  }

  lemma {:induction false} StagingKeepsState(fs: Files, originals: seq<Path>)
    requires Stageable(fs, originals)
    ensures SameState(Staged(fs, originals), fs)
  {
    if originals != [] {
      var n := |originals| - 1;
      StageableFront(fs, originals);
      StagingKeepsState(fs, originals[..n]);
      RenameKeepsState(Staged(fs, originals[..n]), originals[n], Temporary(originals[n]));
    }
  }

  lemma StageableFront(fs: Files, originals: seq<Path>)
    requires Stageable(fs, originals) && originals != []
    ensures Stageable(fs, originals[..|originals| - 1])
  {
    var n := |originals| - 1;
    forall i | 0 <= i < n ensures originals[..n][..i] == originals[..i] {}
  }

  lemma StageableSnoc(fs: Files, originals: seq<Path>, p: Path)
    requires Stageable(fs, originals) && ClearOfState(p) && !Exists(Staged(fs, originals), Temporary(p))
    ensures Stageable(fs, originals + [p])
    ensures Staged(fs, originals + [p]) == Renamed(Staged(fs, originals), p, Temporary(p))
  {
    var all := originals + [p];
    assert all[..|originals|] == originals;
    forall i | 0 <= i < |originals| ensures all[..i] == originals[..i] {}
  }
}
