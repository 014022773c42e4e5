/** What a committed uninstall removes: the unmodified assets, and no modified one. */
module UninstallTheorems {
  import opened Uninstall
  import opened UninstallTransaction

  ghost predicate Apart(p: Path, q: Path) {
    !Under(p, q) && !Under(q, p)
  }

  /** Neither staging `p` nor its temporary name touches anything at or below `q`. */
  ghost predicate Untouched(p: Path, q: Path) {
    p != [] && Apart(p, q) && Apart(Temporary(p), q)
  }

  /** No asset lies at or below another asset, its source, or the place where either is set aside. */
  ghost predicate Independent(assets: seq<(Path, Path)>) {
    forall i, j :: 0 <= i < |assets| && 0 <= j < |assets| && i != j ==>
      Untouched(assets[j].0, assets[i].0) && Untouched(assets[j].0, assets[i].1)
  }

  ghost predicate AllUntouched(originals: seq<Path>, q: Path) {
    forall p :: p in originals ==> Untouched(p, q)
  }

  lemma ApartBelow(p: Path, t: Path, q: Path)
    requires Apart(p, t) && Under(t, q)
    ensures !Under(p, q)
  {
    if Under(p, q) { Comparable(p, t, q); }
  }

  lemma UntouchedBelow(originals: seq<Path>, p: Path, q: Path)
    requires AllUntouched(originals, p) && Under(p, q)
    ensures !UnderAny(originals, q) && !AsideAny(originals, q)
  {
    forall i | 0 <= i < |originals|
      ensures originals[i] != [] && !Under(originals[i], q) && !Under(Temporary(originals[i]), q)
    {
      assert Untouched(originals[i], p);
      ApartBelow(originals[i], p, q);
      ApartBelow(Temporary(originals[i]), p, q);
    }
  }

  ghost predicate SameAt(a: Files, b: Files, q: Path) {
    (q in a <==> q in b) && (q in a ==> a[q] == b[q])
  }

  /** Equal contents below `p` give equal signatures. */
  lemma SameSignature(a: Files, b: Files, p: Path)
    requires forall q :: Under(p, q) ==> SameAt(a, b, q)
    ensures Signature(a, p) == Signature(b, p)
  {
    forall rel ensures rel in Signature(a, p) <==> rel in Signature(b, p)
      ensures rel in Signature(a, p) ==> Signature(a, p)[rel] == Signature(b, p)[rel]
    {
      SignatureAt(a, p, rel);
      SignatureAt(b, p, rel);
      assert Under(p, p + rel) && SameAt(a, b, p + rel);
    }
  }

  lemma SignatureAt(fs: Files, p: Path, rel: Path)
    ensures rel in Signature(fs, p) <==> p + rel in fs
    ensures rel in Signature(fs, p) ==> Signature(fs, p)[rel] == fs[p + rel].content
  {
    assert (p + rel)[|p|..] == rel && Under(p, p + rel);
  }

  /** Some file lies at or below the target, and the source holds the same files with the same contents. */
  ghost predicate SameContents(fs: Files, target: Path, source: Path) {
    && (exists rel :: target + rel in fs)
    && (forall rel :: target + rel in fs <==> source + rel in fs)
    && (forall rel :: target + rel in fs && source + rel in fs ==>
          fs[target + rel].content == fs[source + rel].content)
  }

  /** An asset counts as unmodified exactly if its files and their contents are those of its source. */
  lemma UnmodifiedIff(fs: Files, target: Path, source: Path)
    ensures Unmodified(fs, target, source) <==> SameContents(fs, target, source)
  {
    var a, b := Signature(fs, target), Signature(fs, source);
    forall rel
      ensures rel in a <==> target + rel in fs
      ensures rel in a ==> a[rel] == fs[target + rel].content
    {
      SignatureAt(fs, target, rel);
    }
    forall rel
      ensures rel in b <==> source + rel in fs
      ensures rel in b ==> b[rel] == fs[source + rel].content
    {
      SignatureAt(fs, source, rel);
    }
    assert a != map[] <==> exists rel :: rel in a;
    if SameContents(fs, target, source) {
      assert a.Keys == b.Keys;
      assert a == b;
    }
    if a == b {
      forall rel ensures target + rel in fs <==> source + rel in fs { assert rel in a <==> rel in b; }
      forall rel | target + rel in fs && source + rel in fs
        ensures fs[target + rel].content == fs[source + rel].content
      {
        assert rel in a && a[rel] == b[rel];
      }
    }
  }

  lemma StagedElsewhere(fs: Files, originals: seq<Path>, p: Path)
    requires Stageable(fs, originals) && AllUntouched(originals, p)
    ensures Signature(Staged(fs, originals), p) == Signature(fs, p)
  {
    forall q | Under(p, q) ensures SameAt(Staged(fs, originals), fs, q) {
      UntouchedBelow(originals, p, q);
      StagedOutside(fs, originals, q);
    }
    SameSignature(Staged(fs, originals), fs, p);
  }

  lemma {:induction false} MatchingTargets(fs: Files, assets: seq<(Path, Path)>)
    ensures forall p :: p in Matching(fs, assets) ==> exists j :: 0 <= j < |assets| && assets[j].0 == p
  {
    if assets != [] { MatchingTargets(fs, assets[..|assets| - 1]); }
  }

  /** Staging the earlier assets does not change whether a later one counts as modified. */
  lemma MatchIsStable(fs: Files, assets: seq<(Path, Path)>, i: nat)
    requires i < |assets| && Independent(assets) && Stageable(fs, Matching(fs, assets[..i]))
    ensures var front := Matching(fs, assets[..i]);
      assets[i].0 !in front &&
      (Unmodified(Staged(fs, front), assets[i].0, assets[i].1) <==> Unmodified(fs, assets[i].0, assets[i].1))
  {
    var front := Matching(fs, assets[..i]);
    MatchingTargets(fs, assets[..i]);
    forall p | p in front ensures Untouched(p, assets[i].0) && Untouched(p, assets[i].1) {
      var j :| 0 <= j < i && assets[..i][j].0 == p;
      assert assets[j].0 == p;
    }
    StagedElsewhere(fs, front, assets[i].0);
    StagedElsewhere(fs, front, assets[i].1);
  }

  lemma {:induction false} MatchingIff(fs: Files, assets: seq<(Path, Path)>, i: nat)
    requires i < |assets| && Independent(assets) && Stageable(fs, Matching(fs, assets))
    ensures assets[i].0 in Matching(fs, assets) <==> Unmodified(fs, assets[i].0, assets[i].1)
  {
    var n := |assets| - 1;
    MatchingPrefix(fs, assets, n);
    StageablePrefix(fs, Matching(fs, assets[..n]), Matching(fs, assets));
    if i < n {
      MatchingIff(fs, assets[..n], i);
      assert Untouched(assets[n].0, assets[i].0);
    } else {
      MatchIsStable(fs, assets, n);
    }
  }

  /** The assets set aside are exactly those that hold their source's contents when the command starts. */
  lemma MatchingIffUnmodified(fs: Files, assets: seq<(Path, Path)>, i: nat)
    requires i < |assets| && Independent(assets) && Stageable(fs, Matching(fs, assets))
    ensures assets[i].0 in Matching(fs, assets) <==> SameContents(fs, assets[i].0, assets[i].1)
  {
    MatchingIff(fs, assets, i);
    UnmodifiedIff(fs, assets[i].0, assets[i].1);
  }

  /** The files after a committed uninstall, as `Project.Uninstall` leaves them. */
  ghost function Uninstalled(fs: Files, assets: seq<(Path, Path)>, root: Path, changed: Files): Files {
    WithStateOf(Without(fs, ToStage(fs, assets, root)), changed)
  }

  ghost predicate Separate(assets: seq<(Path, Path)>, root: Path) {
    && Independent(assets)
    && forall i :: 0 <= i < |assets| ==> ClearOfState(assets[i].0) && Apart(root, assets[i].0)
  }

  /** An asset that holds its source's contents is removed; any other is left exactly as it was. */
  lemma UnmodifiedAreRemoved(fs: Files, assets: seq<(Path, Path)>, root: Path, changed: Files, i: nat)
    requires i < |assets| && Separate(assets, root) && Stageable(fs, ToStage(fs, assets, root))
    ensures var after, target := Uninstalled(fs, assets, root, changed), assets[i].0;
      if SameContents(fs, target, assets[i].1) then !Exists(after, target)
      else forall q :: Under(target, q) ==> SameAt(after, fs, q)
  {
    var all, target := ToStage(fs, assets, root), assets[i].0;
    StageablePrefix(fs, Matching(fs, assets), all);
    MatchingIffUnmodified(fs, assets, i);
    if SameContents(fs, target, assets[i].1) {
      MatchedIsGone(fs, assets, root, changed, target);
    } else {
      forall q | Under(target, q) ensures SameAt(Uninstalled(fs, assets, root, changed), fs, q) {
        KeptOutside(fs, assets, root, i, q);
      }
    }
  }

  lemma MatchedIsGone(fs: Files, assets: seq<(Path, Path)>, root: Path, changed: Files, p: Path)
    requires p in Matching(fs, assets) && ClearOfState(p)
    ensures !Exists(Uninstalled(fs, assets, root, changed), p)
  {
    var k :| 0 <= k < |Matching(fs, assets)| && Matching(fs, assets)[k] == p;
    assert ToStage(fs, assets, root)[k] == p;
  }

  lemma StagedAreApart(fs: Files, assets: seq<(Path, Path)>, root: Path, i: nat, p: Path)
    requires i < |assets| && Separate(assets, root) && assets[i].0 !in Matching(fs, assets)
    requires p in ToStage(fs, assets, root)
    ensures Apart(p, assets[i].0)
  {
    MatchingTargets(fs, assets);
    if p != root {
      assert p in Matching(fs, assets);
      var j :| 0 <= j < |assets| && assets[j].0 == p;
      assert Untouched(assets[j].0, assets[i].0);
    }
  }

  lemma KeptOutside(fs: Files, assets: seq<(Path, Path)>, root: Path, i: nat, q: Path)
    requires i < |assets| && Separate(assets, root) && assets[i].0 !in Matching(fs, assets)
    requires Under(assets[i].0, q)
    ensures !UnderAny(ToStage(fs, assets, root), q) && q !in STATE_FILES
  {
    var all := ToStage(fs, assets, root);
    forall k | 0 <= k < |all| ensures !Under(all[k], q) {
      StagedAreApart(fs, assets, root, i, all[k]);
      ApartBelow(all[k], assets[i].0, q);
    }
    assert ClearOfState(assets[i].0);
  }

  /** After a commit nothing is left at or below the framework root. */
  lemma RootIsRemoved(fs: Files, assets: seq<(Path, Path)>, root: Path, changed: Files)
    requires Stageable(fs, Matching(fs, assets)) && ClearOfState(root)
    ensures !Exists(Uninstalled(fs, assets, root, changed), root)
  {
    var front, all := Matching(fs, assets), ToStage(fs, assets, root);
    forall q | Under(root, q) ensures q !in Uninstalled(fs, assets, root, changed) {
      if Exists(Staged(fs, front), root) {
        assert all[|front|] == root && UnderAny(all, q);
      } else {
        StagedOutside(fs, front, q);
      }
    }
  }

  lemma StagedTargets(fs: Files, assets: seq<(Path, Path)>, root: Path, p: Path)
    requires p in ToStage(fs, assets, root)
    ensures p == root || exists j :: 0 <= j < |assets| && assets[j].0 == p
  {
    MatchingTargets(fs, assets);
  }

  lemma NotUnderAny(roots: seq<Path>, q: Path)
    requires forall p :: p in roots ==> !Under(p, q)
    ensures !UnderAny(roots, q)
  {}

  lemma WithoutKeeps(fs: Files, roots: seq<Path>, changed: Files, q: Path)
    requires !UnderAny(roots, q) && q !in STATE_FILES
    ensures SameAt(WithStateOf(Without(fs, roots), changed), fs, q)
  {}

  /** A file outside the root and all assets, other than a state file, is as it was. */
  lemma OthersAreKept(fs: Files, assets: seq<(Path, Path)>, root: Path, changed: Files, q: Path)
    requires !Under(root, q) && q !in STATE_FILES
    requires forall i :: 0 <= i < |assets| ==> !Under(assets[i].0, q)
    ensures SameAt(Uninstalled(fs, assets, root, changed), fs, q)
  {
    var all := ToStage(fs, assets, root);
    forall p | p in all ensures !Under(p, q) { StagedTargets(fs, assets, root, p); }
    NotUnderAny(all, q);
    WithoutKeeps(fs, all, changed, q);
  }
}
