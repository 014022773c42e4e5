/** When two scopes have a path in common, decided on their parts and on the tokens of each part. */
module ScopeMeets {
  import opened Text
  import opened Globs
  import opened NameMeets
  import opened Scopes
  import opened ScopeOverlap

  // ---- two lists of parts ----

  ghost predicate AllLegal(path: Parts) {
    forall i :: 0 <= i < |path| ==> LegalName(path[i])
  }

  ghost predicate InBoth(cls: ClassReader, path: Parts, f: Parts, s: Parts) {
    AllLegal(path) && Denotes(cls, path, f) && Denotes(cls, path, s)
  }

  /** Some list of legal segments, perhaps an empty one, lies in both. */
  ghost predicate Common(cls: ClassReader, f: Parts, s: Parts) {
    exists path :: InBoth(cls, path, f, s)
  }

  predicate AllRecursive(scope: Parts) {
    forall i :: 0 <= i < |scope| ==> IsRecursive(scope[i])
  }

  /** A recursive part can take in whatever this part stands for. */
  ghost predicate Absorbable(cls: ClassReader, part: string) {
    IsRecursive(part) || Namable(cls, part)
  }

  /** Walk both lists: a recursive part is skipped or takes in the head of the other list. */
  ghost predicate Meets(cls: ClassReader, f: Parts, s: Parts)
    decreases |f| + |s|
  {
    if f == [] then AllRecursive(s)
    else if s == [] then AllRecursive(f)
    else if IsRecursive(f[0]) then Meets(cls, f[1..], s) || (Absorbable(cls, s[0]) && Meets(cls, f, s[1..]))
    else if IsRecursive(s[0]) then Meets(cls, f, s[1..]) || (Absorbable(cls, f[0]) && Meets(cls, f[1..], s))
    else ShareName(cls, f[0], s[0]) && Meets(cls, f[1..], s[1..])
  }

  lemma {:induction false} EmptyPathIff(cls: ClassReader, scope: Parts)
    ensures Denotes(cls, [], scope) <==> AllRecursive(scope)
  {
    if scope == [] {
      DenotesNil(cls, []);
    } else {
      EmptyPathIff(cls, scope[1..]);
      assert forall i :: 1 <= i < |scope| ==> scope[i] == scope[1..][i - 1];
      if IsRecursive(scope[0]) { DenotesRecursive(cls, [], scope); } else { DenotesOrdinary(cls, [], scope); }
    }
  }

  lemma EmptyMeets(cls: ClassReader, s: Parts)
    ensures Common(cls, [], s) <==> AllRecursive(s)
    ensures Common(cls, s, []) <==> AllRecursive(s)
  {
    EmptyPathIff(cls, s);
    DenotesNil(cls, []);
    if AllRecursive(s) { assert InBoth(cls, [], [], s) && InBoth(cls, [], s, []); }
    forall path { DenotesNil(cls, path); }
  }

  lemma SwapCommon(cls: ClassReader, f: Parts, s: Parts)
    ensures Common(cls, f, s) <==> Common(cls, s, f)
  {
    if path :| InBoth(cls, path, f, s) { assert InBoth(cls, path, s, f); }
    if path :| InBoth(cls, path, s, f) { assert InBoth(cls, path, f, s); }
  }

  /** In a path that lies in both, a recursive first part is done, or takes in the head of the other list. */
  lemma {:induction false} RecursiveHeadSplits(cls: ClassReader, path: Parts, f: Parts, s: Parts)
    requires f != [] && s != [] && IsRecursive(f[0]) && InBoth(cls, path, f, s)
    ensures Common(cls, f[1..], s) || (Absorbable(cls, s[0]) && Common(cls, f, s[1..]))
  {
    DenotesRecursive(cls, path, f);
    if Denotes(cls, path, f[1..]) {
      assert InBoth(cls, path, f[1..], s);
    } else if IsRecursive(s[0]) {
      DenotesRecursive(cls, path, s);
      if Denotes(cls, path, s[1..]) {
        assert InBoth(cls, path, f, s[1..]);
      } else {
        RecursiveHeadSplits(cls, path[1..], f, s);
      }
    } else {
      DenotesOrdinary(cls, path, s);
      assert LegalName(path[0]) && InBoth(cls, path[1..], f, s[1..]);
    }
  }

  lemma RecursiveHeadJoins(cls: ClassReader, f: Parts, s: Parts)
    requires f != [] && s != [] && IsRecursive(f[0])
    requires Common(cls, f[1..], s) || (Absorbable(cls, s[0]) && Common(cls, f, s[1..]))
    ensures Common(cls, f, s)
  {
    if path :| InBoth(cls, path, f[1..], s) {
      DenotesRecursive(cls, path, f);
      assert InBoth(cls, path, f, s);
    } else {
      var path :| InBoth(cls, path, f, s[1..]);
      if IsRecursive(s[0]) {
        DenotesRecursive(cls, path, s);
        assert InBoth(cls, path, f, s);
      } else {
        var name :| LegalName(name) && FnMatch(cls, name, s[0]);
        var longer := [name] + path;
        assert longer[1..] == path;
        DenotesRecursive(cls, longer, f);
        DenotesOrdinary(cls, longer, s);
        assert InBoth(cls, longer, f, s);
      }
    }
  }

  lemma RecursiveHead(cls: ClassReader, f: Parts, s: Parts)
    requires f != [] && s != [] && IsRecursive(f[0])
    ensures Common(cls, f, s) <==> Common(cls, f[1..], s) || (Absorbable(cls, s[0]) && Common(cls, f, s[1..]))
  {
    if path :| InBoth(cls, path, f, s) { RecursiveHeadSplits(cls, path, f, s); }
    if Common(cls, f[1..], s) || (Absorbable(cls, s[0]) && Common(cls, f, s[1..])) { RecursiveHeadJoins(cls, f, s); }
  }

  lemma OrdinaryHeads(cls: ClassReader, f: Parts, s: Parts)
    requires f != [] && s != [] && !IsRecursive(f[0]) && !IsRecursive(s[0])
    ensures Common(cls, f, s) <==> ShareName(cls, f[0], s[0]) && Common(cls, f[1..], s[1..])
  {
    if path :| InBoth(cls, path, f, s) {
      DenotesOrdinary(cls, path, f);
      DenotesOrdinary(cls, path, s);
      assert LegalName(path[0]) && InBoth(cls, path[1..], f[1..], s[1..]);
    }
    if ShareName(cls, f[0], s[0]) && Common(cls, f[1..], s[1..]) {
      var name :| LegalName(name) && FnMatch(cls, name, f[0]) && FnMatch(cls, name, s[0]);
      var rest :| InBoth(cls, rest, f[1..], s[1..]);
      var path := [name] + rest;
      assert path[1..] == rest;
      DenotesOrdinary(cls, path, f);
      DenotesOrdinary(cls, path, s);
      assert InBoth(cls, path, f, s);
    }
  }

  /** The walk decides whether the two lists have anything in common. */
  lemma {:induction false} CommonIffMeets(cls: ClassReader, f: Parts, s: Parts)
    ensures Common(cls, f, s) <==> Meets(cls, f, s)
    decreases |f| + |s|
  {
    if f == [] {
      EmptyMeets(cls, s);
    } else if s == [] {
      EmptyMeets(cls, f);
    } else if IsRecursive(f[0]) {
      RecursiveHead(cls, f, s);
      CommonIffMeets(cls, f[1..], s);
      CommonIffMeets(cls, f, s[1..]);
    } else if IsRecursive(s[0]) {
      SwapCommon(cls, f, s);
      RecursiveHead(cls, s, f);
      SwapCommon(cls, f, s[1..]);
      SwapCommon(cls, f[1..], s);
      CommonIffMeets(cls, f, s[1..]);
      CommonIffMeets(cls, f[1..], s);
    } else {
      OrdinaryHeads(cls, f, s);
      CommonIffMeets(cls, f[1..], s[1..]);
    }
  }

  /** Scopes that share only the empty list share a longer one too, so `Meets` speaks of real paths. */
  lemma CommonPartsIffMeets(cls: ClassReader, f: Parts, s: Parts)
    requires f != [] && s != []
    ensures CommonParts(cls, f, s) <==> Meets(cls, f, s)
  {
    CommonIffMeets(cls, f, s);
    if parts :| LegalParts(parts) && Denotes(cls, parts, f) && Denotes(cls, parts, s) {
      assert InBoth(cls, parts, f, s);
    }
    if path :| InBoth(cls, path, f, s) {
      if path == [] {
        EmptyPathIff(cls, f);
        EmptyPathIff(cls, s);
        RecursiveTakesName(cls, f);
        RecursiveTakesName(cls, s);
        assert LegalName("x") && LegalParts(["x"]);
      } else {
        assert LegalParts(path);
      }
    }
  }

  lemma RecursiveTakesName(cls: ClassReader, scope: Parts)
    requires scope != [] && AllRecursive(scope)
    ensures Denotes(cls, ["x"], scope)
  {
    EmptyPathIff(cls, scope);
    assert ["x"][1..] == [];
    DenotesRecursive(cls, ["x"], scope);
  }
}
