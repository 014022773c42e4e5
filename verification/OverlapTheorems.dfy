/** When `scopes_overlap` tells the truth. */
module OverlapTheorems {
  import opened Options
  import opened Text
  import opened Globs
  import opened Scopes
  import opened ScopeOverlap
  import opened ScopeMeets

  lemma CommonIsNamable(cls: ClassReader, f: Parts, s: Parts)
    requires CommonParts(cls, f, s)
    ensures NamableScope(cls, f) && NamableScope(cls, s)
  {
    var parts :| LegalParts(parts) && Denotes(cls, parts, f) && Denotes(cls, parts, s);
    MatchedIsNamable(cls, parts, f);
    MatchedIsNamable(cls, parts, s);
  }

  lemma EqualScopesShare(cls: ClassReader, f: Parts)
    requires f != [] && NamableScope(cls, f)
    ensures CommonParts(cls, f, f)
  {
    var path := NamableIsMatched(cls, f);
    assert LegalParts(path);
  }

  /** A concrete scope shares a path with another scope exactly when that scope matches it. */
  lemma ConcreteShares(cls: ClassReader, f: Parts, s: Parts)
    requires LegalParts(f) && IsConcrete(f)
    ensures CommonParts(cls, f, s) <==> MatchPathParts(cls, f, s)
    ensures CommonParts(cls, s, f) <==> MatchPathParts(cls, f, s)
  {
    MatchIffDenotes(cls, f, s);
    forall parts ensures Denotes(cls, parts, f) <==> parts == f {
      MatchIffDenotes(cls, parts, f);
      ConcreteScopeCoversItself(cls, parts, f);
    }
  }

  lemma RecursivePrefixCovers(cls: ClassReader, f: Parts, path: Parts)
    requires RecursivePrefix(f).Some?
    ensures Denotes(cls, path, f) <==> RecursivePrefix(f).value <= path
  {
    var p := RecursivePrefix(f).value;
    assert f == p + [f[|f| - 1]];
    MatchIffDenotes(cls, path, f);
    PrefixScopeCoversPrefixes(cls, path, p, f[|f| - 1]);
  }

  /** Two recursive prefixes share a path exactly when one prefix extends the other. */
  lemma PrefixesShare(cls: ClassReader, f: Parts, s: Parts)
    requires LegalParts(f) && LegalParts(s) && RecursivePrefix(f).Some? && RecursivePrefix(s).Some?
    ensures CommonParts(cls, f, s) <==>
      RecursivePrefix(f).value <= RecursivePrefix(s).value || RecursivePrefix(s).value <= RecursivePrefix(f).value
  {
    var p, q := RecursivePrefix(f).value, RecursivePrefix(s).value;
    if p <= q { ExtendLonger(cls, f, s); }
    if q <= p { ExtendLonger(cls, s, f); }
    if path :| LegalParts(path) && Denotes(cls, path, f) && Denotes(cls, path, s) {
      RecursivePrefixCovers(cls, f, path);
      RecursivePrefixCovers(cls, s, path);
      PrefixesOfOne(p, q, path);
    }
  }

  lemma PrefixesOfOne(p: Parts, q: Parts, path: Parts)
    requires p <= path && q <= path
    ensures p <= q || q <= p
  {
    if |p| <= |q| { assert p == q[..|p|]; } else { assert q == p[..|q|]; }
  }

  /** One more segment under the longer prefix lies under both. */
  lemma ExtendLonger(cls: ClassReader, f: Parts, s: Parts)
    requires LegalParts(s) && RecursivePrefix(f).Some? && RecursivePrefix(s).Some?
    requires RecursivePrefix(f).value <= RecursivePrefix(s).value
    ensures CommonParts(cls, f, s) && CommonParts(cls, s, f)
  {
    var q := RecursivePrefix(s).value;
    var path := q + ["x"];
    RecursivePrefixCovers(cls, f, path);
    RecursivePrefixCovers(cls, s, path);
    assert LegalName("x") && forall i :: 0 <= i < |q| ==> q[i] == s[i];
    assert LegalParts(path);
  }

  /** A recursive prefix that the other scope spells out at its start. */
  lemma SpelledPrefixShares(cls: ClassReader, f: Parts, s: Parts)
    requires RecursivePrefix(f).Some? && RecursivePrefix(f).value <= s && s != [] && NamableScope(cls, s)
    ensures CommonParts(cls, f, s) && CommonParts(cls, s, f)
  {
    var p := RecursivePrefix(f).value;
    var path := NamableIsMatched(cls, s);
    assert s == p + s[|p|..];
    ConcretePrefix(cls, path, p, s[|p|..]);
    RecursivePrefixCovers(cls, f, path);
    assert LegalParts(path);
  }

  lemma TakeIsPrefix(s: Parts, p: Parts)
    ensures Take(s, |p|) == p <==> p <= s
  {}

  lemma ShorterIsPrefix(p: Parts, q: Parts)
    ensures var n := if |p| <= |q| then |p| else |q|; (p[..n] == q[..n]) <==> (p <= q || q <= p)
  {
    if |p| <= |q| { assert p[..|p|] == p; } else { assert q[..|q|] == q; }
  }

  /** One recursive prefix lies in the other, or at the start of the other scope. */
  ghost predicate PrefixTest(f: Parts, s: Parts) {
    var fp, sp := RecursivePrefix(f), RecursivePrefix(s);
    if fp.Some? && sp.Some? then fp.value <= sp.value || sp.value <= fp.value
    else if fp.Some? then fp.value <= s
    else if sp.Some? then sp.value <= f
    else false
  }

  /** The decision on parsed scopes. */
  ghost predicate PartsOverlap(cls: ClassReader, f: Parts, s: Parts) {
    if f == s then true
    else if IsConcrete(f) then MatchPathParts(cls, f, s)
    else if IsConcrete(s) then MatchPathParts(cls, s, f)
    else PrefixTest(f, s)
  }

  lemma OverlapOnParts(cls: ClassReader, first: string, second: string)
    ensures ScopesOverlap(cls, first, second) <==>
      DeclaredParts(first, false).Some? && DeclaredParts(second, false).Some?
      && PartsOverlap(cls, DeclaredParts(first, false).value, DeclaredParts(second, false).value)
  {
    if DeclaredParts(first, false).Some? && DeclaredParts(second, false).Some? {
      var f, s := DeclaredParts(first, false).value, DeclaredParts(second, false).value;
      ParsedIsLegal(first, false);
      ParsedIsLegal(second, false);
      ParseJoin(f);
      ParseJoin(s);
      PrefixTests(f, s);
    }
  }

  lemma PrefixTests(f: Parts, s: Parts)
    ensures var fp, sp := RecursivePrefix(f), RecursivePrefix(s);
      && (fp.Some? ==> (Take(s, |fp.value|) == fp.value <==> fp.value <= s))
      && (sp.Some? ==> (Take(f, |sp.value|) == sp.value <==> sp.value <= f))
      && (fp.Some? && sp.Some? ==>
            var n := if |fp.value| <= |sp.value| then |fp.value| else |sp.value|;
            fp.value[..n] == sp.value[..n] <==> fp.value <= sp.value || sp.value <= fp.value)
  {
    var fp, sp := RecursivePrefix(f), RecursivePrefix(s);
    if fp.Some? { TakeIsPrefix(s, fp.value); }
    if sp.Some? { TakeIsPrefix(f, sp.value); }
    if fp.Some? && sp.Some? { ShorterIsPrefix(fp.value, sp.value); }
  }

  lemma PartsOverlapSound(cls: ClassReader, f: Parts, s: Parts)
    requires LegalParts(f) && LegalParts(s) && PartsOverlap(cls, f, s)
    ensures CommonParts(cls, f, s) <==> NamableScope(cls, f) && NamableScope(cls, s)
  {
    if CommonParts(cls, f, s) { CommonIsNamable(cls, f, s); }
    if NamableScope(cls, f) && NamableScope(cls, s) {
      if f == s {
        EqualScopesShare(cls, f);
      } else if IsConcrete(f) {
        ConcreteShares(cls, f, s);
      } else if IsConcrete(s) {
        ConcreteShares(cls, s, f);
      } else if RecursivePrefix(f).Some? && RecursivePrefix(s).Some? {
        PrefixesShare(cls, f, s);
      } else if RecursivePrefix(f).Some? {
        SpelledPrefixShares(cls, f, s);
      } else {
        SpelledPrefixShares(cls, s, f);
      }
    }
  }

  /**
   A reported overlap is real, that is, some path is matched by both scopes, exactly when every
   ordinary segment of both scopes can match some legal name.
   */
  lemma ReportedOverlapIsRealIff(cls: ClassReader, first: string, second: string)
    requires ScopesOverlap(cls, first, second)
    ensures var f, s := DeclaredParts(first, false), DeclaredParts(second, false);
      f.Some? && s.Some? &&
      (CommonPath(cls, first, second) <==> NamableScope(cls, f.value) && NamableScope(cls, s.value))
  {
    OverlapOnParts(cls, first, second);
    var f, s := DeclaredParts(first, false).value, DeclaredParts(second, false).value;
    ParsedIsLegal(first, false);
    ParsedIsLegal(second, false);
    PartsOverlapSound(cls, f, s);
    CommonPathIffParts(cls, first, second);
  }

  /** Scopes written without brackets: a reported overlap is always real. */
  lemma BracketFreeOverlapIsReal(cls: ClassReader, first: string, second: string)
    requires ScopesOverlap(cls, first, second) && '[' !in first && '[' !in second
    ensures CommonPath(cls, first, second)
  {
    ReportedOverlapIsRealIff(cls, first, second);
    BracketFreeScope(cls, first);
    BracketFreeScope(cls, second);
  }

  lemma BracketFreeScope(cls: ClassReader, scope: string)
    requires DeclaredParts(scope, false).Some? && '[' !in scope
    ensures NamableScope(cls, DeclaredParts(scope, false).value)
  {
    var parts := DeclaredParts(scope, false).value;
    ParsedIsLegal(scope, false);
    var rest := StripDotSlash(scope);
    StripKeepsChars(scope);
    StripKeepsChars(rest);
    SplitParts(StripSlashes(rest), '/');
    forall i | 0 <= i < |parts| ensures Namable(cls, parts[i]) {
      assert LegalName(parts[i]);
      BracketFreeIsNamable(cls, parts[i]);
    }
  }

  /** Complete when one scope is concrete, or both are a concrete prefix and a recursive part. */
  lemma RealOverlapIsReported(cls: ClassReader, first: string, second: string)
    requires CommonPath(cls, first, second)
    requires var f, s := DeclaredParts(first, false), DeclaredParts(second, false);
      f.Some? && s.Some? &&
      (IsConcrete(f.value) || IsConcrete(s.value) || (RecursivePrefix(f.value).Some? && RecursivePrefix(s.value).Some?))
    ensures ScopesOverlap(cls, first, second)
  {
    var f, s := DeclaredParts(first, false).value, DeclaredParts(second, false).value;
    OverlapOnParts(cls, first, second);
    CommonPathIffParts(cls, first, second);
    ParsedIsLegal(first, false);
    ParsedIsLegal(second, false);
    if f != s {
      if IsConcrete(f) {
        ConcreteShares(cls, f, s);
      } else if IsConcrete(s) {
        ConcreteShares(cls, s, f);
      } else {
        PrefixesShare(cls, f, s);
      }
    }
  }

  // ---- exactly which overlaps are missed ----

  /** Two scopes have a path in common exactly if both parse and their parts meet. */
  lemma CommonPathIffMeets(cls: ClassReader, first: string, second: string)
    ensures var f, s := DeclaredParts(first, false), DeclaredParts(second, false);
      CommonPath(cls, first, second) <==> f.Some? && s.Some? && Meets(cls, f.value, s.value)
  {
    if DeclaredParts(first, false).Some? && DeclaredParts(second, false).Some? {
      ParsedIsLegal(first, false);
      ParsedIsLegal(second, false);
      CommonPathIffParts(cls, first, second);
      CommonPartsIffMeets(cls, DeclaredParts(first, false).value, DeclaredParts(second, false).value);
    }
  }

  /** Two wildcard scopes, neither of whose concrete prefixes settles the question. */
  ghost predicate Undecided(f: Parts, s: Parts) {
    f != s && !IsConcrete(f) && !IsConcrete(s) && !PrefixTest(f, s)
  }

  /**
   A pair with a common path goes unreported exactly if both scopes parse, differ, have a
   wildcard each, pass no prefix test, and their parts meet.
   */
  lemma UnreportedIff(cls: ClassReader, first: string, second: string)
    ensures var f, s := DeclaredParts(first, false), DeclaredParts(second, false);
      CommonPath(cls, first, second) && !ScopesOverlap(cls, first, second) <==>
        f.Some? && s.Some? && Undecided(f.value, s.value) && Meets(cls, f.value, s.value)
  {
    CommonPathIffMeets(cls, first, second);
    OverlapOnParts(cls, first, second);
    if CommonPath(cls, first, second) {
      var f, s := DeclaredParts(first, false).value, DeclaredParts(second, false).value;
      ParsedIsLegal(first, false);
      ParsedIsLegal(second, false);
      CommonPathIffParts(cls, first, second);
      if IsConcrete(f) {
        ConcreteShares(cls, f, s);
      } else if IsConcrete(s) {
        ConcreteShares(cls, s, f);
      }
    }
  }

  lemma OverlapIsSymmetric(cls: ClassReader, first: string, second: string)
    ensures ScopesOverlap(cls, first, second) <==> ScopesOverlap(cls, second, first)
  {
    OverlapOnParts(cls, first, second);
    OverlapOnParts(cls, second, first);
    if DeclaredParts(first, false).Some? && DeclaredParts(second, false).Some? {
      var f, s := DeclaredParts(first, false).value, DeclaredParts(second, false).value;
      if IsConcrete(f) && IsConcrete(s) {
        ConcreteScopeCoversItself(cls, f, s);
        ConcreteScopeCoversItself(cls, s, f);
      }
    }
  }

  // ---- where the decision is wrong ----

  /** A bracket that accepts only the dot names no path, yet equal scopes are reported to overlap. */
  lemma EqualUnnamableScopes(cls: ClassReader)
    requires forall c :: cls(".")(c) <==> c == '.'
    ensures ScopesOverlap(cls, "[.]", "[.]") && !CommonPath(cls, "[.]", "[.]")
  {
    var s := "[.]";
    ParseJoin([s]);
    var body := s[1..];
    assert CloseAt(body) == 1 by { assert ScanClose(body, 0) == ScanClose(body, 1); }
    assert Tokens(s[3..]) == [] && s[1..2] == ".";
    assert Tokens(s) == [Class(".")];
    assert !BeyondDot(cls, Tokens(s)[0]);
    NamableIffFillable(cls, s);
    ReportedOverlapIsRealIff(cls, s, s);
    assert !Namable(cls, [s][0]);
  }

  const UNDER_A: Parts := ["a", "**"]
  const NAMED_B: Parts := ["*", "b"]

  lemma ExampleParses()
    ensures DeclaredParts("a/**", false) == Some(UNDER_A) && DeclaredParts("*/b", false) == Some(NAMED_B)
  {
    assert Join(UNDER_A[1..], '/') == "**" && Join(NAMED_B[1..], '/') == "b";
    assert Join(UNDER_A, '/') == "a/**" && Join(NAMED_B, '/') == "*/b";
    ParseJoin(UNDER_A);
    ParseJoin(NAMED_B);
  }

  lemma ExampleShares(cls: ClassReader)
    ensures CommonParts(cls, UNDER_A, NAMED_B)
  {
    var path := ["a", "b"];
    assert UNDER_A[..1] == ["a"] && !HasWildcard("a");
    RecursivePrefixCovers(cls, UNDER_A, path);
    assert FnMatch(cls, "a", "*") by {
      assert MatchTokens(cls, [], "") && MatchTokens(cls, [Star], "");
      assert Tokens("*") == [Star] by { assert Tokens("") == []; }
    }
    ConcreteScopeCoversItself(cls, ["b"], ["b"]);
    MatchIffDenotes(cls, ["b"], ["b"]);
    DenotesOrdinary(cls, path, NAMED_B);
    assert path[1..] == ["b"] && NAMED_B[1..] == ["b"];
    assert LegalParts(path);
  }

  /** Both scopes match `a/b`, but neither spells out the other's prefix, so nothing is reported. */
  lemma MissedOverlap(cls: ClassReader)
    ensures !ScopesOverlap(cls, "a/**", "*/b") && CommonPath(cls, "a/**", "*/b")
  {
    ExampleParses();
    ExampleShares(cls);
    CommonPathIffParts(cls, "a/**", "*/b");
    OverlapOnParts(cls, "a/**", "*/b");
    assert HasWildcard(NAMED_B[0]) by { assert NAMED_B[0][0] == '*'; }
    assert IsRecursive(UNDER_A[1]);
    assert UNDER_A[..1] == ["a"];
  }
}
