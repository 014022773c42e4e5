/** Which texts declare a path, said of the text as it is written. */
module ScopeParsing {
  import opened Options
  import opened Text
  import opened Globs
  import opened Scopes
  import opened ScopeOverlap

  /** `n` times `./`. */
  function Dots(n: nat): string {
    if n == 0 then "" else "./" + Dots(n - 1)
  }

  /** `m` times `/`. */
  function Slashes(m: nat): string {
    if m == 0 then "" else Slashes(m - 1) + "/"
  }

  /** The legal parts `p` with leading `./` and trailing `/`. */
  function Spelled(n: nat, p: Parts, m: nat): string {
    Dots(n) + (Join(p, '/') + Slashes(m))
  }

  // ---- every such text parses to its parts ----

  lemma {:induction false} StripDots(n: nat, s: string)
    requires !StartsDotSlash(s)
    ensures StripDotSlash(Dots(n) + s) == s
  {
    if n == 0 {
      assert Dots(0) + s == s;
    } else {
      StripDots(n - 1, s);
      assert Dots(n) + s == "./" + (Dots(n - 1) + s);
    }
  }

  lemma {:induction false} StripTail(s: string, m: nat)
    requires !EndsWithSlash(s)
    ensures StripSlashes(s + Slashes(m)) == s && (s != [] ==> (EndsWithSlash(s + Slashes(m)) <==> m > 0))
  {
    if m == 0 {
      assert s + Slashes(0) == s;
    } else {
      StripTail(s, m - 1);
      assert s + Slashes(m) == (s + Slashes(m - 1)) + "/";
    }
  }

  lemma {:induction false} SlashesOnly(m: nat)
    ensures |Slashes(m)| == m && forall c :: c in Slashes(m) ==> c == '/'
  {
    if m > 0 { SlashesOnly(m - 1); }
  }

  lemma {:induction false} DotsOnly(n: nat)
    ensures forall c :: c in Dots(n) ==> c == '/' || c == '.'
    ensures n > 0 ==> Dots(n) != [] && Dots(n)[0] == '.'
  {
    if n > 0 { DotsOnly(n - 1); }
  }

  lemma SpelledIsAccepted(n: nat, p: Parts, m: nat)
    requires LegalParts(p)
    ensures !Rejected(Spelled(n, p, m))
  {
    JoinEnds(p);
    DotsOnly(n);
    SlashesOnly(m);
    var s := Spelled(n, p, m);
    assert s[0] == if n > 0 then Dots(n)[0] else Join(p, '/')[0];
  }

  lemma NoDotSlash(p: Parts, m: nat)
    requires LegalParts(p)
    ensures !StartsDotSlash(Join(p, '/') + Slashes(m))
  {
    JoinEnds(p);
    OneCharacter(p);
  }

  lemma OneCharacter(p: Parts)
    requires LegalParts(p)
    ensures |Join(p, '/')| == 1 ==> Join(p, '/')[0] != '.'
  {
    assert LegalName(p[0]);
    if |p| == 1 {
      assert |p[0]| == 1 ==> p[0] == [p[0][0]];
    } else {
      assert |Join(p, '/')| == |p[0]| + 1 + |Join(p[1..], '/')|;
    }
  }

  function WithDirectory(p: Parts, directory: bool): Parts {
    if directory then p + ["**"] else p
  }

  lemma SpelledParses(n: nat, p: Parts, m: nat, directoryScope: bool)
    requires LegalParts(p)
    ensures DeclaredParts(Spelled(n, p, m), directoryScope) == Some(WithDirectory(p, directoryScope || m > 0))
  {
    SpelledIsAccepted(n, p, m);
    NoDotSlash(p, m);
    StripDots(n, Join(p, '/') + Slashes(m));
    JoinEnds(p);
    StripTail(Join(p, '/'), m);
    ParseJoin(p);
  }

  // ---- and no other text parses ----

  lemma {:induction false} DotsInFront(raw: string) returns (n: nat)
    ensures raw == Dots(n) + StripDotSlash(raw)
    decreases |raw|
  {
    if StartsDotSlash(raw) {
      var m := DotsInFront(raw[2..]);
      n := m + 1;
      assert raw == "./" + raw[2..];
    } else {
      n := 0;
    }
  }

  lemma {:induction false} SlashesBehind(raw: string) returns (m: nat)
    ensures raw == StripSlashes(raw) + Slashes(m) && (m > 0 <==> EndsWithSlash(raw))
    decreases |raw|
  {
    if EndsWithSlash(raw) {
      var k := SlashesBehind(raw[..|raw| - 1]);
      m := k + 1;
      assert raw == raw[..|raw| - 1] + "/";
    } else {
      m := 0;
    }
  }

  lemma ParsedIsSpelled(raw: string, directoryScope: bool) returns (n: nat, p: Parts, m: nat)
    requires DeclaredParts(raw, directoryScope).Some?
    ensures LegalParts(p) && raw == Spelled(n, p, m)
    ensures DeclaredParts(raw, directoryScope) == Some(WithDirectory(p, directoryScope || m > 0))
  {
    var rest := StripDotSlash(raw);
    var body := StripSlashes(rest);
    n := DotsInFront(raw);
    m := SlashesBehind(rest);
    p := Split(body, '/');
    JoinSplit(body, '/');
    ParsedIsLegal(raw, directoryScope);
    var parsed := DeclaredParts(raw, directoryScope).value;
    forall i | 0 <= i < |p| ensures LegalName(p[i]) { assert p[i] == parsed[i]; }
  }

  /**
   A text declares a path exactly if it is legal parts joined by slashes, with any number of
   `./` in front and of `/` behind; a slash behind, or being asked for a directory, adds the
   recursive part, and nothing else does.
   */
  lemma DeclaredIff(raw: string, directoryScope: bool, q: Parts)
    ensures DeclaredParts(raw, directoryScope) == Some(q) <==>
      exists n, p, m :: LegalParts(p) && raw == Spelled(n, p, m) && q == WithDirectory(p, directoryScope || m > 0)
  {
    if DeclaredParts(raw, directoryScope) == Some(q) {
      var n, p, m := ParsedIsSpelled(raw, directoryScope);
      assert LegalParts(p) && raw == Spelled(n, p, m) && q == WithDirectory(p, directoryScope || m > 0);
    }
    if n, p, m :| LegalParts(p) && raw == Spelled(n, p, m) && q == WithDirectory(p, directoryScope || m > 0) {
      SpelledParses(n, p, m, directoryScope);
    }
  }

  /** A text declares nothing exactly if it is not of that form. */
  lemma UndeclaredIff(raw: string, directoryScope: bool)
    ensures DeclaredParts(raw, directoryScope) == None <==> forall n, p, m :: LegalParts(p) ==> raw != Spelled(n, p, m)
  {
    if DeclaredParts(raw, directoryScope).Some? {
      var n, p, m := ParsedIsSpelled(raw, directoryScope);
      assert LegalParts(p) && raw == Spelled(n, p, m);
    } else {
      forall n, p, m | LegalParts(p) ensures raw != Spelled(n, p, m) { SpelledParses(n, p, m, directoryScope); }
    }
  }

  /** A concrete directory written with a trailing slash covers exactly the paths that start with it. */
  lemma DirectoryCoversBelow(cls: ClassReader, path: string, p: Parts)
    requires LegalParts(p) && IsConcrete(p)
    ensures PathMatchesScope(cls, path, Join(p, '/') + "/") <==>
      DeclaredParts(path, false).Some? && p <= DeclaredParts(path, false).value
  {
    SpelledParses(0, p, 1, false);
    assert Slashes(1) == "/" by { assert Slashes(0) + "/" == "/"; }
    assert Spelled(0, p, 1) == Join(p, '/') + "/";
    if DeclaredParts(path, false).Some? {
      PrefixScopeCoversPrefixes(cls, DeclaredParts(path, false).value, p, "**");
    }
  }
}
