/** When two segment globs match one legal name in common, decided on their tokens. */
module NameMeets {
  import opened Globs

  /** One legal name matches both segments. */
  ghost predicate ShareName(cls: ClassReader, a: string, b: string) {
    exists name :: LegalName(name) && FnMatch(cls, name, a) && FnMatch(cls, name, b)
  }

  /** What the characters of a name have been so far: a legal name must get past `.` and `..`. */
  datatype Seen = Nothing | Dot | TwoDots | Plain

  function After(seen: Seen, c: char): Seen {
    match seen
    case Nothing => if c == '.' then Dot else Plain
    case Dot => if c == '.' then TwoDots else Plain
    case TwoDots => Plain
    case Plain => Plain
  }

  function AfterAll(seen: Seen, name: string): Seen
    decreases |name|
  {
    if name == [] then seen else AfterAll(After(seen, name[0]), name[1..])
  }

  lemma {:induction false} PlainStays(name: string)
    ensures AfterAll(Plain, name) == Plain
  {
    if name != [] { PlainStays(name[1..]); }
  }

  predicate LegalChars(name: string) {
    forall i :: 0 <= i < |name| ==> LegalChar(name[i])
  }

  lemma LegalIffPlain(name: string)
    ensures LegalName(name) <==> LegalChars(name) && AfterAll(Nothing, name) == Plain
  {
    if |name| == 1 {
      assert name == [name[0]];
    } else if |name| >= 2 {
      AfterTwo(Nothing, name);
      assert |name| == 2 ==> name == [name[0], name[1]];
      if |name| > 2 { PlainStays(name[3..]); }
    }
  }

  lemma AfterTwo(seen: Seen, name: string)
    requires |name| >= 2
    ensures AfterAll(seen, name) == AfterAll(After(After(seen, name[0]), name[1]), name[2..])
    ensures |name| > 2 ==> name[2..][1..] == name[3..]
  {
    assert name[1..][1..] == name[2..];
  }

  /** A legal rest of a name that both token lists match. */
  ghost predicate Fits(cls: ClassReader, a: seq<Token>, b: seq<Token>, seen: Seen, name: string) {
    && MatchTokens(cls, a, name) && MatchTokens(cls, b, name)
    && LegalChars(name) && AfterAll(seen, name) == Plain
  }

  ghost predicate Fitting(cls: ClassReader, a: seq<Token>, b: seq<Token>, seen: Seen) {
    exists name :: Fits(cls, a, b, seen, name)
  }

  /** Walk both token lists; a star is skipped or takes in the head of the other list. */
  ghost predicate TokensMeet(cls: ClassReader, a: seq<Token>, b: seq<Token>, seen: Seen)
    decreases |a| + |b|, if seen == Plain then 1 else 2
  {
    if a == [] && b == [] then seen == Plain
    else if a == [] then b[0].Star? && TokensMeet(cls, a, b[1..], seen)
    else if b == [] then a[0].Star? && TokensMeet(cls, a[1..], b, seen)
    else if a[0].Star? && b[0].Star? then
      TokensMeet(cls, a[1..], b, seen) || TokensMeet(cls, a, b[1..], seen)
      || (seen != Plain && TokensMeet(cls, a, b, Plain))
    else if a[0].Star? then
      TokensMeet(cls, a[1..], b, seen)
      || exists c :: LegalChar(c) && Accepts(cls, b[0], c) && TokensMeet(cls, a, b[1..], After(seen, c))
    else if b[0].Star? then
      TokensMeet(cls, a, b[1..], seen)
      || exists c :: LegalChar(c) && Accepts(cls, a[0], c) && TokensMeet(cls, a[1..], b, After(seen, c))
    else
      exists c :: LegalChar(c) && Accepts(cls, a[0], c) && Accepts(cls, b[0], c)
        && TokensMeet(cls, a[1..], b[1..], After(seen, c))
  }

  // ---- a common name gives a walk ----

  lemma {:induction false} FitsMeets(cls: ClassReader, a: seq<Token>, b: seq<Token>, seen: Seen, name: string)
    requires Fits(cls, a, b, seen, name)
    ensures TokensMeet(cls, a, b, seen)
    decreases |a| + |b| + |name|, if seen == Plain then 1 else 2
  {
    if a == [] || b == [] {
      if a != [] { FitsMeets(cls, a[1..], b, seen, name); }
      if b != [] { FitsMeets(cls, a, b[1..], seen, name); }
    } else if a[0].Star? && MatchTokens(cls, a[1..], name) {
      FitsMeets(cls, a[1..], b, seen, name);
    } else if b[0].Star? && MatchTokens(cls, b[1..], name) {
      FitsMeets(cls, a, b[1..], seen, name);
    } else {
      FitsTakesOne(cls, a, b, seen, name);
    }
  }

  /** Both heads take the first character of the name. */
  lemma {:induction false} FitsTakesOne(cls: ClassReader, a: seq<Token>, b: seq<Token>, seen: Seen, name: string)
    requires Fits(cls, a, b, seen, name) && a != [] && b != []
    requires a[0].Star? ==> !MatchTokens(cls, a[1..], name)
    requires b[0].Star? ==> !MatchTokens(cls, b[1..], name)
    ensures TokensMeet(cls, a, b, seen)
    decreases |a| + |b| + |name|, 0
  {
    var c, rest := name[0], name[1..];
    var a', b' := if a[0].Star? then a else a[1..], if b[0].Star? then b else b[1..];
    assert LegalChars(rest);
    if a[0].Star? && b[0].Star? {
      PlainStays(rest);
      FitsMeets(cls, a, b, Plain, rest);
    } else {
      FitsMeets(cls, a', b', After(seen, c), rest);
    }
  }

  // ---- a walk gives a common name ----

  /** Both lists take the same character first. */
  lemma FitsLonger(
    cls: ClassReader, a: seq<Token>, b: seq<Token>, a': seq<Token>, b': seq<Token>, seen: Seen, c: char, name: string)
    requires a != [] && b != [] && LegalChar(c) && Fits(cls, a', b', After(seen, c), name)
    requires if a[0].Star? then a' == a else a' == a[1..] && Accepts(cls, a[0], c)
    requires if b[0].Star? then b' == b else b' == b[1..] && Accepts(cls, b[0], c)
    ensures Fits(cls, a, b, seen, [c] + name)
  {
    var longer := [c] + name;
    assert longer[1..] == name;
  }

  lemma {:induction false} MeetsFits(cls: ClassReader, a: seq<Token>, b: seq<Token>, seen: Seen)
    requires TokensMeet(cls, a, b, seen)
    ensures Fitting(cls, a, b, seen)
    decreases |a| + |b|, if seen == Plain then 1 else 2
  {
    if a == [] && b == [] {
      assert Fits(cls, a, b, seen, "");
    } else if a != [] && a[0].Star? && TokensMeet(cls, a[1..], b, seen) {
      MeetsFits(cls, a[1..], b, seen);
      var name :| Fits(cls, a[1..], b, seen, name);
      assert Fits(cls, a, b, seen, name);
    } else if b != [] && b[0].Star? && TokensMeet(cls, a, b[1..], seen) {
      MeetsFits(cls, a, b[1..], seen);
      var name :| Fits(cls, a, b[1..], seen, name);
      assert Fits(cls, a, b, seen, name);
    } else {
      MeetsTakesOne(cls, a, b, seen);
    }
  }

  lemma {:induction false} MeetsTakesOne(cls: ClassReader, a: seq<Token>, b: seq<Token>, seen: Seen)
    requires TokensMeet(cls, a, b, seen) && a != [] && b != []
    requires a[0].Star? ==> !TokensMeet(cls, a[1..], b, seen)
    requires b[0].Star? ==> !TokensMeet(cls, a, b[1..], seen)
    ensures Fitting(cls, a, b, seen)
    decreases |a| + |b|, if seen == Plain then 1 else 2, 0
  {
    var c := 'x';
    var a', b' := if a[0].Star? then a else a[1..], if b[0].Star? then b else b[1..];
    if !(a[0].Star? && b[0].Star?) {
      c :| LegalChar(c) && (a[0].Star? || Accepts(cls, a[0], c)) && (b[0].Star? || Accepts(cls, b[0], c))
           && TokensMeet(cls, a', b', After(seen, c));
    }
    MeetsFits(cls, a', b', After(seen, c));
    var name :| Fits(cls, a', b', After(seen, c), name);
    FitsLonger(cls, a, b, a', b', seen, c, name);
  }

  /** The walk decides whether two segments match a common legal name. */
  lemma ShareNameIffTokensMeet(cls: ClassReader, a: string, b: string)
    ensures ShareName(cls, a, b) <==> TokensMeet(cls, Tokens(a), Tokens(b), Nothing)
  {
    if name :| LegalName(name) && FnMatch(cls, name, a) && FnMatch(cls, name, b) {
      LegalIffPlain(name);
      FitsMeets(cls, Tokens(a), Tokens(b), Nothing, name);
    }
    if TokensMeet(cls, Tokens(a), Tokens(b), Nothing) {
      MeetsFits(cls, Tokens(a), Tokens(b), Nothing);
      var name :| Fits(cls, Tokens(a), Tokens(b), Nothing, name);
      LegalIffPlain(name);
      assert LegalName(name) && FnMatch(cls, name, a) && FnMatch(cls, name, b);
    }
  }
}
