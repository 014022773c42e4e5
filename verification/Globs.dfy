/**
 Segment globs as `fnmatchcase` reads them.  How a bracket body such as `a-z` or `!x` selects
 characters belongs to Python's library, so it is a parameter: every result holds for every
 `ClassReader`.
 */
module Globs {

  /** From the text between `[` and `]` to the characters it accepts. */
  type ClassReader = string -> char -> bool

  datatype Token = Literal(c: char) | AnyOne | Star | Class(body: string)

  /** Index of the `]` that closes a bracket whose body starts `body`, or `|body|`. */
  function CloseAt(body: string): (j: nat)
    ensures j <= |body|
  {
    var j := if body != [] && body[0] == '!' then 1 else 0;
    var k := if j < |body| && body[j] == ']' then j + 1 else j;
    ScanClose(body, k)
  }

  function ScanClose(body: string, k: nat): (j: nat)
    requires k <= |body|
    ensures k <= j <= |body|
    decreases |body| - k
  {
    if k == |body| || body[k] == ']' then k else ScanClose(body, k + 1)
  }

  /** The pattern's tokens; an unclosed `[` is an ordinary character. */
  function Tokens(pat: string): seq<Token>
    decreases |pat|
  {
    if pat == [] then []
    else if pat[0] == '*' then [Star] + Tokens(pat[1..])
    else if pat[0] == '?' then [AnyOne] + Tokens(pat[1..])
    else if pat[0] == '[' then
      var j := CloseAt(pat[1..]);
      if j == |pat| - 1 then [Literal('[')] + Tokens(pat[1..])
      else [Class(pat[1..j + 1])] + Tokens(pat[j + 2..])
    else [Literal(pat[0])] + Tokens(pat[1..])
  }

  predicate Accepts(cls: ClassReader, t: Token, c: char) {
    match t
    case Literal(d) => c == d
    case AnyOne => true
    case Star => false
    case Class(body) => cls(body)(c)
  }

  predicate MatchTokens(cls: ClassReader, tokens: seq<Token>, name: string)
    decreases |tokens| + |name|
  {
    if tokens == [] then name == []
    else if tokens[0].Star? then
      MatchTokens(cls, tokens[1..], name) || (name != [] && MatchTokens(cls, tokens, name[1..]))
    else name != [] && Accepts(cls, tokens[0], name[0]) && MatchTokens(cls, tokens[1..], name[1..])
  }

  /** `fnmatchcase(name, pat)` */
  predicate FnMatch(cls: ClassReader, name: string, pat: string) {
    MatchTokens(cls, Tokens(pat), name)
  }

  predicate HasWildcard(part: string) {
    exists i :: 0 <= i < |part| && part[i] in {'*', '?', '['}
  }

  /** A segment without `*`, `?` or `[` matches itself and nothing else. */
  lemma {:induction false} LiteralMatch(cls: ClassReader, name: string, part: string)
    requires !HasWildcard(part)
    ensures FnMatch(cls, name, part) <==> name == part
  {
    if part != [] {
      assert part[0] !in {'*', '?', '['};
      assert Tokens(part) == [Literal(part[0])] + Tokens(part[1..]);
      forall i | 0 <= i < |part[1..]| ensures part[1..][i] !in {'*', '?', '['} {
        assert part[1..][i] == part[i + 1];
      }
      if name != [] {
        LiteralMatch(cls, name[1..], part[1..]);
        assert name == [name[0]] + name[1..] && part == [part[0]] + part[1..];
      }
    }
  }

  /** A star stands for any text: what follows it must match some rest of the name. */
  lemma {:induction false} StarTakesAny(cls: ClassReader, rest: seq<Token>, name: string)
    ensures MatchTokens(cls, [Star] + rest, name) <==>
      exists k :: 0 <= k <= |name| && MatchTokens(cls, rest, name[k..])
  {
    var tokens := [Star] + rest;
    assert tokens[1..] == rest && name[0..] == name;
    if name == [] {
      assert forall k :: 0 <= k <= |name| ==> name[k..] == name;
    } else {
      StarTakesAny(cls, rest, name[1..]);
      if k :| 0 <= k <= |name| && MatchTokens(cls, rest, name[k..]) {
        if k > 0 { assert name[1..][k - 1..] == name[k..]; }
      }
      if k :| 0 <= k <= |name[1..]| && MatchTokens(cls, rest, name[1..][k..]) {
        assert name[1..][k..] == name[k + 1..];
      }
    }
  }

  // ---- patterns as they are written ----

  /** An ordinary character in front matches itself. */
  lemma LetterTakesItself(cls: ClassReader, c: char, rest: string, name: string)
    requires c !in {'*', '?', '['}
    ensures FnMatch(cls, name, [c] + rest) <==> name != [] && name[0] == c && FnMatch(cls, name[1..], rest)
  {
    assert ([c] + rest)[1..] == rest;
    assert Tokens([c] + rest) == [Literal(c)] + Tokens(rest);
  }

  /** A question mark in front matches any one character. */
  lemma QuestionTakesOne(cls: ClassReader, rest: string, name: string)
    ensures FnMatch(cls, name, "?" + rest) <==> name != [] && FnMatch(cls, name[1..], rest)
  {
    assert ("?" + rest)[1..] == rest;
    assert Tokens("?" + rest) == [AnyOne] + Tokens(rest);
  }

  /** A star in front matches any text. */
  lemma StarTakesText(cls: ClassReader, rest: string, name: string)
    ensures FnMatch(cls, name, "*" + rest) <==> exists k :: 0 <= k <= |name| && FnMatch(cls, name[k..], rest)
  {
    assert ("*" + rest)[1..] == rest;
    assert Tokens("*" + rest) == [Star] + Tokens(rest);
    StarTakesAny(cls, Tokens(rest), name);
    forall k | 0 <= k <= |name| ensures FnMatch(cls, name[k..], rest) <==> MatchTokens(cls, Tokens(rest), name[k..]) {}
  }

  /** Text in which a closing bracket stands only where it would be the first of the set. */
  predicate Unclosed(s: string) {
    forall i :: 0 <= i < |s| && s[i] == ']' ==> i == 0 || (i == 1 && s[0] == '!')
  }

  /** The text of a bracket. */
  predicate BracketBody(s: string) {
    s != "" && s != "!" && Unclosed(s)
  }

  lemma {:induction false} ScanTo(s: string, k: nat, j: nat)
    requires k <= j <= |s| && (j < |s| ==> s[j] == ']') && forall i :: k <= i < j ==> s[i] != ']'
    ensures ScanClose(s, k) == j
    decreases j - k
  {
    if k < j { ScanTo(s, k + 1, j); }
  }

  lemma CloseAfter(body: string, rest: string)
    requires BracketBody(body)
    ensures CloseAt(body + "]" + rest) == |body|
  {
    var s := body + "]" + rest;
    assert forall i :: 0 <= i < |body| ==> s[i] == body[i];
    assert s[|body|] == ']';
    assert |body| == 1 ==> body == [body[0]];
    var j := if s[0] == '!' then 1 else 0;
    var k := if s[j] == ']' then j + 1 else j;
    ScanTo(s, k, |body|);
  }

  /** A bracket in front matches one character of its set. */
  lemma BracketTakesOne(cls: ClassReader, body: string, rest: string, name: string)
    requires BracketBody(body)
    ensures FnMatch(cls, name, "[" + (body + "]" + rest)) <==>
      name != [] && cls(body)(name[0]) && FnMatch(cls, name[1..], rest)
  {
    CloseAfter(body, rest);
    var pat := "[" + (body + "]" + rest);
    assert pat[1..] == body + "]" + rest && pat[1..|body| + 1] == body && pat[|body| + 2..] == rest;
    assert Tokens(pat) == [Class(body)] + Tokens(rest);
  }

  /** A bracket that is never closed matches itself. */
  lemma OpenBracketTakesItself(cls: ClassReader, rest: string, name: string)
    requires Unclosed(rest)
    ensures FnMatch(cls, name, "[" + rest) <==> name != [] && name[0] == '[' && FnMatch(cls, name[1..], rest)
  {
    var j := if rest != [] && rest[0] == '!' then 1 else 0;
    var k := if j < |rest| && rest[j] == ']' then j + 1 else j;
    ScanTo(rest, k, |rest|);
    var pat := "[" + rest;
    assert pat[1..] == rest;
    assert Tokens(pat) == [Literal('[')] + Tokens(rest);
  }

  // ---- which segments can match a legal path name at all ----

  /** Characters that may occur in a path segment. */
  predicate LegalChar(c: char) {
    c != '/' && c != '\\' && c != '\U{0000}'
  }

  /** Path segments that survive parsing. */
  predicate LegalName(name: string) {
    name != [] && name != "." && name != ".." && forall i :: 0 <= i < |name| ==> LegalChar(name[i])
  }

  /** Some legal name matches the segment. */
  ghost predicate Namable(cls: ClassReader, part: string) {
    exists name :: LegalName(name) && FnMatch(cls, name, part)
  }

  ghost predicate Fillable(cls: ClassReader, t: Token) {
    t.Star? || exists c :: LegalChar(c) && Accepts(cls, t, c)
  }

  /** The token accepts a legal character other than a dot, or any text at all. */
  ghost predicate BeyondDot(cls: ClassReader, t: Token) {
    t.Star? || exists c :: LegalChar(c) && c != '.' && Accepts(cls, t, c)
  }

  /** A test on the tokens alone: each can be filled, and not every filling is `.` or `..`. */
  ghost predicate FillableSegment(cls: ClassReader, tokens: seq<Token>) {
    && tokens != []
    && (forall i :: 0 <= i < |tokens| ==> Fillable(cls, tokens[i]))
    && (|tokens| > 2 || exists i :: 0 <= i < |tokens| && BeyondDot(cls, tokens[i]))
  }

  lemma {:induction false} MatchedIsFillable(cls: ClassReader, tokens: seq<Token>, name: string)
    requires MatchTokens(cls, tokens, name) && forall i :: 0 <= i < |name| ==> LegalChar(name[i])
    ensures forall i :: 0 <= i < |tokens| ==> Fillable(cls, tokens[i])
    ensures (forall i :: 0 <= i < |tokens| ==> !BeyondDot(cls, tokens[i])) ==>
      |name| == |tokens| && forall i :: 0 <= i < |name| ==> name[i] == '.'
    decreases |tokens| + |name|
  {
    if tokens != [] {
      if tokens[0].Star? {
        assert BeyondDot(cls, tokens[0]);
        if MatchTokens(cls, tokens[1..], name) {
          MatchedIsFillable(cls, tokens[1..], name);
        } else {
          MatchedIsFillable(cls, tokens, name[1..]);
        }
      } else {
        MatchedIsFillable(cls, tokens[1..], name[1..]);
        assert LegalChar(name[0]) && Accepts(cls, tokens[0], name[0]);
        if forall i :: 0 <= i < |tokens| ==> !BeyondDot(cls, tokens[i]) {
          assert forall i :: 0 <= i < |tokens[1..]| ==> tokens[1..][i] == tokens[i + 1];
          assert forall i :: 1 <= i < |name| ==> name[i] == name[1..][i - 1];
        }
      }
    }
  }

  ghost function FillToken(cls: ClassReader, t: Token): (c: char)
    requires Fillable(cls, t)
    ensures LegalChar(c) && (t.Star? || Accepts(cls, t, c))
    ensures BeyondDot(cls, t) ==> c != '.'
  {
    if t.Star? then 'x'
    else if BeyondDot(cls, t) then var c :| LegalChar(c) && c != '.' && Accepts(cls, t, c); c
    else var c :| LegalChar(c) && Accepts(cls, t, c); c
  }

  ghost function Fill(cls: ClassReader, tokens: seq<Token>): (name: string)
    requires forall i :: 0 <= i < |tokens| ==> Fillable(cls, tokens[i])
    ensures |name| == |tokens|
    ensures forall i :: 0 <= i < |tokens| ==> name[i] == FillToken(cls, tokens[i])
    ensures MatchTokens(cls, tokens, name)
  {
    if tokens == [] then ""
    else
      var rest := Fill(cls, tokens[1..]);
      var name := [FillToken(cls, tokens[0])] + rest;
      assert name[1..] == rest;
      assert tokens[0].Star? ==> MatchTokens(cls, tokens, rest);
      name
  }

  lemma DotsAreIllegal(name: string)
    requires |name| <= 2 && forall i :: 0 <= i < |name| ==> name[i] == '.'
    ensures !LegalName(name)
  {
    assert name == [] || name == "." || name == "..";
  }

  /** The test on tokens decides whether any legal name matches. */
  lemma NamableIffFillable(cls: ClassReader, part: string)
    ensures Namable(cls, part) <==> FillableSegment(cls, Tokens(part))
  {
    var tokens := Tokens(part);
    if Namable(cls, part) {
      var name :| LegalName(name) && FnMatch(cls, name, part);
      MatchedIsFillable(cls, tokens, name);
      if |tokens| <= 2 && forall i :: 0 <= i < |tokens| ==> !BeyondDot(cls, tokens[i]) {
        DotsAreIllegal(name);
      }
    }
    if FillableSegment(cls, tokens) {
      var name := Fill(cls, tokens);
      assert forall i :: 0 <= i < |name| ==> LegalChar(name[i]);
      if |tokens| <= 2 {
        var i :| 0 <= i < |tokens| && BeyondDot(cls, tokens[i]);
        assert name[i] != '.';
      }
      assert LegalName(name) && FnMatch(cls, name, part);
    }
  }

  /** A legal segment without brackets can always be matched. */
  lemma BracketFreeIsNamable(cls: ClassReader, part: string)
    requires LegalName(part) && '[' !in part
    ensures Namable(cls, part)
  {
    BracketFreeTokens(part);
    var tokens := Tokens(part);
    forall i | 0 <= i < |tokens| ensures Fillable(cls, tokens[i]) {
      assert AnyOne == tokens[i] ==> LegalChar('x') && Accepts(cls, tokens[i], 'x');
      assert tokens[i].Literal? ==> LegalChar(part[i]) && Accepts(cls, tokens[i], part[i]);
    }
    if |tokens| <= 2 {
      var i :| 0 <= i < |part| && part[i] != '.';
      assert tokens[i].AnyOne? ==> LegalChar('x') && 'x' != '.' && Accepts(cls, tokens[i], 'x');
      assert BeyondDot(cls, tokens[i]);
    }
    NamableIffFillable(cls, part);
  }

  lemma {:induction false} BracketFreeTokens(part: string)
    requires '[' !in part
    ensures |Tokens(part)| == |part|
    ensures forall i :: 0 <= i < |part| ==>
      Tokens(part)[i] == if part[i] == '*' then Star else if part[i] == '?' then AnyOne else Literal(part[i])
  {
    if part != [] {
      assert part[0] in part && forall c :: c in part[1..] ==> c in part;
      BracketFreeTokens(part[1..]);
    }
  }
}
