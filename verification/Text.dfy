/** Python's `str.split`, `str.join` and `str.strip`. */
module Text {

  type Parts = seq<string>

  /** `s.split(sep)` for a one-character separator. */
  function Split(s: string, sep: char): (parts: Parts)
    ensures parts != []
  {
    if s == [] then [""]
    else if s[0] == sep then [""] + Split(s[1..], sep)
    else
      var rest := Split(s[1..], sep);
      [[s[0]] + rest[0]] + rest[1..]
  }

  /** `sep.join(parts)` */
  function Join(parts: Parts, sep: char): string {
    if parts == [] then ""
    else if |parts| == 1 then parts[0]
    else parts[0] + ([sep] + Join(parts[1..], sep))
  }

  /** Text without a separator only lengthens the first part. */
  lemma {:induction false} SplitPlain(a: string, s: string, sep: char)
    requires sep !in a
    ensures Split(a + s, sep) == [a + Split(s, sep)[0]] + Split(s, sep)[1..]
  {
    if a == [] {
      assert a + s == s && a + Split(s, sep)[0] == Split(s, sep)[0];
    } else {
      assert a[0] in a && (a + s)[1..] == a[1..] + s;
      SplitPlain(a[1..], s, sep);
      assert [a[0]] + (a[1..] + Split(s, sep)[0]) == a + Split(s, sep)[0];
    }
  }

  /** Splitting what was joined gives the parts back when no part contains the separator. */
  lemma {:induction false} SplitJoin(parts: Parts, sep: char)
    requires parts != [] && forall i :: 0 <= i < |parts| ==> sep !in parts[i]
    ensures Split(Join(parts, sep), sep) == parts
  {
    if |parts| == 1 {
      SplitPlain(parts[0], "", sep);
      assert parts[0] + "" == parts[0];
    } else {
      SplitJoin(parts[1..], sep);
      SplitPlain(parts[0], [sep] + Join(parts[1..], sep), sep);
      assert ([sep] + Join(parts[1..], sep))[1..] == Join(parts[1..], sep);
      assert parts[0] + "" == parts[0];
    }
  }

  /** Joining what was split gives the text back. */
  lemma {:induction false} JoinSplit(s: string, sep: char)
    ensures Join(Split(s, sep), sep) == s
  {
    if s != [] { JoinSplit(s[1..], sep); }
  }

  /** Parts have no separator and only characters of the text. */
  lemma {:induction false} SplitParts(s: string, sep: char)
    ensures forall i :: 0 <= i < |Split(s, sep)| ==>
      sep !in Split(s, sep)[i] && forall c :: c in Split(s, sep)[i] ==> c in s
  {
    if s != [] {
      SplitParts(s[1..], sep);
      assert s[0] in s && forall c :: c in s[1..] ==> c in s;
    }
  }

  /** The characters that `str.strip` removes. */
  predicate IsSpace(c: char) {
    || '\U{0009}' <= c <= '\U{000D}' || '\U{001C}' <= c <= '\U{0020}' || c == '\U{0085}' || c == '\U{00A0}'
    || c == '\U{1680}' || '\U{2000}' <= c <= '\U{200A}' || c == '\U{2028}' || c == '\U{2029}'
    || c == '\U{202F}' || c == '\U{205F}' || c == '\U{3000}'
  }

  /** `s.strip()` */
  function Strip(s: string): (r: string)
    ensures forall c :: c in r ==> c in s
  {
    if s != [] && IsSpace(s[0]) then Strip(s[1..])
    else if s != [] && IsSpace(s[|s| - 1]) then Strip(s[..|s| - 1])
    else s
  }

  predicate Blank(s: string) {
    forall i :: 0 <= i < |s| ==> IsSpace(s[i])
  }

  predicate NoOuterSpace(s: string) {
    s != [] ==> !IsSpace(s[0]) && !IsSpace(s[|s| - 1])
  }

  /** The text is `t` with blanks around it. */
  ghost predicate Surrounded(s: string, t: string) {
    exists a, b :: Blank(a) && Blank(b) && s == a + t + b
  }

  lemma SpaceInFront(c: char, s: string, t: string)
    requires IsSpace(c) && Surrounded(s, t)
    ensures Surrounded([c] + s, t)
  {
    var a, b :| Blank(a) && Blank(b) && s == a + t + b;
    assert [c] + (a + t + b) == ([c] + a) + t + b;
    assert Blank([c] + a);
  }

  lemma SpaceBehind(c: char, s: string, t: string)
    requires IsSpace(c) && Surrounded(s, t)
    ensures Surrounded(s + [c], t)
  {
    var a, b :| Blank(a) && Blank(b) && s == a + t + b;
    assert (a + t + b) + [c] == a + t + (b + [c]);
    assert Blank(b + [c]);
  }

  /** Only blanks at the ends are removed, and all of them. */
  lemma {:induction false} StripSplits(s: string)
    ensures Surrounded(s, Strip(s)) && NoOuterSpace(Strip(s))
    decreases |s|
  {
    if s != [] && IsSpace(s[0]) {
      StripSplits(s[1..]);
      SpaceInFront(s[0], s[1..], Strip(s));
      assert s == [s[0]] + s[1..];
    } else if s != [] && IsSpace(s[|s| - 1]) {
      var n := |s| - 1;
      StripSplits(s[..n]);
      SpaceBehind(s[n], s[..n], Strip(s));
      assert s == s[..n] + [s[n]];
    } else {
      assert Blank("") && s == "" + s + "";
    }
  }

  /** Text with blanks around it strips to the text. */
  lemma {:induction false} StripSurrounded(a: string, t: string, b: string)
    requires Blank(a) && Blank(b) && NoOuterSpace(t)
    ensures Strip(a + t + b) == t
    decreases |a| + |b|
  {
    var s := a + t + b;
    if a != [] {
      StripSurrounded(a[1..], t, b);
      assert s[0] == a[0] && s[1..] == a[1..] + t + b;
    } else if t == [] {
      StripBlank(b);
      assert s == b;
    } else if b != [] {
      var n := |b| - 1;
      StripSurrounded(a, t, b[..n]);
      assert s[0] == t[0] && s[|s| - 1] == b[n] && s[..|s| - 1] == a + t + b[..n];
    } else {
      assert s == t;
    }
  }

  lemma {:induction false} StripBlank(b: string)
    requires Blank(b)
    ensures Strip(b) == ""
  {
    if b != [] { StripBlank(b[1..]); }
  }

  /** The characters that count as blank, one by one. */
  lemma SpaceIff(c: char)
    ensures IsSpace(c) <==>
      || c in {'\t', '\n', '\U{000B}', '\U{000C}', '\r', '\U{001C}', '\U{001D}', '\U{001E}', '\U{001F}', ' '}
      || c in {'\U{0085}', '\U{00A0}', '\U{1680}', '\U{2000}', '\U{2001}', '\U{2002}', '\U{2003}', '\U{2004}'}
      || c in {'\U{2005}', '\U{2006}', '\U{2007}', '\U{2008}', '\U{2009}', '\U{200A}', '\U{2028}', '\U{2029}'}
      || c in {'\U{202F}', '\U{205F}', '\U{3000}'}
  {}

  /** A text is blank exactly if nothing is left of it. */
  lemma BlankIff(s: string)
    ensures Blank(s) <==> Strip(s) == ""
  {
    StripSplits(s);
    if Blank(s) { StripBlank(s); }
    if Strip(s) == "" {
      var a, b :| Blank(a) && Blank(b) && s == a + "" + b;
    }
  }
}
