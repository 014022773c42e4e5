/** Parsing of declared paths and the decision whether two scopes overlap. */
module ScopeOverlap {
  import opened Options
  import opened Text
  import opened Globs
  import opened Scopes

  // ---- parsing ----

  predicate IllegalPart(part: string) {
    part == "" || part == "." || part == ".."
  }

  predicate StartsDotSlash(raw: string) {
    |raw| >= 2 && raw[0] == '.' && raw[1] == '/'
  }

  /** Drop every leading `./`. */
  function StripDotSlash(raw: string): string {
    if StartsDotSlash(raw) then StripDotSlash(raw[2..]) else raw
  }

  /** `raw.rstrip("/")` */
  function StripSlashes(raw: string): string {
    if raw != [] && raw[|raw| - 1] == '/' then StripSlashes(raw[..|raw| - 1]) else raw
  }

  predicate EndsWithSlash(raw: string) {
    raw != [] && raw[|raw| - 1] == '/'
  }

  predicate Rejected(raw: string) {
    raw == [] || raw[0] == '/' || '\\' in raw || '\U{0000}' in raw
  }

  /** What parsing yields: legal parts, with a recursive part added for a directory. */
  function DeclaredParts(raw: string, directoryScope: bool): Option<Parts> {
    if Rejected(raw) then None
    else
      var rest := StripDotSlash(raw);
      var isDirectory := directoryScope || EndsWithSlash(rest);
      var body := StripSlashes(rest);
      if body == [] then None
      else
        var parts := Split(body, '/');
        if exists i :: 0 <= i < |parts| && IllegalPart(parts[i]) then None
        else Some(if isDirectory then parts + ["**"] else parts)
  }

  /** `_declared_path_parts`, on a value already trimmed of blanks and backticks. */
  method DeclaredPathParts(value: string, directoryScope: bool) returns (r: Option<Parts>)
    ensures r == DeclaredParts(value, directoryScope)
  {
    var raw := value;
    if raw == [] || raw[0] == '/' || '\\' in raw || '\U{0000}' in raw {
      return None;
    }
    while StartsDotSlash(raw)
      invariant StripDotSlash(raw) == StripDotSlash(value)
      decreases |raw|
    {
      raw := raw[2..];
    }
    var isDirectory := directoryScope || EndsWithSlash(raw);
    raw := StripSlashes(raw);
    if raw == [] {
      return None;
    }
    var parts := Split(raw, '/');
    if exists i :: 0 <= i < |parts| && IllegalPart(parts[i]) {
      return None;
    }
    if isDirectory {
      parts := parts + ["**"];
    }
    r := Some(parts);
  }

  /** Parts that parsing can yield for a plain path. */
  predicate LegalParts(parts: Parts) {
    parts != [] && forall i :: 0 <= i < |parts| ==> LegalName(parts[i])
  }

  /** Text whose ends are no separators parses into its parts. */
  lemma {:induction false} JoinEnds(parts: Parts)
    requires LegalParts(parts)
    ensures Join(parts, '/') != [] && Join(parts, '/')[0] != '/' && !EndsWithSlash(Join(parts, '/'))
    ensures '\\' !in Join(parts, '/') && '\U{0000}' !in Join(parts, '/')
    ensures !StartsDotSlash(Join(parts, '/'))
  {
    var head := parts[0];
    assert LegalName(head) && LegalChar(head[0]);
    assert head[0] == '.' ==> |head| >= 2 by {
      if |head| == 1 { assert head == [head[0]]; }
    }
    assert |head| >= 2 ==> LegalChar(head[1]);
    if |parts| > 1 {
      JoinEnds(parts[1..]);
      assert Join(parts, '/') == head + ("/" + Join(parts[1..], '/'));
      assert Join(parts, '/')[|Join(parts, '/')| - 1] == Join(parts[1..], '/')[|Join(parts[1..], '/')| - 1];
    }
  }

  /** Rejoined legal parts parse back to themselves. */
  lemma ParseJoin(parts: Parts)
    requires LegalParts(parts)
    ensures DeclaredParts(Join(parts, '/'), false) == Some(parts)
  {
    JoinEnds(parts);
    forall i | 0 <= i < |parts| ensures '/' !in parts[i] && !IllegalPart(parts[i]) {
      assert LegalName(parts[i]);
      assert forall k :: 0 <= k < |parts[i]| ==> LegalChar(parts[i][k]);
    }
    SplitJoin(parts, '/');
  }

  // ---- what parsing guarantees ----

  lemma {:induction false} StripKeepsChars(raw: string)
    ensures forall c :: c in StripDotSlash(raw) ==> c in raw
    ensures forall c :: c in StripSlashes(raw) ==> c in raw
    decreases |raw|
  {
    if StartsDotSlash(raw) {
      StripKeepsChars(raw[2..]);
      assert forall c :: c in raw[2..] ==> c in raw;
    }
    if EndsWithSlash(raw) {
      StripKeepsChars(raw[..|raw| - 1]);
      assert forall c :: c in raw[..|raw| - 1] ==> c in raw;
    }
  }

  /** Every parsed part is a legal segment. */
  lemma ParsedIsLegal(raw: string, directoryScope: bool)
    requires DeclaredParts(raw, directoryScope).Some?
    ensures LegalParts(DeclaredParts(raw, directoryScope).value)
  {
    var rest := StripDotSlash(raw);
    var body := StripSlashes(rest);
    StripKeepsChars(raw);
    StripKeepsChars(rest);
    SplitParts(body, '/');
    forall i | 0 <= i < |Split(body, '/')| ensures LegalName(Split(body, '/')[i]) {
      var part := Split(body, '/')[i];
      assert !IllegalPart(part);
      forall k | 0 <= k < |part| ensures LegalChar(part[k]) {
        assert part[k] in part;
      }
    }
    assert LegalName("**");
  }

  // ---- the decision ----

  predicate PathMatchesScope(cls: ClassReader, path: string, scope: string) {
    var p, s := DeclaredParts(path, false), DeclaredParts(scope, false);
    p.Some? && s.Some? && MatchPathParts(cls, p.value, s.value)
  }

  /** `_recursive_prefix`: the concrete parts before a final recursive part. */
  function RecursivePrefix(parts: Parts): Option<Parts> {
    if parts != [] && IsRecursive(parts[|parts| - 1]) && IsConcrete(parts[..|parts| - 1])
    then Some(parts[..|parts| - 1])
    else None
  }

  function Take(parts: Parts, n: nat): Parts {
    if n <= |parts| then parts[..n] else parts
  }

  predicate ScopesOverlap(cls: ClassReader, first: string, second: string) {
    var f, s := DeclaredParts(first, false), DeclaredParts(second, false);
    if f.None? || s.None? then false
    else if f.value == s.value then true
    else if IsConcrete(f.value) then PathMatchesScope(cls, Join(f.value, '/'), second)
    else if IsConcrete(s.value) then PathMatchesScope(cls, Join(s.value, '/'), first)
    else
      var fp, sp := RecursivePrefix(f.value), RecursivePrefix(s.value);
      if fp.Some? && sp.Some? then
        var shorter := if |fp.value| <= |sp.value| then |fp.value| else |sp.value|;
        fp.value[..shorter] == sp.value[..shorter]
      else if fp.Some? then Take(s.value, |fp.value|) == fp.value
      else if sp.Some? then Take(f.value, |sp.value|) == sp.value
      else false
  }

  // ---- common paths ----

  /** Some path is matched by both scopes. */
  ghost predicate CommonPath(cls: ClassReader, first: string, second: string) {
    exists path :: PathMatchesScope(cls, path, first) && PathMatchesScope(cls, path, second)
  }

  ghost predicate CommonParts(cls: ClassReader, f: Parts, s: Parts) {
    exists parts :: LegalParts(parts) && Denotes(cls, parts, f) && Denotes(cls, parts, s)
  }

  lemma CommonPathIffParts(cls: ClassReader, first: string, second: string)
    requires DeclaredParts(first, false).Some? && DeclaredParts(second, false).Some?
    ensures CommonPath(cls, first, second) <==>
      CommonParts(cls, DeclaredParts(first, false).value, DeclaredParts(second, false).value)
  {
    var f, s := DeclaredParts(first, false).value, DeclaredParts(second, false).value;
    if path :| PathMatchesScope(cls, path, first) && PathMatchesScope(cls, path, second) {
      var parts := DeclaredParts(path, false).value;
      ParsedIsLegal(path, false);
      MatchIffDenotes(cls, parts, f);
      MatchIffDenotes(cls, parts, s);
      assert CommonParts(cls, f, s);
    }
    if parts :| LegalParts(parts) && Denotes(cls, parts, f) && Denotes(cls, parts, s) {
      ParseJoin(parts);
      MatchIffDenotes(cls, parts, f);
      MatchIffDenotes(cls, parts, s);
      assert PathMatchesScope(cls, Join(parts, '/'), first) && PathMatchesScope(cls, Join(parts, '/'), second);
    }
  }

  /** Every ordinary part can match some legal segment; decided part by part, by `NamableIffFillable`. */
  ghost predicate NamableScope(cls: ClassReader, scope: Parts) {
    forall i :: 0 <= i < |scope| ==> IsRecursive(scope[i]) || Namable(cls, scope[i])
  }

  lemma {:induction false} MatchedIsNamable(cls: ClassReader, path: Parts, scope: Parts)
    requires Denotes(cls, path, scope) && forall i :: 0 <= i < |path| ==> LegalName(path[i])
    ensures NamableScope(cls, scope)
    decreases |scope|
  {
    if scope != [] {
      DenotesCons(cls, path, scope);
      var k :| TakesFirst(cls, path, scope, k);
      MatchedIsNamable(cls, path[k..], scope[1..]);
      assert forall i :: 1 <= i < |scope| ==> scope[i] == scope[1..][i - 1];
    }
  }

  lemma {:induction false} NamableIsMatched(cls: ClassReader, scope: Parts) returns (path: Parts)
    requires NamableScope(cls, scope)
    ensures |path| == |scope| && Denotes(cls, path, scope)
    ensures forall i :: 0 <= i < |path| ==> LegalName(path[i])
  {
    if scope == [] {
      path := [];
      DenotesNil(cls, path);
    } else {
      var rest := NamableIsMatched(cls, scope[1..]);
      var name := "x";
      if !IsRecursive(scope[0]) { name :| LegalName(name) && FnMatch(cls, name, scope[0]); }
      path := [name] + rest;
      DenotesCons(cls, path, scope);
      assert path[..1] == [name] && path[1..] == rest;
      assert TakesFirst(cls, path, scope, 1);
    }
  }
}
