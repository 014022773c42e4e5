/**
 Declared scopes and the paths they cover.  A scope is a list of segments; `**` and `...`
 stand for any number of segments, every other segment is a glob for exactly one.
 */
module Scopes {
  import opened Text
  import opened Globs

  predicate IsRecursive(part: string) {
    part == "..." || part == "**"
  }

  // ---- matching ----

  /** The memoised inner `match` of `_match_path_parts`. */
  predicate MatchFrom(cls: ClassReader, path: Parts, scope: Parts, pathIndex: nat, scopeIndex: nat)
    requires pathIndex <= |path| && scopeIndex <= |scope|
    decreases |scope| - scopeIndex, |path| - pathIndex
  {
    if scopeIndex == |scope| then pathIndex == |path|
    else if IsRecursive(scope[scopeIndex]) then
      MatchFrom(cls, path, scope, pathIndex, scopeIndex + 1)
      || (pathIndex < |path| && MatchFrom(cls, path, scope, pathIndex + 1, scopeIndex))
    else if pathIndex == |path| then false
    else
      FnMatch(cls, path[pathIndex], scope[scopeIndex])
      && MatchFrom(cls, path, scope, pathIndex + 1, scopeIndex + 1)
  }

  predicate MatchPathParts(cls: ClassReader, path: Parts, scope: Parts) {
    MatchFrom(cls, path, scope, 0, 0)
  }

  // ---- the language a scope denotes ----

  function Concat(pieces: seq<Parts>): Parts {
    if pieces == [] then [] else pieces[0] + Concat(pieces[1..])
  }

  /** One piece of path per scope part: anything for a recursive part, one matching segment otherwise. */
  ghost predicate Piece(cls: ClassReader, piece: Parts, part: string) {
    IsRecursive(part) || (|piece| == 1 && FnMatch(cls, piece[0], part))
  }

  ghost predicate Splits(cls: ClassReader, pieces: seq<Parts>, path: Parts, scope: Parts) {
    && |pieces| == |scope| && Concat(pieces) == path
    && forall i :: 0 <= i < |scope| ==> Piece(cls, pieces[i], scope[i])
  }

  /** The path splits into consecutive pieces, one per scope part. */
  ghost predicate Denotes(cls: ClassReader, path: Parts, scope: Parts) {
    exists pieces :: Splits(cls, pieces, path, scope)
  }

  lemma DenotesNil(cls: ClassReader, path: Parts)
    ensures Denotes(cls, path, []) <==> path == []
  {
    assert path == [] ==> Splits(cls, [], path, []);
  }

  /** The first part of the scope takes the first `k` segments, and the other parts take the rest. */
  ghost predicate TakesFirst(cls: ClassReader, path: Parts, scope: Parts, k: int)
    requires scope != []
  {
    0 <= k <= |path| && Piece(cls, path[..k], scope[0]) && Denotes(cls, path[k..], scope[1..])
  }

  /** The first part of a scope takes a piece off the front of the path. */
  lemma DenotesCons(cls: ClassReader, path: Parts, scope: Parts)
    requires scope != []
    ensures Denotes(cls, path, scope) <==> exists k :: TakesFirst(cls, path, scope, k)
  {
    if pieces :| Splits(cls, pieces, path, scope) {
      var k := |pieces[0]|;
      assert path[..k] == pieces[0] && path[k..] == Concat(pieces[1..]);
      assert Splits(cls, pieces[1..], path[k..], scope[1..]);
      assert TakesFirst(cls, path, scope, k);
    }
    if k :| TakesFirst(cls, path, scope, k) {
      var rest :| Splits(cls, rest, path[k..], scope[1..]);
      var pieces := [path[..k]] + rest;
      assert pieces[1..] == rest && path == path[..k] + path[k..];
      assert Splits(cls, pieces, path, scope);
    }
  }

  /** A recursive first part can take one segment more. */
  lemma TakesOneMore(cls: ClassReader, path: Parts, scope: Parts, k: int)
    requires scope != [] && IsRecursive(scope[0]) && path != [] && 1 <= k
    ensures TakesFirst(cls, path, scope, k) <==> TakesFirst(cls, path[1..], scope, k - 1)
  {
    if k <= |path| { assert path[1..][k - 1..] == path[k..]; }
  }

  lemma DenotesRecursive(cls: ClassReader, path: Parts, scope: Parts)
    requires scope != [] && IsRecursive(scope[0])
    ensures Denotes(cls, path, scope) <==>
      Denotes(cls, path, scope[1..]) || (path != [] && Denotes(cls, path[1..], scope))
  {
    DenotesCons(cls, path, scope);
    assert TakesFirst(cls, path, scope, 0) <==> Denotes(cls, path, scope[1..]) by { assert path[0..] == path; }
    if path != [] {
      DenotesCons(cls, path[1..], scope);
      forall k | 1 <= k { TakesOneMore(cls, path, scope, k); }
      if k :| TakesFirst(cls, path[1..], scope, k) {
        assert TakesFirst(cls, path, scope, k + 1);
      }
    }
  }

  lemma DenotesOrdinary(cls: ClassReader, path: Parts, scope: Parts)
    requires scope != [] && !IsRecursive(scope[0])
    ensures Denotes(cls, path, scope) <==>
      path != [] && FnMatch(cls, path[0], scope[0]) && Denotes(cls, path[1..], scope[1..])
  {
    DenotesCons(cls, path, scope);
    if path != [] && FnMatch(cls, path[0], scope[0]) && Denotes(cls, path[1..], scope[1..]) {
      assert TakesFirst(cls, path, scope, 1);
    }
  }

  /** The index recursion accepts exactly the declared language. */
  lemma {:induction false} MatchFromIffDenotes(cls: ClassReader, path: Parts, scope: Parts, i: nat, j: nat)
    requires i <= |path| && j <= |scope|
    ensures MatchFrom(cls, path, scope, i, j) <==> Denotes(cls, path[i..], scope[j..])
    decreases |scope| - j, |path| - i
  {
    if j == |scope| {
      DenotesNil(cls, path[i..]);
      assert scope[j..] == [];
    } else {
      assert scope[j..][1..] == scope[j + 1..];
      assert i < |path| ==> path[i..][1..] == path[i + 1..];
      if IsRecursive(scope[j]) {
        DenotesRecursive(cls, path[i..], scope[j..]);
        MatchFromIffDenotes(cls, path, scope, i, j + 1);
        if i < |path| { MatchFromIffDenotes(cls, path, scope, i + 1, j); }
      } else {
        DenotesOrdinary(cls, path[i..], scope[j..]);
        if i < |path| { MatchFromIffDenotes(cls, path, scope, i + 1, j + 1); }
      }
    }
  }

  lemma MatchIffDenotes(cls: ClassReader, path: Parts, scope: Parts)
    ensures MatchPathParts(cls, path, scope) <==> Denotes(cls, path, scope)
  {
    MatchFromIffDenotes(cls, path, scope, 0, 0);
    assert path[0..] == path && scope[0..] == scope;
  }

  // ---- consequences for concrete prefixes ----

  predicate IsConcrete(parts: Parts) {
    forall i :: 0 <= i < |parts| ==> !IsRecursive(parts[i]) && !HasWildcard(parts[i])
  }

  /** A concrete prefix of the scope must be a prefix of the path. */
  lemma {:induction false} ConcretePrefix(cls: ClassReader, path: Parts, prefix: Parts, rest: Parts)
    requires IsConcrete(prefix)
    ensures Denotes(cls, path, prefix + rest) <==> prefix <= path && Denotes(cls, path[|prefix|..], rest)
  {
    if prefix == [] {
      assert prefix + rest == rest && path[0..] == path;
    } else {
      assert prefix[0] in prefix && (prefix + rest)[1..] == prefix[1..] + rest;
      DenotesOrdinary(cls, path, prefix + rest);
      if path != [] {
        LiteralMatch(cls, path[0], prefix[0]);
        ConcretePrefix(cls, path[1..], prefix[1..], rest);
        assert prefix == [prefix[0]] + prefix[1..] && path == [path[0]] + path[1..];
        if prefix <= path { assert path[1..][|prefix| - 1..] == path[|prefix|..]; }
      }
    }
  }

  lemma RecursiveDenotesAll(cls: ClassReader, path: Parts, part: string)
    requires IsRecursive(part)
    ensures Denotes(cls, path, [part])
  {
    assert Concat([path]) == path + Concat([]);
    assert Splits(cls, [path], path, [part]);
  }

  /** A concrete prefix followed by a recursive part covers exactly the paths that start with it. */
  lemma PrefixScopeCoversPrefixes(cls: ClassReader, path: Parts, prefix: Parts, part: string)
    requires IsConcrete(prefix) && IsRecursive(part)
    ensures MatchPathParts(cls, path, prefix + [part]) <==> prefix <= path
  {
    MatchIffDenotes(cls, path, prefix + [part]);
    ConcretePrefix(cls, path, prefix, [part]);
    if prefix <= path { RecursiveDenotesAll(cls, path[|prefix|..], part); }
  }

  /** After a concrete prefix, both recursive spellings cover all that starts with it. */
  lemma BothSpellingsRecurse(cls: ClassReader, path: Parts, prefix: Parts)
    requires IsConcrete(prefix)
    ensures MatchPathParts(cls, path, prefix + ["**"]) <==> prefix <= path
    ensures MatchPathParts(cls, path, prefix + ["..."]) <==> prefix <= path
  {
    PrefixScopeCoversPrefixes(cls, path, prefix, "**");
    PrefixScopeCoversPrefixes(cls, path, prefix, "...");
  }

  /** Any other part takes exactly one segment. */
  lemma OrdinaryTakesOne(cls: ClassReader, path: Parts, part: string)
    requires part != "**" && part != "..."
    ensures MatchPathParts(cls, path, [part]) <==> |path| == 1 && FnMatch(cls, path[0], part)
  {
    MatchIffDenotes(cls, path, [part]);
    DenotesOrdinary(cls, path, [part]);
    assert [part][1..] == [];
    if path != [] { DenotesNil(cls, path[1..]); }
  }

  /** A concrete scope covers exactly the path it spells. */
  lemma ConcreteScopeCoversItself(cls: ClassReader, path: Parts, scope: Parts)
    requires IsConcrete(scope)
    ensures MatchPathParts(cls, path, scope) <==> path == scope
  {
    MatchIffDenotes(cls, path, scope);
    ConcretePrefix(cls, path, scope, []);
    assert scope + [] == scope;
    if scope <= path { DenotesNil(cls, path[|scope|..]); }
  }

  /** Two adjacent recursive parts cover what one covers, wherever they stand in the scope. */
  lemma {:induction false} AdjacentRecursivesCollapse(
    cls: ClassReader, path: Parts, a: Parts, p: string, q: string, b: Parts)
    requires IsRecursive(p) && IsRecursive(q)
    ensures Denotes(cls, path, a + [p, q] + b) <==> Denotes(cls, path, a + [p] + b)
    decreases |a|, |path|
  {
    var two, one := a + [p, q] + b, a + [p] + b;
    if a != [] {
      DenotesCons(cls, path, two);
      DenotesCons(cls, path, one);
      assert two[1..] == a[1..] + [p, q] + b && one[1..] == a[1..] + [p] + b;
      forall k ensures TakesFirst(cls, path, two, k) <==> TakesFirst(cls, path, one, k) {
        if 0 <= k <= |path| { AdjacentRecursivesCollapse(cls, path[k..], a[1..], p, q, b); }
      }
    } else {
      assert two[1..] == [q] + b && one == [p] + b && one[1..] == b;
      RecursiveSkips(cls, path, p, q, b);
      DenotesRecursive(cls, path, two);
      DenotesRecursive(cls, path, one);
      if path != [] { AdjacentRecursivesCollapse(cls, path[1..], a, p, q, b); }
    }
  }

  /** Which recursive spelling is used does not matter. */
  lemma {:induction false} RecursiveSkips(cls: ClassReader, path: Parts, p: string, q: string, b: Parts)
    requires IsRecursive(p) && IsRecursive(q)
    ensures Denotes(cls, path, [p] + b) <==> Denotes(cls, path, [q] + b)
  {
    assert ([p] + b)[1..] == b && ([q] + b)[1..] == b;
    DenotesRecursive(cls, path, [p] + b);
    DenotesRecursive(cls, path, [q] + b);
    if path != [] { RecursiveSkips(cls, path[1..], p, q, b); }
  }
}
