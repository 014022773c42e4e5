/**
 Brace expansion of scopes.  The code always expands the leftmost innermost group; the result
 is nevertheless the set of strings that a nested alternation denotes.
 */
module Braces {
  import opened Options
  import opened Text

  // ---- the code ----

  predicate BraceFree(s: string) {
    '{' !in s && '}' !in s
  }

  function NextBrace(s: string, i: nat): (j: nat)
    requires i <= |s|
    ensures i <= j <= |s|
    ensures BraceFree(s[i..j]) && (j < |s| ==> s[j] == '{' || s[j] == '}')
    decreases |s| - i
  {
    if i == |s| || s[i] == '{' || s[i] == '}' then i
    else
      var j := NextBrace(s, i + 1);
      assert s[i..j] == [s[i]] + s[i + 1..j];
      j
  }

  predicate IsGroup(s: string, i: nat, j: nat) {
    i + 1 < j < |s| && s[i] == '{' && s[j] == '}' && BraceFree(s[i + 1..j])
  }

  /** The leftmost match of a brace group with non-empty, brace-free contents, from `i` on. */
  function FindGroup(s: string, i: nat): (r: Option<(nat, nat)>)
    requires i <= |s|
    ensures r.Some? ==> IsGroup(s, r.value.0, r.value.1)
    decreases |s| - i
  {
    if i == |s| then None
    else if s[i] == '{' && NextBrace(s, i + 1) < |s| && s[NextBrace(s, i + 1)] == '}' && NextBrace(s, i + 1) > i + 1
      then Some((i, NextBrace(s, i + 1)))
    else FindGroup(s, i + 1)
  }

  function Opens(s: string): nat {
    if s == [] then 0 else Opens(s[1..]) + (if s[0] == '{' then 1 else 0)
  }

  lemma {:induction false} OpensConcat(a: string, b: string)
    ensures Opens(a + b) == Opens(a) + Opens(b)
  {
    if a == [] {
      assert a + b == b;
    } else {
      OpensConcat(a[1..], b);
      assert (a + b)[1..] == a[1..] + b;
    }
  }

  lemma {:induction false} NoOpens(s: string)
    requires '{' !in s
    ensures Opens(s) == 0
  {
    if s != [] {
      assert s[0] in s && forall c :: c in s[1..] ==> c in s;
      NoOpens(s[1..]);
    }
  }

  /** The text with the group `i..j` replaced by one of its items. */
  function Replaced(s: string, i: nat, j: nat, item: string): string
    requires IsGroup(s, i, j)
  {
    s[..i] + Strip(item) + s[j + 1..]
  }

  function Items(s: string, i: nat, j: nat): seq<string>
    requires IsGroup(s, i, j)
  {
    Split(s[i + 1..j], ',')
  }

  /** Each replacement removes exactly one brace pair. */
  lemma ReplacementShrinks(s: string, i: nat, j: nat, item: string)
    requires IsGroup(s, i, j) && item in Items(s, i, j)
    ensures Opens(Replaced(s, i, j, item)) == Opens(s) - 1
  {
    var content := s[i + 1..j];
    SplitParts(content, ',');
    assert BraceFree(Strip(item));
    assert s == s[..i] + (['{'] + (content + (['}'] + s[j + 1..])));
    OpensConcat(s[..i], ['{'] + (content + (['}'] + s[j + 1..])));
    OpensConcat(['{'], content + (['}'] + s[j + 1..]));
    OpensConcat(content, ['}'] + s[j + 1..]);
    OpensConcat(['}'], s[j + 1..]);
    NoOpens(content);
    NoOpens(Strip(item));
    OpensConcat(s[..i] + Strip(item), s[j + 1..]);
    OpensConcat(s[..i], Strip(item));
  }

  /** Blanks around an item do not count. */
  lemma BlanksAreDropped(s: string, i: nat, j: nat, a: string, item: string, b: string)
    requires IsGroup(s, i, j) && Blank(a) && Blank(b) && NoOuterSpace(item)
    ensures Replaced(s, i, j, a + item + b) == s[..i] + item + s[j + 1..]
  {
    StripSurrounded(a, item, b);
  }

  lemma {:induction false} NextBraceIs(s: string, i: nat, j: nat)
    requires i <= j < |s| && BraceFree(s[i..j]) && (s[j] == '{' || s[j] == '}')
    ensures NextBrace(s, i) == j
    decreases j - i
  {
    if i < j {
      assert s[i] in s[i..j] && s[i + 1..j] == s[i..j][1..];
      NextBraceIs(s, i + 1, j);
    }
  }

  /** The group found is the leftmost one, and there is none only if nothing is found. */
  lemma {:induction false} FindsLeftmost(s: string, i: nat, a: nat, b: nat)
    requires i <= a && IsGroup(s, a, b)
    ensures FindGroup(s, i).Some? && i <= FindGroup(s, i).value.0 <= a
    ensures FindGroup(s, i).value.0 == a ==> FindGroup(s, i).value.1 == b
    decreases a - i
  {
    if i == a {
      NextBraceIs(s, i + 1, b);
    } else if FindGroup(s, i) == FindGroup(s, i + 1) {
      FindsLeftmost(s, i + 1, a, b);
    }
  }

  /** The set that `_expand_brace_scope` computes. */
  ghost function Expansion(scope: string): set<string>
    decreases Opens(scope), 1, 0
  {
    match FindGroup(scope, 0)
    case None => {scope}
    case Some((i, j)) => ExpandItems(scope, i, j, Items(scope, i, j))
  }

  ghost function ExpandItems(s: string, i: nat, j: nat, items: seq<string>): set<string>
    requires IsGroup(s, i, j) && forall k :: 0 <= k < |items| ==> items[k] in Items(s, i, j)
    decreases Opens(s), 0, |items|
  {
    if items == [] then {}
    else
      var n := |items| - 1;
      ReplacementShrinks(s, i, j, items[n]);
      ExpandItems(s, i, j, items[..n]) + Expansion(Replaced(s, i, j, items[n]))
  }

  /** `_expand_brace_scope` */
  method ExpandBraceScope(scope: string) returns (expanded: set<string>)
    ensures expanded == Expansion(scope)
    decreases Opens(scope)
  {
    var found := FindGroup(scope, 0);
    if found.None? {
      return {scope};
    }
    var (i, j) := found.value;
    var items := Items(scope, i, j);
    expanded := {};
    for k := 0 to |items|
      invariant expanded == ExpandItems(scope, i, j, items[..k])
    {
      ReplacementShrinks(scope, i, j, items[k]);
      var replacement := Replaced(scope, i, j, items[k]);
      var more := ExpandBraceScope(replacement);
      assert items[..k + 1][..k] == items[..k];
      expanded := expanded + more;
    }
    assert items[..|items|] == items;
  }

  lemma {:induction false} ExpandItemsMember(s: string, i: nat, j: nat, items: seq<string>, x: string)
    requires IsGroup(s, i, j) && forall k :: 0 <= k < |items| ==> items[k] in Items(s, i, j)
    ensures x in ExpandItems(s, i, j, items) <==>
      exists k :: 0 <= k < |items| && x in Expansion(Replaced(s, i, j, items[k]))
  {
    if items != [] {
      ExpandItemsMember(s, i, j, items[..|items| - 1], x);
    }
  }
}
