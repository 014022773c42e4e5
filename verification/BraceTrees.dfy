/** What brace expansion means: nested alternation and concatenation. */
module BraceTrees {
  import opened Options
  import opened Text
  import opened Braces

  /** `Group(Or(a, Or(b, c)))` prints as `{a,b,c}`. */
  datatype Tree = Leaf(text: string) | Cat(left: Tree, right: Tree) | Or(left: Tree, right: Tree) | Group(body: Tree)

  /** Where a tree stands: outside all groups, as a whole branch of a group, or inside a branch. */
  datatype Place = Outside | Branch | Inside

  function Print(t: Tree): string {
    match t
    case Leaf(text) => text
    case Cat(l, r) => Print(l) + Print(r)
    case Or(l, r) => Print(l) + "," + Print(r)
    case Group(body) => "{" + Print(body) + "}"
  }

  /** The strings the tree stands for. */
  ghost function Denote(t: Tree): iset<string> {
    match t
    case Leaf(text) => iset{text}
    case Cat(l, r) => iset a, b | a in Denote(l) && b in Denote(r) :: a + b
    case Or(l, r) => Denote(l) + Denote(r)
    case Group(body) => Denote(body)
  }

  /** Text that may stand inside a group: not empty, no comma, no blank at either end. */
  predicate ItemText(s: string) {
    s != [] && ',' !in s && !IsSpace(s[0]) && !IsSpace(s[|s| - 1])
  }

  predicate Valid(t: Tree, p: Place) {
    match t
    case Leaf(text) => BraceFree(text) && (!p.Outside? ==> ItemText(text))
    case Cat(l, r) => var q := if p.Outside? then Outside else Inside; Valid(l, q) && Valid(r, q)
    case Or(l, r) => p.Branch? && Valid(l, Branch) && Valid(r, Branch)
    case Group(body) => Valid(body, Branch)
  }

  function Groups(t: Tree): nat {
    match t
    case Leaf(_) => 0
    case Cat(l, r) => Groups(l) + Groups(r)
    case Or(l, r) => Groups(l) + Groups(r)
    case Group(body) => 1 + Groups(body)
  }

  // ---- trees without groups ----

  lemma {:induction false} PlainTree(t: Tree, p: Place)
    requires Valid(t, p) && Groups(t) == 0 && !t.Or? && !p.Branch?
    ensures BraceFree(Print(t)) && Denote(t) == iset{Print(t)}
    ensures p.Inside? ==> ItemText(Print(t))
  {
    if t.Cat? {
      PlainTree(t.left, p);
      PlainTree(t.right, p);
      assert Denote(t) == iset{Print(t.left) + Print(t.right)};
    }
  }

  /** The branches of a group body without groups of its own. */
  function Alternatives(body: Tree): seq<string> {
    if body.Or? then Alternatives(body.left) + Alternatives(body.right) else [Print(body)]
  }

  ghost predicate GoodItem(s: string) {
    BraceFree(s) && ItemText(s)
  }

  lemma InsideBranch(t: Tree)
    requires Valid(t, Branch) && !t.Or?
    ensures Valid(t, Inside)
  {}

  lemma {:induction false} PlainBody(body: Tree)
    requires Valid(body, Branch) && Groups(body) == 0
    ensures Alternatives(body) != [] && Join(Alternatives(body), ',') == Print(body)
    ensures forall s :: s in Alternatives(body) ==> GoodItem(s)
    ensures forall x :: x in Denote(body) <==> x in Alternatives(body)
  {
    if body.Or? {
      PlainBody(body.left);
      PlainBody(body.right);
      JoinConcat(Alternatives(body.left), Alternatives(body.right));
    } else {
      InsideBranch(body);
      PlainTree(body, Inside);
    }
  }

  lemma {:induction false} JoinConcat(a: seq<string>, b: seq<string>)
    requires a != [] && b != []
    ensures Join(a + b, ',') == Join(a, ',') + "," + Join(b, ',')
  {
    if |a| == 1 {
      assert (a + b)[1..] == b;
    } else {
      JoinConcat(a[1..], b);
      assert (a + b)[1..] == a[1..] + b;
    }
  }

  // ---- one expansion step on a tree ----

  /** A printed tree cut at its first group, and the trees that replace it item by item. */
  datatype Redex = Redex(pre: string, items: seq<string>, post: string, reducts: seq<Tree>)

  ghost predicate Cut(t: Tree, r: Redex) {
    && Print(t) == r.pre + ("{" + Join(r.items, ',') + "}") + r.post
    && '}' !in r.pre
    && r.items != [] && |r.reducts| == |r.items|
    && (forall k :: 0 <= k < |r.items| ==> GoodItem(r.items[k]))
  }

  ghost predicate Reduct(t: Tree, p: Place, r: Redex, k: nat)
    requires k < |r.reducts| == |r.items|
  {
    && Print(r.reducts[k]) == r.pre + r.items[k] + r.post
    && Valid(r.reducts[k], p) && Groups(r.reducts[k]) < Groups(t)
  }

  ghost predicate SameMeaning(t: Tree, reducts: seq<Tree>) {
    forall x :: x in Denote(t) <==> exists k :: 0 <= k < |reducts| && x in Denote(reducts[k])
  }

  ghost predicate Reduces(t: Tree, p: Place, r: Redex) {
    && Cut(t, r) && SameMeaning(t, r.reducts)
    && forall k :: 0 <= k < |r.reducts| ==> Reduct(t, p, r, k)
  }

  /** The innermost group itself: each branch replaces it. */
  lemma ReduceGroup(t: Tree, p: Place) returns (r: Redex)
    requires t.Group? && Valid(t, p) && Groups(t.body) == 0
    ensures Reduces(t, p, r)
  {
    PlainBody(t.body);
    var items := Alternatives(t.body);
    r := Redex("", items, "", seq(|items|, k requires 0 <= k < |items| => Leaf(items[k])));
    forall x ensures x in Denote(t) <==> exists k :: 0 <= k < |r.reducts| && x in Denote(r.reducts[k]) {
      if x in items {
        var k :| 0 <= k < |items| && items[k] == x;
        assert x in Denote(r.reducts[k]);
      }
    }
  }

  /** A cut of a part is a cut of the whole. */
  lemma LiftCut(t: Tree, part: Tree, r: Redex, before: string, after: string)
    requires Cut(part, r) && '}' !in before && Print(t) == before + Print(part) + after
    ensures Cut(t, r.(pre := before + r.pre, post := r.post + after))
  {
    var group := "{" + Join(r.items, ',') + "}";
    assert before + (r.pre + group + r.post) + after == (before + r.pre) + group + (r.post + after);
  }

  /** The constructor around a part, with the part exchanged. */
  function Around(t: Tree, onLeft: bool, part: Tree): Tree
    requires t.Cat? || t.Or?
  {
    if t.Cat? then (if onLeft then Cat(part, t.right) else Cat(t.left, part))
    else (if onLeft then Or(part, t.right) else Or(t.left, part))
  }

  function AroundAll(t: Tree, onLeft: bool, parts: seq<Tree>): seq<Tree>
    requires t.Cat? || t.Or?
  {
    seq(|parts|, k requires 0 <= k < |parts| => Around(t, onLeft, parts[k]))
  }

  lemma AroundMeaning(t: Tree, onLeft: bool, reducts: seq<Tree>)
    requires (t.Cat? || t.Or?) && reducts != []
    requires SameMeaning(if onLeft then t.left else t.right, reducts)
    ensures SameMeaning(t, AroundAll(t, onLeft, reducts))
  {
    var part := if onLeft then t.left else t.right;
    var all := AroundAll(t, onLeft, reducts);
    forall x | x in Denote(t) ensures exists k :: 0 <= k < |all| && x in Denote(all[k]) {
      if t.Cat? {
        var a, b :| a in Denote(t.left) && b in Denote(t.right) && x == a + b;
        var k :| 0 <= k < |reducts| && (if onLeft then a else b) in Denote(reducts[k]);
        assert x in Denote(all[k]);
      } else if x in Denote(part) {
        var k :| 0 <= k < |reducts| && x in Denote(reducts[k]);
        assert x in Denote(all[k]);
      } else {
        assert x in Denote(all[0]);
      }
    }
    forall k | 0 <= k < |all| ensures Denote(all[k]) <= Denote(t) {
      assert Denote(reducts[k]) <= Denote(part);
    }
  }

  lemma AroundReduct(t: Tree, p: Place, onLeft: bool, r: Redex, before: string, after: string, k: nat)
    requires (t.Cat? || t.Or?) && Valid(t, p) && k < |r.reducts| == |r.items|
    requires var part := if onLeft then t.left else t.right;
      Reduct(part, ChildPlace(t, p), r, k) &&
      forall u :: Print(Around(t, onLeft, u)) == before + Print(u) + after
    ensures var u := Around(t, onLeft, r.reducts[k]);
      Print(u) == (before + r.pre) + r.items[k] + (r.post + after) && Valid(u, p) && Groups(u) < Groups(t)
  {
    assert before + (r.pre + r.items[k] + r.post) + after == (before + r.pre) + r.items[k] + (r.post + after);
  }

  function ChildPlace(t: Tree, p: Place): Place {
    if t.Or? || t.Group? then Branch else if p.Outside? then Outside else Inside
  }

  lemma {:induction false} Reduce(t: Tree, p: Place) returns (r: Redex)
    requires Valid(t, p) && Groups(t) > 0
    ensures Reduces(t, p, r)
  {
    if t.Group? {
      if Groups(t.body) == 0 {
        r := ReduceGroup(t, p);
      } else {
        var inner := Reduce(t.body, Branch);
        r := ReduceBody(t, p, inner);
      }
    } else {
      var onLeft := Groups(t.left) > 0;
      var inner := Reduce(if onLeft then t.left else t.right, ChildPlace(t, p));
      r := ReduceSide(t, p, onLeft, inner);
    }
  }

  lemma ReduceBody(t: Tree, p: Place, inner: Redex) returns (r: Redex)
    requires t.Group? && Valid(t, p) && Reduces(t.body, Branch, inner)
    ensures Reduces(t, p, r)
  {
    var reducts := seq(|inner.reducts|, k requires 0 <= k < |inner.reducts| => Group(inner.reducts[k]));
    r := Redex("{" + inner.pre, inner.items, inner.post + "}", reducts);
    LiftCut(t, t.body, inner, "{", "}");
    forall k | 0 <= k < |reducts| ensures Reduct(t, p, r, k) {
      assert Reduct(t.body, Branch, inner, k);
      assert "{" + (inner.pre + inner.items[k] + inner.post) + "}" == r.pre + r.items[k] + r.post;
    }
    forall x ensures x in Denote(t) <==> exists k :: 0 <= k < |reducts| && x in Denote(reducts[k]) {
      if x in Denote(t) {
        assert x in Denote(t.body);
        var k :| 0 <= k < |inner.reducts| && x in Denote(inner.reducts[k]);
        assert x in Denote(reducts[k]);
      }
      if k :| 0 <= k < |reducts| && x in Denote(reducts[k]) {
        assert x in Denote(inner.reducts[k]);
      }
    }
  }

  lemma {:induction false} NoGroupsNoBraces(t: Tree, p: Place)
    requires Valid(t, p) && Groups(t) == 0
    ensures BraceFree(Print(t))
  {
    if t.Cat? || t.Or? {
      NoGroupsNoBraces(t.left, ChildPlace(t, p));
      NoGroupsNoBraces(t.right, ChildPlace(t, p));
    }
  }

  lemma ReduceSide(t: Tree, p: Place, onLeft: bool, inner: Redex) returns (r: Redex)
    requires (t.Cat? || t.Or?) && Valid(t, p) && (!onLeft ==> Groups(t.left) == 0)
    requires Reduces(if onLeft then t.left else t.right, ChildPlace(t, p), inner)
    ensures Reduces(t, p, r)
  {
    var sep := if t.Or? then "," else "";
    var before := if onLeft then "" else Print(t.left) + sep;
    var after := if onLeft then sep + Print(t.right) else "";
    if !onLeft { NoGroupsNoBraces(t.left, ChildPlace(t, p)); }
    var part := if onLeft then t.left else t.right;
    var reducts := AroundAll(t, onLeft, inner.reducts);
    r := inner.(pre := before + inner.pre, post := inner.post + after, reducts := reducts);
    forall u ensures Print(Around(t, onLeft, u)) == before + Print(u) + after {
      AroundPrint(t, onLeft, u);
    }
    assert Around(t, onLeft, part) == t;
    LiftCut(t, part, inner, before, after);
    AroundMeaning(t, onLeft, inner.reducts);
    forall k | 0 <= k < |reducts| ensures Reduct(t, p, r, k) {
      assert Reduct(part, ChildPlace(t, p), inner, k);
      AroundReduct(t, p, onLeft, inner, before, after, k);
    }
  }

  lemma AroundPrint(t: Tree, onLeft: bool, u: Tree)
    requires t.Cat? || t.Or?
    ensures var sep := if t.Or? then "," else "";
      Print(Around(t, onLeft, u)) ==
        (if onLeft then "" else Print(t.left) + sep) + Print(u) + (if onLeft then sep + Print(t.right) else "")
  {
    var sep := if t.Or? then "," else "";
    if onLeft {
      assert "" + Print(u) + (sep + Print(t.right)) == Print(u) + sep + Print(t.right);
      assert Print(u) + "" == Print(u);
    } else {
      assert Print(t.left) + "" == Print(t.left);
      assert Print(t.left) + sep + Print(u) + "" == Print(t.left) + sep + Print(u);
    }
  }

  // ---- the code finds exactly that cut ----

  lemma {:induction false} NextBraceAt(s: string, i: nat, j: nat)
    requires i <= j < |s| && BraceFree(s[i..j]) && (s[j] == '{' || s[j] == '}')
    ensures NextBrace(s, i) == j
    decreases j - i
  {
    if i < j {
      assert s[i] in s[i..j] && s[i + 1..j] == s[i..j][1..];
      NextBraceAt(s, i + 1, j);
    }
  }

  lemma {:induction false} NextBraceBefore(s: string, i: nat, open: nat)
    requires i <= open < |s| && s[open] == '{'
    ensures NextBrace(s, i) <= open
    decreases open - i
  {
    if i < open { NextBraceBefore(s, i + 1, open); }
  }

  /** The search passes over everything before the group that ends at the first closing brace. */
  lemma {:induction false} FindsCut(s: string, i: nat, open: nat, close: nat)
    requires i <= open && IsGroup(s, open, close) && '}' !in s[..open]
    ensures FindGroup(s, i) == Some((open, close))
    decreases open - i
  {
    if i == open {
      NextBraceAt(s, i + 1, close);
    } else {
      if s[i] == '{' {
        var j := NextBrace(s, i + 1);
        NextBraceBefore(s, i + 1, open);
        assert j < open ==> s[j] == s[..open][j];
      }
      FindsCut(s, i + 1, open, close);
    }
  }

  lemma {:induction false} NoGroupFound(s: string, i: nat)
    requires i <= |s| && BraceFree(s)
    ensures FindGroup(s, i) == None
    decreases |s| - i
  {
    if i < |s| { NoGroupFound(s, i + 1); }
  }

  lemma StripItem(s: string)
    requires ItemText(s)
    ensures Strip(s) == s
  {}

  lemma {:induction false} JoinBraceFree(items: seq<string>)
    requires items != [] && forall k :: 0 <= k < |items| ==> GoodItem(items[k])
    ensures BraceFree(Join(items, ',')) && Join(items, ',') != []
  {
    if |items| > 1 { JoinBraceFree(items[1..]); }
  }

  /** On a printed tree the code finds the cut, its items, and the printed reducts. */
  lemma CutIsFound(s: string, r: Redex)
    requires s == r.pre + ("{" + Join(r.items, ',') + "}") + r.post && '}' !in r.pre && r.items != []
    requires forall k :: 0 <= k < |r.items| ==> GoodItem(r.items[k])
    ensures var open, close := |r.pre|, |r.pre| + 1 + |Join(r.items, ',')|;
      && FindGroup(s, 0) == Some((open, close)) && IsGroup(s, open, close)
      && Items(s, open, close) == r.items
      && forall k :: 0 <= k < |r.items| ==> Replaced(s, open, close, r.items[k]) == r.pre + r.items[k] + r.post
  {
    var content := Join(r.items, ',');
    var open, close := |r.pre|, |r.pre| + 1 + |content|;
    JoinBraceFree(r.items);
    assert s[..open] == r.pre && s[open + 1..close] == content && s[close + 1..] == r.post;
    FindsCut(s, 0, open, close);
    SplitJoin(r.items, ',');
    forall k | 0 <= k < |r.items| ensures Strip(r.items[k]) == r.items[k] { StripItem(r.items[k]); }
  }

  /** Expanding a printed tree yields exactly the strings that the tree denotes. */
  lemma {:induction false} ExpansionDenotes(t: Tree, x: string)
    requires Valid(t, Outside)
    ensures x in Expansion(Print(t)) <==> x in Denote(t)
    decreases Groups(t)
  {
    var s := Print(t);
    if Groups(t) == 0 {
      PlainTree(t, Outside);
      NoGroupFound(s, 0);
    } else {
      var r := Reduce(t, Outside);
      CutIsFound(s, r);
      var open, close := |r.pre|, |r.pre| + 1 + |Join(r.items, ',')|;
      ExpandItemsMember(s, open, close, r.items, x);
      forall k | 0 <= k < |r.items|
        ensures x in Expansion(Replaced(s, open, close, r.items[k])) <==> x in Denote(r.reducts[k])
      {
        assert Reduct(t, Outside, r, k);
        ExpansionDenotes(r.reducts[k], x);
      }
    }
  }
}
