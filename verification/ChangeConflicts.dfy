/**
 Write conflicts between open changes: every pair whose declared scopes overlap is reported,
 with the narrower scope as its label where one scope covers the other.
 */
module ChangeConflicts {
  import opened Ids
  import opened Options
  import opened Text
  import opened Globs
  import opened Scopes
  import opened ScopeOverlap
  import opened OverlapTheorems
  import opened ChangeGraph

  // ---- labels ----

  datatype Label = Narrower(scope: string) | Both(first: string, second: string)

  /** `overlapping_scope_label`, before it is written out. */
  function OverlapLabel(cls: ClassReader, first: string, second: string): Label {
    var f, s := DeclaredParts(first, false), DeclaredParts(second, false);
    if f.None? || s.None? then Both(first, second)
    else if IsConcrete(f.value) && PathMatchesScope(cls, first, second) then Narrower(first)
    else if IsConcrete(s.value) && PathMatchesScope(cls, second, first) then Narrower(second)
    else
      var fp, sp := RecursivePrefix(f.value), RecursivePrefix(s.value);
      if fp.Some? && sp.Some? then
        if |fp.value| >= |sp.value| then Narrower(first) else Narrower(second)
      else if first == second then Narrower(first)
      else Both(first, second)
  }

  function Written(l: Label): string {
    match l
    case Narrower(scope) => scope
    case Both(first, second) => first + " <-> " + second
  }

  /** Every path under the first scope is under the second. */
  ghost predicate Covers(cls: ClassReader, inner: string, outer: string) {
    forall path :: PathMatchesScope(cls, path, inner) ==> PathMatchesScope(cls, path, outer)
  }

  lemma ConcreteIsCovered(cls: ClassReader, inner: string, outer: string)
    requires DeclaredParts(inner, false).Some? && IsConcrete(DeclaredParts(inner, false).value)
    requires PathMatchesScope(cls, inner, outer)
    ensures Covers(cls, inner, outer)
  {
    var f := DeclaredParts(inner, false).value;
    forall path | PathMatchesScope(cls, path, inner) ensures PathMatchesScope(cls, path, outer) {
      ConcreteScopeCoversItself(cls, DeclaredParts(path, false).value, f);
    }
  }

  lemma LongerPrefixIsCovered(cls: ClassReader, inner: string, outer: string)
    requires DeclaredParts(inner, false).Some? && DeclaredParts(outer, false).Some?
    requires var i := RecursivePrefix(DeclaredParts(inner, false).value);
      var o := RecursivePrefix(DeclaredParts(outer, false).value);
      i.Some? && o.Some? && o.value <= i.value
    ensures Covers(cls, inner, outer)
  {
    var i, o := DeclaredParts(inner, false).value, DeclaredParts(outer, false).value;
    forall path | PathMatchesScope(cls, path, inner) ensures PathMatchesScope(cls, path, outer) {
      var parts := DeclaredParts(path, false).value;
      MatchIffDenotes(cls, parts, i);
      MatchIffDenotes(cls, parts, o);
      RecursivePrefixCovers(cls, i, parts);
      RecursivePrefixCovers(cls, o, parts);
    }
  }

  /** A label that names one scope names one that lies inside both. */
  lemma LabelIsNarrower(cls: ClassReader, first: string, second: string)
    requires ScopesOverlap(cls, first, second) && OverlapLabel(cls, first, second).Narrower?
    ensures var scope := OverlapLabel(cls, first, second).scope;
      && (scope == first || scope == second)
      && Covers(cls, scope, first) && Covers(cls, scope, second)
  {
    var f, s := DeclaredParts(first, false).value, DeclaredParts(second, false).value;
    if IsConcrete(f) && PathMatchesScope(cls, first, second) {
      ConcreteIsCovered(cls, first, second);
    } else if IsConcrete(s) && PathMatchesScope(cls, second, first) {
      ConcreteIsCovered(cls, second, first);
    } else if RecursivePrefix(f).Some? && RecursivePrefix(s).Some? {
      OverlapOnParts(cls, first, second);
      RecursiveIsNotConcrete(f);
      RecursiveIsNotConcrete(s);
      if |RecursivePrefix(f).value| >= |RecursivePrefix(s).value| {
        LongerPrefixIsCovered(cls, first, second);
      } else {
        LongerPrefixIsCovered(cls, second, first);
      }
    }
  }

  lemma RecursiveIsNotConcrete(parts: Parts)
    requires RecursivePrefix(parts).Some?
    ensures !IsConcrete(parts)
  {
    assert IsRecursive(parts[|parts| - 1]);
  }

  // ---- conflicts ----

  datatype Severity = Warning | ConflictFound

  datatype Conflict = Conflict(a: Id, b: Id, overlapping: seq<string>, severity: Severity)

  /** Two changes declare overlapping scopes. */
  predicate Conflicting(cls: ClassReader, x: ChangeInfo, y: ChangeInfo) {
    exists l, r :: l in x.files && r in y.files && ScopesOverlap(cls, l, r)
  }

  function Labels(cls: ClassReader, x: ChangeInfo, y: ChangeInfo): set<string> {
    set l, r | l in x.files && r in y.files && ScopesOverlap(cls, l, r) :: Written(OverlapLabel(cls, l, r))
  }

  function SeverityOf(x: ChangeInfo, y: ChangeInfo): Severity {
    if x.parallelSafe && y.parallelSafe && (y.changeId in x.dependsOn || x.changeId in y.dependsOn)
    then Warning else ConflictFound
  }

  ghost function ConflictOf(cls: ClassReader, x: ChangeInfo, y: ChangeInfo): Conflict {
    Conflict(x.changeId, y.changeId, Sorted(Labels(cls, x, y)), SeverityOf(x, y))
  }

  type Pair = (ChangeInfo, ChangeInfo)

  /** No two changes share an id: the changes are the values of a dictionary keyed by id. */
  ghost predicate UniqueChanges(changes: seq<ChangeInfo>) {
    forall i, j :: 0 <= i < j < |changes| ==> changes[i].changeId != changes[j].changeId
  }

  predicate IsOpen(c: ChangeInfo) {
    c.status != "done"
  }

  function OpenChanges(changes: seq<ChangeInfo>): seq<ChangeInfo> {
    if changes == [] then []
    else if IsOpen(changes[0]) then [changes[0]] + OpenChanges(changes[1..])
    else OpenChanges(changes[1..])
  }

  function Others(changes: seq<ChangeInfo>, id: Id): seq<ChangeInfo> {
    if changes == [] then []
    else if changes[0].changeId != id then [changes[0]] + Others(changes[1..], id)
    else Others(changes[1..], id)
  }

  function PairsWith(x: ChangeInfo, others: seq<ChangeInfo>): seq<Pair> {
    seq(|others|, i requires 0 <= i < |others| => (x, others[i]))
  }

  /** Every change with every later one. */
  function AllPairs(changes: seq<ChangeInfo>): seq<Pair> {
    if changes == [] then [] else PairsWith(changes[0], changes[1..]) + AllPairs(changes[1..])
  }

  /** `changes.get(id)` */
  function Find(changes: seq<ChangeInfo>, id: Id): Option<ChangeInfo> {
    if changes == [] then None
    else if changes[0].changeId == id then Some(changes[0])
    else Find(changes[1..], id)
  }

  /** The pairs to compare: all of them, or those of one open change. */
  function PairsToCheck(changes: seq<ChangeInfo>, target: Id): seq<Pair> {
    if target == "" then AllPairs(OpenChanges(changes))
    else
      match Find(changes, target)
      case None => []
      case Some(x) => if IsOpen(x) then PairsWith(x, Others(OpenChanges(changes), target)) else []
  }

  /** The conflicts of the first pairs, in order. */
  ghost function Conflicts(cls: ClassReader, pairs: seq<Pair>): seq<Conflict> {
    if pairs == [] then []
    else
      var n := |pairs| - 1;
      var (x, y) := pairs[n];
      Conflicts(cls, pairs[..n]) + if Conflicting(cls, x, y) then [ConflictOf(cls, x, y)] else []
  }

  lemma LabelsIff(cls: ClassReader, x: ChangeInfo, y: ChangeInfo)
    ensures Labels(cls, x, y) == {} <==> !Conflicting(cls, x, y)
  {
    if l, r :| l in x.files && r in y.files && ScopesOverlap(cls, l, r) {
      assert Written(OverlapLabel(cls, l, r)) in Labels(cls, x, y);
    }
  }

  /** `detect_file_conflicts`; an empty target means every pair. */
  method DetectFileConflicts(cls: ClassReader, changes: seq<ChangeInfo>, target: Id) returns (conflicts: seq<Conflict>)
    requires UniqueChanges(changes)
    ensures conflicts == Conflicts(cls, PairsToCheck(changes, target))
  {
    conflicts := [];
    var pairs := PairsToCheck(changes, target);
    for i := 0 to |pairs|
      invariant conflicts == Conflicts(cls, pairs[..i])
    {
      var (x, y) := pairs[i];
      assert pairs[..i + 1][..i] == pairs[..i];
      LabelsIff(cls, x, y);
      if x.files != {} && y.files != {} {
        var overlap := Labels(cls, x, y);
        if overlap != {} {
          var sorted := SortIds(overlap);
          conflicts := conflicts + [Conflict(x.changeId, y.changeId, sorted, SeverityOf(x, y))];
        }
      }
    }
    assert pairs[..|pairs|] == pairs;
  }

  // ---- what one conflict says ----

  /** The text that a conflict shows for two overlapping scopes. */
  ghost predicate ShownAs(cls: ClassReader, l: string, r: string, text: string) {
    match OverlapLabel(cls, l, r)
    case Narrower(scope) => text == scope
    case Both(first, second) => text == l + " <-> " + r && first == l && second == r
  }

  lemma ShownIsWritten(cls: ClassReader, l: string, r: string)
    ensures forall text :: ShownAs(cls, l, r, text) <==> text == Written(OverlapLabel(cls, l, r))
  {}

  /** A conflict shows just the overlapping scopes, and warns only of safe changes that depend on each other. */
  lemma ConflictTells(cls: ClassReader, x: ChangeInfo, y: ChangeInfo)
    ensures var c := ConflictOf(cls, x, y);
      && c.a == x.changeId && c.b == y.changeId && IsSorted(c.overlapping)
      && (c.severity == Warning <==>
            x.parallelSafe && y.parallelSafe && (y.changeId in x.dependsOn || x.changeId in y.dependsOn))
      && forall text :: text in c.overlapping <==>
           exists l, r :: l in x.files && r in y.files && ScopesOverlap(cls, l, r) && ShownAs(cls, l, r, text)
  {
    var c := ConflictOf(cls, x, y);
    forall text ensures text in c.overlapping <==> text in Labels(cls, x, y) {
      assert text in c.overlapping <==> text in Elements(c.overlapping);
    }
    forall l, r { ShownIsWritten(cls, l, r); }
  }

  /** Both scopes are shown only where neither is concrete, not both end recursively, and they differ. */
  lemma BothShownIff(cls: ClassReader, first: string, second: string)
    requires ScopesOverlap(cls, first, second)
    ensures var f, s := DeclaredParts(first, false).value, DeclaredParts(second, false).value;
      OverlapLabel(cls, first, second) == Both(first, second) <==>
        && !IsConcrete(f) && !IsConcrete(s) && first != second
        && !(RecursivePrefix(f).Some? && RecursivePrefix(s).Some?)
  {
    OverlapOnParts(cls, first, second);
    var f, s := DeclaredParts(first, false).value, DeclaredParts(second, false).value;
    if IsConcrete(f) { ConcreteScopeCoversItself(cls, f, f); }
    if IsConcrete(s) { ConcreteScopeCoversItself(cls, s, s); }
  }

  // ---- the report is complete, free of repeats, and the same from either side ----

  /** The pair is reported, in either order. */
  ghost predicate Reports(conflicts: seq<Conflict>, a: Id, b: Id) {
    exists k :: 0 <= k < |conflicts| && Names(conflicts[k], a, b)
  }

  ghost predicate Names(c: Conflict, a: Id, b: Id) {
    (c.a == a && c.b == b) || (c.a == b && c.b == a)
  }

  ghost predicate Yields(cls: ClassReader, p: Pair, c: Conflict) {
    Conflicting(cls, p.0, p.1) && c == ConflictOf(cls, p.0, p.1)
  }

  lemma {:induction false} ConflictsMember(cls: ClassReader, pairs: seq<Pair>, c: Conflict)
    ensures c in Conflicts(cls, pairs) <==> exists p :: p in pairs && Yields(cls, p, c)
  {
    if pairs != [] {
      var n := |pairs| - 1;
      ConflictsMember(cls, pairs[..n], c);
      LastConflict(cls, pairs, c);
      SplitLast(pairs, n);
    }
  }

  lemma LastConflict(cls: ClassReader, pairs: seq<Pair>, c: Conflict)
    requires pairs != []
    ensures c in Conflicts(cls, pairs) <==>
      c in Conflicts(cls, pairs[..|pairs| - 1]) || Yields(cls, pairs[|pairs| - 1], c)
  {}

  lemma SplitLast(pairs: seq<Pair>, n: nat)
    requires |pairs| == n + 1
    ensures forall p :: p in pairs <==> p in pairs[..n] || p == pairs[n]
  {
    assert pairs == pairs[..n] + [pairs[n]];
  }

  lemma {:induction false} OpenMember(changes: seq<ChangeInfo>, x: ChangeInfo)
    ensures x in OpenChanges(changes) <==> x in changes && IsOpen(x)
  {
    if changes != [] {
      OpenMember(changes[1..], x);
      assert changes == [changes[0]] + changes[1..];
    }
  }

  lemma {:induction false} OthersMember(changes: seq<ChangeInfo>, id: Id, x: ChangeInfo)
    ensures x in Others(changes, id) <==> x in changes && x.changeId != id
  {
    if changes != [] {
      OthersMember(changes[1..], id, x);
      assert changes == [changes[0]] + changes[1..];
    }
  }

  lemma {:induction false} FindUnique(changes: seq<ChangeInfo>, x: ChangeInfo)
    requires UniqueChanges(changes) && x in changes
    ensures Find(changes, x.changeId) == Some(x)
  {
    if changes[0] != x {
      assert changes == [changes[0]] + changes[1..];
      assert x in changes[1..];
      FindUnique(changes[1..], x);
    }
  }

  lemma {:induction false} FindSome(changes: seq<ChangeInfo>, id: Id)
    ensures Find(changes, id).Some? ==> Find(changes, id).value in changes && Find(changes, id).value.changeId == id
  {
    if changes != [] { FindSome(changes[1..], id); }
  }

  lemma {:induction false} OpenUnique(changes: seq<ChangeInfo>)
    requires UniqueChanges(changes)
    ensures UniqueChanges(OpenChanges(changes))
  {
    if changes != [] {
      OpenUnique(changes[1..]);
      forall c | c in OpenChanges(changes[1..]) ensures c.changeId != changes[0].changeId {
        OpenMember(changes[1..], c);
      }
    }
  }

  ghost predicate HasPair(pairs: seq<Pair>, x: ChangeInfo, y: ChangeInfo) {
    (x, y) in pairs || (y, x) in pairs
  }

  /** Any two different changes are compared. */
  lemma {:induction false} AllPairsMember(changes: seq<ChangeInfo>, x: ChangeInfo, y: ChangeInfo)
    requires UniqueChanges(changes)
    ensures HasPair(AllPairs(changes), x, y) <==> x in changes && y in changes && x.changeId != y.changeId
  {
    if changes != [] {
      var first, rest := changes[0], changes[1..];
      AllPairsMember(rest, x, y);
      assert changes == [first] + rest;
      forall u, v ensures (u, v) in PairsWith(first, rest) <==> u == first && v in rest {
        PairsWithMember(first, rest, u, v);
      }
    }
  }

  lemma PairsWithMember(x: ChangeInfo, others: seq<ChangeInfo>, u: ChangeInfo, v: ChangeInfo)
    ensures (u, v) in PairsWith(x, others) <==> u == x && v in others
  {
    if v in others {
      var i :| 0 <= i < |others| && others[i] == v;
      assert PairsWith(x, others)[i] == (x, v);
    }
  }

  lemma ConflictingSymmetric(cls: ClassReader, x: ChangeInfo, y: ChangeInfo)
    ensures Conflicting(cls, x, y) <==> Conflicting(cls, y, x)
  {
    if l, r :| l in x.files && r in y.files && ScopesOverlap(cls, l, r) { OverlapIsSymmetric(cls, l, r); }
    if l, r :| l in y.files && r in x.files && ScopesOverlap(cls, l, r) { OverlapIsSymmetric(cls, l, r); }
  }

  /** What is compared: two different open changes, one of them the target if there is one. */
  lemma CheckedPairs(changes: seq<ChangeInfo>, target: Id, x: ChangeInfo, y: ChangeInfo)
    requires UniqueChanges(changes)
    ensures HasPair(PairsToCheck(changes, target), x, y) <==>
      && x in changes && y in changes && x.status != "done" && y.status != "done" && x.changeId != y.changeId
      && (target == "" || x.changeId == target || y.changeId == target)
  {
    OpenMember(changes, x);
    OpenMember(changes, y);
    if target == "" {
      OpenUnique(changes);
      AllPairsMember(OpenChanges(changes), x, y);
    } else {
      FindSome(changes, target);
      if x in changes && x.changeId == target { FindUnique(changes, x); }
      if y in changes && y.changeId == target { FindUnique(changes, y); }
      TargetPairs(changes, target, x, y);
    }
  }

  lemma TargetPairs(changes: seq<ChangeInfo>, target: Id, x: ChangeInfo, y: ChangeInfo)
    requires target != ""
    ensures HasPair(PairsToCheck(changes, target), x, y) <==>
      var t := Find(changes, target);
      && t.Some? && IsOpen(t.value)
      && ((x == t.value && y in OpenChanges(changes) && y.changeId != target)
          || (y == t.value && x in OpenChanges(changes) && x.changeId != target))
  {
    var t := Find(changes, target);
    if t.Some? && IsOpen(t.value) {
      var others := Others(OpenChanges(changes), target);
      PairsWithMember(t.value, others, x, y);
      PairsWithMember(t.value, others, y, x);
      OthersMember(OpenChanges(changes), target, x);
      OthersMember(OpenChanges(changes), target, y);
    }
  }

  lemma {:induction false} SameChange(changes: seq<ChangeInfo>, x: ChangeInfo, y: ChangeInfo)
    requires UniqueChanges(changes) && x in changes && y in changes && x.changeId == y.changeId
    ensures x == y
  {
    FindUnique(changes, x);
    FindUnique(changes, y);
  }

  /**
   Two open changes are reported exactly when their scopes overlap, whether every pair is asked
   for or only the pairs of either one.
   */
  lemma ReportedIffConflicting(cls: ClassReader, changes: seq<ChangeInfo>, target: Id, x: ChangeInfo, y: ChangeInfo)
    requires UniqueChanges(changes) && x in changes && y in changes
    requires x.changeId != y.changeId && x.status != "done" && y.status != "done"
    requires target == "" || target == x.changeId || target == y.changeId
    ensures Reports(Conflicts(cls, PairsToCheck(changes, target)), x.changeId, y.changeId) <==> Conflicting(cls, x, y)
  {
    var pairs := PairsToCheck(changes, target);
    var conflicts := Conflicts(cls, pairs);
    if Conflicting(cls, x, y) {
      CheckedPairs(changes, target, x, y);
      ConflictingSymmetric(cls, x, y);
      var p: Pair := if (x, y) in pairs then (x, y) else (y, x);
      var c := ConflictOf(cls, p.0, p.1);
      assert Yields(cls, p, c);
      ConflictsMember(cls, pairs, c);
      var k :| 0 <= k < |conflicts| && conflicts[k] == c;
      assert Names(conflicts[k], x.changeId, y.changeId);
    }
    if k :| 0 <= k < |conflicts| && Names(conflicts[k], x.changeId, y.changeId) {
      NamedIsConflicting(cls, changes, target, x, y, conflicts[k]);
    }
  }

  lemma NamedIsConflicting(
    cls: ClassReader, changes: seq<ChangeInfo>, target: Id, x: ChangeInfo, y: ChangeInfo, c: Conflict)
    requires UniqueChanges(changes) && x in changes && y in changes
    requires c in Conflicts(cls, PairsToCheck(changes, target)) && Names(c, x.changeId, y.changeId)
    ensures Conflicting(cls, x, y)
  {
    ConflictsMember(cls, PairsToCheck(changes, target), c);
    var p :| p in PairsToCheck(changes, target) && Yields(cls, p, c);
    CheckedPairs(changes, target, p.0, p.1);
    ConflictingSymmetric(cls, x, y);
    if p.0.changeId == x.changeId {
      SameChange(changes, p.0, x);
      SameChange(changes, p.1, y);
    } else {
      SameChange(changes, p.0, y);
      SameChange(changes, p.1, x);
    }
  }

  /** Everything reported is a conflict of two different open changes. */
  lemma ReportedAreOpen(cls: ClassReader, changes: seq<ChangeInfo>, target: Id, c: Conflict)
    requires UniqueChanges(changes) && c in Conflicts(cls, PairsToCheck(changes, target))
    ensures exists x, y ::
      && x in changes && y in changes && x.status != "done" && y.status != "done" && x.changeId != y.changeId
      && Yields(cls, (x, y), c)
  {
    ConflictsMember(cls, PairsToCheck(changes, target), c);
    var p :| p in PairsToCheck(changes, target) && Yields(cls, p, c);
    CheckedPairs(changes, target, p.0, p.1);
    assert p == (p.0, p.1);
  }

  /** No unordered pair stands twice in the list. */
  ghost predicate Once(pairs: seq<Pair>) {
    forall i, j :: 0 <= i < j < |pairs| ==> !SamePair(pairs[i], pairs[j])
  }

  ghost predicate SamePair(p: Pair, q: Pair) {
    (p.0.changeId == q.0.changeId && p.1.changeId == q.1.changeId)
    || (p.0.changeId == q.1.changeId && p.1.changeId == q.0.changeId)
  }

  lemma {:induction false} AllPairsOnce(changes: seq<ChangeInfo>)
    requires UniqueChanges(changes)
    ensures Once(AllPairs(changes))
  {
    if changes != [] {
      var first, rest := changes[0], changes[1..];
      AllPairsOnce(rest);
      forall p | p in AllPairs(rest) ensures p.0.changeId != first.changeId && p.1.changeId != first.changeId {
        assert HasPair(AllPairs(rest), p.0, p.1) by { assert p == (p.0, p.1); }
        AllPairsMember(rest, p.0, p.1);
      }
    }
  }

  lemma {:induction false} OthersUnique(changes: seq<ChangeInfo>, id: Id)
    requires UniqueChanges(changes)
    ensures UniqueChanges(Others(changes, id))
  {
    if changes != [] {
      OthersUnique(changes[1..], id);
      forall c | c in Others(changes[1..], id) ensures c.changeId != changes[0].changeId {
        OthersMember(changes[1..], id, c);
      }
    }
  }

  lemma CheckedOnce(changes: seq<ChangeInfo>, target: Id)
    requires UniqueChanges(changes)
    ensures Once(PairsToCheck(changes, target))
  {
    OpenUnique(changes);
    AllPairsOnce(OpenChanges(changes));
    OthersUnique(OpenChanges(changes), target);
    var t := Find(changes, target);
    FindSome(changes, target);
    if t.Some? {
      var others := Others(OpenChanges(changes), target);
      forall c | c in others ensures c.changeId != target { OthersMember(OpenChanges(changes), target, c); }
      assert Once(PairsWith(t.value, others));
    }
  }

  ghost predicate RepeatFree(cs: seq<Conflict>) {
    forall i, j :: 0 <= i < j < |cs| ==> !Names(cs[j], cs[i].a, cs[i].b)
  }

  /** No conflict is reported twice, not even with its changes exchanged. */
  lemma {:induction false} ReportedOnce(cls: ClassReader, pairs: seq<Pair>)
    requires Once(pairs)
    ensures RepeatFree(Conflicts(cls, pairs))
  {
    if pairs != [] {
      var n := |pairs| - 1;
      ReportedOnce(cls, pairs[..n]);
      var before := Conflicts(cls, pairs[..n]);
      forall c | c in before ensures !Names(ConflictOf(cls, pairs[n].0, pairs[n].1), c.a, c.b) {
        ConflictsMember(cls, pairs[..n], c);
        var p :| p in pairs[..n] && Yields(cls, p, c);
        var k :| 0 <= k < n && pairs[..n][k] == p;
        assert !SamePair(pairs[k], pairs[n]);
      }
      RepeatFreeSnoc(before, ConflictOf(cls, pairs[n].0, pairs[n].1));
    }
  }

  lemma RepeatFreeSnoc(before: seq<Conflict>, c: Conflict)
    requires RepeatFree(before) && forall d :: d in before ==> !Names(c, d.a, d.b)
    ensures RepeatFree(before + [c])
  {
    forall i | 0 <= i < |before| ensures !Names(c, before[i].a, before[i].b) {
      assert before[i] in before;
    }
  }

  // ---- what a report, or its absence, says about paths ----

  ghost predicate InScope(cls: ClassReader, c: ChangeInfo, path: string) {
    exists scope :: scope in c.files && PathMatchesScope(cls, path, scope)
  }

  /** Some path lies in a declared scope of each change. */
  ghost predicate SharePath(cls: ClassReader, x: ChangeInfo, y: ChangeInfo) {
    exists path :: InScope(cls, x, path) && InScope(cls, y, path)
  }

  /** A concrete path, or a concrete prefix and a recursive part. */
  predicate Simple(scope: string) {
    var parts := DeclaredParts(scope, false);
    parts.Some? && (IsConcrete(parts.value) || RecursivePrefix(parts.value).Some?)
  }

  ghost predicate AllSimple(c: ChangeInfo) {
    forall scope :: scope in c.files ==> Simple(scope)
  }

  lemma SimpleOverlapIsExact(cls: ClassReader, first: string, second: string)
    requires Simple(first) && Simple(second)
    ensures ScopesOverlap(cls, first, second) <==> CommonPath(cls, first, second)
  {
    if ScopesOverlap(cls, first, second) {
      ReportedOverlapIsRealIff(cls, first, second);
      SimpleIsNamable(cls, first);
      SimpleIsNamable(cls, second);
    }
    if CommonPath(cls, first, second) { RealOverlapIsReported(cls, first, second); }
  }

  lemma SimpleIsNamable(cls: ClassReader, scope: string)
    requires Simple(scope)
    ensures NamableScope(cls, DeclaredParts(scope, false).value)
  {
    var parts := DeclaredParts(scope, false).value;
    ParsedIsLegal(scope, false);
    forall i | 0 <= i < |parts| && !IsRecursive(parts[i]) ensures Namable(cls, parts[i]) {
      OrdinaryIsLiteral(parts, i);
      assert LegalName(parts[i]);
      LiteralMatch(cls, parts[i], parts[i]);
    }
  }

  lemma OrdinaryIsLiteral(parts: Parts, i: nat)
    requires i < |parts| && !IsRecursive(parts[i])
    requires IsConcrete(parts) || RecursivePrefix(parts).Some?
    ensures !HasWildcard(parts[i])
  {
    if !IsConcrete(parts) { assert parts[..|parts| - 1][i] == parts[i]; }
  }

  /** Changes that declare only simple scopes conflict exactly when they share a path. */
  lemma SimpleConflictIffSharePath(cls: ClassReader, x: ChangeInfo, y: ChangeInfo)
    requires AllSimple(x) && AllSimple(y)
    ensures Conflicting(cls, x, y) <==> SharePath(cls, x, y)
  {
    if l, r :| l in x.files && r in y.files && ScopesOverlap(cls, l, r) {
      SimpleOverlapIsExact(cls, l, r);
      var path :| PathMatchesScope(cls, path, l) && PathMatchesScope(cls, path, r);
      assert InScope(cls, x, path) && InScope(cls, y, path);
    }
    if path :| InScope(cls, x, path) && InScope(cls, y, path) {
      var l :| l in x.files && PathMatchesScope(cls, path, l);
      var r :| r in y.files && PathMatchesScope(cls, path, r);
      SimpleOverlapIsExact(cls, l, r);
    }
  }
}
