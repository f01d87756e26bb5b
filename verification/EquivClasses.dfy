/** Equivalence classes of examples, split by conditions and covered by expressions. */
module EquivClasses {
  import opened Wrappers

  /** An enumerated expression, by its text. */
  type Exp = string

  /**
   * The selected examples: how many, the wanted outputs, what an expression yields on one, whether the branch
   * combinator takes its first branch for a condition, and whether a variable occurs in an expression.
   */
  datatype World = World(n: nat, output: seq<int>, value: (Exp, nat) -> int, truth: (Exp, nat) -> bool, hasVar: Exp -> bool) {
    predicate Ok() { |output| == n }

    predicate Right(e: Exp, i: nat) { i < |output| && value(e, i) == output[i] }
  }

  type Examples = set<nat>

  // ---- the lists of conditions ----

  /** Each condition is stored twice: an even index stands for its truth, the odd one behind for its falsehood. */
  ghost predicate ConditionsOk(conditions: seq<Exp>) {
    |conditions| % 2 == 0 && forall k: nat | 2 * k + 1 < |conditions| :: conditions[2 * k] == conditions[2 * k + 1]
  }

  /** The `j`-th entry of the list is `2j` or `2j + 1` and tells the truth of the `j`-th condition on every member. */
  predicate Described(w: World, conditions: seq<Exp>, c: Examples, l: seq<nat>) {
    && 2 * |l| <= |conditions|
    && forall j | 0 <= j < |l| :: l[j] / 2 == j && forall i | i in c :: w.truth(conditions[2 * j], i) <==> l[j] % 2 == 0
  }

  /** Neither list is a prefix of the other. */
  predicate Differ(a: seq<nat>, b: seq<nat>) { exists j :: 0 <= j < |a| && j < |b| && a[j] != b[j] }

  /** A class: its members and its list. */
  datatype Class = Class(members: Examples, conds: seq<nat>)

  /** The classes, the uncovered ones under their numbers. */
  datatype Classes = Classes(conditions: seq<Exp>, uncovered: map<nat, Class>, ecCounter: nat, outsider: Examples, covered: seq<Class>)

  predicate ClassOk(w: World, conditions: seq<Exp>, c: Class) { c.members != {} && Described(w, conditions, c.members, c.conds) }

  /** The lists of all classes, covered or not, are prefix-free. */
  ghost predicate PrefixFree(uncovered: map<nat, Class>, covered: seq<Class>) {
    && (forall k, m | k in uncovered && m in uncovered && k != m :: Differ(uncovered[k].conds, uncovered[m].conds))
    && (forall k, m | 0 <= k < m < |covered| :: Differ(covered[k].conds, covered[m].conds))
    && (forall k, m | k in uncovered && 0 <= m < |covered| :: Differ(uncovered[k].conds, covered[m].conds))
  }

  /** The uncovered classes make up `outsider`. */
  ghost predicate MakesUp(uncovered: map<nat, Class>, outsider: Examples) {
    && (forall k | k in uncovered :: uncovered[k].members <= outsider)
    && (forall i | i in outsider :: exists k :: k in uncovered && i in uncovered[k].members)
  }

  /** With the covered classes, `outsider` makes up all examples. */
  ghost predicate Exhaustive(w: World, outsider: Examples, covered: seq<Class>) {
    && (forall i | i in outsider :: i < w.n)
    && (forall k, i | 0 <= k < |covered| && i in covered[k].members :: i < w.n)
    && (forall i: nat | i < w.n :: i in outsider || exists k :: 0 <= k < |covered| && i in covered[k].members)
  }

  /** The invariant; the uncovered classes in `pending` still lack an entry for the last condition. */
  ghost predicate Ok(w: World, s: Classes, pending: set<nat>) {
    && ConditionsOk(s.conditions) && pending <= s.uncovered.Keys
    && (forall k | k in s.uncovered :: k < s.ecCounter && ClassOk(w, s.conditions, s.uncovered[k]))
    && (forall k | k in s.uncovered :: 2 * |s.uncovered[k].conds| + (if k in pending then 2 else 0) == |s.conditions|)
    && (forall k | 0 <= k < |s.covered| :: ClassOk(w, s.conditions, s.covered[k]))
    && PrefixFree(s.uncovered, s.covered) && MakesUp(s.uncovered, s.outsider) && Exhaustive(w, s.outsider, s.covered)
  }

  /** Classes with prefix-free descriptions have no common member. */
  lemma DifferIsDisjoint(w: World, conditions: seq<Exp>, c: Class, d: Class)
    requires ClassOk(w, conditions, c) && ClassOk(w, conditions, d) && Differ(c.conds, d.conds)
    ensures c.members * d.members == {}
  {
    var j :| 0 <= j < |c.conds| && j < |d.conds| && c.conds[j] != d.conds[j];
    assert c.conds[j] / 2 == d.conds[j] / 2 == j;
    assert c.conds[j] % 2 != d.conds[j] % 2;
  }

  /** The covered and uncovered classes partition the examples. */
  lemma ClassesPartition(w: World, s: Classes)
    requires Ok(w, s, {})
    ensures forall k, m | k in s.uncovered && m in s.uncovered && k != m :: s.uncovered[k].members * s.uncovered[m].members == {}
    ensures forall k, m | 0 <= k < m < |s.covered| :: s.covered[k].members * s.covered[m].members == {}
    ensures forall k | 0 <= k < |s.covered| :: s.covered[k].members * s.outsider == {}
  {
    hide ClassOk, Differ;
    forall k, m | k in s.uncovered && m in s.uncovered && k != m ensures s.uncovered[k].members * s.uncovered[m].members == {} {
      DifferIsDisjoint(w, s.conditions, s.uncovered[k], s.uncovered[m]);
    }
    forall k, m | 0 <= k < m < |s.covered| ensures s.covered[k].members * s.covered[m].members == {} {
      DifferIsDisjoint(w, s.conditions, s.covered[k], s.covered[m]);
    }
    forall k | 0 <= k < |s.covered| ensures s.covered[k].members * s.outsider == {} {
      forall i | i in s.outsider ensures i !in s.covered[k].members {
        var m :| m in s.uncovered && i in s.uncovered[m].members;
        DifferIsDisjoint(w, s.conditions, s.uncovered[m], s.covered[k]);
        assert i !in s.uncovered[m].members * s.covered[k].members;
      }
    }
  }

  function Range(n: nat): (s: Examples)
    ensures forall i: nat :: i in s <==> i < n
  {
    if n == 0 then {} else Range(n - 1) + {n - 1}
  }

  /** The start: one class of all examples, described by nothing. */
  function Start(n: nat): Classes { Classes([], map[0 := Class(Range(n), [])], 1, Range(n), []) }

  lemma StartOk(w: World)
    requires w.n > 0
    ensures Ok(w, Start(w.n), {})
  {
    assert 0 in Range(w.n);
    var m := Start(w.n).uncovered;
    forall i | i in Range(w.n) ensures exists k :: k in m && i in m[k].members { assert 0 in m && i in m[0].members; }
  }

  // ---- splitting ----

  lemma DifferLonger(a: seq<nat>, b: seq<nat>, x: seq<nat>)
    requires Differ(a, b)
    ensures Differ(a + x, b) && Differ(b, a + x) && Differ(b, a)
  {
    var j :| 0 <= j < |a| && j < |b| && a[j] != b[j];
    assert (a + x)[j] == a[j];
  }

  lemma SiblingsDiffer(l: seq<nat>, at: nat)
    ensures Differ(l + [at], l + [at + 1]) && Differ(l + [at + 1], l + [at])
  {
    assert (l + [at])[|l|] != (l + [at + 1])[|l|];
  }

  lemma DescribedLonger(w: World, conditions: seq<Exp>, cond: Exp, c: Class)
    requires ClassOk(w, conditions, c)
    ensures ClassOk(w, conditions + [cond, cond], c)
  {
    forall j | 0 <= j < |c.conds| ensures (conditions + [cond, cond])[2 * j] == conditions[2 * j] {}
  }

  lemma ConditionsLonger(conditions: seq<Exp>, cond: Exp)
    requires ConditionsOk(conditions)
    ensures ConditionsOk(conditions + [cond, cond])
  {
    var all := conditions + [cond, cond];
    forall k: nat | 2 * k + 1 < |all| ensures all[2 * k] == all[2 * k + 1] {
      if 2 * k + 1 < |conditions| {
        assert all[2 * k] == conditions[2 * k] && all[2 * k + 1] == conditions[2 * k + 1];
      } else {
        assert 2 * k == |conditions|;
      }
    }
  }

  /** Storing a condition twice: all uncovered classes lack an entry now. */
  lemma ConditionAdded(w: World, s: Classes, cond: Exp)
    requires Ok(w, s, {})
    ensures Ok(w, s.(conditions := s.conditions + [cond, cond]), s.uncovered.Keys)
  {
    hide ClassOk, PrefixFree, MakesUp, Exhaustive, ConditionsOk;
    ConditionsLonger(s.conditions, cond);
    forall k | k in s.uncovered ensures ClassOk(w, s.conditions + [cond, cond], s.uncovered[k]) {
      DescribedLonger(w, s.conditions, cond, s.uncovered[k]);
    }
    forall k | 0 <= k < |s.covered| ensures ClassOk(w, s.conditions + [cond, cond], s.covered[k]) {
      DescribedLonger(w, s.conditions, cond, s.covered[k]);
    }
  }

  /** The part of a class on one side of the last condition. */
  function Part(c: Class, trues: Examples, side: bool, at: nat): Class {
    Class(if side then c.members * trues else c.members - trues, c.conds + [if side then at else at + 1])
  }

  /** The examples of the class on which the last condition is true. */
  ghost predicate Splits(w: World, s: Classes, c: Class, trues: Examples) {
    && |s.conditions| >= 2 && 2 * |c.conds| + 2 == |s.conditions|
    && forall i | i in c.members :: i in trues <==> w.truth(s.conditions[|s.conditions| - 2], i)
  }

  lemma PartOk(w: World, s: Classes, c: Class, trues: Examples, side: bool)
    requires ClassOk(w, s.conditions, c) && Splits(w, s, c, trues)
    requires (if side then c.members * trues else c.members - trues) != {}
    ensures ClassOk(w, s.conditions, Part(c, trues, side, |s.conditions| - 2))
  {
    var at := |s.conditions| - 2;
    var p := Part(c, trues, side, at);
    forall j | 0 <= j < |p.conds| ensures p.conds[j] / 2 == j && forall i | i in p.members :: w.truth(s.conditions[2 * j], i) <==> p.conds[j] % 2 == 0 {
      if j < |c.conds| { assert p.conds[j] == c.conds[j]; }
    }
  }

  /** Class `k` replaced by parts of it, under old or new numbers. */
  ghost predicate Replaced(m: map<nat, Class>, k: nat, m': map<nat, Class>, parts: set<nat>) {
    && k in m && m'.Keys == m.Keys - {k} + parts && (forall q | q in parts :: q == k || q !in m)
    && (forall q | q in m && q != k && q !in parts :: m'[q] == m[q])
    && (forall q | q in parts :: m'[q].members <= m[k].members && m'[q].conds != [] && m'[q].conds[..|m'[q].conds| - 1] == m[k].conds)
    && (forall q, r | q in parts && r in parts && q != r :: Differ(m'[q].conds, m'[r].conds))
    && (forall i | i in m[k].members :: exists q :: q in parts && i in m'[q].members)
  }

  lemma PartDiffers(c: Class, p: Class, d: Class)
    requires p.conds != [] && p.conds[..|p.conds| - 1] == c.conds && Differ(c.conds, d.conds)
    ensures Differ(p.conds, d.conds) && Differ(d.conds, p.conds)
  {
    DifferLonger(c.conds, d.conds, [p.conds[|p.conds| - 1]]);
    assert p.conds == c.conds + [p.conds[|p.conds| - 1]];
  }

  lemma ReplacedPrefixFree(m: map<nat, Class>, k: nat, m': map<nat, Class>, parts: set<nat>, covered: seq<Class>)
    requires Replaced(m, k, m', parts) && PrefixFree(m, covered)
    ensures PrefixFree(m', covered)
  {
    hide Differ;
    forall q, r | q in m' && r in m' && q != r ensures Differ(m'[q].conds, m'[r].conds) {
      if q in parts && r !in parts {
        PartDiffers(m[k], m'[q], m'[r]);
      } else if q !in parts && r in parts {
        PartDiffers(m[k], m'[r], m'[q]);
      }
    }
    forall q, j | q in m' && 0 <= j < |covered| ensures Differ(m'[q].conds, covered[j].conds) {
      if q in parts { PartDiffers(m[k], m'[q], covered[j]); }
    }
  }

  lemma ReplacedMakesUp(m: map<nat, Class>, k: nat, m': map<nat, Class>, parts: set<nat>, outsider: Examples)
    requires Replaced(m, k, m', parts) && MakesUp(m, outsider)
    ensures MakesUp(m', outsider)
  {
    hide Differ;
    forall i | i in outsider ensures exists q :: q in m' && i in m'[q].members {
      var q :| q in m && i in m[q].members;
      if q != k { assert q in m' && m'[q] == m[q]; }
    }
  }

  /** One round of the loop over the classes. */
  lemma RoundOk(w: World, s: Classes, k: nat, m': map<nat, Class>, counter: nat, parts: set<nat>, pending: set<nat>)
    requires Ok(w, s, pending) && k in pending && Replaced(s.uncovered, k, m', parts)
    requires forall q | q in parts :: q < counter && ClassOk(w, s.conditions, m'[q]) && 2 * |m'[q].conds| == |s.conditions|
    requires s.ecCounter <= counter && forall q | q in parts :: q == k || q >= s.ecCounter
    ensures Ok(w, s.(uncovered := m', ecCounter := counter), pending - {k})
  {
    hide ClassOk, Differ, Exhaustive, ConditionsOk;
    ReplacedPrefixFree(s.uncovered, k, m', parts, s.covered);
    ReplacedMakesUp(s.uncovered, k, m', parts, s.outsider);
    hide PrefixFree, MakesUp;
    forall q | q in m' && q !in parts ensures m'[q] == s.uncovered[q] && q != k {}
  }

  /** What the round does: no member on the true side; members on both; all members there. */
  lemma RoundReplaces(m: map<nat, Class>, k: nat, counter: nat, trues: Examples, at: nat)
    requires k in m && counter !in m && m[k].members != {}
    ensures m[k].members * trues == {} ==> Replaced(m, k, m[k := Part(m[k], trues, false, at).(members := m[k].members)], {k})
    ensures m[k].members * trues != {} && m[k].members - trues != {} ==>
      Replaced(m, k, m[k := Part(m[k], trues, false, at)][counter := Part(m[k], trues, true, at)], {k, counter})
    ensures m[k].members * trues != {} && m[k].members - trues == {} ==>
      Replaced(m, k, (m - {k})[counter := Part(m[k], trues, true, at)], {counter})
  {
    SiblingsDiffer(m[k].conds, at);
    hide Differ;
    var f, t := Part(m[k], trues, false, at), Part(m[k], trues, true, at);
    var kept, divided, moved := m[k := f.(members := m[k].members)], m[k := f][counter := t], (m - {k})[counter := t];
    assert kept.Keys == m.Keys - {k} + {k} && divided.Keys == m.Keys - {k} + {k, counter} && moved.Keys == m.Keys - {k} + {counter};
    assert m[k].members * trues == {} ==> forall i | i in m[k].members :: k in {k} && i in kept[k].members;
    assert forall i | i in m[k].members :: if i in trues then counter in {k, counter} && i in divided[counter].members else k in {k, counter} && i in divided[k].members;
    if m[k].members - trues == {} {
      forall i | i in m[k].members ensures counter in {counter} && i in moved[counter].members {
        assert i !in m[k].members - trues;
      }
    }
  }

  // ---- the classes as sets of examples ----

  function MembersAt(m: map<nat, Class>, keys: set<nat>): set<Examples> { set k | k in keys && k in m :: m[k].members }

  function AllMembers(m: map<nat, Class>): set<Examples> { MembersAt(m, m.Keys) }

  /** The members of the classes from the given one on. */
  function MembersFrom(covered: seq<Class>, from: nat): set<Examples> { set k | from <= k < |covered| :: covered[k].members }

  /** What a condition makes of one class, and of all. */
  function Sides(c: Examples, trues: Examples): set<Examples> {
    (if c * trues == {} then {} else {c * trues}) + (if c - trues == {} then {} else {c - trues})
  }

  function SidesOfAll(cs: set<Examples>, trues: Examples): set<Examples> { set c, d | c in cs && d in Sides(c, trues) :: d }

  lemma SidesOfOneMore(cs: set<Examples>, c: Examples, trues: Examples)
    ensures SidesOfAll(cs + {c}, trues) == SidesOfAll(cs, trues) + Sides(c, trues)
  {
    hide Sides;
  }

  lemma PendingMembers(m: map<nat, Class>, pending: set<nat>, k: nat)
    requires k in pending && k in m
    ensures MembersAt(m, m.Keys - (pending - {k})) == MembersAt(m, m.Keys - pending) + {m[k].members}
  {
    assert m.Keys - (pending - {k}) == m.Keys - pending + {k};
  }

  /** A round puts the sides of the class in its place. */
  lemma RoundSides(m: map<nat, Class>, pending: set<nat>, k: nat, counter: nat, trues: Examples, at: nat)
    requires k in pending && pending <= m.Keys && counter !in m
    ensures var c := m[k];
      var yes, no := Part(c, trues, true, at), Part(c, trues, false, at);
      var done, later := MembersAt(m, m.Keys - pending), pending - {k};
      && (var m' := (m - {k})[counter := yes]; c.members * trues != {} && c.members - trues == {} ==>
            MembersAt(m', m'.Keys - later) == done + Sides(c.members, trues))
      && (var m' := m[k := no][counter := yes]; c.members * trues != {} && c.members - trues != {} ==>
            MembersAt(m', m'.Keys - later) == done + Sides(c.members, trues))
      && (var m' := m[k := no]; c.members * trues == {} && c.members != {} ==>
            MembersAt(m', m'.Keys - later) == done + Sides(c.members, trues))
  {
    var c := m[k];
    var yes, no := Part(c, trues, true, at), Part(c, trues, false, at);
    var done := m.Keys - pending;
    if c.members * trues != {} && c.members - trues == {} {
      var m' := (m - {k})[counter := yes];
      assert m'.Keys - (pending - {k}) == done + {counter};
      MembersOfMore(m, m', done, {counter});
      assert MembersAt(m', {counter}) == {yes.members};
    } else if c.members * trues != {} {
      var m' := m[k := no][counter := yes];
      assert m'.Keys - (pending - {k}) == done + {k, counter};
      MembersOfMore(m, m', done, {k, counter});
      assert MembersAt(m', {k, counter}) == {yes.members, no.members};
    } else if c.members != {} {
      var m' := m[k := no];
      assert m'.Keys - (pending - {k}) == done + {k};
      MembersOfMore(m, m', done, {k});
      assert MembersAt(m', {k}) == {no.members};
    }
  }

  lemma MembersOfMore(m: map<nat, Class>, m': map<nat, Class>, keys: set<nat>, more: set<nat>)
    requires forall k | k in keys :: k in m && k in m' && m'[k] == m[k]
    ensures MembersAt(m', keys + more) == MembersAt(m, keys) + MembersAt(m', more)
  {
  }

  // ---- covering ----

  /** Every entry holds examples on which its expression is right. */
  ghost predicate EntriesOk(w: World, entries: map<nat, Examples>, exprs: seq<Exp>) {
    forall e | e in entries :: e < |exprs| && forall i | i in entries[e] :: w.Right(exprs[e], i)
  }

  ghost predicate HasEntry(entries: map<nat, Examples>, c: Examples) { exists e :: e in entries && c <= entries[e] }

  /** Every covered class lies in an entry. */
  ghost predicate Backed(entries: map<nat, Examples>, covered: seq<Class>) {
    forall k | 0 <= k < |covered| :: HasEntry(entries, covered[k].members)
  }

  /** The expression is computed on the example: it has no variable, or the example is uncovered or lies in an uncovered class. */
  predicate Needed(w: World, e: Exp, outsider: Examples, coveredExample: Examples, i: nat) {
    i in outsider || i !in coveredExample || !w.hasVar(e)
  }

  /** The examples on which the expression is computed and right. */
  function Wanted(w: World, e: Exp, outsider: Examples, coveredExample: Examples): Examples {
    set i | i in Range(w.n) && w.Right(e, i) && Needed(w, e, outsider, coveredExample, i)
  }

  /** Whatever an expression verified before is right on, of what would be computed now, still lies in one entry. */
  ghost predicate Remembered(w: World, entries: map<nat, Examples>, exprs: seq<Exp>, outsider: Examples, coveredExample: Examples) {
    forall e | e in exprs :: HasEntry(entries, Wanted(w, e, outsider, coveredExample))
  }

  /** Less and less is computed. */
  lemma RememberedLater(w: World, entries: map<nat, Examples>, exprs: seq<Exp>, o: Examples, o': Examples, c: Examples, c': Examples)
    requires Remembered(w, entries, exprs, o, c) && o' <= o && c <= c'
    ensures Remembered(w, entries, exprs, o', c')
  {
    forall e | e in exprs ensures HasEntry(entries, Wanted(w, e, o', c')) {
      assert Wanted(w, e, o', c') <= Wanted(w, e, o, c);
    }
  }

  /** `indexOf`: the first place of an expression in the list, or the end. */
  function IndexOf(exprs: seq<Exp>, e: Exp): (k: nat)
    ensures k <= |exprs| && (k < |exprs| ==> exprs[k] == e) && (k == |exprs| <==> e !in exprs)
  {
    if exprs == [] || exprs[0] == e then 0 else 1 + IndexOf(exprs[1..], e)
  }

  /** No expression is right on all examples. */
  ghost predicate NoDirect(w: World, entries: map<nat, Examples>) { forall e | e in entries :: exists i: nat :: i < w.n && i !in entries[e] }

  /** Once there is a condition, the first one is true and false on some examples, and no class is described by nothing. */
  ghost predicate FirstSplits(w: World, conditions: seq<Exp>, covered: seq<Class>) {
    conditions != [] ==>
      && (exists i: nat :: i < w.n && w.truth(conditions[0], i)) && (exists i: nat :: i < w.n && !w.truth(conditions[0], i))
      && forall k | 0 <= k < |covered| :: covered[k].conds != []
  }

  /** A class moves from the uncovered to the covered ones. */
  lemma MoveOk(w: World, s: Classes, k: nat)
    requires Ok(w, s, {}) && k in s.uncovered
    ensures Ok(w, s.(uncovered := s.uncovered - {k}, covered := s.covered + [s.uncovered[k]], outsider := s.outsider - s.uncovered[k].members), {})
  {
    hide ClassOk, Differ, ConditionsOk;
    var c := s.uncovered[k];
    var u, v, o := s.uncovered - {k}, s.covered + [c], s.outsider - c.members;
    forall q | q in u ensures u[q].members <= o {
      DifferIsDisjoint(w, s.conditions, u[q], c);
      forall i | i in u[q].members ensures i in o { assert i !in u[q].members * c.members; }
    }
    forall i | i in o ensures exists q :: q in u && i in u[q].members {
      var q :| q in s.uncovered && i in s.uncovered[q].members;
      assert q in u;
    }
    forall m | 0 <= m < |s.covered| ensures v[m] == s.covered[m] && Differ(v[m].conds, c.conds) { DifferSwap(c.conds, s.covered[m].conds); }
    forall i: nat | i < w.n ensures i in o || exists m :: 0 <= m < |v| && i in v[m].members {
      if i in c.members {
        assert v[|s.covered|] == c;
      } else if i !in s.outsider {
        var m :| 0 <= m < |s.covered| && i in s.covered[m].members;
        assert v[m] == s.covered[m];
      }
    }
  }

  lemma DifferSwap(a: seq<nat>, b: seq<nat>)
    requires Differ(a, b)
    ensures Differ(b, a)
  {
  }

  /** Without a condition there is one class at most; so what is still uncovered is everything. */
  lemma OneClass(w: World, s: Classes)
    requires Ok(w, s, {}) && s.conditions == []
    ensures s.outsider != {} ==> s.covered == [] && s.outsider == Range(w.n)
    ensures |s.covered| <= 1
  {
    hide Differ, ConditionsOk, Exhaustive, MakesUp;
    NoOther(w, s);
    if s.outsider != {} {
      var k := SomeUncovered(s);
      if s.covered != [] {
        NothingDescribed(w, s.uncovered[k].members, s.uncovered[k].conds, s.covered[0].conds);
        assert false;
      }
      AllOutside(w, s.outsider);
    }
  }

  lemma NoOther(w: World, s: Classes)
    requires Ok(w, s, {}) && s.conditions == []
    ensures |s.covered| <= 1
  {
    hide Differ, ConditionsOk, Exhaustive, MakesUp;
    if |s.covered| > 1 {
      NothingDescribed(w, s.covered[0].members, s.covered[0].conds, s.covered[1].conds);
      assert false;
    }
  }

  lemma SomeUncovered(s: Classes) returns (k: nat)
    requires MakesUp(s.uncovered, s.outsider) && s.outsider != {}
    ensures k in s.uncovered
  {
    var i :| i in s.outsider;
    k :| k in s.uncovered && i in s.uncovered[k].members;
  }

  lemma AllOutside(w: World, outsider: Examples)
    requires Exhaustive(w, outsider, [])
    ensures outsider == Range(w.n)
  {
  }

  lemma NothingDescribed(w: World, c: Examples, l: seq<nat>, m: seq<nat>)
    requires Described(w, [], c, l)
    ensures l == [] && !Differ(l, m)
  {
  }

  // ---- the result ----

  /** A nest of branches. */
  datatype Prog = Leaf(e: Exp) | Ite(c: Exp, t: Prog, f: Prog)

  function Run(w: World, p: Prog, i: nat): int {
    match p
    case Leaf(e) => w.value(e, i)
    case Ite(c, t, f) => if w.truth(c, i) then Run(w, t, i) else Run(w, f, i)
  }

  /** The lists of the classes with an expression for each; `members` tells which class a list describes. */
  ghost predicate TableOk(w: World, conditions: seq<Exp>, table: map<seq<nat>, Exp>, members: map<seq<nat>, Examples>) {
    && table.Keys <= members.Keys
    && (forall l | l in table :: Described(w, conditions, members[l], l) && forall i | i in members[l] :: w.Right(table[l], i))
    && (forall l, m | l in table && m in table && l != m :: Differ(l, m))
  }

  /** All lists begin alike. */
  ghost predicate BeginAlike(table: map<seq<nat>, Exp>, p: nat) {
    forall l, m | l in table && m in table :: p <= |l| && p <= |m| && l[..p] == m[..p]
  }

  ghost predicate RightOn(w: World, prog: Prog, table: map<seq<nat>, Exp>, members: map<seq<nat>, Examples>) {
    forall l, i | l in table && l in members && i in members[l] :: i < |w.output| && Run(w, prog, i) == w.output[i]
  }

  /** `selectConds`. */
  function SelectConds(index: nat, table: map<seq<nat>, Exp>): map<seq<nat>, Exp> { map l | l in table && index in l :: table[l] }

  lemma EntryAt(w: World, conditions: seq<Exp>, c: Examples, l: seq<nat>, j: nat)
    requires Described(w, conditions, c, l) && j < |l|
    ensures 2 * j in l <==> l[j] == 2 * j
    ensures 2 * j + 1 in l <==> l[j] == 2 * j + 1
    ensures l[j] == 2 * j || l[j] == 2 * j + 1
  {
    assert forall k | 0 <= k < |l| :: l[k] / 2 == k;
  }

  /**
   * Among two or more lists that begin alike, every list goes on, so it stands in exactly one of the two selections:
   * the loop that looks for a later condition never turns.
   */
  lemma SelectionsDivide(w: World, conditions: seq<Exp>, table: map<seq<nat>, Exp>, members: map<seq<nat>, Examples>, p: nat)
    requires TableOk(w, conditions, table, members) && BeginAlike(table, p) && |table| >= 2
    ensures forall l | l in table :: p < |l| && (l in SelectConds(2 * p, table) <==> l[p] == 2 * p) && (l in SelectConds(2 * p + 1, table) <==> l[p] == 2 * p + 1)
    ensures forall l | l in table :: l[p] == 2 * p || l[p] == 2 * p + 1
    ensures SelectConds(2 * p, table) != map[] || SelectConds(2 * p + 1, table) != map[]
    ensures 2 * p + 1 < |conditions|
    ensures BeginAlike(SelectConds(2 * p, table), p + 1) && BeginAlike(SelectConds(2 * p + 1, table), p + 1)
  {
    hide Described, Differ;
    forall l | l in table ensures p < |l| && 2 * |l| <= |conditions| {
      var m := Another(table, l);
      GoesOn(l, m, p);
      DescribedLength(w, conditions, members[l], l);
    }
    forall l | l in table
      ensures (2 * p in l <==> l[p] == 2 * p) && (2 * p + 1 in l <==> l[p] == 2 * p + 1) && (l[p] == 2 * p || l[p] == 2 * p + 1)
    {
      EntryAt(w, conditions, members[l], l, p);
    }
    var some := SomeList(table);
    assert some in SelectConds(2 * p, table) || some in SelectConds(2 * p + 1, table);
    forall l, m | l in table && m in table && l[p] == m[p] ensures l[..p + 1] == m[..p + 1] {
      assert l[..p + 1] == l[..p] + [l[p]] && m[..p + 1] == m[..p] + [m[p]];
    }
  }

  lemma DescribedLength(w: World, conditions: seq<Exp>, c: Examples, l: seq<nat>)
    requires Described(w, conditions, c, l)
    ensures 2 * |l| <= |conditions|
  {
  }

  lemma SomeList(table: map<seq<nat>, Exp>) returns (l: seq<nat>)
    requires |table| >= 1
    ensures l in table
  {
    l :| l in table;
  }

  lemma Another(table: map<seq<nat>, Exp>, l: seq<nat>) returns (m: seq<nat>)
    requires |table| >= 2 && l in table
    ensures m in table && m != l
  {
    assert |table.Keys - {l}| == |table.Keys| - 1;
    m :| m in table.Keys - {l};
  }

  lemma GoesOn(l: seq<nat>, m: seq<nat>, p: nat)
    requires Differ(l, m) && p <= |l| && p <= |m| && l[..p] == m[..p]
    ensures p < |l|
  {
    var j :| 0 <= j < |l| && j < |m| && l[j] != m[j];
    SamePrefix(l, m, p);
  }

  lemma SamePrefix(l: seq<nat>, m: seq<nat>, p: nat)
    requires p <= |l| && p <= |m| && l[..p] == m[..p]
    ensures forall j | 0 <= j < p :: l[j] == m[j]
  {
    forall j | 0 <= j < p ensures l[j] == m[j] { assert l[j] == l[..p][j] && m[j] == m[..p][j]; }
  }

  // ---- the class ----

  class PBEEnumSize {
    const w: World
    var conditions: seq<Exp>
    var uncovered: map<nat, Class>
    var ecCounter: nat
    var outsider: Examples
    var coveredECs: seq<Class>
    var covered: map<nat, Examples>
    var coveredExpr: seq<Exp>
    var coveredExample: Examples
    var ecConds2Expr: map<seq<nat>, Exp>

    function State(): Classes
      reads this
    {
      Classes(conditions, uncovered, ecCounter, outsider, coveredECs)
    }

    ghost predicate Valid()
      reads this
    {
      && w.Ok() && w.n > 0 && Ok(w, State(), {}) && FirstSplits(w, conditions, coveredECs)
      && EntriesOk(w, covered, coveredExpr) && Backed(covered, coveredECs)
      && Remembered(w, covered, coveredExpr, outsider, coveredExample)
    }

    /** What `compute` makes of an expression now; one verified before is not computed on other examples than these. */
    ghost predicate Computed(outputs: seq<Option<int>>, expr: Exp)
      reads this
    {
      && |outputs| == w.n
      && (forall i | 0 <= i < w.n && outputs[i].Some? :: outputs[i].value == w.value(expr, i))
      && (forall i | 0 <= i < w.n && Needed(w, expr, outsider, coveredExample, i) :: outputs[i].Some?)
      && (expr in coveredExpr ==> forall i | 0 <= i < w.n && outputs[i].Some? :: Needed(w, expr, outsider, coveredExample, i))
    }

    /** `compute`: nothing is computed on covered examples outside the uncovered classes, unless no variable occurs. */
    method Compute(expr: Exp) returns (outputs: seq<Option<int>>)
      ensures Computed(outputs, expr)
      ensures forall i | 0 <= i < w.n :: outputs[i].Some? <==> Needed(w, expr, outsider, coveredExample, i)
    {
      outputs := [];
      for i := 0 to w.n
        invariant |outputs| == i
        invariant forall j | 0 <= j < i ::
                    outputs[j] == if Needed(w, expr, outsider, coveredExample, j) then Some(w.value(expr, j)) else None
      {
        outputs := outputs + [if Needed(w, expr, outsider, coveredExample, i) then Some(w.value(expr, i)) else None];
      }
    }

    /** The start of a try, with one class of all selected examples. */
    constructor (w: World)
      requires w.Ok() && w.n > 0
      ensures Valid() && this.w == w && State() == Start(w.n) && covered == map[] && coveredExpr == []
      ensures coveredExample == {} && ecConds2Expr == map[]
    {
      hide Ok;
      this.w := w;
      StartOk(w);
      conditions, uncovered, ecCounter, outsider, coveredECs := [], map[0 := Class(Range(w.n), [])], 1, Range(w.n), [];
      covered, coveredExpr, coveredExample, ecConds2Expr := map[], [], {}, map[];
    }

    /**
     * `updateECs`: `outputs` tells where the condition takes the first branch, at least on the uncovered
     * examples; null where the condition could not be computed.
     */
    method UpdateECs(outputs: Option<seq<Option<int>>>, cond: Exp)
      requires Valid()
      requires outputs.Some? ==> |outputs.value| == w.n && forall i | i in outsider :: outputs.value[i] == Some(1) <==> w.truth(cond, i)
      modifies this`conditions, this`uncovered, this`ecCounter, this`outsider, this`coveredECs
      ensures Valid()
      ensures var trues := TruesIn(w, old(outsider), cond);
        var divides := outputs.Some? && trues != {} && trues != old(outsider) && trues !in AllMembers(old(uncovered));
        if divides then
          && conditions == old(conditions) + [cond, cond]
          && |old(coveredECs)| <= |coveredECs| && coveredECs[..|old(coveredECs)|] == old(coveredECs)
          && AllMembers(uncovered) + MembersFrom(coveredECs, |old(coveredECs)|) == SidesOfAll(AllMembers(old(uncovered)), trues)
          && (forall c | c in AllMembers(uncovered) :: !HasEntry(covered, c) && (c <= trues || c * trues == {}))
          && (forall c | c in MembersFrom(coveredECs, |old(coveredECs)|) :: HasEntry(covered, c))
        else State() == old(State())
    {
      hide Ok, FirstSplits, EntriesOk, Backed, Replaced, ConditionsOk, Remembered;
      if outputs.None? { return; }
      OutsiderBelow(w, State());
      var trueOutputs := set i | i in outsider && outputs.value[i] == Some(1);
      assert trueOutputs == TruesIn(w, outsider, cond);
      if trueOutputs == {} || trueOutputs == outsider { return; }
      if exists k | k in uncovered :: uncovered[k].members == trueOutputs { return; }
      var condTrueIndex := |conditions|;
      ConditionAdded(w, State(), cond);
      StillSplits(w, State(), cond, trueOutputs);
      conditions := conditions + [cond, cond];
      Split(trueOutputs, condTrueIndex);
      SidesAreOneSided(AllMembers(old(uncovered)), trueOutputs);
      UpdateCoveredECs();
      RememberedLater(w, covered, coveredExpr, old(outsider), outsider, coveredExample, coveredExample);
    }

    /** The loop over the classes: each is divided by the examples on which the new condition is true. */
    method Split(trueOutputs: Examples, condTrueIndex: nat)
      requires Ok(w, State(), uncovered.Keys) && condTrueIndex + 2 == |conditions| && TruesOf(w, State(), trueOutputs)
      modifies this`uncovered, this`ecCounter
      ensures Ok(w, State(), {})
      ensures AllMembers(uncovered) == SidesOfAll(AllMembers(old(uncovered)), trueOutputs)
    {
      hide Ok, Replaced, ConditionsOk, ClassOk, Part, Sides, SidesOfAll, MembersAt;
      var pending := uncovered.Keys;
      ghost var start := uncovered;
      NothingDivided(start, trueOutputs);
      while pending != {}
        invariant Ok(w, State(), pending) && pending <= uncovered.Keys && TruesOf(w, State(), trueOutputs)
        invariant pending <= start.Keys && forall k | k in pending :: uncovered[k] == start[k]
        invariant MembersAt(uncovered, uncovered.Keys - pending) == SidesOfAll(MembersAt(start, start.Keys - pending), trueOutputs)
        decreases pending
      {
        var k: nat := AnyKey(pending);
        PendingFacts(w, State(), pending, k, trueOutputs);
        var c := uncovered[k];
        var newEC := c.members * trueOutputs;
        var rest := c.members - trueOutputs;
        ghost var before := State();
        RoundSides(uncovered, pending, k, ecCounter, trueOutputs, condTrueIndex);
        PendingMembers(start, pending, k);
        SidesOfOneMore(MembersAt(start, start.Keys - pending), c.members, trueOutputs);
        if newEC != {} {
          if rest == {} {
            RoundMoves(w, before, pending, k, trueOutputs);
            uncovered := (uncovered - {k})[ecCounter := Part(c, trueOutputs, true, condTrueIndex)];
          } else {
            RoundDivides(w, before, pending, k, trueOutputs);
            uncovered := uncovered[k := Part(c, trueOutputs, false, condTrueIndex)][ecCounter := Part(c, trueOutputs, true, condTrueIndex)];
          }
          ecCounter := ecCounter + 1;
        } else {
          RoundKeeps(w, before, pending, k, trueOutputs);
          uncovered := uncovered[k := Part(c, trueOutputs, false, condTrueIndex)];
        }
        pending := pending - {k};
      }
      assert uncovered.Keys - {} == uncovered.Keys && start.Keys - {} == start.Keys;
    }

    /** `updateCoveredECs`: classes inside an entry are moved to the covered ones. */
    method UpdateCoveredECs()
      requires Ok(w, State(), {}) && FirstSplits(w, conditions, coveredECs) && Backed(covered, coveredECs)
      modifies this`uncovered, this`outsider, this`coveredECs
      ensures Ok(w, State(), {}) && FirstSplits(w, conditions, coveredECs) && Backed(covered, coveredECs)
      ensures forall k | k in uncovered :: !HasEntry(covered, uncovered[k].members)
      ensures outsider <= old(outsider)
      ensures |old(coveredECs)| <= |coveredECs| && coveredECs[..|old(coveredECs)|] == old(coveredECs)
      ensures AllMembers(uncovered) + MembersFrom(coveredECs, |old(coveredECs)|) == AllMembers(old(uncovered))
      ensures forall c | c in MembersFrom(coveredECs, |old(coveredECs)|) :: HasEntry(covered, c)
    {
      hide Ok, FirstSplits, Backed, HasEntry;
      var toRm: set<nat> := {};
      var keys := uncovered.Keys;
      ghost var s := State();
      while keys != {}
        invariant keys <= uncovered.Keys && toRm <= uncovered.Keys && keys !! toRm && uncovered == old(uncovered)
        invariant s == State().(uncovered := uncovered - toRm) && outsider <= old(outsider)
        invariant Ok(w, s, {}) && FirstSplits(w, conditions, coveredECs) && Backed(covered, coveredECs)
        invariant forall k | k in uncovered && k !in toRm && k !in keys :: !HasEntry(covered, uncovered[k].members)
        invariant forall k | k in toRm :: HasEntry(covered, uncovered[k].members)
        invariant |old(coveredECs)| <= |coveredECs| && coveredECs[..|old(coveredECs)|] == old(coveredECs)
        invariant MembersFrom(coveredECs, |old(coveredECs)|) == MembersAt(uncovered, toRm)
        decreases keys
      {
        var k: nat := AnyKey(keys);
        keys := keys - {k};
        var isCovered := IsCovered(uncovered[k].members);
        if isCovered {
          ghost var s' := s.(uncovered := s.uncovered - {k}, covered := s.covered + [s.uncovered[k]], outsider := s.outsider - s.uncovered[k].members);
          MoveOk(w, s, k);
          UncoveredLength(w, s, k);
          MoveFirstSplits(w, conditions, coveredECs, uncovered[k]);
          BackedMore(covered, coveredECs, uncovered[k]);
          outsider := outsider - uncovered[k].members;
          MembersFromSnoc(coveredECs, |old(coveredECs)|, uncovered[k]);
          coveredECs := coveredECs + [uncovered[k]];
          toRm := toRm + {k};
          s := s';
          assert uncovered - toRm == s.uncovered;
        }
      }
      RemovedMembers(uncovered, toRm);
      uncovered := uncovered - toRm;
    }

    /** The inner loop over the entries. */
    method IsCovered(ec: Examples) returns (r: bool)
      ensures r <==> HasEntry(covered, ec)
    {
      r := false;
      var keys := covered.Keys;
      while keys != {}
        invariant keys <= covered.Keys
        invariant r <==> exists e :: e in covered && e !in keys && ec <= covered[e]
        decreases keys
      {
        var e: nat := AnyKey(keys);
        keys := keys - {e};
        if !r && ec <= covered[e] { r := true; }
      }
    }

    /** `verifyOutput`: `outputs` are the values the expression was computed to have, null where it was not computed. */
    method VerifyOutput(outputs: seq<Option<int>>, expr: Exp) returns (result: bool)
      requires Valid() && Computed(outputs, expr)
      modifies this`covered, this`coveredExpr, this`coveredExample
      ensures Valid()
      ensures result <==> forall i | 0 <= i < w.n :: outputs[i] == Some(w.output[i])
      ensures coveredExample == old(coveredExample) + CoveredBy(w, outputs)
      ensures var c := CoveredBy(w, outputs);
        var kept := old(c == {} || HasEntry(covered, c));
        && (expr in old(coveredExpr) ==> kept)
        && coveredExpr == (if kept then old(coveredExpr) else old(coveredExpr) + [expr])
        && covered == if kept then old(covered) else (old(covered) - InsideOf(old(covered), c))[|old(coveredExpr)| := c]
      ensures CoveredBy(w, outputs) != {} ==> HasEntry(covered, CoveredBy(w, outputs))
      ensures forall c | HasEntry(old(covered), c) :: HasEntry(covered, c)
      ensures old(NoDirect(w, covered)) && !result ==> NoDirect(w, covered)
    {
      hide Ok, FirstSplits, HasEntry, Remembered, Needed;
      var coveredOutputs: Examples;
      result, coveredOutputs := Compare(outputs);
      RememberedLater(w, covered, coveredExpr, outsider, outsider, old(coveredExample), coveredExample);
      if coveredOutputs == {} { return; }
      var held, removed := InsideTargets(coveredOutputs);
      if held { return; }
      VerifiedIsHeld(w, covered, coveredExpr, outsider, old(coveredExample), expr, outputs);
      EntriesReplaced(w, covered, coveredExpr, removed, expr, coveredOutputs, outputs);
      BackedReplaced(covered, removed, |coveredExpr|, coveredOutputs, coveredECs, coveredExpr, w);
      if !result { NotAll(w, outputs, coveredOutputs); }
      covered := covered - removed;
      coveredExpr := coveredExpr + [expr];
      NewIndex(old(coveredExpr), expr);
      covered := covered[IndexOf(coveredExpr, expr) := coveredOutputs];
      RememberedReplaced(w, old(covered), covered, old(coveredExpr), expr, outsider, old(coveredExample), coveredExample, outputs);
    }

    /** The loop over the outputs. */
    method Compare(outputs: seq<Option<int>>) returns (result: bool, coveredOutputs: Examples)
      requires |outputs| == w.n && w.Ok()
      modifies this`coveredExample
      ensures result <==> forall i | 0 <= i < w.n :: outputs[i] == Some(w.output[i])
      ensures coveredOutputs == CoveredBy(w, outputs) && coveredExample == old(coveredExample) + coveredOutputs
    {
      result, coveredOutputs := true, {};
      for i := 0 to |outputs|
        invariant result <==> forall j | 0 <= j < i :: outputs[j] == Some(w.output[j])
        invariant coveredOutputs == set j | j in Range(i) && outputs[j] == Some(w.output[j])
        invariant coveredExample == old(coveredExample) + coveredOutputs
      {
        if outputs[i].None? || w.output[i] != outputs[i].value {
          result := false;
        } else {
          coveredOutputs := coveredOutputs + {i};
          coveredExample := coveredExample + {i};
        }
      }
    }

    /** The loop over the entries: whether one contains the examples, and else those that lie inside. */
    method InsideTargets(examples: Examples) returns (held: bool, removed: set<nat>)
      ensures held <==> HasEntry(covered, examples)
      ensures !held ==> removed == InsideOf(covered, examples)
    {
      removed := {};
      var keys := covered.Keys;
      while keys != {}
        invariant keys <= covered.Keys
        invariant removed == set e | e in covered && e !in keys && covered[e] <= examples
        invariant forall e | e in covered && e !in keys :: !(examples <= covered[e])
        decreases keys
      {
        var e: nat := AnyKey(keys);
        keys := keys - {e};
        if examples <= covered[e] { return true, {}; }
        if covered[e] <= examples { removed := removed + {e}; }
      }
      held := false;
    }

    /** `preprocessResult`: an expression for the list of every covered class. */
    method PreprocessResult()
      requires Valid() && ecConds2Expr == map[]
      modifies this`ecConds2Expr
      ensures Valid()
      ensures ecConds2Expr.Keys == set k | 0 <= k < |coveredECs| :: coveredECs[k].conds
      ensures forall k, i | 0 <= k < |coveredECs| && i in coveredECs[k].members :: w.Right(ecConds2Expr[coveredECs[k].conds], i)
    {
      hide Ok, FirstSplits, Differ;
      for k := 0 to |coveredECs|
        invariant ecConds2Expr.Keys == set j | 0 <= j < k :: coveredECs[j].conds
        invariant forall j, i | 0 <= j < k && i in coveredECs[j].members :: w.Right(ecConds2Expr[coveredECs[j].conds], i)
      {
        var c := coveredECs[k];
        var e := LastEntry(c.members);
        ListsDiffer(w, State(), k);
        ecConds2Expr := ecConds2Expr[c.conds := coveredExpr[e]];
      }
    }

    /** The loop over the entries: the last one that contains the class. */
    method LastEntry(members: Examples) returns (last: nat)
      requires EntriesOk(w, covered, coveredExpr) && HasEntry(covered, members)
      ensures last in covered && members <= covered[last]
    {
      var keys := covered.Keys;
      var found := false;
      last := 0;
      while keys != {}
        invariant keys <= covered.Keys
        invariant found ==> last in covered && members <= covered[last]
        invariant found || exists e :: e in keys && members <= covered[e]
        decreases keys
      {
        var e: nat := AnyKey(keys);
        keys := keys - {e};
        if members <= covered[e] { last, found := e, true; }
      }
    }

    /** The end of a try that found no single expression: the definition is right on every selected example. */
    method Result() returns (definition: Prog)
      requires Valid() && outsider == {} && NoDirect(w, covered) && ecConds2Expr == map[]
      modifies this`ecConds2Expr
      ensures Valid()
      ensures forall i: nat | i < w.n :: Run(w, definition, i) == w.output[i]
    {
      PreprocessResult();
      definition := GenerateResult(MembersOf(coveredECs));
    }

    /** `generateResult`: right on every example, if all are covered and no single expression covers them. */
    method GenerateResult(ghost members: map<seq<nat>, Examples>) returns (definition: Prog)
      requires Valid() && outsider == {} && NoDirect(w, covered)
      requires ecConds2Expr.Keys == set k | 0 <= k < |coveredECs| :: coveredECs[k].conds
      requires forall k, i | 0 <= k < |coveredECs| && i in coveredECs[k].members :: w.Right(ecConds2Expr[coveredECs[k].conds], i)
      requires members == MembersOf(coveredECs)
      ensures forall i: nat | i < w.n :: Run(w, definition, i) == w.output[i]
    {
      hide Ok, FirstSplits, Differ, SelectConds, Described, BeginAlike, Backed, NoDirect, MembersOf;
      var table := ecConds2Expr;
      ClassesMakeTable(w, State(), table, members);
      FirstSelections(w, State(), covered, table, members);
      var cond02expr := SelectConds(0, table);
      var cond12expr := SelectConds(1, table);
      SelectedTable(w, conditions, table, members, 0);
      SelectedTable(w, conditions, table, members, 1);
      var t := Construct(0, cond02expr, members);
      var f := Construct(1, cond12expr, members);
      definition := Ite(conditions[0], t.value, f.value);
      SidesRight(w, conditions, table, members, 0, t, f);
      AllInTable(w, State(), table, members, definition);
    }

    /** `construct`; the lists agree up to the condition `condIndex`. */
    method Construct(condIndex: nat, cond2expr: map<seq<nat>, Exp>, ghost members: map<seq<nat>, Examples>) returns (r: Option<Prog>)
      requires w.Ok() && TableOk(w, conditions, cond2expr, members) && BeginAlike(cond2expr, condIndex / 2 + 1)
      ensures r.None? <==> cond2expr == map[]
      ensures r.Some? ==> RightOn(w, r.value, cond2expr, members)
      decreases |conditions| - condIndex / 2 * 2, |cond2expr|
    {
      hide Differ, SelectConds, Described, BeginAlike, Run, RightOn, TableOk;
      if |cond2expr| == 0 { return None; }
      if |cond2expr| == 1 {
        var l := AnyList(cond2expr);
        LeafRight(w, conditions, cond2expr, members, l);
        return Some(Leaf(cond2expr[l]));
      }
      var listIndex := condIndex / 2 + 1;
      var trueCond2expr := SelectConds(2 * listIndex, cond2expr);
      var falseCond2expr := SelectConds(2 * listIndex + 1, cond2expr);
      SelectionsDivide(w, conditions, cond2expr, members, listIndex);
      SelectedTable(w, conditions, cond2expr, members, 2 * listIndex);
      SelectedTable(w, conditions, cond2expr, members, 2 * listIndex + 1);
      var t := Construct(2 * listIndex, trueCond2expr, members);
      var f := Construct(2 * listIndex + 1, falseCond2expr, members);
      SidesRight(w, conditions, cond2expr, members, listIndex, t, f);
      if t.None? {
        r := f;
      } else if f.None? {
        r := t;
      } else if t == f {
        r := t;
      } else {
        r := Some(Ite(conditions[2 * listIndex], t.value, f.value));
      }
    }
  }

  method AnyKey(keys: set<nat>) returns (k: nat)
    requires keys != {}
    ensures k in keys
  {
    SomeKey(keys);
    k :| k in keys;
  }

  lemma SomeKey(keys: set<nat>)
    requires keys != {}
    ensures exists k :: k in keys
  {
    if forall k :: k !in keys { assert false; }
  }

  /** The examples of a set on which the condition is true. */
  function TruesIn(w: World, s: Examples, cond: Exp): Examples { set i | i in s && w.truth(cond, i) }

  lemma NothingDivided(m: map<nat, Class>, trues: Examples)
    ensures MembersAt(m, m.Keys - m.Keys) == SidesOfAll(MembersAt(m, m.Keys - m.Keys), trues)
  {
  }

  lemma RemovedMembers(m: map<nat, Class>, toRm: set<nat>)
    requires toRm <= m.Keys
    ensures AllMembers(m) == AllMembers(m - toRm) + MembersAt(m, toRm)
  {
    assert forall k | k in m :: k in toRm || (k in m - toRm && (m - toRm)[k] == m[k]);
    forall c | c in AllMembers(m) ensures c in AllMembers(m - toRm) + MembersAt(m, toRm) {
      var k :| k in m && m[k].members == c;
      assert k in toRm || k in m - toRm;
    }
  }

  /** After dividing, every class is on one side. */
  lemma SidesAreOneSided(cs: set<Examples>, trues: Examples)
    ensures forall c | c in SidesOfAll(cs, trues) :: c != {} && (c <= trues || c * trues == {})
  {
    forall c, d | c in cs && d in Sides(c, trues) ensures d != {} && (d <= trues || d * trues == {}) {
      assert (c - trues) * trues == {};
    }
  }

  lemma MembersFromSnoc(covered: seq<Class>, from: nat, c: Class)
    requires from <= |covered|
    ensures MembersFrom(covered + [c], from) == MembersFrom(covered, from) + {c.members}
  {
    var all := covered + [c];
    forall k | from <= k < |covered| ensures all[k] == covered[k] {}
    assert all[|covered|] == c;
  }

  lemma OutsiderBelow(w: World, s: Classes)
    requires Ok(w, s, {})
    ensures forall i | i in s.outsider :: i < w.n
  {
  }

  /** A condition that is true on some, but not on all, uncovered examples splits the first time everything. */
  lemma StillSplits(w: World, s: Classes, cond: Exp, trues: Examples)
    requires Ok(w, s, {}) && FirstSplits(w, s.conditions, s.covered) && trues != {} && trues < s.outsider
    requires forall i | i in s.outsider :: i in trues <==> w.truth(cond, i)
    ensures FirstSplits(w, s.conditions + [cond, cond], s.covered)
  {
    hide Ok;
    OutsiderBelow(w, s);
    var all := s.conditions + [cond, cond];
    if s.conditions == [] {
      OneClass(w, s);
      var i :| i in trues;
      var j :| j in s.outsider && j !in trues;
      assert all[0] == cond;
    } else {
      assert all[0] == s.conditions[0];
    }
  }

  lemma UncoveredLength(w: World, s: Classes, k: nat)
    requires Ok(w, s, {}) && k in s.uncovered
    ensures 2 * |s.uncovered[k].conds| == |s.conditions|
  {
  }

  lemma MoveFirstSplits(w: World, conditions: seq<Exp>, covered: seq<Class>, c: Class)
    requires FirstSplits(w, conditions, covered) && 2 * |c.conds| == |conditions|
    ensures FirstSplits(w, conditions, covered + [c])
  {
  }

  lemma BackedMore(entries: map<nat, Examples>, classes: seq<Class>, c: Class)
    requires Backed(entries, classes) && HasEntry(entries, c.members)
    ensures Backed(entries, classes + [c])
  {
    hide HasEntry;
  }

  /** The examples on which the last condition is true. */
  ghost predicate TruesOf(w: World, s: Classes, trues: Examples) {
    |s.conditions| >= 2 && forall i | i in s.outsider :: i in trues <==> w.truth(s.conditions[|s.conditions| - 2], i)
  }

  lemma PendingFacts(w: World, s: Classes, pending: set<nat>, k: nat, trues: Examples)
    requires TruesOf(w, s, trues) && k in pending && k in s.uncovered && Ok(w, s, pending)
    ensures s.uncovered[k].members != {} && s.ecCounter !in s.uncovered && k < s.ecCounter
    ensures ClassOk(w, s.conditions, s.uncovered[k]) && Splits(w, s, s.uncovered[k], trues)
  {
    hide PrefixFree, ConditionsOk, Exhaustive, Described;
  }

  lemma PartShape(c: Class, trues: Examples, side: bool, at: nat)
    ensures var p := Part(c, trues, side, at); |p.conds| == |c.conds| + 1 && p.members == if side then c.members * trues else c.members - trues
  {
  }

  /** The state after a round: the class moved to the true side, divided, or kept with one more entry. */
  function Moved(s: Classes, k: nat, trues: Examples): Classes
    requires k in s.uncovered && |s.conditions| >= 2
  {
    s.(uncovered := (s.uncovered - {k})[s.ecCounter := Part(s.uncovered[k], trues, true, |s.conditions| - 2)], ecCounter := s.ecCounter + 1)
  }

  function Divided(s: Classes, k: nat, trues: Examples): Classes
    requires k in s.uncovered && |s.conditions| >= 2
  {
    s.(uncovered := s.uncovered[k := Part(s.uncovered[k], trues, false, |s.conditions| - 2)][s.ecCounter := Part(s.uncovered[k], trues, true, |s.conditions| - 2)],
       ecCounter := s.ecCounter + 1)
  }

  function KeptOn(s: Classes, k: nat, trues: Examples): Classes
    requires k in s.uncovered && |s.conditions| >= 2
  {
    s.(uncovered := s.uncovered[k := Part(s.uncovered[k], trues, false, |s.conditions| - 2)])
  }

  lemma RoundMoves(w: World, s: Classes, pending: set<nat>, k: nat, trues: Examples)
    requires TruesOf(w, s, trues) && k in pending && k in s.uncovered && Ok(w, s, pending)
    requires s.uncovered[k].members * trues != {} && s.uncovered[k].members - trues == {}
    ensures Ok(w, Moved(s, k, trues), pending - {k})
  {
    hide ClassOk, Ok, Replaced, Part;
    var c, at := s.uncovered[k], |s.conditions| - 2;
    PendingFacts(w, s, pending, k, trues);
    RoundReplaces(s.uncovered, k, s.ecCounter, trues, at);
    PartOk(w, s, c, trues, true);
    PartShape(c, trues, true, at);
    RoundOk(w, s, k, (s.uncovered - {k})[s.ecCounter := Part(c, trues, true, at)], s.ecCounter + 1, {s.ecCounter}, pending);
  }

  lemma RoundDivides(w: World, s: Classes, pending: set<nat>, k: nat, trues: Examples)
    requires TruesOf(w, s, trues) && k in pending && k in s.uncovered && Ok(w, s, pending)
    requires s.uncovered[k].members * trues != {} && s.uncovered[k].members - trues != {}
    ensures Ok(w, Divided(s, k, trues), pending - {k})
  {
    hide ClassOk, Ok, Replaced, Part;
    var c, at := s.uncovered[k], |s.conditions| - 2;
    PendingFacts(w, s, pending, k, trues);
    RoundReplaces(s.uncovered, k, s.ecCounter, trues, at);
    PartOk(w, s, c, trues, true);
    PartOk(w, s, c, trues, false);
    PartShape(c, trues, true, at);
    PartShape(c, trues, false, at);
    var m' := s.uncovered[k := Part(c, trues, false, at)][s.ecCounter := Part(c, trues, true, at)];
    assert m'[k] == Part(c, trues, false, at) && m'[s.ecCounter] == Part(c, trues, true, at);
    RoundOk(w, s, k, m', s.ecCounter + 1, {k, s.ecCounter}, pending);
  }

  lemma RoundKeeps(w: World, s: Classes, pending: set<nat>, k: nat, trues: Examples)
    requires TruesOf(w, s, trues) && k in pending && k in s.uncovered && Ok(w, s, pending)
    requires s.uncovered[k].members * trues == {}
    ensures Ok(w, KeptOn(s, k, trues), pending - {k})
  {
    hide ClassOk, Ok, Replaced, Part;
    var c, at := s.uncovered[k], |s.conditions| - 2;
    PendingFacts(w, s, pending, k, trues);
    RoundReplaces(s.uncovered, k, s.ecCounter, trues, at);
    Disjoint(c.members, trues);
    PartOk(w, s, c, trues, false);
    PartShape(c, trues, false, at);
    var p := Part(c, trues, false, at);
    assert p.(members := c.members) == p;
    RoundOk(w, s, k, s.uncovered[k := p], s.ecCounter, {k}, pending);
    assert s.(uncovered := s.uncovered[k := p], ecCounter := s.ecCounter) == KeptOn(s, k, trues);
  }

  lemma Disjoint(a: Examples, b: Examples)
    requires a * b == {}
    ensures a - b == a
  {
    assert forall i :: i in a && i in b ==> i in a * b;
  }

  method AnyList(table: map<seq<nat>, Exp>) returns (l: seq<nat>)
    requires |table| == 1
    ensures table.Keys == {l}
  {
    var k := SomeList(table);
    l :| l in table;
    assert |table.Keys - {l}| == 0;
  }

  /** The examples the outputs are right on. */
  function CoveredBy(w: World, outputs: seq<Option<int>>): Examples
    requires |w.output| == |outputs|
  {
    set j | j in Range(|outputs|) && outputs[j] == Some(w.output[j])
  }

  /** The entries inside a set of examples. */
  function InsideOf(entries: map<nat, Examples>, c: Examples): set<nat> { set e | e in entries && entries[e] <= c }

  lemma NewIndex(exprs: seq<Exp>, e: Exp)
    requires e !in exprs
    ensures IndexOf(exprs + [e], e) == |exprs|
  {
    forall k | 0 <= k < |exprs| ensures (exprs + [e])[k] != e { assert (exprs + [e])[k] == exprs[k]; }
  }

  /** What a computed expression is right on. */
  lemma CoveredIsWanted(w: World, expr: Exp, outsider: Examples, coveredExample: Examples, outputs: seq<Option<int>>)
    requires w.Ok() && |outputs| == w.n
    requires forall i | 0 <= i < w.n && outputs[i].Some? :: outputs[i].value == w.value(expr, i)
    ensures (forall i | 0 <= i < w.n && Needed(w, expr, outsider, coveredExample, i) :: outputs[i].Some?)
            ==> Wanted(w, expr, outsider, coveredExample) <= CoveredBy(w, outputs)
    ensures (forall i | 0 <= i < w.n && outputs[i].Some? :: Needed(w, expr, outsider, coveredExample, i))
            ==> CoveredBy(w, outputs) <= Wanted(w, expr, outsider, coveredExample)
  {
    hide Needed;
  }

  /** An expression that comes again has its examples in an entry. */
  lemma VerifiedIsHeld(w: World, entries: map<nat, Examples>, exprs: seq<Exp>, outsider: Examples, coveredExample: Examples, expr: Exp, outputs: seq<Option<int>>)
    requires w.Ok() && |outputs| == w.n && Remembered(w, entries, exprs, outsider, coveredExample)
    requires forall i | 0 <= i < w.n && outputs[i].Some? :: outputs[i].value == w.value(expr, i)
    requires expr in exprs ==> forall i | 0 <= i < w.n && outputs[i].Some? :: Needed(w, expr, outsider, coveredExample, i)
    ensures expr in exprs ==> HasEntry(entries, CoveredBy(w, outputs))
  {
    CoveredIsWanted(w, expr, outsider, coveredExample, outputs);
  }

  lemma RememberedReplaced(w: World, entries: map<nat, Examples>, entries': map<nat, Examples>, exprs: seq<Exp>, expr: Exp, outsider: Examples,
                           c: Examples, c': Examples, outputs: seq<Option<int>>)
    requires w.Ok() && |outputs| == w.n && Remembered(w, entries, exprs, outsider, c) && c <= c'
    requires forall d | HasEntry(entries, d) :: HasEntry(entries', d)
    requires HasEntry(entries', CoveredBy(w, outputs))
    requires forall i | 0 <= i < w.n && outputs[i].Some? :: outputs[i].value == w.value(expr, i)
    requires forall i | 0 <= i < w.n && Needed(w, expr, outsider, c, i) :: outputs[i].Some?
    ensures Remembered(w, entries', exprs + [expr], outsider, c')
  {
    hide Needed;
    CoveredIsWanted(w, expr, outsider, c, outputs);
    forall e | e in exprs + [expr] ensures HasEntry(entries', Wanted(w, e, outsider, c)) {
      SmallerEntry(entries', CoveredBy(w, outputs), Wanted(w, expr, outsider, c));
      assert e in exprs || e == expr;
    }
    RememberedLater(w, entries', exprs + [expr], outsider, outsider, c, c');
  }

  lemma SmallerEntry(entries: map<nat, Examples>, c: Examples, d: Examples)
    requires HasEntry(entries, c)
    ensures d <= c ==> HasEntry(entries, d)
  {
  }

  lemma EntriesReplaced(w: World, entries: map<nat, Examples>, exprs: seq<Exp>, removed: set<nat>, expr: Exp, c: Examples, outputs: seq<Option<int>>)
    requires w.Ok() && EntriesOk(w, entries, exprs) && |outputs| == w.n && c == CoveredBy(w, outputs)
    requires forall i | 0 <= i < w.n :: outputs[i].Some? ==> outputs[i].value == w.value(expr, i)
    ensures EntriesOk(w, (entries - removed)[|exprs| := c], exprs + [expr])
  {
  }

  lemma BackedReplaced(entries: map<nat, Examples>, removed: set<nat>, e: nat, c: Examples, classes: seq<Class>, exprs: seq<Exp>, w: World)
    requires EntriesOk(w, entries, exprs) && e == |exprs| && Backed(entries, classes) && forall r | r in removed :: r in entries && entries[r] <= c
    ensures forall d | HasEntry(entries, d) :: HasEntry((entries - removed)[e := c], d)
    ensures Backed((entries - removed)[e := c], classes) && HasEntry((entries - removed)[e := c], c)
  {
    var entries' := (entries - removed)[e := c];
    assert e in entries' && entries'[e] == c;
    forall d | HasEntry(entries, d) ensures HasEntry(entries', d) {
      var x :| x in entries && d <= entries[x];
      if x !in removed { assert x in entries' && entries'[x] == entries[x]; }
    }
  }

  lemma NotAll(w: World, outputs: seq<Option<int>>, c: Examples)
    requires w.Ok() && |outputs| == w.n && c == CoveredBy(w, outputs) && exists i :: 0 <= i < w.n && outputs[i] != Some(w.output[i])
    ensures exists i: nat :: i < w.n && i !in c
  {
    var i :| 0 <= i < w.n && outputs[i] != Some(w.output[i]);
    assert i !in c;
  }

  lemma ListsDiffer(w: World, s: Classes, k: nat)
    requires Ok(w, s, {}) && k < |s.covered|
    ensures forall j | 0 <= j < |s.covered| && j != k :: s.covered[j].conds != s.covered[k].conds
  {
    hide ClassOk, ConditionsOk, Exhaustive, MakesUp;
    forall j | 0 <= j < |s.covered| && j != k ensures s.covered[j].conds != s.covered[k].conds {
      if j < k { assert Differ(s.covered[j].conds, s.covered[k].conds); } else { assert Differ(s.covered[k].conds, s.covered[j].conds); }
    }
  }

  /** Which class a list describes. */
  ghost function MembersOf(classes: seq<Class>): map<seq<nat>, Examples> {
    map l | l in (set k | 0 <= k < |classes| :: classes[k].conds) :: ClassOf(classes, l)
  }

  ghost function ClassOf(classes: seq<Class>, l: seq<nat>): Examples {
    if classes == [] then {} else if classes[0].conds == l then classes[0].members else ClassOf(classes[1..], l)
  }

  lemma {:induction false} ClassOfIs(classes: seq<Class>, k: nat)
    requires k < |classes| && forall j | 0 <= j < |classes| && j != k :: classes[j].conds != classes[k].conds
    ensures ClassOf(classes, classes[k].conds) == classes[k].members
  {
    if k > 0 {
      assert classes[0].conds != classes[k].conds;
      ClassOfIs(classes[1..], k - 1);
    }
  }

  /** The covered classes, with their expressions, make a table. */
  lemma ClassesMakeTable(w: World, s: Classes, table: map<seq<nat>, Exp>, members: map<seq<nat>, Examples>)
    requires Ok(w, s, {}) && members == MembersOf(s.covered)
    requires table.Keys == set k | 0 <= k < |s.covered| :: s.covered[k].conds
    requires forall k, i | 0 <= k < |s.covered| && i in s.covered[k].members :: w.Right(table[s.covered[k].conds], i)
    ensures TableOk(w, s.conditions, table, members)
    ensures forall k | 0 <= k < |s.covered| :: members[s.covered[k].conds] == s.covered[k].members
  {
    hide Described, Differ, Ok;
    forall k | 0 <= k < |s.covered| ensures members[s.covered[k].conds] == s.covered[k].members {
      ListsDiffer(w, s, k);
      ClassOfIs(s.covered, k);
    }
    forall l | l in table ensures Described(w, s.conditions, members[l], l) && forall i | i in members[l] :: w.Right(table[l], i) {
      var k :| 0 <= k < |s.covered| && s.covered[k].conds == l;
      CoveredDescribed(w, s, k);
    }
    forall l, m | l in table && m in table && l != m ensures Differ(l, m) {
      var j :| 0 <= j < |s.covered| && s.covered[j].conds == l;
      var k :| 0 <= k < |s.covered| && s.covered[k].conds == m;
      CoveredDiffer(w, s, j, k);
    }
  }

  lemma CoveredDescribed(w: World, s: Classes, k: nat)
    requires Ok(w, s, {}) && k < |s.covered|
    ensures Described(w, s.conditions, s.covered[k].members, s.covered[k].conds)
  {
  }

  lemma CoveredDiffer(w: World, s: Classes, j: nat, k: nat)
    requires Ok(w, s, {}) && j < |s.covered| && k < |s.covered| && j != k
    ensures Differ(s.covered[j].conds, s.covered[k].conds)
  {
    hide Differ, ClassOk;
    if j > k { DifferSwap(s.covered[k].conds, s.covered[j].conds); }
  }

  lemma SelectedTable(w: World, conditions: seq<Exp>, table: map<seq<nat>, Exp>, members: map<seq<nat>, Examples>, index: nat)
    requires TableOk(w, conditions, table, members)
    ensures TableOk(w, conditions, SelectConds(index, table), members)
  {
    hide Described, Differ;
  }

  /** All classes have a list that begins with the first condition, on either side. */
  lemma FirstSelections(w: World, s: Classes, entries: map<nat, Examples>, table: map<seq<nat>, Exp>, members: map<seq<nat>, Examples>)
    requires Ok(w, s, {}) && s.outsider == {} && w.n > 0 && TableOk(w, s.conditions, table, members) && FirstSplits(w, s.conditions, s.covered)
    requires Backed(entries, s.covered) && NoDirect(w, entries)
    requires table.Keys == set k | 0 <= k < |s.covered| :: s.covered[k].conds
    requires forall k | 0 <= k < |s.covered| :: members[s.covered[k].conds] == s.covered[k].members
    ensures |s.conditions| >= 2 && forall l | l in table :: l != []
    ensures BeginAlike(SelectConds(0, table), 1) && BeginAlike(SelectConds(1, table), 1)
    ensures SelectConds(0, table) != map[] && SelectConds(1, table) != map[]
  {
    hide Ok, Differ, Described, Exhaustive;
    HasConditions(w, s, entries);
    forall l | l in table ensures l != [] {
      var k :| 0 <= k < |s.covered| && s.covered[k].conds == l;
    }
    forall l | l in table ensures (0 in l <==> l[0] == 0) && (1 in l <==> l[0] == 1) && (l[0] == 0 || l[0] == 1) {
      EntryAt(w, s.conditions, members[l], l, 0);
    }
    forall l, m | l in table && m in table && l[0] == m[0] ensures l[..1] == m[..1] { assert l[..1] == [l[0]] && m[..1] == [m[0]]; }
    var i: nat :| i < w.n && w.truth(s.conditions[0], i);
    var j: nat :| j < w.n && !w.truth(s.conditions[0], j);
    var k := CoveringClass(w, s, i);
    var m := CoveringClass(w, s, j);
    FirstEntry(w, s.conditions, members[s.covered[k].conds], s.covered[k].conds, i);
    FirstEntry(w, s.conditions, members[s.covered[m].conds], s.covered[m].conds, j);
    assert s.covered[k].conds in SelectConds(0, table) && s.covered[m].conds in SelectConds(1, table);
  }

  lemma FirstEntry(w: World, conditions: seq<Exp>, c: Examples, l: seq<nat>, i: nat)
    requires Described(w, conditions, c, l) && i in c && l != [] && conditions != []
    ensures l[0] == if w.truth(conditions[0], i) then 0 else 1
  {
    assert l[0] / 2 == 0 && conditions[2 * 0] == conditions[0];
  }

  lemma CoveringClass(w: World, s: Classes, i: nat) returns (k: nat)
    requires Ok(w, s, {}) && s.outsider == {} && i < w.n
    ensures k < |s.covered| && i in s.covered[k].members
  {
    assert i !in s.outsider;
    k :| 0 <= k < |s.covered| && i in s.covered[k].members;
  }

  /** Without any condition one class would hold all examples, and one expression would cover it. */
  lemma HasConditions(w: World, s: Classes, entries: map<nat, Examples>)
    requires Ok(w, s, {}) && s.outsider == {} && w.n > 0 && Backed(entries, s.covered) && NoDirect(w, entries)
    ensures |s.conditions| >= 2
  {
    hide Ok, Differ;
    if s.conditions == [] {
      OneClass(w, s);
      var k := CoveringClass(w, s, 0);
      assert HasEntry(entries, s.covered[k].members);
      var e :| e in entries && s.covered[k].members <= entries[e];
      var i: nat :| i < w.n && i !in entries[e];
      var m := CoveringClass(w, s, i);
      assert false;
    }
    EvenConditions(w, s);
  }

  lemma EvenConditions(w: World, s: Classes)
    requires Ok(w, s, {})
    ensures |s.conditions| % 2 == 0
  {
  }

  lemma LeafRight(w: World, conditions: seq<Exp>, table: map<seq<nat>, Exp>, members: map<seq<nat>, Examples>, l: seq<nat>)
    requires TableOk(w, conditions, table, members) && table.Keys == {l}
    ensures RightOn(w, Leaf(table[l]), table, members)
  {
    hide Described, Differ;
    forall m | m in table ensures m == l { assert m in table.Keys; }
  }

  /** What is right on each selection is right, under the condition, on all. */
  lemma SidesRight(w: World, conditions: seq<Exp>, table: map<seq<nat>, Exp>, members: map<seq<nat>, Examples>, p: nat, t: Option<Prog>, f: Option<Prog>)
    requires TableOk(w, conditions, table, members) && 2 * p + 1 < |conditions|
    requires forall l | l in table :: p < |l|
    requires t.None? <==> SelectConds(2 * p, table) == map[]
    requires f.None? <==> SelectConds(2 * p + 1, table) == map[]
    requires t.Some? ==> RightOn(w, t.value, SelectConds(2 * p, table), members)
    requires f.Some? ==> RightOn(w, f.value, SelectConds(2 * p + 1, table), members)
    ensures t.None? && f.Some? ==> RightOn(w, f.value, table, members)
    ensures t.Some? && f.None? ==> RightOn(w, t.value, table, members)
    ensures t.Some? && t == f ==> RightOn(w, t.value, table, members)
    ensures t.Some? && f.Some? ==> RightOn(w, Ite(conditions[2 * p], t.value, f.value), table, members)
  {
    hide Described, Differ, SelectConds, RightOn, Run, TableOk;
    var trues, falses := SelectConds(2 * p, table), SelectConds(2 * p + 1, table);
    if t.Some? && f.Some? { BothRight(w, conditions, table, members, p, t.value, f.value); }
    if t.Some? && (f.None? || t == f) { OneRight(w, conditions, table, members, p, t.value); }
    if f.Some? && t.None? { OneRight(w, conditions, table, members, p, f.value); }
  }

  /** An example stands in the selection for its side of the condition. */
  lemma SideOf(w: World, conditions: seq<Exp>, table: map<seq<nat>, Exp>, members: map<seq<nat>, Examples>, p: nat, l: seq<nat>, i: nat)
    requires TableOk(w, conditions, table, members) && 2 * p + 1 < |conditions| && l in table && p < |l| && i in members[l]
    ensures l in SelectConds(if w.truth(conditions[2 * p], i) then 2 * p else 2 * p + 1, table)
  {
    hide Differ;
    EntryAt(w, conditions, members[l], l, p);
    EntryTruth(w, conditions, members[l], l, p, i);
  }

  lemma BothRight(w: World, conditions: seq<Exp>, table: map<seq<nat>, Exp>, members: map<seq<nat>, Examples>, p: nat, t: Prog, f: Prog)
    requires TableOk(w, conditions, table, members) && 2 * p + 1 < |conditions| && forall l | l in table :: p < |l|
    requires RightOn(w, t, SelectConds(2 * p, table), members) && RightOn(w, f, SelectConds(2 * p + 1, table), members)
    ensures RightOn(w, Ite(conditions[2 * p], t, f), table, members)
  {
    hide Described, Differ, SelectConds;
    forall l, i | l in table && l in members && i in members[l]
      ensures i < |w.output| && Run(w, Ite(conditions[2 * p], t, f), i) == w.output[i]
    {
      SideOf(w, conditions, table, members, p, l, i);
    }
  }

  /** If the other selection is empty, or made the same result, the result is right on all. */
  lemma OneRight(w: World, conditions: seq<Exp>, table: map<seq<nat>, Exp>, members: map<seq<nat>, Examples>, p: nat, t: Prog)
    requires TableOk(w, conditions, table, members) && 2 * p + 1 < |conditions| && forall l | l in table :: p < |l|
    requires SelectConds(2 * p, table) == map[] || RightOn(w, t, SelectConds(2 * p, table), members)
    requires SelectConds(2 * p + 1, table) == map[] || RightOn(w, t, SelectConds(2 * p + 1, table), members)
    ensures RightOn(w, t, table, members)
  {
    hide Described, Differ, SelectConds;
    forall l, i | l in table && l in members && i in members[l] ensures i < |w.output| && Run(w, t, i) == w.output[i] {
      SideOf(w, conditions, table, members, p, l, i);
    }
  }

  lemma EntryTruth(w: World, conditions: seq<Exp>, c: Examples, l: seq<nat>, p: nat, i: nat)
    requires Described(w, conditions, c, l) && p < |l| && i in c
    ensures w.truth(conditions[2 * p], i) <==> l[p] % 2 == 0
  {
  }

  lemma AllInTable(w: World, s: Classes, table: map<seq<nat>, Exp>, members: map<seq<nat>, Examples>, prog: Prog)
    requires Ok(w, s, {}) && s.outsider == {} && TableOk(w, s.conditions, table, members) && RightOn(w, prog, table, members) && w.Ok()
    requires table.Keys == set k | 0 <= k < |s.covered| :: s.covered[k].conds
    requires forall k | 0 <= k < |s.covered| :: members[s.covered[k].conds] == s.covered[k].members
    ensures forall i: nat | i < w.n :: Run(w, prog, i) == w.output[i]
  {
    hide Ok, Run, Described, Differ;
    forall i: nat | i < w.n ensures Run(w, prog, i) == w.output[i] {
      var k := CoveringClass(w, s, i);
      assert s.covered[k].conds in table;
    }
  }
}