/**
 * Python list objects as the two Python engines share them. A list reference
 * is an index into a store of list contents: `list.remove` writes the
 * contents of one entry, `list + [..]` appends a new entry, and a rule that
 * passes a list through hands on the same index. All frames of the recursive
 * search see a removal made through any reference to that entry.
 */
module ListHeap {
  import opened Formulas
  import opened Rules

  type Store = seq<seq<Formula>>

  /** Which side of the sequent a scan walks over. */
  datatype Side = Left | Right

  function Own(side: Side, l: nat, r: nat): nat
  {
    if side == Left then l else r
  }

  function Other(side: Side, l: nat, r: nat): nat
  {
    if side == Left then r else l
  }

  /** Both sides of the current sequent are distinct, allocated lists. */
  predicate Refs(s: Store, l: nat, r: nat)
  {
    l < |s| && r < |s| && l != r
  }

  /** The termination measure: the total size of the current frame's formulas. */
  function Measure(s: Store, l: nat, r: nat): nat
    requires l < |s| && r < |s|
  {
    SizeOf(s[l]) + SizeOf(s[r])
  }

  /** `xs.remove(x)` where `x` is first matched at index `i`. */
  function RemoveAt(xs: seq<Formula>, i: nat): (ys: seq<Formula>)
    requires i < |xs|
    ensures |ys| == |xs| - 1
    ensures SizeOf(ys) + Size(xs[i]) == SizeOf(xs)
    ensures forall x :: x in ys ==> x in xs
    ensures forall x :: x in xs ==> x in ys || x == xs[i]
    ensures multiset(ys) + multiset{xs[i]} == multiset(xs)
  {
    SizeOfRemove(xs, i);
    assert xs == xs[..i] + [xs[i]] + xs[i + 1..];
    xs[..i] + xs[i + 1..]
  }

  /** A list that has only lost elements since it was `was`. */
  ghost predicate ShrunkList(now: seq<Formula>, was: seq<Formula>)
  {
    SizeOf(now) <= SizeOf(was) && forall x :: x in now ==> x in was
  }

  /** Every list of `was` has only shrunk in `now`; `now` may hold new lists. */
  ghost predicate Shrunk(was: Store, now: Store)
  {
    |was| <= |now| && forall k :: 0 <= k < |was| ==> ShrunkList(now[k], was[k])
  }

  lemma ShrunkTrans(a: Store, b: Store, c: Store)
    requires Shrunk(a, b) && Shrunk(b, c)
    ensures Shrunk(a, c)
  {
  }

  lemma ShrunkByGrowth(a: Store, b: Store)
    requires |a| <= |b| && b[..|a|] == a
    ensures Shrunk(a, b)
  {
  }

  /** A store that only grew keeps its old lists. */
  lemma GrowthKeeps(a: Store, b: Store, k: nat)
    requires |a| <= |b| && b[..|a|] == a && k < |a|
    ensures b[k] == a[k]
  {
  }

  lemma ShrunkByRemoval(a: Store, k: nat, i: nat)
    requires k < |a| && i < |a[k]|
    ensures Shrunk(a, a[k := RemoveAt(a[k], i)])
  {
  }

  lemma ShrunkRefl(a: Store)
    ensures Shrunk(a, a)
  {
  }

  /** One side of a premise: the same list, or a new list appended to the store. */
  function InstallSide(s: Store, ref: nat, p: Part): (res: (Store, nat))
    requires ref < |s|
    ensures |s| <= |res.0| && res.0[..|s|] == s && res.1 < |res.0|
    ensures res.0[res.1] == Apply(p, s[ref])
    ensures SizeOf(res.0[res.1]) == SizeOf(s[ref]) + ExtraSize(p)
    ensures p.Keep? ==> res == (s, ref)
    ensures p.Extend? ==> res.1 == |s| && |res.0| == |s| + 1
  {
    match p
    case Keep => (s, ref)
    case Extend(e) =>
      SizeOfAppend(s[ref], e);
      (s + [s[ref] + e], |s|)
  }

  /** Builds premise `p` from the lists `l` and `r`, left side first, as Python
      evaluates `(left + [..], right + [..])`. */
  function Install(s: Store, l: nat, r: nat, p: Premise): (res: (Store, nat, nat))
    requires Refs(s, l, r)
    ensures |s| <= |res.0| && res.0[..|s|] == s
    ensures Refs(res.0, res.1, res.2)
    ensures res.0[res.1] == Apply(p.left, s[l]) && res.0[res.2] == Apply(p.right, s[r])
    ensures Measure(res.0, res.1, res.2) == Measure(s, l, r) + ExtraSize(p.left) + ExtraSize(p.right)
  {
    var (s1, l1) := InstallSide(s, l, p.left);
    GrowthKeeps(s, s1, r);
    var (s2, r1) := InstallSide(s1, r, p.right);
    GrowthKeeps(s1, s2, l1);
    assert s2[..|s|] == s2[..|s1|][..|s|];
    (s2, l1, r1)
  }

  /** The store after one expansion step, and where the premises are. */
  datatype Expansion = Expansion(rule: seq<Premise>, store: Store, l: nat, r: nat, bl: nat, br: nat)

  /** The store after `side.remove(e)` of the formula at index `i`. */
  function Removed(side: Side, s: Store, l: nat, r: nat, i: nat): (st: Store)
    requires Refs(s, l, r) && i < |s[Own(side, l, r)]|
    ensures Shrunk(s, st) && |st| == |s|
    ensures Measure(st, l, r) + Size(s[Own(side, l, r)][i]) == Measure(s, l, r)
  {
    var k := Own(side, l, r);
    ShrunkByRemoval(s, k, i);
    s[k := RemoveAt(s[k], i)]
  }

  function RuleOn(side: Side, e: Formula): (ps: seq<Premise>)
    requires !e.Prop?
    ensures Shrinks(e, ps)
  {
    if side == Left then LeftRule(e) else RightRule(e)
  }

  /** `side.remove(e)`, then the rule for `e` builds its premises: the first
      at `(l, r)` and, for a two-premise rule, the second at `(bl, br)`. */
  function Expand(side: Side, s: Store, l: nat, r: nat, i: nat): (x: Expansion)
    requires Refs(s, l, r) && i < |s[Own(side, l, r)]| && !s[Own(side, l, r)][i].Prop?
    ensures x.rule == RuleOn(side, s[Own(side, l, r)][i])
    ensures Shrunk(s, x.store) && Refs(x.store, x.l, x.r) && Refs(x.store, x.bl, x.br)
    ensures Measure(x.store, x.l, x.r) < Measure(s, l, r) && Measure(x.store, x.bl, x.br) < Measure(s, l, r)
    ensures x.store[x.l] == Apply(x.rule[0].left, Removed(side, s, l, r, i)[l])
    ensures x.store[x.r] == Apply(x.rule[0].right, Removed(side, s, l, r, i)[r])
    ensures |x.rule| == 2 ==> x.store[x.bl] == Apply(x.rule[1].left, Removed(side, s, l, r, i)[l])
    ensures |x.rule| == 2 ==> x.store[x.br] == Apply(x.rule[1].right, Removed(side, s, l, r, i)[r])
  {
    var e := s[Own(side, l, r)][i];
    var st := Removed(side, s, l, r, i);
    var ps := RuleOn(side, e);
    var (st1, l1, r1) := Install(st, l, r, ps[0]);
    ShrunkByGrowth(st, st1);
    ShrunkTrans(s, st, st1);
    if |ps| == 1 then
      Expansion(ps, st1, l1, r1, l1, r1)
    else
      var (st2, l2, r2) := Install(st1, l, r, ps[1]);
      GrowthKeeps(st, st1, l);
      GrowthKeeps(st, st1, r);
      GrowthKeeps(st1, st2, l);
      GrowthKeeps(st1, st2, r);
      GrowthKeeps(st1, st2, l1);
      GrowthKeeps(st1, st2, r1);
      ShrunkByGrowth(st1, st2);
      ShrunkTrans(s, st1, st2);
      Expansion(ps, st2, l1, r1, l2, r2)
  }

  /** `Expand` step by step, as a method performs it. */
  lemma ExpandUnfold(side: Side, s: Store, l: nat, r: nat, i: nat)
    requires Refs(s, l, r) && i < |s[Own(side, l, r)]| && !s[Own(side, l, r)][i].Prop?
    ensures var x := Expand(side, s, l, r, i);
      var st := s[Own(side, l, r) := RemoveAt(s[Own(side, l, r)], i)];
      var first := Install(st, l, r, x.rule[0]);
      && st == Removed(side, s, l, r, i)
      && x.l == first.1 && x.r == first.2
      && (|x.rule| == 1 ==> x.store == first.0 && x.bl == first.1 && x.br == first.2)
      && (|x.rule| == 2 ==> Refs(first.0, l, r) && x.store == Install(first.0, l, r, x.rule[1]).0 &&
                            x.bl == Install(first.0, l, r, x.rule[1]).1 && x.br == Install(first.0, l, r, x.rule[1]).2)
  {
  }

  /** One expansion step is sound: valid premises make the sequent before the
      removal valid. */
  lemma ExpandStepSound(side: Side, s: Store, l: nat, r: nat, i: nat)
    requires Refs(s, l, r) && i < |s[Own(side, l, r)]| && !s[Own(side, l, r)][i].Prop?
    requires var x := Expand(side, s, l, r, i);
      Valid(x.store[x.l], x.store[x.r]) && (|x.rule| == 2 ==> Valid(x.store[x.bl], x.store[x.br]))
    ensures Valid(s[l], s[r])
  {
    var x := Expand(side, s, l, r, i);
    var st := Removed(side, s, l, r, i);
    AllValidPremises(x.rule, st[l], st[r]);
    RemovalSound(side, s, l, r, i);
  }

  /** The rule is invertible and the removal took out only the expanded
      formula, so valid premises give back the sequent before the removal. */
  lemma RemovalSound(side: Side, s: Store, l: nat, r: nat, i: nat)
    requires Refs(s, l, r) && i < |s[Own(side, l, r)]| && !s[Own(side, l, r)][i].Prop?
    requires var st := Removed(side, s, l, r, i);
      AllValid(RuleOn(side, s[Own(side, l, r)][i]), st[l], st[r])
    ensures Valid(s[l], s[r])
  {
    var e := s[Own(side, l, r)][i];
    var st := Removed(side, s, l, r, i);
    if side == Left {
      assert st[l] == RemoveAt(s[l], i) && st[r] == s[r];
      LeftRuleInvertible(e, st[l], st[r]);
      assert forall y :: y in s[l] ==> y in st[l] + [e];
      Weaken(st[l] + [e], st[r], s[l], s[r]);
    } else {
      assert st[r] == RemoveAt(s[r], i) && st[l] == s[l];
      RightRuleInvertible(e, st[l], st[r]);
      assert forall y :: y in s[r] ==> y in st[r] + [e];
      Weaken(st[l], st[r] + [e], s[l], s[r]);
    }
  }

  lemma ShrunkMeasure(a: Store, b: Store, l: nat, r: nat)
    requires Shrunk(a, b) && l < |a| && r < |a|
    ensures Measure(b, l, r) <= Measure(a, l, r)
  {
  }
}
