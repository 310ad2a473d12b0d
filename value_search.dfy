/**
 * A corrected search on list VALUES, shaped like `call_func` of
 * RS_Tautology.py: each frame of the recursion owns its two sides, so a
 * removal in one frame is not seen by any other; formulas are compared by
 * structural equality, which never raises; a pass over a side stops at the
 * first formula that occurs on the other side (the sequent is closed) or at
 * the first compound formula (it is expanded); and the search gives up only
 * when neither pass expanded anything. `CorrectedCall` is `_call_func` with
 * these corrections. `CorrectedEvaluate` gives the verdict the top-level
 * `evaluate` of tautology_checker.py evidently means to give; it does not
 * follow that loop's own shape, which goes on scanning past a closed
 * sequent and then expands the next compound formula.
 */
module ValueSearch {
  import opened Wrappers
  import opened Formulas
  import opened Rules
  import opened ListHeap
  import RsTautology

  function Weight(left: seq<Formula>, right: seq<Formula>): nat
  {
    SizeOf(left) + SizeOf(right)
  }

  /** The index at which the `for` loop over `own` from `i` stops: the first
      formula that is on the other side or is compound, or the end. */
  function First(own: seq<Formula>, other: seq<Formula>, i: nat): (j: nat)
    requires i <= |own|
    ensures i <= j <= |own|
    ensures forall k :: i <= k < j ==> own[k].Prop? && own[k] !in other
    ensures j < |own| ==> own[j] in other || !own[j].Prop?
    decreases |own| - i
  {
    if i == |own| || own[i] in other || !own[i].Prop? then i else First(own, other, i + 1)
  }

  lemma ApplySize(p: Part, xs: seq<Formula>)
    ensures SizeOf(Apply(p, xs)) == SizeOf(xs) + ExtraSize(p)
  {
    if p.Extend? {
      SizeOfAppend(xs, p.extra);
    }
  }

  /** The sides after `own.remove(e)` for the formula at index `j`. */
  function RemovedSides(side: Side, left: seq<Formula>, right: seq<Formula>, j: nat): (res: (seq<Formula>, seq<Formula>))
    requires j < |if side == Left then left else right|
    ensures Weight(res.0, res.1) + Size((if side == Left then left else right)[j]) == Weight(left, right)
  {
    if side == Left then (RemoveAt(left, j), right) else (left, RemoveAt(right, j))
  }

  /** Every premise of the rule for the removed formula is lighter than the
      sequent it came from. */
  lemma PremiseWeight(side: Side, left: seq<Formula>, right: seq<Formula>, j: nat, k: nat)
    requires j < |if side == Left then left else right|
    requires !(if side == Left then left else right)[j].Prop?
    requires k < |RuleOn(side, (if side == Left then left else right)[j])|
    ensures var (l0, r0) := RemovedSides(side, left, right, j);
      var p := RuleOn(side, (if side == Left then left else right)[j])[k];
      Weight(Apply(p.left, l0), Apply(p.right, r0)) < Weight(left, right)
  {
    var (l0, r0) := RemovedSides(side, left, right, j);
    var p := RuleOn(side, (if side == Left then left else right)[j])[k];
    ApplySize(p.left, l0);
    ApplySize(p.right, r0);
  }

  /** The end of one pass: closed with a verdict, or the sides the loop goes
      on with and whether the pass expanded a formula. */
  datatype VPass = Done(valid: bool) | Cont(left: seq<Formula>, right: seq<Formula>, expanded: bool)

  /** One pass over `side`: close on a formula shared with the other side,
      or expand the first compound formula, searching its second premise at
      once and handing on the first. */
  function PassV(side: Side, left: seq<Formula>, right: seq<Formula>): (p: VPass)
    ensures p.Cont? && p.expanded ==> Weight(p.left, p.right) < Weight(left, right)
    ensures p.Cont? && !p.expanded ==> p.left == left && p.right == right
    decreases Weight(left, right), 0
  {
    var own := if side == Left then left else right;
    var other := if side == Left then right else left;
    var j := First(own, other, 0);
    if j == |own| then Cont(left, right, false)
    else if own[j] in other then Done(true)
    else
      var (l0, r0) := RemovedSides(side, left, right, j);
      var ps := RuleOn(side, own[j]);
      PremiseWeight(side, left, right, j, 0);
      if |ps| == 2 then
        PremiseWeight(side, left, right, j, 1);
        if !Search(Apply(ps[1].left, l0), Apply(ps[1].right, r0)) then Done(false)
        else Cont(Apply(ps[0].left, l0), Apply(ps[0].right, r0), true)
      else Cont(Apply(ps[0].left, l0), Apply(ps[0].right, r0), true)
  }

  /** The loop of the search: a pass over the antecedents, a pass over the
      consequents, and failure when neither expanded. */
  function Search(left: seq<Formula>, right: seq<Formula>): bool
    decreases Weight(left, right), 1
  {
    match PassV(Left, left, right)
    case Done(b) => b
    case Cont(l1, r1, ex1) =>
      match PassV(Right, l1, r1)
      case Done(b) => b
      case Cont(l2, r2, ex2) => if !ex1 && !ex2 then false else Search(l2, r2)
  }

  /** Removing a compound formula and applying its rule keeps validity, both
      ways: the rules are invertible. */
  lemma ExpansionValid(side: Side, left: seq<Formula>, right: seq<Formula>, j: nat)
    requires j < |if side == Left then left else right|
    requires !(if side == Left then left else right)[j].Prop?
    ensures var (l0, r0) := RemovedSides(side, left, right, j);
      Valid(left, right) <==> AllValid(RuleOn(side, (if side == Left then left else right)[j]), l0, r0)
  {
    var (l0, r0) := RemovedSides(side, left, right, j);
    if side == Left {
      var e := left[j];
      LeftRuleInvertible(e, l0, r0);
      assert forall x :: x in left <==> x in l0 + [e];
      if Valid(left, right) {
        Weaken(left, right, l0 + [e], right);
      }
      if Valid(l0 + [e], right) {
        Weaken(l0 + [e], right, left, right);
      }
    } else {
      var e := right[j];
      RightRuleInvertible(e, l0, r0);
      assert forall x :: x in right <==> x in r0 + [e];
      if Valid(left, right) {
        Weaken(left, right, left, r0 + [e]);
      }
      if Valid(left, r0 + [e]) {
        Weaken(left, r0 + [e], left, right);
      }
    }
  }

  /** A sequent of atoms that share nothing is falsified by making exactly the
      antecedents true. */
  lemma AtomsInvalid(left: seq<Formula>, right: seq<Formula>)
    requires forall x :: x in left ==> x.Prop? && x !in right
    requires forall x :: x in right ==> x.Prop?
    ensures !Valid(left, right)
  {
    var v: Valuation := n => Prop(n) in left;
    assert AllTrue(left, v);
    forall g | g in right ensures !Eval(g, v) {
      assert g == Prop(g.name);
    }
    assert !Holds(left, right, v);
  }

  /** What a pass that expands says: its verdict or the sequent it hands on
      is as valid as the sequent it started from. */
  lemma {:induction false} ExpandPassValid(side: Side, left: seq<Formula>, right: seq<Formula>, j: nat)
    requires j < |if side == Left then left else right|
    requires !(if side == Left then left else right)[j].Prop?
    ensures var (l0, r0) := RemovedSides(side, left, right, j);
      var ps := RuleOn(side, (if side == Left then left else right)[j]);
      && ((Valid(Apply(ps[0].left, l0), Apply(ps[0].right, r0)) && (|ps| == 2 ==> Valid(Apply(ps[1].left, l0), Apply(ps[1].right, r0))))
            <==> Valid(left, right))
      && (|ps| == 2 ==> (Search(Apply(ps[1].left, l0), Apply(ps[1].right, r0)) <==> Valid(Apply(ps[1].left, l0), Apply(ps[1].right, r0))))
    decreases Weight(left, right), 0, 0
  {
    var (l0, r0) := RemovedSides(side, left, right, j);
    var ps := RuleOn(side, (if side == Left then left else right)[j]);
    ExpansionValid(side, left, right, j);
    AllValidPremises(ps, l0, r0);
    if |ps| == 2 {
      PremiseWeight(side, left, right, j, 1);
      SearchValid(Apply(ps[1].left, l0), Apply(ps[1].right, r0));
    }
  }

  lemma {:induction false} PassValid(side: Side, left: seq<Formula>, right: seq<Formula>)
    ensures var p := PassV(side, left, right);
      && (p.Done? ==> (p.valid <==> Valid(left, right)))
      && (p.Cont? && p.expanded ==> (Valid(p.left, p.right) <==> Valid(left, right)))
      && (p.Cont? && !p.expanded ==>
            forall x :: x in (if side == Left then left else right) ==> x.Prop? && x !in (if side == Left then right else left))
    decreases Weight(left, right), 0, 1
  {
    var own := if side == Left then left else right;
    var other := if side == Left then right else left;
    var j := First(own, other, 0);
    if j == |own| {
      forall x | x in own ensures x.Prop? && x !in other {
        var k :| 0 <= k < |own| && own[k] == x;
      }
    } else if own[j] in other {
      Axiom(left, right, own[j]);
    } else {
      ExpandPassValid(side, left, right, j);
      var (l0, r0) := RemovedSides(side, left, right, j);
      var ps := RuleOn(side, own[j]);
      assert PassV(side, left, right) ==
        if |ps| == 2 && !Search(Apply(ps[1].left, l0), Apply(ps[1].right, r0)) then Done(false)
        else Cont(Apply(ps[0].left, l0), Apply(ps[0].right, r0), true);
    }
  }

  /** The corrected search decides validity of the sequent. */
  lemma {:induction false} SearchValid(left: seq<Formula>, right: seq<Formula>)
    ensures Search(left, right) <==> Valid(left, right)
    decreases Weight(left, right), 1, 0
  {
    PassValid(Left, left, right);
    var p1 := PassV(Left, left, right);
    if p1.Cont? {
      PassValid(Right, p1.left, p1.right);
      var p2 := PassV(Right, p1.left, p1.right);
      if p2.Cont? {
        if !p1.expanded && !p2.expanded {
          AtomsInvalid(left, right);
        } else {
          SearchValid(p2.left, p2.right);
        }
      }
    }
  }

  /** `evaluate([], [f])` of tautology_checker.py with the three defects
      corrected: truthy exactly for tautologies. */
  function CorrectedEvaluate(f: Formula): (b: bool)
    ensures b <==> Tautology(f)
  {
    SearchValid([], [f]);
    InitialSequent(f);
    Search([], [f])
  }

  /** `call_func([], [f])` of RS_Tautology.py on list values: `None` exactly
      for tautologies, the message otherwise. */
  function CorrectedCall(f: Formula): (r: Option<string>)
    ensures r.None? <==> Tautology(f)
    ensures r.Some? ==> r.value == RsTautology.NotTautology
  {
    SearchValid([], [f]);
    InitialSequent(f);
    if Search([], [f]) then None else Some(RsTautology.NotTautology)
  }
}
