/**
 * The decomposition rules of both Python engines (`_left_side`/`_right_side`
 * in tautology_checker.py, `_tleft`/`_tright` in RS_Tautology.py). A rule
 * returns one or two premises. Each side of a premise is either the very list
 * object the rule was handed (`Keep`, Python passes the list through), or a
 * new list made by `list + [..]` (`Extend`), so sharing is part of the table.
 */
module Rules {
  import opened Formulas

  datatype Part = Keep | Extend(extra: seq<Formula>)

  datatype Premise = Premise(left: Part, right: Part)

  /** The contents a premise side has when the rule builds it from `xs`. */
  function Apply(p: Part, xs: seq<Formula>): seq<Formula>
  {
    match p
    case Keep => xs
    case Extend(e) => xs + e
  }

  function ExtraSize(p: Part): nat
  {
    match p
    case Keep => 0
    case Extend(e) => SizeOf(e)
  }

  /** The new formulas of a premise are smaller than the formula expanded, and
      at least one side is a fresh list, so the two sides of a premise are never
      the same list object. */
  ghost predicate Shrinks(f: Formula, ps: seq<Premise>)
  {
    && 1 <= |ps| <= 2
    && forall i :: 0 <= i < |ps| ==>
         ExtraSize(ps[i].left) + ExtraSize(ps[i].right) < Size(f) && !(ps[i].left.Keep? && ps[i].right.Keep?)
  }

  lemma SmallSizes(a: Formula, b: Formula)
    ensures SizeOf([a]) == Size(a) && SizeOf([a, b]) == Size(a) + Size(b)
  {
    assert [a][1..] == [] && [a, b][1..] == [b] && [b][1..] == [];
  }

  /** Expanding `f` when it was taken from the antecedent. */
  function LeftRule(f: Formula): (ps: seq<Premise>)
    requires !f.Prop?
    ensures Shrinks(f, ps)
  {
    match f
    case And(a, b) => SmallSizes(a, b); SmallSizes(b, a); [Premise(Extend([a, b]), Keep)]
    case Or(a, b) => SmallSizes(a, b); SmallSizes(b, a); [Premise(Extend([a]), Keep), Premise(Extend([b]), Keep)]
    case Implies(a, b) => SmallSizes(a, b); SmallSizes(b, a); [Premise(Extend([b]), Keep), Premise(Keep, Extend([a]))]
    case Iff(a, b) => SmallSizes(a, b); SmallSizes(b, a); [Premise(Extend([a, b]), Keep), Premise(Keep, Extend([a, b]))]
    case Not(a) => SmallSizes(a, a); [Premise(Keep, Extend([a]))]
  }

  /** Expanding `f` when it was taken from the consequent. */
  function RightRule(f: Formula): (ps: seq<Premise>)
    requires !f.Prop?
    ensures Shrinks(f, ps)
  {
    match f
    case And(a, b) => SmallSizes(a, b); SmallSizes(b, a); [Premise(Keep, Extend([a])), Premise(Keep, Extend([b]))]
    case Or(a, b) => SmallSizes(a, b); SmallSizes(b, a); [Premise(Keep, Extend([a, b]))]
    case Implies(a, b) => SmallSizes(a, b); SmallSizes(b, a); [Premise(Extend([a]), Extend([b]))]
    case Iff(a, b) => SmallSizes(a, b); SmallSizes(b, a); [Premise(Extend([a]), Extend([b])), Premise(Extend([b]), Extend([a]))]
    case Not(a) => SmallSizes(a, a); [Premise(Extend([a]), Keep)]
  }

  /** All premises of `ps`, built from `left` and `right`, are valid. */
  ghost predicate AllValid(ps: seq<Premise>, left: seq<Formula>, right: seq<Formula>)
  {
    forall i :: 0 <= i < |ps| ==> Valid(Apply(ps[i].left, left), Apply(ps[i].right, right))
  }

  /** `AllValid` for a rule of one or two premises, written out. */
  lemma AllValidPremises(ps: seq<Premise>, l0: seq<Formula>, r0: seq<Formula>)
    requires 1 <= |ps| <= 2
    ensures AllValid(ps, l0, r0) <==>
      Valid(Apply(ps[0].left, l0), Apply(ps[0].right, r0)) && (|ps| == 2 ==> Valid(Apply(ps[1].left, l0), Apply(ps[1].right, r0)))
  {
  }

  /** A left rule is invertible: the sequent with `f` in the antecedent is valid
      exactly when every premise is. */
  lemma LeftRuleInvertible(f: Formula, left: seq<Formula>, right: seq<Formula>)
    requires !f.Prop?
    ensures Valid(left + [f], right) <==> AllValid(LeftRule(f), left, right)
  {
    var ps := LeftRule(f);
    if Valid(left + [f], right) {
      forall i | 0 <= i < |ps| ensures Valid(Apply(ps[i].left, left), Apply(ps[i].right, right)) {
        forall v: Valuation ensures Holds(Apply(ps[i].left, left), Apply(ps[i].right, right), v) {
          assert Holds(left + [f], right, v);
          PremiseHolds(f, true, ps[i], left, right, v);
        }
      }
    }
    if AllValid(ps, left, right) {
      forall v: Valuation ensures Holds(left + [f], right, v) {
        ConclusionHolds(f, true, left, right, v);
      }
    }
  }

  /** A right rule is invertible in the same sense. */
  lemma RightRuleInvertible(f: Formula, left: seq<Formula>, right: seq<Formula>)
    requires !f.Prop?
    ensures Valid(left, right + [f]) <==> AllValid(RightRule(f), left, right)
  {
    var ps := RightRule(f);
    if Valid(left, right + [f]) {
      forall i | 0 <= i < |ps| ensures Valid(Apply(ps[i].left, left), Apply(ps[i].right, right)) {
        forall v: Valuation ensures Holds(Apply(ps[i].left, left), Apply(ps[i].right, right), v) {
          assert Holds(left, right + [f], v);
          PremiseHolds(f, false, ps[i], left, right, v);
        }
      }
    }
    if AllValid(ps, left, right) {
      forall v: Valuation ensures Holds(left, right + [f], v) {
        ConclusionHolds(f, false, left, right, v);
      }
    }
  }

  function Conclusion(f: Formula, onLeft: bool, left: seq<Formula>, right: seq<Formula>): (seq<Formula>, seq<Formula>)
  {
    if onLeft then (left + [f], right) else (left, right + [f])
  }

  function RuleFor(f: Formula, onLeft: bool): seq<Premise>
    requires !f.Prop?
  {
    if onLeft then LeftRule(f) else RightRule(f)
  }

  lemma ApplyTruth(p: Part, xs: seq<Formula>, v: Valuation)
    ensures AllTrue(Apply(p, xs), v) <==> AllTrue(xs, v) && (p.Extend? ==> AllTrue(p.extra, v))
    ensures AnyTrue(Apply(p, xs), v) <==> AnyTrue(xs, v) || (p.Extend? && AnyTrue(p.extra, v))
  {
  }

  lemma SmallTruth(a: Formula, b: Formula, v: Valuation)
    ensures AllTrue([a], v) <==> Eval(a, v)
    ensures AnyTrue([a], v) <==> Eval(a, v)
    ensures AllTrue([a, b], v) <==> Eval(a, v) && Eval(b, v)
    ensures AnyTrue([a, b], v) <==> Eval(a, v) || Eval(b, v)
  {
  }

  /** The truth, under `v`, of premise `p` built from `left` and `right`. */
  lemma PremiseTruth(p: Premise, left: seq<Formula>, right: seq<Formula>, v: Valuation)
    ensures Holds(Apply(p.left, left), Apply(p.right, right), v) <==>
            (AllTrue(left, v) && (p.left.Extend? ==> AllTrue(p.left.extra, v)) ==>
             AnyTrue(right, v) || (p.right.Extend? && AnyTrue(p.right.extra, v)))
  {
  }

  lemma ConclusionTruth(f: Formula, onLeft: bool, left: seq<Formula>, right: seq<Formula>, v: Valuation)
    ensures Holds(Conclusion(f, onLeft, left, right).0, Conclusion(f, onLeft, left, right).1, v) <==>
            if onLeft then (AllTrue(left, v) && Eval(f, v) ==> AnyTrue(right, v))
            else (AllTrue(left, v) ==> AnyTrue(right, v) || Eval(f, v))
  {
  }

  lemma LeftPremiseHolds(f: Formula, p: Premise, left: seq<Formula>, right: seq<Formula>, v: Valuation)
    requires !f.Prop? && p in LeftRule(f)
    requires AllTrue(left, v) && Eval(f, v) ==> AnyTrue(right, v)
    ensures Holds(Apply(p.left, left), Apply(p.right, right), v)
  {
    PremiseTruth(p, left, right, v);
    match f {
      case Not(a) => SmallTruth(a, a, v);
      case And(a, b) => SmallTruth(a, b, v);
      case Or(a, b) => SmallTruth(a, b, v);
      case Implies(a, b) => SmallTruth(a, b, v); SmallTruth(b, a, v);
      case Iff(a, b) => SmallTruth(a, b, v); SmallTruth(b, a, v);
    }
  }

  lemma RightPremiseHolds(f: Formula, p: Premise, left: seq<Formula>, right: seq<Formula>, v: Valuation)
    requires !f.Prop? && p in RightRule(f)
    requires AllTrue(left, v) ==> AnyTrue(right, v) || Eval(f, v)
    ensures Holds(Apply(p.left, left), Apply(p.right, right), v)
  {
  }

  /** One valuation at a time: the conclusion holding makes each premise hold. */
  lemma PremiseHolds(f: Formula, onLeft: bool, p: Premise, left: seq<Formula>, right: seq<Formula>, v: Valuation)
    requires !f.Prop? && p in RuleFor(f, onLeft)
    requires Holds(Conclusion(f, onLeft, left, right).0, Conclusion(f, onLeft, left, right).1, v)
    ensures Holds(Apply(p.left, left), Apply(p.right, right), v)
  {
    ConclusionTruth(f, onLeft, left, right, v);
    if onLeft {
      LeftPremiseHolds(f, p, left, right, v);
    } else {
      RightPremiseHolds(f, p, left, right, v);
    }
  }

  /** One valuation at a time: all premises holding makes the conclusion hold. */
  lemma ConclusionHolds(f: Formula, onLeft: bool, left: seq<Formula>, right: seq<Formula>, v: Valuation)
    requires !f.Prop? && AllValid(RuleFor(f, onLeft), left, right)
    ensures Holds(Conclusion(f, onLeft, left, right).0, Conclusion(f, onLeft, left, right).1, v)
  {
    var ps := RuleFor(f, onLeft);
    ConclusionTruth(f, onLeft, left, right, v);
    assert Valid(Apply(ps[0].left, left), Apply(ps[0].right, right));
    assert Holds(Apply(ps[0].left, left), Apply(ps[0].right, right), v);
    PremiseTruth(ps[0], left, right, v);
    if |ps| == 2 {
      assert Valid(Apply(ps[1].left, left), Apply(ps[1].right, right));
      assert Holds(Apply(ps[1].left, left), Apply(ps[1].right, right), v);
      PremiseTruth(ps[1], left, right, v);
    }
    match f {
      case Not(a) => SmallTruth(a, a, v);
      case And(a, b) => SmallTruth(a, b, v);
      case Or(a, b) => SmallTruth(a, b, v);
      case Implies(a, b) => SmallTruth(a, b, v); SmallTruth(b, a, v);
      case Iff(a, b) => SmallTruth(a, b, v); SmallTruth(b, a, v);
    }
  }
}
