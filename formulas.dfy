/**
 * Propositional formulas as the two Python engines build them (one class per
 * connective, `Proposition`/`Variable` for atoms), their size, their meaning
 * under a valuation, and the meaning of a two-sided sequent.
 */
module Formulas {

  datatype Formula =
    | Prop(name: string)
    | Not(child: Formula)
    | And(left: Formula, right: Formula)
    | Or(left: Formula, right: Formula)
    | Implies(left: Formula, right: Formula)
    | Iff(left: Formula, right: Formula)

  /** Number of nodes; every rule application makes the current frame smaller in this measure. */
  function Size(f: Formula): (n: nat)
    ensures n >= 1
  {
    match f
    case Prop(_) => 1
    case Not(a) => 1 + Size(a)
    case And(a, b) => 1 + Size(a) + Size(b)
    case Or(a, b) => 1 + Size(a) + Size(b)
    case Implies(a, b) => 1 + Size(a) + Size(b)
    case Iff(a, b) => 1 + Size(a) + Size(b)
  }

  /** Total size of the formulas of one side of a sequent. */
  function SizeOf(fs: seq<Formula>): nat
  {
    if fs == [] then 0 else Size(fs[0]) + SizeOf(fs[1..])
  }

  lemma {:induction false} SizeOfAppend(a: seq<Formula>, b: seq<Formula>)
    ensures SizeOf(a + b) == SizeOf(a) + SizeOf(b)
  {
    if a == [] {
      assert a + b == b;
    } else {
      assert (a + b)[1..] == a[1..] + b;
      SizeOfAppend(a[1..], b);
    }
  }

  /** Removing the element at `i` takes exactly its size off the side. */
  lemma {:induction false} SizeOfRemove(fs: seq<Formula>, i: nat)
    requires i < |fs|
    ensures SizeOf(fs[..i] + fs[i + 1..]) + Size(fs[i]) == SizeOf(fs)
  {
    assert fs == fs[..i] + [fs[i]] + fs[i + 1..];
    SizeOfAppend(fs[..i] + [fs[i]], fs[i + 1..]);
    SizeOfAppend(fs[..i], [fs[i]]);
    SizeOfAppend(fs[..i], fs[i + 1..]);
    assert SizeOf([fs[i]]) == Size(fs[i]) by {
      assert [fs[i]][1..] == [];
    }
  }

  /** True when no biconditional occurs (RS_Tautology.py has no class for it). */
  predicate NoIff(f: Formula)
  {
    match f
    case Prop(_) => true
    case Not(a) => NoIff(a)
    case And(a, b) => NoIff(a) && NoIff(b)
    case Or(a, b) => NoIff(a) && NoIff(b)
    case Implies(a, b) => NoIff(a) && NoIff(b)
    case Iff(_, _) => false
  }

  type Valuation = string -> bool

  function Eval(f: Formula, v: Valuation): bool
  {
    match f
    case Prop(x) => v(x)
    case Not(a) => !Eval(a, v)
    case And(a, b) => Eval(a, v) && Eval(b, v)
    case Or(a, b) => Eval(a, v) || Eval(b, v)
    case Implies(a, b) => Eval(a, v) ==> Eval(b, v)
    case Iff(a, b) => Eval(a, v) == Eval(b, v)
  }

  ghost predicate Tautology(f: Formula)
  {
    forall v: Valuation :: Eval(f, v)
  }

  ghost predicate AllTrue(fs: seq<Formula>, v: Valuation)
  {
    forall f :: f in fs ==> Eval(f, v)
  }

  ghost predicate AnyTrue(fs: seq<Formula>, v: Valuation)
  {
    exists g :: g in fs && Eval(g, v)
  }

  lemma TruthOfAppend(a: seq<Formula>, b: seq<Formula>, v: Valuation)
    ensures AllTrue(a + b, v) <==> AllTrue(a, v) && AllTrue(b, v)
    ensures AnyTrue(a + b, v) <==> AnyTrue(a, v) || AnyTrue(b, v)
  {
  }

  /** Under `v`, if every antecedent holds then some consequent holds. */
  ghost predicate Holds(left: seq<Formula>, right: seq<Formula>, v: Valuation)
  {
    AllTrue(left, v) ==> AnyTrue(right, v)
  }

  /** The sequent `left |- right` is valid. */
  ghost predicate Valid(left: seq<Formula>, right: seq<Formula>)
  {
    forall v: Valuation :: Holds(left, right, v)
  }

  /** The initial sequent of both engines, `[] |- [f]`, is valid exactly when `f` is a tautology. */
  lemma InitialSequent(f: Formula)
    ensures Valid([], [f]) <==> Tautology(f)
  {
    if Valid([], [f]) {
      forall v: Valuation ensures Eval(f, v) {
        assert Holds([], [f], v);
      }
    }
    if Tautology(f) {
      forall v: Valuation ensures Holds([], [f], v) {
        assert f in [f] && Eval(f, v);
      }
    }
  }

  /** A sequent that shares a formula between its sides is valid. */
  lemma Axiom(left: seq<Formula>, right: seq<Formula>, x: Formula)
    requires x in left && x in right
    ensures Valid(left, right)
  {
  }

  /** Validity is preserved when formulas are added to either side. */
  lemma Weaken(left: seq<Formula>, right: seq<Formula>, left': seq<Formula>, right': seq<Formula>)
    requires forall x :: x in left ==> x in left'
    requires forall x :: x in right ==> x in right'
    requires Valid(left, right)
    ensures Valid(left', right')
  {
    forall v: Valuation ensures Holds(left', right', v) {
      assert Holds(left, right, v);
      if forall f :: f in left' ==> Eval(f, v) {
        var g :| g in right && Eval(g, v);
        assert g in right';
      }
    }
  }
}
