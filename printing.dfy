/**
 * The `__str__` methods of the expression classes of both Python engines and
 * the leaf they log, `"~"+str(x)` for each antecedent and then `str(x)` for
 * each consequent. The two engines differ only in how they spell the binary
 * operators. As long as the atom names hold no bracket, blank or `~`, the
 * printed form can be read back in one way only, so a logged leaf records its
 * sequent once the number of antecedents is known.
 */
module Printing {
  import opened Formulas

  /** How the binary operators are written between their operands. */
  datatype Spelling = Spelling(and: string, or: string, implies: string, iff: string)

  /** `str(f)`: an atom is its name, a negation is `~` before its operand, and
      a binary formula is its two operands in brackets around the operator. */
  function Show(f: Formula, sp: Spelling): string
  {
    match f
    case Prop(n) => n
    case Not(a) => "~" + Show(a, sp)
    case And(a, b) => "(" + Show(a, sp) + sp.and + Show(b, sp) + ")"
    case Or(a, b) => "(" + Show(a, sp) + sp.or + Show(b, sp) + ")"
    case Implies(a, b) => "(" + Show(a, sp) + sp.implies + Show(b, sp) + ")"
    case Iff(a, b) => "(" + Show(a, sp) + sp.iff + Show(b, sp) + ")"
  }

  /** The logged form of a leaf `left ⊢ right`. */
  function Leaf(sp: Spelling, left: seq<Formula>, right: seq<Formula>): (leaf: seq<string>)
    ensures |leaf| == |left| + |right|
    ensures forall i :: 0 <= i < |left| ==> leaf[i] == "~" + Show(left[i], sp)
    ensures forall j :: 0 <= j < |right| ==> leaf[|left| + j] == Show(right[j], sp)
  {
    seq(|left|, i requires 0 <= i < |left| => "~" + Show(left[i], sp))
      + seq(|right|, j requires 0 <= j < |right| => Show(right[j], sp))
  }

  /** A character that can end a name: it cannot be part of one. */
  predicate Delimiter(c: char)
  {
    c == '(' || c == ')' || c == ' ' || c == '~'
  }

  /** A name the printed form cannot run together with what surrounds it. */
  predicate PlainName(n: string)
  {
    n != [] && forall k :: 0 <= k < |n| ==> !Delimiter(n[k])
  }

  predicate PlainNames(f: Formula)
  {
    match f
    case Prop(n) => PlainName(n)
    case Not(a) => PlainNames(a)
    case And(a, b) => PlainNames(a) && PlainNames(b)
    case Or(a, b) => PlainNames(a) && PlainNames(b)
    case Implies(a, b) => PlainNames(a) && PlainNames(b)
    case Iff(a, b) => PlainNames(a) && PlainNames(b)
  }

  predicate AllPlain(fs: seq<Formula>)
  {
    forall k :: 0 <= k < |fs| ==> PlainNames(fs[k])
  }

  /** Every operator begins with a blank, and no two share their second
      character. */
  predicate Readable(sp: Spelling)
  {
    && |sp.and| >= 2 && |sp.or| >= 2 && |sp.implies| >= 2 && |sp.iff| >= 2
    && sp.and[0] == ' ' && sp.or[0] == ' ' && sp.implies[0] == ' ' && sp.iff[0] == ' '
    && sp.and[1] != sp.or[1] && sp.and[1] != sp.implies[1] && sp.and[1] != sp.iff[1]
    && sp.or[1] != sp.implies[1] && sp.or[1] != sp.iff[1] && sp.implies[1] != sp.iff[1]
  }

  /** What may follow a printed formula: nothing, a blank before an operator,
      or a closing bracket. */
  predicate Stop(t: string)
  {
    t == [] || t[0] == ' ' || t[0] == ')'
  }

  predicate Binary(f: Formula)
  {
    f.And? || f.Or? || f.Implies? || f.Iff?
  }

  function Op(f: Formula, sp: Spelling): string
    requires Binary(f)
  {
    match f
    case And(_, _) => sp.and
    case Or(_, _) => sp.or
    case Implies(_, _) => sp.implies
    case Iff(_, _) => sp.iff
  }

  /** A binary formula printed, split at its operator. */
  lemma BinaryShow(f: Formula, sp: Spelling, t: string)
    requires Binary(f)
    ensures Show(f, sp) + t == ['('] + (Show(f.left, sp) + (Op(f, sp) + (Show(f.right, sp) + ([')'] + t))))
  {
  }

  /** The first character tells an atom, a negation and a binary formula
      apart. */
  lemma {:induction false} FirstChar(f: Formula, sp: Spelling, t: string)
    requires PlainNames(f)
    ensures |Show(f, sp) + t| > 0
    ensures f.Prop? ==> !Delimiter((Show(f, sp) + t)[0])
    ensures f.Not? ==> (Show(f, sp) + t)[0] == '~'
    ensures Binary(f) ==> (Show(f, sp) + t)[0] == '('
  {
    if Binary(f) {
      BinaryShow(f, sp, t);
    } else if f.Prop? {
      assert (Show(f, sp) + t)[0] == f.name[0];
    }
  }

  /** Two names followed by what may follow a formula are read apart at the
      same place. */
  lemma NameUnique(n: string, m: string, t: string, u: string)
    requires PlainName(n) && PlainName(m) && Stop(t) && Stop(u) && n + t == m + u
    ensures n == m && t == u
  {
    assert n == (n + t)[..|n|] && m == (m + u)[..|m|];
    assert t == (n + t)[|n|..] && u == (m + u)[|m|..];
  }

  /** The second character of an operator tells which operator it is. */
  lemma OpUnique(f: Formula, g: Formula, sp: Spelling, x: string, y: string)
    requires Binary(f) && Binary(g) && Readable(sp) && Op(f, sp) + x == Op(g, sp) + y
    ensures Op(f, sp) == Op(g, sp) && x == y
    ensures (f.And? <==> g.And?) && (f.Or? <==> g.Or?) && (f.Implies? <==> g.Implies?)
  {
    var o, p := Op(f, sp), Op(g, sp);
    assert (o + x)[1] == o[1] && (p + y)[1] == p[1];
    assert o == p;
    assert x == (o + x)[|o|..] && y == (p + y)[|p|..];
  }

  /** Unique reading: a printed formula followed by what may follow a
      formula determines both. */
  lemma {:induction false} ShowUnique(f: Formula, g: Formula, sp: Spelling, t: string, u: string)
    requires PlainNames(f) && PlainNames(g) && Readable(sp) && Stop(t) && Stop(u)
    requires Show(f, sp) + t == Show(g, sp) + u
    ensures f == g && t == u
    decreases f
  {
    FirstChar(f, sp, t);
    FirstChar(g, sp, u);
    if f.Prop? {
      NameUnique(f.name, g.name, t, u);
    } else if f.Not? {
      var a, b := f.child, g.child;
      assert Show(f, sp) + t == ['~'] + (Show(a, sp) + t);
      assert Show(g, sp) + u == ['~'] + (Show(b, sp) + u);
      assert Show(a, sp) + t == (Show(f, sp) + t)[1..];
      ShowUnique(a, b, sp, t, u);
    } else {
      var a, b, c, d := f.left, f.right, g.left, g.right;
      var x := Show(b, sp) + ([')'] + t);
      var y := Show(d, sp) + ([')'] + u);
      BinaryShow(f, sp, t);
      BinaryShow(g, sp, u);
      assert Show(a, sp) + (Op(f, sp) + x) == Show(c, sp) + (Op(g, sp) + y) by {
        assert Show(a, sp) + (Op(f, sp) + x) == (Show(f, sp) + t)[1..];
        assert Show(c, sp) + (Op(g, sp) + y) == (Show(g, sp) + u)[1..];
      }
      assert (Op(f, sp) + x)[0] == ' ' && (Op(g, sp) + y)[0] == ' ';
      ShowUnique(a, c, sp, Op(f, sp) + x, Op(g, sp) + y);
      OpUnique(f, g, sp, x, y);
      ShowUnique(b, d, sp, [')'] + t, [')'] + u);
      assert t == ([')'] + t)[1..] && u == ([')'] + u)[1..];
    }
  }

  /** A logged leaf records its sequent: two sequents with the same number
      of antecedents log the same leaf only when they are the same sequent. */
  lemma LeafDetermines(sp: Spelling, l1: seq<Formula>, r1: seq<Formula>, l2: seq<Formula>, r2: seq<Formula>)
    requires Readable(sp) && AllPlain(l1) && AllPlain(r1) && AllPlain(l2) && AllPlain(r2)
    requires |l1| == |l2| && Leaf(sp, l1, r1) == Leaf(sp, l2, r2)
    ensures l1 == l2 && r1 == r2
  {
    var leaf := Leaf(sp, l1, r1);
    forall i | 0 <= i < |l1|
      ensures l1[i] == l2[i]
    {
      assert Show(l1[i], sp) == leaf[i][1..] == Show(l2[i], sp);
      assert Show(l1[i], sp) + [] == Show(l2[i], sp) + [];
      ShowUnique(l1[i], l2[i], sp, [], []);
    }
    forall j | 0 <= j < |r1|
      ensures r1[j] == r2[j]
    {
      assert Show(r1[j], sp) == leaf[|l1| + j] == Show(r2[j], sp);
      assert Show(r1[j], sp) + [] == Show(r2[j], sp) + [];
      ShowUnique(r1[j], r2[j], sp, [], []);
    }
  }
}
