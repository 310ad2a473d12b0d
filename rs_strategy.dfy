/**
 * `RSMethod` and `preOrderTraversal` of RS_Strategy.cpp: the one-sided
 * Rasiowa-Sikorski expansion of a sequence. A sequence is a formula tree whose
 * top-level disjunctions list its components; it is valid when the
 * disjunction of its components is. `RSMethod` walks the `v` spine of the
 * sequence and, for each component it can decompose, installs a copy of the
 * whole sequence with that component rewritten as the left child of the
 * current node of the sequence tree (a conjunction installs two copies, one
 * per conjunct, as the left and the right child). Each installation overwrites
 * the one before, so the last component with a rule wins.
 */
module RsStrategy {
  import opened Wrappers
  import opened Trees

  /** One `v` node above the component, with the other side of it. */
  datatype Frame = LeftOf(right: Tree) | RightOf(left: Tree)

  /** The sequence the context `ctx` (innermost frame first) makes around `x`:
      what `seq_prev->left = x` (or `->right`, or `seqs->value` at the root)
      turns the whole sequence into. */
  function Plug(ctx: seq<Frame>, x: Tree): Tree
    decreases |ctx|
  {
    if ctx == [] then x
    else match ctx[0]
      case LeftOf(r) => Plug(ctx[1..], Node(Disjunct, x, r))
      case RightOf(l) => Plug(ctx[1..], Node(Disjunct, l, x))
  }

  predicate ContextFormula(ctx: seq<Frame>)
  {
    forall k :: 0 <= k < |ctx| ==> Formula(if ctx[k].LeftOf? then ctx[k].right else ctx[k].left)
  }

  /** What a component becomes: nothing, one rewritten component, or the two
      conjuncts of a conjunction. */
  datatype Rewrite = NoRule | One(x: Tree) | Two(a: Tree, b: Tree)

  /** The rule `RSMethod` applies to a component that is not a disjunction. */
  function RuleFor(n: Tree): Rewrite
    requires Formula(n)
  {
    if n.v == Negation then
      var a := n.r;
      if a.v == Negation then One(a.r)
      else if a.v == Implicate then One(Node(Conjunct, a.l, Neg(a.r)))
      else if a.v == Conjunct then One(Node(Disjunct, Neg(a.l), Neg(a.r)))
      else if a.v == Disjunct then One(Node(Conjunct, Neg(a.l), Neg(a.r)))
      else NoRule
    else if n.v == Implicate then One(Node(Disjunct, Neg(n.l), n.r))
    else if n.v == Conjunct then Two(n.l, n.r)
    else NoRule
  }

  /** What the node of the sequence tree has as children so far. */
  datatype Children = Children(left: Option<Tree>, right: Option<Tree>)

  // ---------------------------------------------------------------------
  // A weight every rule decreases.
  // ---------------------------------------------------------------------

  /** The weight of a formula. */
  function PosWeight(t: Tree): nat
  {
    match t
    case Nil => 0
    case Node(c, l, r) =>
      if c == Negation then NegWeight(r)
      else if c == Conjunct || c == Disjunct then PosWeight(l) + PosWeight(r) + 1
      else if c == Implicate then NegWeight(l) + PosWeight(r) + 2
      else 1
  }

  /** The weight of the negation of a formula. */
  function NegWeight(t: Tree): nat
  {
    match t
    case Nil => 0
    case Node(c, l, r) =>
      if c == Negation then PosWeight(r) + 1
      else if c == Implicate then PosWeight(l) + NegWeight(r) + 2
      else if c == Conjunct || c == Disjunct then NegWeight(l) + NegWeight(r) + 2
      else 1
  }

  function ContextWeight(ctx: seq<Frame>): nat
    decreases |ctx|
  {
    if ctx == [] then 0
    else (if ctx[0].LeftOf? then PosWeight(ctx[0].right) else PosWeight(ctx[0].left)) + 1 + ContextWeight(ctx[1..])
  }

  lemma {:induction false} PlugWeight(ctx: seq<Frame>, x: Tree)
    ensures PosWeight(Plug(ctx, x)) == PosWeight(x) + ContextWeight(ctx)
    decreases |ctx|
  {
    if ctx != [] {
      match ctx[0]
      case LeftOf(r) => PlugWeight(ctx[1..], Node(Disjunct, x, r));
      case RightOf(l) => PlugWeight(ctx[1..], Node(Disjunct, l, x));
    }
  }

  lemma {:induction false} PlugFormula(ctx: seq<Frame>, x: Tree)
    requires ContextFormula(ctx) && Formula(x)
    ensures Formula(Plug(ctx, x))
    decreases |ctx|
  {
    if ctx != [] {
      assert ContextFormula(ctx[1..]) by {
        forall k | 0 <= k < |ctx[1..]|
          ensures Formula(if ctx[1..][k].LeftOf? then ctx[1..][k].right else ctx[1..][k].left)
        {
          assert ctx[1..][k] == ctx[k + 1];
        }
      }
      assert Formula(if ctx[0].LeftOf? then ctx[0].right else ctx[0].left);
      match ctx[0]
      case LeftOf(r) => PlugFormula(ctx[1..], Node(Disjunct, x, r));
      case RightOf(l) => PlugFormula(ctx[1..], Node(Disjunct, l, x));
    }
  }

  lemma PushFrame(f: Frame, ctx: seq<Frame>, x: Tree)
    ensures Plug([f] + ctx, x) == Plug(ctx, if f.LeftOf? then Node(Disjunct, x, f.right) else Node(Disjunct, f.left, x))
  {
  }

  lemma PushFormula(f: Frame, ctx: seq<Frame>)
    requires ContextFormula(ctx) && Formula(if f.LeftOf? then f.right else f.left)
    ensures ContextFormula([f] + ctx)
  {
  }

  /** Every rewritten component is a formula, lighter than the component. */
  lemma RuleShrinks(n: Tree)
    requires Formula(n)
    ensures RuleFor(n).One? ==> Formula(RuleFor(n).x) && PosWeight(RuleFor(n).x) < PosWeight(n)
    ensures RuleFor(n).Two? ==> Formula(RuleFor(n).a) && PosWeight(RuleFor(n).a) < PosWeight(n)
    ensures RuleFor(n).Two? ==> Formula(RuleFor(n).b) && PosWeight(RuleFor(n).b) < PosWeight(n)
  {
  }

  /** A child installed for `root` is a formula lighter than `root`. */
  predicate Lighter(root: Tree, c: Option<Tree>)
  {
    c.Some? ==> Formula(c.value) && PosWeight(c.value) < PosWeight(root)
  }

  /** A component no rule applies to: an atom or a negated atom. */
  predicate Literal(n: Tree)
    requires Formula(n)
  {
    n.v != Disjunct && RuleFor(n).NoRule?
  }

  /** A sequence whose components are all literals. */
  predicate Clause(t: Tree)
    requires Formula(t)
  {
    if t.v == Disjunct then Clause(t.l) && Clause(t.r) else Literal(t)
  }

  /** `RSMethod(seq_prev, branch, seqs)` on component `node` of the sequence
      `Plug(ctx, node)`, with `acc` the children installed so far. */
  function RsMethod(ctx: seq<Frame>, node: Tree, acc: Children): (ch: Children)
    requires Formula(node) && ContextFormula(ctx)
    ensures Lighter(Plug(ctx, node), acc.left) && Lighter(Plug(ctx, node), acc.right) ==>
            Lighter(Plug(ctx, node), ch.left) && Lighter(Plug(ctx, node), ch.right)
    ensures Clause(node) ==> ch == acc
    ensures !Clause(node) ==> ch.left.Some?
    ensures acc.right.Some? ==> ch.right.Some?
    decreases node
  {
    var Node(c, l, r) := node;
    if c == Disjunct then
      PushFormula(LeftOf(r), ctx);
      PushFormula(RightOf(l), ctx);
      PushFrame(LeftOf(r), ctx, l);
      PushFrame(RightOf(l), ctx, r);
      RsMethod([RightOf(l)] + ctx, r, RsMethod([LeftOf(r)] + ctx, l, acc))
    else
      RuleShrinks(node);
      PlugWeight(ctx, node);
      match RuleFor(node)
      case NoRule => acc
      case One(x) =>
        PlugWeight(ctx, x);
        PlugFormula(ctx, x);
        Children(Some(Plug(ctx, x)), acc.right)
      case Two(a, b) =>
        PlugWeight(ctx, a);
        PlugWeight(ctx, b);
        PlugFormula(ctx, a);
        PlugFormula(ctx, b);
        Children(Some(Plug(ctx, a)), Some(Plug(ctx, b)))
  }

  /** The children `preOrderTraversal` has `RSMethod` install for a sequence. */
  function Expand(root: Tree): (ch: Children)
    requires Formula(root)
    ensures Lighter(root, ch.left) && Lighter(root, ch.right)
    ensures ch.left.None? <==> Clause(root)
    ensures ch.right.Some? ==> ch.left.Some?
  {
    RsMethod([], root, Children(None, None))
  }

  /** The tree of sequences `preOrderTraversal` builds; `value` is never null. */
  datatype Seqs = SNil | SNode(value: Tree, left: Seqs, right: Seqs)

  function PreOrder(root: Tree): (s: Seqs)
    requires Formula(root)
    ensures s.SNode? && s.value == root
    decreases PosWeight(root)
  {
    var ch := Expand(root);
    SNode(root,
      if ch.left.Some? then PreOrder(ch.left.value) else SNil,
      if ch.right.Some? then PreOrder(ch.right.value) else SNil)
  }

  // ---------------------------------------------------------------------
  // Each step keeps validity.
  // ---------------------------------------------------------------------

  /** The truth of the other components around a context. */
  function ContextEval(ctx: seq<Frame>, v: Valuation): bool
    decreases |ctx|
  {
    if ctx == [] then false
    else (if ctx[0].LeftOf? then TEval(ctx[0].right, v) else TEval(ctx[0].left, v)) || ContextEval(ctx[1..], v)
  }

  lemma {:induction false} PlugEval(ctx: seq<Frame>, x: Tree, v: Valuation)
    ensures TEval(Plug(ctx, x), v) == (TEval(x, v) || ContextEval(ctx, v))
    decreases |ctx|
  {
    if ctx != [] {
      match ctx[0]
      case LeftOf(r) => PlugEval(ctx[1..], Node(Disjunct, x, r), v);
      case RightOf(l) => PlugEval(ctx[1..], Node(Disjunct, l, x), v);
    }
  }

  /** An equivalent component leaves a sequence of the same validity. */
  lemma PlugEquivalent(ctx: seq<Frame>, a: Tree, b: Tree)
    requires forall v: Valuation :: TEval(a, v) == TEval(b, v)
    ensures TValid(Plug(ctx, a)) <==> TValid(Plug(ctx, b))
  {
    forall v: Valuation ensures TEval(Plug(ctx, a), v) == TEval(Plug(ctx, b), v) {
      PlugEval(ctx, a, v);
      PlugEval(ctx, b, v);
    }
  }

  /** A conjunction in a disjunctive context splits the sequence in two. */
  lemma PlugConjunction(ctx: seq<Frame>, n: Tree, a: Tree, b: Tree)
    requires forall v: Valuation :: TEval(n, v) == (TEval(a, v) && TEval(b, v))
    ensures TValid(Plug(ctx, n)) <==> TValid(Plug(ctx, a)) && TValid(Plug(ctx, b))
  {
    forall v: Valuation ensures TEval(Plug(ctx, n), v) == (TEval(Plug(ctx, a), v) && TEval(Plug(ctx, b), v)) {
      PlugEval(ctx, n, v);
      PlugEval(ctx, a, v);
      PlugEval(ctx, b, v);
    }
  }

  /** The rules are equivalences. */
  lemma RuleSound(n: Tree, v: Valuation)
    requires Formula(n)
    ensures RuleFor(n).One? ==> TEval(RuleFor(n).x, v) == TEval(n, v)
    ensures RuleFor(n).Two? ==> TEval(n, v) == (TEval(RuleFor(n).a, v) && TEval(RuleFor(n).b, v))
  {
  }

  /** The children installed so far tell the validity of the sequence: their
      joint validity is its validity, and a right child comes only with a left
      one. */
  ghost predicate Justified(root: Tree, ch: Children)
  {
    && (ch.left.None? ==> ch.right.None?)
    && (ch.left.Some? ==> (TValid(root) <==> TValid(ch.left.value) && (ch.right.Some? ==> TValid(ch.right.value))))
  }

  lemma {:induction false} RsMethodJustified(ctx: seq<Frame>, node: Tree, acc: Children)
    requires Formula(node) && ContextFormula(ctx) && Justified(Plug(ctx, node), acc)
    ensures Justified(Plug(ctx, node), RsMethod(ctx, node, acc))
    decreases node
  {
    var Node(c, l, r) := node;
    var root := Plug(ctx, node);
    if c == Disjunct {
      PushFormula(LeftOf(r), ctx);
      PushFormula(RightOf(l), ctx);
      PushFrame(LeftOf(r), ctx, l);
      PushFrame(RightOf(l), ctx, r);
      RsMethodJustified([LeftOf(r)] + ctx, l, acc);
      RsMethodJustified([RightOf(l)] + ctx, r, RsMethod([LeftOf(r)] + ctx, l, acc));
    } else {
      forall v: Valuation {
        RuleSound(node, v);
      }
      match RuleFor(node)
      case NoRule =>
      case One(x) =>
        PlugEquivalent(ctx, x, node);
      case Two(a, b) =>
        PlugConjunction(ctx, node, a, b);
    }
  }

  /** `RSMethod` on a whole sequence: the installed children are valid
      together exactly when the sequence is. */
  lemma ExpandJustified(root: Tree)
    requires Formula(root)
    ensures Justified(root, Expand(root))
  {
    assert Plug([], root) == root;
    RsMethodJustified([], root, Children(None, None));
  }

  // ---------------------------------------------------------------------
  // A clause is valid exactly when an atom occurs plain and negated.
  // ---------------------------------------------------------------------

  /** The atoms that occur plain among the components of a clause. */
  function Positives(t: Tree): set<char>
    requires Formula(t) && Clause(t)
  {
    if t.v == Disjunct then Positives(t.l) + Positives(t.r)
    else if t.v == Negation then {}
    else {t.v}
  }

  /** The atoms that occur negated among the components of a clause. */
  function Negatives(t: Tree): set<char>
    requires Formula(t) && Clause(t)
  {
    if t.v == Disjunct then Negatives(t.l) + Negatives(t.r)
    else if t.v == Negation then {t.r.v}
    else {}
  }

  lemma {:induction false} ClauseEval(t: Tree, v: Valuation)
    requires Formula(t) && Clause(t)
    ensures TEval(t, v) <==> (exists c :: c in Positives(t) && v(c)) || (exists c :: c in Negatives(t) && !v(c))
    decreases t
  {
    if t.v == Disjunct {
      ClauseEval(t.l, v);
      ClauseEval(t.r, v);
    } else if t.v == Negation {
      assert t.r.l == Nil && t.r.r == Nil;
      assert t.r.v in Negatives(t);
    } else {
      assert t.v in Positives(t);
    }
  }

  /** An atom that occurs both plain and negated makes a clause valid. */
  lemma CommonAtomValid(t: Tree, c: char)
    requires Formula(t) && Clause(t)
    requires c in Positives(t) && c in Negatives(t)
    ensures TValid(t)
  {
    forall v: Valuation ensures TEval(t, v) {
      ClauseEval(t, v);
      if v(c) {
        assert exists d :: d in Positives(t) && v(d);
      } else {
        assert exists d :: d in Negatives(t) && !v(d);
      }
    }
  }

  /** A clause is valid exactly when some atom occurs in it both plain and
      negated. */
  lemma ClauseValid(t: Tree)
    requires Formula(t) && Clause(t)
    ensures TValid(t) <==> Positives(t) * Negatives(t) != {}
  {
    if Positives(t) * Negatives(t) != {} {
      var c :| c in Positives(t) * Negatives(t);
      CommonAtomValid(t, c);
    } else {
      var v: Valuation := c => c in Negatives(t);
      ClauseEval(t, v);
      forall c | c in Positives(t) ensures !v(c) {
        assert c !in Positives(t) * Negatives(t);
      }
      assert !TEval(t, v);
    }
  }
}
