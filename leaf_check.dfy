/**
 * The two `show` functions of RS_Strategy.cpp that decide the answer:
 * `show(tn, negation)` collects the literals of a leaf sequence into the
 * globals `pos` and `neg` and raises `fundamental` when an atom meets its
 * negation; `show(seqs)` visits the sequence tree in pre-order, classifies
 * every leaf and clears `tautology` at the first leaf that is not
 * fundamental. The globals are the fields of `Classifier`.
 */
module LeafCheck {
  import opened Trees
  import opened RsStrategy

  /** `pos`, `neg` and `fundamental`. */
  datatype Lits = Lits(pos: string, neg: string, fundamental: bool)

  function Cleared(): Lits
  {
    Lits("", "", false)
  }

  /** Recording one literal: it is appended to the list of its polarity,
      and `fundamental` keeps saying whether some atom is in both lists. */
  function Record(s: Lits, c: char, negation: bool): (r: Lits)
    ensures negation ==> r.pos == s.pos && r.neg == s.neg + [c]
    ensures !negation ==> r.neg == s.neg && r.pos == s.pos + [c]
    ensures Consistent(s) ==> Consistent(r)
  {
    if negation then
      assert forall d :: d in s.neg + [c] <==> d in s.neg || d == c;
      Lits(s.pos, s.neg + [c], s.fundamental || c in s.pos)
    else
      assert forall d :: d in s.pos + [c] <==> d in s.pos || d == c;
      Lits(s.pos + [c], s.neg, s.fundamental || c in s.neg)
  }

  /** `show(tn, negation)`. */
  function CollectF(s: Lits, tn: Tree, negation: bool): Lits
    requires tn.Node?
    decreases tn
  {
    if tn.v == Negation && tn.r.Node? then CollectF(s, tn.r, true)
    else if tn.v != Negation then
      var s1 := if tn.l.Node? then CollectF(s, tn.l, false) else s;
      var s2 := if tn.v != Disjunct then Record(s1, tn.v, negation) else s1;
      if tn.r.Node? then CollectF(s2, tn.r, false) else s2
    else s
  }

  /** Some atom is in both lists. */
  ghost predicate Clash(pos: string, neg: string)
  {
    exists c :: c in pos && c in neg
  }

  /** `fundamental` says whether some atom is in both lists. */
  ghost predicate Consistent(s: Lits)
  {
    s.fundamental <==> Clash(s.pos, s.neg)
  }

  lemma {:induction false} CollectConsistent(s: Lits, tn: Tree, negation: bool)
    requires tn.Node? && Consistent(s)
    ensures Consistent(CollectF(s, tn, negation))
    decreases tn
  {
    if tn.v == Negation && tn.r.Node? {
      CollectConsistent(s, tn.r, true);
    } else if tn.v != Negation {
      var s1 := if tn.l.Node? then CollectF(s, tn.l, false) else s;
      if tn.l.Node? {
        CollectConsistent(s, tn.l, false);
      }
      var s2 := if tn.v != Disjunct then Record(s1, tn.v, negation) else s1;
      if tn.r.Node? {
        CollectConsistent(s2, tn.r, false);
      }
    }
  }

  /** On a clause the lists gain exactly its plain and its negated atoms. */
  lemma {:induction false} ClauseCollect(s: Lits, t: Tree)
    requires Formula(t) && Clause(t)
    ensures var r := CollectF(s, t, false);
      && (forall c :: c in r.pos <==> c in s.pos || c in Positives(t))
      && (forall c :: c in r.neg <==> c in s.neg || c in Negatives(t))
    decreases t
  {
    if t.v == Disjunct {
      ClauseCollect(s, t.l);
      ClauseCollect(CollectF(s, t.l, false), t.r);
    } else if t.v == Negation {
      var a := t.r;
      assert a.l == Nil && a.r == Nil && a.v != Disjunct;
      assert CollectF(s, t, false) == Record(s, a.v, true);
    } else {
      assert t.l == Nil && t.r == Nil;
      assert CollectF(s, t, false) == Record(s, t.v, false);
    }
  }

  /** What `show(seqs)` finds for a leaf sequence, from cleared globals. */
  function Fundamental(t: Tree): bool
    requires t.Node?
  {
    CollectF(Cleared(), t, false).fundamental
  }

  /** From cleared globals a clause has a clash in the lists exactly when
      it has an atom both plain and negated. */
  lemma ClauseClash(t: Tree)
    requires Formula(t) && Clause(t)
    ensures var r := CollectF(Cleared(), t, false);
      Clash(r.pos, r.neg) <==> Positives(t) * Negatives(t) != {}
  {
    var r := CollectF(Cleared(), t, false);
    ClauseCollect(Cleared(), t);
    if Clash(r.pos, r.neg) {
      var c :| c in r.pos && c in r.neg;
      assert c in Positives(t) * Negatives(t);
    }
    if Positives(t) * Negatives(t) != {} {
      var c :| c in Positives(t) * Negatives(t);
      assert c in r.pos && c in r.neg;
    }
  }

  /** A leaf is found fundamental exactly when its sequence is valid. */
  lemma FundamentalValid(t: Tree)
    requires Formula(t) && Clause(t)
    ensures Fundamental(t) <==> TValid(t)
  {
    ClauseValid(t);
    CollectConsistent(Cleared(), t, false);
    ClauseClash(t);
  }

  /** Every sequence of the tree is a real node, as `show` dereferences it. */
  predicate Valued(t: Seqs)
  {
    t.SNode? ==> t.value.Node? && Valued(t.left) && Valued(t.right)
  }

  /** The globals `show(seqs)` reads and writes. */
  datatype ShowState = ShowState(lits: Lits, tautology: bool)

  /** `show(seqs)`. */
  function ShowF(s: ShowState, t: Seqs): ShowState
    requires t.SNode? && Valued(t)
    decreases t
  {
    if t.left.SNil? && t.right.SNil? then
      var l := CollectF(s.lits, t.value, false);
      if l.fundamental then ShowState(Cleared(), s.tautology)
      else ShowState(Lits("", "", l.fundamental), false)
    else
      var s2 := if t.left.SNode? && s.tautology then ShowF(s, t.left) else s;
      if t.right.SNode? && s2.tautology then ShowF(s2, t.right) else s2
  }

  /** Every leaf of the sequence tree is fundamental; an absent child has no
      leaves. */
  function AllFundamental(t: Seqs): bool
    requires Valued(t)
  {
    match t
    case SNil => true
    case SNode(value, l, r) =>
      if l.SNil? && r.SNil? then Fundamental(value) else AllFundamental(l) && AllFundamental(r)
  }

  /** From cleared globals, `show(seqs)` leaves them cleared and keeps
      `tautology` only when every leaf is fundamental. */
  lemma {:induction false} ShowAll(t: Seqs, b: bool)
    requires t.SNode? && Valued(t)
    ensures ShowF(ShowState(Cleared(), b), t) == ShowState(Cleared(), b && AllFundamental(t))
    decreases t
  {
    if !(t.left.SNil? && t.right.SNil?) {
      var s := ShowState(Cleared(), b);
      if t.left.SNode? {
        ShowAll(t.left, b);
      }
      var s2 := if t.left.SNode? && s.tautology then ShowF(s, t.left) else s;
      assert s2 == ShowState(Cleared(), b && AllFundamental(t.left));
      if t.right.SNode? {
        ShowAll(t.right, s2.tautology);
      }
    }
  }

  lemma PreOrderValued(root: Tree)
    requires Formula(root)
    ensures Valued(PreOrder(root))
    decreases PosWeight(root)
  {
    var ch := Expand(root);
    if ch.left.Some? {
      PreOrderValued(ch.left.value);
    }
    if ch.right.Some? {
      PreOrderValued(ch.right.value);
    }
  }

  /** The RS expansion decides validity: every leaf of the tree
      `preOrderTraversal` builds is fundamental exactly when the sequence is
      valid. */
  lemma {:induction false} PreOrderDecides(root: Tree)
    requires Formula(root)
    ensures Valued(PreOrder(root))
    ensures AllFundamental(PreOrder(root)) <==> TValid(root)
    decreases PosWeight(root)
  {
    PreOrderValued(root);
    var ch := Expand(root);
    var t := PreOrder(root);
    ExpandJustified(root);
    if ch.left.None? {
      assert t.left == SNil && t.right == SNil;
      FundamentalValid(root);
    } else {
      PreOrderDecides(ch.left.value);
      if ch.right.Some? {
        PreOrderDecides(ch.right.value);
      }
      assert t.left.SNode?;
    }
  }

  /** The globals of RS_Strategy.cpp that `show` uses. */
  class Classifier {
    var pos: string
    var neg: string
    var fundamental: bool
    var tautology: bool

    function Current(): Lits
      reads this
    {
      Lits(pos, neg, fundamental)
    }

    /** The initial values of the globals. */
    constructor ()
      ensures Current() == Cleared() && tautology
    {
      pos := "";
      neg := "";
      fundamental := false;
      tautology := true;
    }

    /** `show(tn, negation)`. */
    method Collect(tn: Tree, negation: bool)
      requires tn.Node?
      modifies this
      ensures Current() == CollectF(old(Current()), tn, negation)
      ensures tautology == old(tautology)
      decreases tn
    {
      if tn.v == Negation && tn.r.Node? {
        Collect(tn.r, true);
      } else if tn.v != Negation {
        if tn.l.Node? {
          Collect(tn.l, false);
        }
        if tn.v != Disjunct {
          if negation {
            if tn.v in pos {
              fundamental := true;
            }
            neg := neg + [tn.v];
          } else {
            if tn.v in neg {
              fundamental := true;
            }
            pos := pos + [tn.v];
          }
        }
        if tn.r.Node? {
          Collect(tn.r, false);
        }
      }
    }

    /** `show(seqs)`. */
    method Show(t: Seqs)
      requires t.SNode? && Valued(t)
      modifies this
      ensures ShowState(Current(), tautology) == ShowF(old(ShowState(Current(), tautology)), t)
      decreases t
    {
      if t.left.SNil? && t.right.SNil? {
        Collect(t.value, false);
        if !fundamental {
          tautology := false;
          pos := "";
          neg := "";
          return;
        }
        pos := "";
        neg := "";
        fundamental := false;
      }
      if t.left.SNode? {
        if !tautology {
          return;
        }
        Show(t.left);
      }
      if t.right.SNode? {
        if !tautology {
          return;
        }
        Show(t.right);
      }
    }
  }
}
