/**
 * The character trees of RS_Strategy.cpp (`TreeNode<char>`): operator
 * priorities, the shape `buildTree` produces, and the meaning of a tree as a
 * propositional formula over single-character atoms.
 */
module Trees {

  /** A `TreeNode<char>*`: `Nil` is the null pointer. */
  datatype Tree = Nil | Node(v: char, l: Tree, r: Tree)

  const Conjunct := '^'
  const Disjunct := 'v'
  const Implicate := '>'
  const Negation := '~'
  const Placeholder := '#'

  /** The `prior` map; characters it does not list read as 0. */
  function Prior(c: char): int
  {
    if c == Conjunct || c == Disjunct || c == Implicate then 1
    else if c == Negation then 2
    else 0
  }

  predicate IsBracket(c: char)
  {
    c == '(' || c == ')' || c == '[' || c == ']'
  }

  /** A character that stands for an atom: no operator and no bracket, and
      not one of the characters the clean-up removes. */
  predicate IsAtom(c: char)
  {
    Prior(c) == 0 && !IsBracket(c) && c != '-' && c != ' '
  }

  /** The single node `new TreeNode<char>(c)`. */
  function Leaf(c: char): Tree
  {
    Node(c, Nil, Nil)
  }

  /** The fresh node of `new TreeNode<char>`, whose value is 0. */
  function Blank(): Tree
  {
    Leaf(0 as char)
  }

  /** The placeholder node that makes `~` binary. */
  function Hash(): Tree
  {
    Leaf(Placeholder)
  }

  function Neg(t: Tree): Tree
  {
    Node(Negation, Hash(), t)
  }

  /** The shape `buildTree` produces: operators have two children, every other
      character is a leaf. */
  predicate Shaped(t: Tree)
  {
    match t
    case Nil => false
    case Node(c, l, r) =>
      if Prior(c) >= 1 then Shaped(l) && Shaped(r) else l == Nil && r == Nil
  }

  /** A formula tree: atoms at the leaves, binary operators with two formulas,
      and `~` with the placeholder on its left. */
  predicate Formula(t: Tree)
  {
    match t
    case Nil => false
    case Node(c, l, r) =>
      if c == Negation then l == Hash() && Formula(r)
      else if Prior(c) == 1 then Formula(l) && Formula(r)
      else IsAtom(c) && l == Nil && r == Nil
  }

  lemma {:induction false} FormulaShaped(t: Tree)
    requires Formula(t)
    ensures Shaped(t)
  {
    match t {
      case Node(c, l, r) =>
        if c == Negation {
          FormulaShaped(r);
        } else if Prior(c) == 1 {
          FormulaShaped(l);
          FormulaShaped(r);
        }
    }
  }

  /** The post-order of a tree: the order `buildTree` consumes characters in. */
  function PostOrder(t: Tree): string
  {
    match t
    case Nil => ""
    case Node(c, l, r) => PostOrder(l) + PostOrder(r) + [c]
  }

  type Valuation = char -> bool

  /** The truth value of a formula tree. */
  function TEval(t: Tree, v: Valuation): bool
  {
    match t
    case Nil => false
    case Node(c, l, r) =>
      if c == Negation then !TEval(r, v)
      else if c == Conjunct then TEval(l, v) && TEval(r, v)
      else if c == Disjunct then TEval(l, v) || TEval(r, v)
      else if c == Implicate then TEval(l, v) ==> TEval(r, v)
      else v(c)
  }

  ghost predicate TValid(t: Tree)
  {
    forall v: Valuation :: TEval(t, v)
  }
}
