/**
 * The pointer steps of `sharedCode` in RS_Strategy.cpp, on an explicit memory
 * of `TreeNode<char>` cells. This is the one place where the program's
 * behaviour depends on node identity: the rewrite of `~(A ^ B)` and
 * `~(A v B)` builds `~A` and `~B` in place, lets `addSeqsTreeLeft` copy the
 * sequence, and then undoes its changes. As written, the undo deletes the new
 * placeholder under the old one without clearing the pointer to it, so a
 * later copy of the same sequence reads a deleted cell.
 */
module NodeMemory {
  import opened Trees
  import opened RsStrategy

  /** One `TreeNode<char>`: its value and the addresses of its children. */
  datatype Cell = Cell(v: char, l: nat, r: nat)

  /** The address `nullptr`. */
  const Null: nat := 0

  /** The cells allocated so far, indexed by address (the cell at `Null` is
      never used), and the addresses that have been deleted: their contents
      stay as they were, and reading them is undefined. The next
      `new TreeNode<char>` returns address `|cells|`. */
  datatype Memory = Memory(cells: seq<Cell>, freed: set<nat>)

  function Get(m: Memory, a: nat): Cell
  {
    if a < |m.cells| then m.cells[a] else Cell(0 as char, Null, Null)
  }

  /** `p->value = c`. */
  function SetV(m: Memory, a: nat, c: char): Memory
  {
    if a < |m.cells| then m.(cells := m.cells[a := m.cells[a].(v := c)]) else m
  }

  /** `p->left = q`. */
  function SetL(m: Memory, a: nat, b: nat): Memory
  {
    if a < |m.cells| then m.(cells := m.cells[a := m.cells[a].(l := b)]) else m
  }

  /** `p->right = q`. */
  function SetR(m: Memory, a: nat, b: nat): Memory
  {
    if a < |m.cells| then m.(cells := m.cells[a := m.cells[a].(r := b)]) else m
  }

  /** `new TreeNode<char>`, at address `|m.cells|`. */
  function Alloc(m: Memory): Memory
  {
    m.(cells := m.cells + [Cell(0 as char, Null, Null)])
  }

  /** `delete(p)`. */
  function Delete(m: Memory, a: nat): Memory
  {
    m.(freed := m.freed + {a})
  }

  /** The tree `copyTree` builds from the cell at `a`, up to depth `fuel`. */
  function Decode(m: Memory, a: nat, fuel: nat): Tree
    decreases fuel
  {
    if fuel == 0 || a == Null then Nil
    else Node(Get(m, a).v, Decode(m, Get(m, a).l, fuel - 1), Decode(m, Get(m, a).r, fuel - 1))
  }

  /** The addresses `copyTree` dereferences from the cell at `a`, up to depth
      `fuel`. */
  function CopyReads(m: Memory, a: nat, fuel: nat): set<nat>
    decreases fuel
  {
    if fuel == 0 || a == Null then {}
    else {a} + CopyReads(m, Get(m, a).l, fuel - 1) + CopyReads(m, Get(m, a).r, fuel - 1)
  }

  /** The first half of `sharedCode(seq, seqs)` for the `~` node at `s`: the
      two second-layer nodes become `~`, with fresh placeholders on their
      left. This is the memory `addSeqsTreeLeft` copies. */
  function SharedForward(m: Memory, s: nat): Memory
  {
    var lo, ro := Get(m, s).l, Get(m, s).r;
    var m1 := SetV(SetV(m, lo, Negation), ro, Negation);
    var p1 := |m1.cells|;
    var m2 := SetL(Alloc(m1), lo, p1);
    var m3 := SetR(m2, lo, Get(m2, ro).l);
    var p2 := |m3.cells|;
    var m4 := SetL(Alloc(m3), ro, p2);
    SetV(SetV(m4, p1, Placeholder), p2, Placeholder)
  }

  /** The second half of `sharedCode`, the undo, on the memory `SharedForward`
      left. With `reset` false it is the code as written; with `reset` true it
      also clears `seq->left->left` after deleting that node. */
  function SharedRestore(m: Memory, s: nat, reset: bool): Memory
  {
    var lo, ro := Get(m, s).l, Get(m, s).r;
    var m1 := Delete(m, Get(m, ro).l);
    var m2 := SetL(m1, ro, Get(m1, lo).r);
    var m3 := SetR(m2, lo, Null);
    var m4 := Delete(m3, Get(m3, lo).l);
    var m5 := if reset then SetL(m4, lo, Null) else m4;
    SetV(SetV(m5, lo, Placeholder), s, Negation)
  }

  /** The branch of `RSMethod` for a component `~(A ^ B)` at `s`: the memory
      `addSeqsTreeLeft` copies, and the memory after the undo. */
  function NegatedConjunction(m: Memory, s: nat, reset: bool): (Memory, Memory)
  {
    var mid := SharedForward(SetV(m, s, Disjunct), s);
    (mid, SetV(SharedRestore(mid, s, reset), Get(m, s).r, Conjunct))
  }

  /** The sequence `~(a ^ b) v (c > d)` laid out in memory, root at 1. */
  const Example: Memory := Memory(
    [Cell(0 as char, Null, Null), Cell(Disjunct, 2, 7), Cell(Negation, 3, 4), Cell(Placeholder, Null, Null),
     Cell(Conjunct, 5, 6), Cell('a', Null, Null), Cell('b', Null, Null),
     Cell(Implicate, 8, 9), Cell('c', Null, Null), Cell('d', Null, Null)],
    {})

  const ExampleTree: Tree :=
    Node(Disjunct, Neg(Node(Conjunct, Leaf('a'), Leaf('b'))), Node(Implicate, Leaf('c'), Leaf('d')))

  /** A cell without children is copied as a single node. */
  lemma CopyLeaf(m: Memory, a: nat, fuel: nat)
    requires fuel >= 1 && a != Null && Get(m, a).l == Null && Get(m, a).r == Null
    ensures Decode(m, a, fuel) == Leaf(Get(m, a).v) && CopyReads(m, a, fuel) == {a}
  {
  }

  /** A memory that holds `~(a ^ b) v (c > d)` from address 1 in the cells of
      `Example`, with nothing deleted and the next cell at 10. */
  predicate LaidOut(m: Memory)
  {
    && |m.cells| == 10 && m.freed == {}
    && Get(m, 1) == Cell(Disjunct, 2, 7) && Get(m, 2) == Cell(Negation, 3, 4)
    && Get(m, 3) == Cell(Placeholder, Null, Null) && Get(m, 4) == Cell(Conjunct, 5, 6)
    && Get(m, 5) == Cell('a', Null, Null) && Get(m, 6) == Cell('b', Null, Null)
    && Get(m, 7) == Cell(Implicate, 8, 9) && Get(m, 8) == Cell('c', Null, Null)
    && Get(m, 9) == Cell('d', Null, Null)
  }

  lemma ExampleLaidOut()
    ensures LaidOut(Example)
  {
  }

  /** Such a memory holds the sequence. */
  lemma ExampleLayout(m: Memory)
    requires LaidOut(m)
    ensures Formula(ExampleTree) && Decode(m, 1, 5) == ExampleTree
  {
    AtomFormulas();
    CopyLeaf(m, 3, 3);
    CopyLeaf(m, 5, 2);
    CopyLeaf(m, 6, 2);
    CopyLeaf(m, 8, 3);
    CopyLeaf(m, 9, 3);
    assert Decode(m, 4, 3) == Node(Conjunct, Leaf('a'), Leaf('b'));
  }

  lemma AtomFormulas()
    ensures Formula(Leaf('a')) && Formula(Leaf('b')) && Formula(Leaf('c')) && Formula(Leaf('d'))
  {
    assert IsAtom('a') && IsAtom('b') && IsAtom('c') && IsAtom('d');
  }

  /** The cells `addSeqsTreeLeft` copies: `~a v ~b` in place of the first
      component, with fresh placeholders at 10 and 11. */
  predicate MidCells(mid: Memory)
  {
    && mid.freed == {} && Get(mid, 1) == Cell(Disjunct, 2, 7) && Get(mid, 2) == Cell(Disjunct, 3, 4)
    && Get(mid, 3) == Cell(Negation, 10, 5) && Get(mid, 4) == Cell(Negation, 11, 6)
    && Get(mid, 5) == Cell('a', Null, Null) && Get(mid, 6) == Cell('b', Null, Null)
    && Get(mid, 7) == Cell(Implicate, 8, 9) && Get(mid, 8) == Cell('c', Null, Null)
    && Get(mid, 9) == Cell('d', Null, Null)
    && Get(mid, 10) == Cell(Placeholder, Null, Null) && Get(mid, 11) == Cell(Placeholder, Null, Null)
  }

  /** The cells after the undo: as before the rewrite, except that, as
      written, the placeholder at 3 keeps its pointer to the deleted cell 10. */
  predicate RestoredCells(after: Memory, reset: bool)
  {
    && after.freed == {11, 10} && Get(after, 1) == Cell(Disjunct, 2, 7) && Get(after, 2) == Cell(Negation, 3, 4)
    && Get(after, 3) == Cell(Placeholder, if reset then Null else 10, Null) && Get(after, 4) == Cell(Conjunct, 5, 6)
    && Get(after, 5) == Cell('a', Null, Null) && Get(after, 6) == Cell('b', Null, Null)
    && Get(after, 7) == Cell(Implicate, 8, 9) && Get(after, 8) == Cell('c', Null, Null)
    && Get(after, 9) == Cell('d', Null, Null) && Get(after, 10) == Cell(Placeholder, Null, Null)
  }

  /** `SharedForward` on a `~` node at `s` whose two children are distinct
      cells: the left child becomes `~` over a fresh placeholder and the
      left grandchild, the right child `~` over another fresh placeholder
      and the right grandchild, and no other cell changes. */
  lemma ForwardShape(m: Memory, s: nat)
    requires Get(m, s).l != Get(m, s).r && s != Get(m, s).l && s != Get(m, s).r
    requires Get(m, s).l < |m.cells| && Get(m, s).r < |m.cells| && s < |m.cells|
    ensures var lo, ro, p, mid := Get(m, s).l, Get(m, s).r, |m.cells|, SharedForward(m, s);
      && mid.freed == m.freed && |mid.cells| == p + 2 && Get(mid, s) == Get(m, s)
      && Get(mid, lo) == Cell(Negation, p, Get(m, ro).l)
      && Get(mid, ro) == Cell(Negation, p + 1, Get(m, ro).r)
      && Get(mid, p) == Cell(Placeholder, Null, Null) && Get(mid, p + 1) == Cell(Placeholder, Null, Null)
      && forall k :: k != lo && k != ro && k != p && k != p + 1 ==> Get(mid, k) == Get(m, k)
  {
  }

  /** `SharedRestore` on what `SharedForward` left: both placeholders are
      deleted, the right child gets its left grandchild back, the left child
      is a placeholder again, and `s` is `~` again; as written, the left
      child keeps its pointer to the deleted placeholder `p`. */
  lemma RestoreShape(m: Memory, s: nat, reset: bool, p: nat, q: nat)
    requires Get(m, s).l != Get(m, s).r && s != Get(m, s).l && s != Get(m, s).r
    requires Get(m, s).l < |m.cells| && Get(m, s).r < |m.cells| && s < |m.cells|
    requires Get(m, Get(m, s).l).l == p && Get(m, Get(m, s).r).l == q
    ensures var lo, ro, after := Get(m, s).l, Get(m, s).r, SharedRestore(m, s, reset);
      && after.freed == m.freed + {q, p} && |after.cells| == |m.cells|
      && Get(after, s) == Get(m, s).(v := Negation)
      && Get(after, lo) == Cell(Placeholder, if reset then Null else p, Null)
      && Get(after, ro) == Get(m, ro).(l := Get(m, lo).r)
      && forall k :: k != s && k != lo && k != ro ==> Get(after, k) == Get(m, k)
  {
  }

  lemma ForwardCells(m: Memory, reset: bool)
    requires LaidOut(m)
    ensures MidCells(NegatedConjunction(m, 2, reset).0)
  {
    ForwardShape(SetV(m, 2, Disjunct), 2);
  }

  lemma RestoreCells(m: Memory, reset: bool)
    requires LaidOut(m)
    ensures RestoredCells(NegatedConjunction(m, 2, reset).1, reset)
  {
    ForwardCells(m, reset);
    var mid := NegatedConjunction(m, 2, reset).0;
    RestoreShape(mid, 2, reset, 10, 11);
  }

  /** A memory with the cells of `MidCells` holds `~a v ~b` for the first
      component. */
  lemma CopyMid(m: Memory)
    requires MidCells(m)
    ensures Decode(m, 1, 5) == Node(Disjunct, Node(Disjunct, Neg(Leaf('a')), Neg(Leaf('b'))), ExampleTree.r)
  {
    CopyLeaf(m, 5, 2);
    CopyLeaf(m, 6, 2);
    CopyLeaf(m, 10, 2);
    CopyLeaf(m, 11, 2);
    CopyLeaf(m, 8, 3);
    CopyLeaf(m, 9, 3);
    assert Decode(m, 3, 3) == Neg(Leaf('a')) && Decode(m, 4, 3) == Neg(Leaf('b'));
  }

  /** A memory with the cells of `RestoredCells` holds the sequence again
      once `seq->left->left` is cleared; copying it reads the deleted cell 10
      exactly when that pointer is not cleared. */
  lemma CopyRestored(m: Memory, reset: bool)
    requires RestoredCells(m, reset)
    ensures reset ==> Decode(m, 1, 5) == ExampleTree
    ensures 10 in CopyReads(m, 1, 5) <==> !reset
    ensures reset ==> CopyReads(m, 1, 5) !! m.freed
  {
    CopyLeaf(m, 5, 3);
    CopyLeaf(m, 6, 3);
    CopyLeaf(m, 8, 3);
    CopyLeaf(m, 9, 3);
    CopyLeaf(m, 10, 2);
    assert CopyReads(m, 3, 4) == if reset then {3} else {3, 10};
    assert Decode(m, 4, 3) == Node(Conjunct, Leaf('a'), Leaf('b')) && CopyReads(m, 4, 3) == {4, 5, 6};
    assert CopyReads(m, 2, 4) == CopyReads(m, 3, 4) + {2, 4, 5, 6};
    assert CopyReads(m, 7, 4) == {7, 8, 9};
  }

  /** As written: after the rewrite of the first component, the placeholder
      at 3 still points to the deleted cell 10, so the copy that the rewrite of
      `c > d` makes through `addSeqsTreeLeft` reads it. */
  lemma DanglingRead(m: Memory)
    requires LaidOut(m)
    ensures Get(NegatedConjunction(m, 2, false).1, 3).l == 10
    ensures 10 in NegatedConjunction(m, 2, false).1.freed
    ensures 10 in CopyReads(NegatedConjunction(m, 2, false).1, 1, 5)
  {
    RestoreCells(m, false);
    CopyRestored(NegatedConjunction(m, 2, false).1, false);
  }

  /** The copy `addSeqsTreeLeft` makes during the rewrite is the sequence with
      the component rewritten as `RuleFor` says. */
  lemma RewrittenCopy(m: Memory)
    requires LaidOut(m)
    ensures Formula(ExampleTree.l) && RuleFor(ExampleTree.l).One?
    ensures Decode(NegatedConjunction(m, 2, true).0, 1, 5)
            == Plug([LeftOf(ExampleTree.r)], RuleFor(ExampleTree.l).x)
  {
    AtomFormulas();
    assert Formula(Node(Conjunct, Leaf('a'), Leaf('b')));
    assert RuleFor(ExampleTree.l) == One(Node(Disjunct, Neg(Leaf('a')), Neg(Leaf('b'))));
    ForwardCells(m, true);
    CopyMid(NegatedConjunction(m, 2, true).0);
  }

  /** Corrected: once `seq->left->left` is cleared, the undo gives back the
      sequence, and copying it reads no deleted cell. */
  lemma FixedRestores(m: Memory)
    requires LaidOut(m)
    ensures Decode(NegatedConjunction(m, 2, true).1, 1, 5) == ExampleTree
    ensures CopyReads(NegatedConjunction(m, 2, true).1, 1, 5) !! NegatedConjunction(m, 2, true).1.freed
  {
    RestoreCells(m, true);
    CopyRestored(NegatedConjunction(m, 2, true).1, true);
  }
}
