/**
 * `buildTree` and `copyTree` of RS_Strategy.cpp. `Build` is the specification
 * of `buildTree`; `None` stands for the undefined behaviour of popping an
 * empty stack when an operator has fewer than two operands before it.
 */
module TreeBuilder {
  import opened Wrappers
  import opened Trees
  import ReversePolish

  /** One character of the post-order string: an operator takes the top two
      trees as its right and left children, any other character is a leaf. */
  function BStep(st: seq<Tree>, c: char): Option<seq<Tree>>
  {
    if Prior(c) >= 1 then
      if |st| < 2 then None else Some(st[..|st| - 2] + [Node(c, st[|st| - 2], st[|st| - 1])])
    else Some(st + [Leaf(c)])
  }

  function BFold(st: seq<Tree>, s: string): (r: Option<seq<Tree>>)
    ensures r.Some? && s != [] ==> r.value != []
    decreases |s|
  {
    if s == [] then Some(st)
    else match BStep(st, s[0])
      case None => None
      case Some(st1) => BFold(st1, s[1..])
  }

  /** What `buildTree` returns: the node made for the last character, or a
      fresh blank node for the empty string. */
  function Build(s: string): Option<Tree>
  {
    if s == [] then Some(Blank())
    else match BFold([], s)
      case None => None
      case Some(st) => Some(st[|st| - 1])
  }

  method BuildTree(s: string) returns (tn: Tree)
    requires Build(s).Some?
    ensures Build(s) == Some(tn)
  {
    tn := Blank();
    if |s| == 0 {
      return;
    }
    var st: seq<Tree> := [];
    var i := 0;
    while i < |s|
      invariant 0 <= i <= |s|
      invariant BFold(st, s[i..]) == BFold([], s) && BFold(st, s[i..]).Some?
      invariant i > 0 ==> st != [] && tn == st[|st| - 1]
    {
      var c := s[i];
      ghost var st0 := st;
      assert s[i..][0] == c && s[i..][1..] == s[i + 1..];
      assert BStep(st0, c).Some? && BFold(BStep(st0, c).value, s[i + 1..]) == BFold(st0, s[i..]);
      if Prior(c) >= 1 {
        var right := st[|st| - 1];
        st := st[..|st| - 1];
        var left := st[|st| - 1];
        st := st[..|st| - 1];
        tn := Node(c, left, right);
        assert st == st0[..|st0| - 2];
      } else {
        tn := Leaf(c);
      }
      st := st + [tn];
      assert st == BStep(st0, c).value;
      i := i + 1;
    }
    assert s[i..] == [];
  }

  lemma BFoldCons(st: seq<Tree>, c: char, rest: string)
    ensures BFold(st, [c] + rest) == match BStep(st, c) case None => None case Some(st1) => BFold(st1, rest)
  {
  }

  /** An operator on top of two trees joins them. */
  lemma BStepJoin(st: seq<Tree>, l: Tree, r: Tree, c: char, rest: string)
    requires Prior(c) >= 1
    ensures BFold(st + [l] + [r], [c] + rest) == BFold(st + [Node(c, l, r)], rest)
  {
    var st2 := st + [l] + [r];
    BFoldCons(st2, c, rest);
    assert st2[..|st2| - 2] == st && st2[|st2| - 2] == l && st2[|st2| - 1] == r;
  }

  lemma PostOrderSplit(t: Tree, rest: string)
    requires t.Node?
    ensures PostOrder(t) + rest == PostOrder(t.l) + (PostOrder(t.r) + ([t.v] + rest))
  {
  }

  /** A leaf character pushes its leaf. */
  lemma BFoldLeaf(t: Tree, st: seq<Tree>, rest: string)
    requires Shaped(t) && Prior(t.v) < 1
    ensures BFold(st, PostOrder(t) + rest) == BFold(st + [t], rest)
  {
  }

  lemma {:induction false} BFoldPostOrder(t: Tree, st: seq<Tree>, rest: string)
    requires Shaped(t)
    ensures BFold(st, PostOrder(t) + rest) == BFold(st + [t], rest)
    decreases t
  {
    if Prior(t.v) >= 1 {
      var Node(c, l, r) := t;
      calc {
        BFold(st, PostOrder(t) + rest);
        { PostOrderSplit(t, rest); }
        BFold(st, PostOrder(l) + (PostOrder(r) + ([c] + rest)));
        { BFoldPostOrder(l, st, PostOrder(r) + ([c] + rest)); }
        BFold(st + [l], PostOrder(r) + ([c] + rest));
        { BFoldPostOrder(r, st + [l], [c] + rest); }
        BFold(st + [l] + [r], [c] + rest);
        { BStepJoin(st, l, r, c, rest); }
        BFold(st + [t], rest);
      }
    } else {
      BFoldLeaf(t, st, rest);
    }
  }

  /** `buildTree` rebuilds every tree of the right shape from its post-order. */
  lemma BuildPostOrder(t: Tree)
    requires Shaped(t)
    ensures Build(PostOrder(t)) == Some(t)
  {
    BFoldPostOrder(t, [], []);
    assert PostOrder(t) + [] == PostOrder(t);
    assert PostOrder(t) != [] by {
      assert PostOrder(t) == PostOrder(t.l) + PostOrder(t.r) + [t.v];
    }
  }

  /** Reading a fully bracketed formula back: the shunting-yard pass and
      `buildTree` together give the formula tree itself. */
  lemma ParseInfix(t: Tree)
    requires Formula(t)
    ensures ReversePolish.Rpn(ReversePolish.Infix(t)) == Some(PostOrder(t))
    ensures Build(PostOrder(t)) == Some(t)
  {
    ReversePolish.RpnOfInfix(t);
    FormulaShaped(t);
    BuildPostOrder(t);
  }

  /** Reading a formula written with the fewest brackets back: the
      shunting-yard pass and `buildTree` together give the formula tree
      itself. */
  lemma ParseMinInfix(t: Tree)
    requires Formula(t)
    ensures ReversePolish.Rpn(ReversePolish.MinInfix(t)) == Some(PostOrder(t))
    ensures Build(PostOrder(t)) == Some(t)
  {
    ReversePolish.RpnOfMinInfix(t);
    FormulaShaped(t);
    BuildPostOrder(t);
  }

  /** `copyTree(ori, target)`: the value of every node of `ori` is written
      into `target`, a blank node is allocated for each child `ori` has, and a
      child `ori` lacks is left as `target` had it. */
  function CopyInto(ori: Tree, target: Tree): (r: Tree)
    requires ori.Node? ==> target.Node?
    ensures ori.Nil? ==> r == target
    ensures ori.Node? ==> r.Node? && r.v == ori.v
    ensures ori.Node? && ori.l.Nil? ==> r.l == target.l
    ensures ori.Node? && ori.r.Nil? ==> r.r == target.r
  {
    match ori
    case Nil => target
    case Node(v, l, r) =>
      Node(v, CopyInto(l, if l.Node? then Blank() else target.l), CopyInto(r, if r.Node? then Blank() else target.r))
  }

  /** Copying into a fresh blank node, as `addSeqsTreeLeft` does, yields the
      tree itself. */
  lemma {:induction false} CopyIntoBlank(ori: Tree)
    requires ori.Node?
    ensures CopyInto(ori, Blank()) == ori
  {
    if ori.l.Node? {
      CopyIntoBlank(ori.l);
    }
    if ori.r.Node? {
      CopyIntoBlank(ori.r);
    }
  }
}
