/**
 * A tautology that RS_Tautology.py as written does not report: in
 * `(a v b) -> (b v a)` the branch for `b` removes `b v a` from the list the
 * branch for `a` shares, which is then left with `[a] |- []`. The corrected
 * search on list values reports it.
 */
module RsFindings {
  import opened Wrappers
  import opened Formulas
  import opened Rules
  import opened ListHeap
  import opened RsTautology
  import TcFindings
  import ValueSearch

  lemma OrStore2NoIff()
    ensures NoIffStore(TcFindings.OrStore2()) && Refs(TcFindings.OrStore2(), 5, 3)
  {
  }

  /** In `[b] |- [b v a]` the right pass expands `b v a`, removing it from
      the shared list. */
  lemma OrBranchRightAt(a: Formula, b: Formula)
    requires NoIff(a) && NoIff(b)
    ensures var nil: seq<Formula> := [];
      var st: Store := [nil, nil, nil, [Or(b, a)], [a], [b]];
      var s := RsState(st, [], [], false);
      && NoIffStore(st) && Refs(st, 5, 3)
      && PassF(Right, s, 5, 3, 0) == Cont(s.(store := [nil, nil, nil, nil, [a], [b], [b, a]]), 5, 6, true)
  {
    var nil: seq<Formula> := [];
    var st: Store := [nil, nil, nil, [Or(b, a)], [a], [b]];
    var s := RsState(st, [], [], false);
    assert NoIffStore(st) by {
      assert forall k :: 0 <= k < |st| ==> forall x :: x in st[k] ==> x == Or(b, a) || x == a || x == b;
    }
    TcFindings.OrBranchExpandAt(a, b);
    assert ExpandRsF(Right, s, 5, 3, 0) == Cont(s.(store := [nil, nil, nil, nil, [a], [b], [b, a]]), 5, 6, true) by {
      ExpandRsUnfold(Right, s, 5, 3, 0);
    }
    assert Or(b, a) != b;
  }

  lemma RsOrBranchRight()
    ensures NoIffStore(TcFindings.OrStore2()) && Refs(TcFindings.OrStore2(), 5, 3)
    ensures var s := RsState(TcFindings.OrStore2(), [], [], false);
      PassF(Right, s, 5, 3, 0) == Cont(s.(store := TcFindings.OrStore3()), 5, 6, true)
  {
    OrBranchRightAt(Prop("a"), Prop("b"));
  }

  /** The second premise `[b] |- [b v a]` closes, and empties the shared list
      of the consequents on the way. */
  lemma RsOrBranch()
    ensures NoIffStore(TcFindings.OrStore2()) && Refs(TcFindings.OrStore2(), 5, 3)
    ensures var out := CallF(RsState(TcFindings.OrStore2(), [], [], false), 5, 3);
      out.res == None && out.st.store == TcFindings.OrStore3()
  {
    var a, b := Prop("a"), Prop("b");
    var s := RsState(TcFindings.OrStore2(), [], [], false);
    OrStore2NoIff();
    assert Or(b, a) != b;
    assert PassF(Left, s, 5, 3, 1) == Cont(s, 5, 3, false);
    assert PassF(Left, s, 5, 3, 0) == Cont(s, 5, 3, false);
    RsOrBranchRight();
    var s3 := s.(store := TcFindings.OrStore3());
    assert b in [b, a];
    assert PassF(Left, s3, 5, 6, 0) == Closed(AppendLeafNodesF(s3, [b], [b, a]));
  }

  /** What is left of the branch for `a` is `[a] |- []`, which fails. */
  lemma RsOrRest(t: RsState)
    requires t.store == TcFindings.OrStore3()
    ensures NoIffStore(t.store) && Refs(t.store, 4, 3)
    ensures CallF(t, 4, 3).res == Some(NotTautology)
  {
    var a, b := Prop("a"), Prop("b");
    assert NoIffStore(t.store) by {
      assert forall k :: 0 <= k < |t.store| ==> forall x :: x in t.store[k] ==> x in {a, b};
    }
    assert PassF(Left, t, 4, 3, 1) == Cont(t, 4, 3, false);
    assert PassF(Left, t, 4, 3, 0) == Cont(t, 4, 3, false);
    assert PassF(Right, t, 4, 3, 0) == Cont(t, 4, 3, false);
  }

  /** A round in which either pass expanded is followed by the next round. */
  lemma NextRound(s: RsState, l: nat, r: nat, s1: RsState, l1: nat, r1: nat, ex1: bool, s2: RsState, l2: nat, r2: nat, ex2: bool)
    requires Refs(s.store, l, r) && NoIffStore(s.store)
    requires PassF(Left, s, l, r, 0) == Cont(s1, l1, r1, ex1)
    requires PassF(Right, s1, l1, r1, 0) == Cont(s2, l2, r2, ex2)
    requires ex1 || ex2
    ensures CallF(s, l, r) == CallF(s2, l2, r2)
  {
  }

  /** The left pass of `[] |- [X => Y]` has nothing to look at. */
  lemma ImpliesLeftPass(x: Formula, y: Formula)
    requires NoIff(x) && NoIff(y)
    ensures NoIffStore(Initial(Implies(x, y)).store) && Refs(Initial(Implies(x, y)).store, 0, 1)
    ensures PassF(Left, Initial(Implies(x, y)), 0, 1, 0) == Cont(Initial(Implies(x, y)), 0, 1, false)
  {
  }

  /** The right pass of `[] |- [X => Y]` expands the implication into
      `[X] |- [Y]`, in entries 2 and 3. */
  lemma ImpliesRightPass(x: Formula, y: Formula)
    requires NoIff(x) && NoIff(y)
    ensures NoIffStore(Initial(Implies(x, y)).store) && Refs(Initial(Implies(x, y)).store, 0, 1)
    ensures var nil: seq<Formula> := [];
      var st: Store := [nil, nil, [x], [y]];
      && NoIffStore(st) && Refs(st, 2, 3)
      && PassF(Right, Initial(Implies(x, y)), 0, 1, 0) == Cont(Initial(Implies(x, y)).(store := st), 2, 3, true)
  {
    var nil: seq<Formula> := [];
    ImpliesLeftPass(x, y);
    var st: Store := [nil, nil, [x], [y]];
    assert NoIffStore(st) by {
      assert forall k :: 0 <= k < |st| ==> forall f :: f in st[k] ==> f == x || f == y;
    }
    TcFindings.ImpliesExpand(x, y);
  }

  /** For `X => Y` the first round always hands `[X] |- [Y]`, in entries 2
      and 3, to the next. */
  lemma ImpliesRound(x: Formula, y: Formula)
    requires NoIff(x) && NoIff(y)
    ensures var nil: seq<Formula> := [];
      var st: Store := [nil, nil, [x], [y]];
      && NoIffStore(st) && Refs(st, 2, 3) && NoIff(Implies(x, y))
      && CallF(Initial(Implies(x, y)), 0, 1) == CallF(RsState(st, [], [], false), 2, 3)
  {
    var nil: seq<Formula> := [];
    var s0 := Initial(Implies(x, y));
    var st: Store := [nil, nil, [x], [y]];
    ImpliesLeftPass(x, y);
    ImpliesRightPass(x, y);
    NextRound(s0, 0, 1, s0, 0, 1, false, s0.(store := st), 2, 3, true);
  }

  /** The first round: the left pass finds nothing, the right pass expands
      the implication into `[a v b] |- [b v a]`. */
  lemma RsImpliesStep()
    ensures NoIffStore(TcFindings.OrStore1()) && Refs(TcFindings.OrStore1(), 2, 3)
    ensures var f := Implies(Or(Prop("a"), Prop("b")), Or(Prop("b"), Prop("a")));
      NoIff(f) && CallF(Initial(f), 0, 1) == CallF(RsState(TcFindings.OrStore1(), [], [], false), 2, 3)
  {
    var a, b := Prop("a"), Prop("b");
    var nil: seq<Formula> := [];
    ImpliesRound(Or(a, b), Or(b, a));
    assert TcFindings.OrStore1() == [nil, nil, [Or(a, b)], [Or(b, a)]];
  }

  lemma OrStore1NoIff()
    ensures NoIffStore(TcFindings.OrStore1()) && Refs(TcFindings.OrStore1(), 2, 3)
  {
  }

  /** The left pass of the second round expands `a v b` and searches the
      branch for `b` at once. */
  lemma RsOrLeftPass()
    ensures NoIffStore(TcFindings.OrStore1()) && Refs(TcFindings.OrStore1(), 2, 3)
    ensures NoIffStore(TcFindings.OrStore2()) && Refs(TcFindings.OrStore2(), 5, 3)
    ensures var out := CallF(RsState(TcFindings.OrStore2(), [], [], false), 5, 3);
      PassF(Left, RsState(TcFindings.OrStore1(), [], [], false), 2, 3, 0) == Cont(out.st, 4, 3, true)
  {
    var s1 := RsState(TcFindings.OrStore1(), [], [], false);
    OrStore1NoIff();
    TcFindings.OrLeftExpand();
    RsOrBranch();
    var out := CallF(s1.(store := TcFindings.OrStore2()), 5, 3);
    assert ExpandRsF(Left, s1, 2, 3, 0) == Cont(out.st, 4, 3, true) by {
      ExpandRsUnfold(Left, s1, 2, 3, 0);
    }
    assert Or(Prop("a"), Prop("b")) != Or(Prop("b"), Prop("a"));
  }

  /** The second round: the left pass expands `a v b`, whose branch for `b`
      empties the shared consequents, and the rest `[a] |- []` fails. */
  lemma RsOrStep()
    ensures NoIffStore(TcFindings.OrStore1()) && Refs(TcFindings.OrStore1(), 2, 3)
    ensures CallF(RsState(TcFindings.OrStore1(), [], [], false), 2, 3).res == Some(NotTautology)
  {
    RsOrLeftPass();
    RsOrBranch();
    var out := CallF(RsState(TcFindings.OrStore2(), [], [], false), 5, 3);
    RsOrRest(out.st);
    assert PassF(Right, out.st, 4, 3, 0) == Cont(out.st, 4, 3, false);
  }

  /** `(a v b) -> (b v a)` is reported as "not a tautology". */
  lemma RsCommutedOrRun()
    ensures Decide(Implies(Or(Prop("a"), Prop("b")), Or(Prop("b"), Prop("a")))).res == Some(NotTautology)
  {
    RsImpliesStep();
    RsOrStep();
  }

  /** The formula is a tautology, and the corrected search reports it. */
  lemma RsCommutedOrTautology()
    ensures var f := Implies(Or(Prop("a"), Prop("b")), Or(Prop("b"), Prop("a")));
      Tautology(f) && ValueSearch.CorrectedCall(f) == None
  {
  }
}
