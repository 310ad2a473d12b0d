/**
 * Four tautologies that tautology_checker.py as written does not report as
 * tautologies, run step by step through the model of `evaluate`, and the
 * corrected search that reports them.
 */
module TcFindings {
  import opened Wrappers
  import opened Formulas
  import opened Rules
  import opened ListHeap
  import opened TautologyChecker
  import ValueSearch
  /** `~a => ~a`: the first leaf compares two negations, `NegationOperator`
      has no `equals`, and the exception ends the run with `None`. */
  lemma NegationRun()
    ensures Decide(Implies(Not(Prop("a")), Not(Prop("a")))).res == None
  {
    var na := Not(Prop("a"));
    var f := Implies(na, na);
    var t := Trace([], [], true);
    var s0 := Initial(f);
    assert ScanF(Left, s0, 0, 1, 0, None) == Scanned(s0, 0, 1, true, None);
    var st: Store := [[], [], [na], [na]];
    ImpliesExpand(na, na);
    assert ScanF(Right, s0, 0, 1, 0, None) == Scanned(TcState(st, t), 2, 3, false, None);
    assert PyIn(na, [na]) == Raise;
    assert ScanF(Left, TcState(st, t), 2, 3, 0, None) == Raised(TcState(st, t));
  }

  function OrStore1(): Store
  {
    var nil: seq<Formula> := [];
    [nil, nil, [Or(Prop("a"), Prop("b"))], [Or(Prop("b"), Prop("a"))]]
  }

  lemma OrFirstStep()
    ensures Decide(Implies(Or(Prop("a"), Prop("b")), Or(Prop("b"), Prop("a")))) == EvalF(TcState(OrStore1(), Trace([], [], true)), 2, 3)
  {
    ImpliesFirstStep(Or(Prop("a"), Prop("b")), Or(Prop("b"), Prop("a")));
  }

  lemma OrLeftInstall(a: Formula, b: Formula)
    ensures var nil: seq<Formula> := [];
      var st1r: Store := [nil, nil, nil, [Or(b, a)]];
      && Install(st1r, 2, 3, Premise(Extend([a]), Keep)) == (st1r + [[a]], 4, 3)
      && Install(st1r + [[a]], 2, 3, Premise(Extend([b]), Keep)) == ([nil, nil, nil, [Or(b, a)], [a], [b]], 5, 3)
  {
    var nil: seq<Formula> := [];
    var st1r: Store := [nil, nil, nil, [Or(b, a)]];
    assert nil + [a] == [a] && nil + [b] == [b];
    assert InstallSide(st1r, 2, Extend([a])) == (st1r + [[a]], 4);
    assert st1r + [[a]] + [[b]] == [nil, nil, nil, [Or(b, a)], [a], [b]];
    assert InstallSide(st1r + [[a]], 2, Extend([b])) == ([nil, nil, nil, [Or(b, a)], [a], [b]], 5);
  }

  /** In `[a v b] |- [b v a]`, expanding `a v b` installs `[a]` in entry 4
      and `[b]` in entry 5, both beside the shared entry 3. */
  lemma OrLeftExpandAt(a: Formula, b: Formula)
    ensures var nil: seq<Formula> := [];
      Expand(Left, [nil, nil, [Or(a, b)], [Or(b, a)]], 2, 3, 0)
        == Expansion([Premise(Extend([a]), Keep), Premise(Extend([b]), Keep)], [nil, nil, nil, [Or(b, a)], [a], [b]], 4, 3, 5, 3)
  {
    var nil: seq<Formula> := [];
    var st: Store := [nil, nil, [Or(a, b)], [Or(b, a)]];
    ExpandUnfold(Left, st, 2, 3, 0);
    RuleShapes(a, b);
    RemoveOnly(Or(a, b));
    assert st[2 := []] == [nil, nil, nil, [Or(b, a)]];
    OrLeftInstall(a, b);
  }

  lemma OrLeftExpand()
    ensures Expand(Left, OrStore1(), 2, 3, 0) == Expansion([Premise(Extend([Prop("a")]), Keep), Premise(Extend([Prop("b")]), Keep)], OrStore2(), 4, 3, 5, 3)
  {
    OrLeftExpandAt(Prop("a"), Prop("b"));
  }

  lemma OrLeftScan(t: Trace)
    ensures ScanF(Left, TcState(OrStore1(), t), 2, 3, 0, None) == Scanned(EvalF(TcState(OrStore2(), t), 5, 3).st, 4, 3, false, None)
  {
    assert PyIn(Or(Prop("a"), Prop("b")), [Or(Prop("b"), Prop("a"))]) == Ok(false);
    OrLeftExpand();
    OrBranch(t);
    assert ExpandF(Left, TcState(OrStore1(), t), 2, 3, 0, None) == Scanned(EvalF(TcState(OrStore2(), t), 5, 3).st, 4, 3, false, None);
  }

  /** `(a v b) => (b v a)`: the branch for `b` removes `b v a` from the list
      the branch for `a` shares, which is then left with `[a] |- []`. */
  lemma CommutedOrRun()
    ensures Decide(Implies(Or(Prop("a"), Prop("b")), Or(Prop("b"), Prop("a")))).res == Some(false)
  {
    var t0 := Trace([], [], true);
    OrFirstStep();
    OrLeftScan(t0);
    var out := EvalF(TcState(OrStore2(), t0), 5, 3);
    OrBranch(t0);
    assert ScanF(Right, out.st, 4, 3, 0, None) == Scanned(out.st, 4, 3, true, None);
  }

  function OrStore2(): Store
  {
    var nil: seq<Formula> := [];
    [nil, nil, nil, [Or(Prop("b"), Prop("a"))], [Prop("a")], [Prop("b")]]
  }

  function OrStore3(): Store
  {
    var nil: seq<Formula> := [];
    [nil, nil, nil, nil, [Prop("a")], [Prop("b")], [Prop("b"), Prop("a")]]
  }

  lemma OrBranchLeft(t: Trace)
    ensures ScanF(Left, TcState(OrStore2(), t), 5, 3, 0, None) == Scanned(TcState(OrStore2(), t), 5, 3, true, None)
  {
  }

  /** The rules the runs below use. */
  lemma RuleShapes(x: Formula, y: Formula)
    ensures RuleOn(Left, Or(x, y)) == [Premise(Extend([x]), Keep), Premise(Extend([y]), Keep)]
    ensures RuleOn(Right, Or(x, y)) == [Premise(Keep, Extend([x, y]))]
    ensures RuleOn(Right, Implies(x, y)) == [Premise(Extend([x]), Extend([y]))]
  {
  }

  lemma RemoveOnly(f: Formula)
    ensures RemoveAt([f], 0) == []
  {
  }

  lemma OrBranchInstall(a: Formula, b: Formula)
    ensures var nil: seq<Formula> := [];
      Install([nil, nil, nil, nil, [a], [b]], 5, 3, Premise(Keep, Extend([b, a]))) == ([nil, nil, nil, nil, [a], [b], [b, a]], 5, 6)
  {
    var nil: seq<Formula> := [];
    var st3r: Store := [nil, nil, nil, nil, [a], [b]];
    assert nil + [b, a] == [b, a];
    assert st3r + [[b, a]] == [nil, nil, nil, nil, [a], [b], [b, a]];
    assert InstallSide(st3r, 3, Extend([b, a])) == ([nil, nil, nil, nil, [a], [b], [b, a]], 6);
  }

  /** In `[b] |- [b v a]`, expanding `b v a` empties the shared entry 3 and
      puts `[b, a]` in a new entry 6. */
  lemma OrBranchExpandAt(a: Formula, b: Formula)
    ensures var nil: seq<Formula> := [];
      Expand(Right, [nil, nil, nil, [Or(b, a)], [a], [b]], 5, 3, 0)
        == Expansion([Premise(Keep, Extend([b, a]))], [nil, nil, nil, nil, [a], [b], [b, a]], 5, 6, 5, 6)
  {
    var nil: seq<Formula> := [];
    var st: Store := [nil, nil, nil, [Or(b, a)], [a], [b]];
    ExpandUnfold(Right, st, 5, 3, 0);
    RuleShapes(b, a);
    RemoveOnly(Or(b, a));
    assert st[3 := []] == [nil, nil, nil, nil, [a], [b]];
    OrBranchInstall(a, b);
  }

  lemma OrBranchExpand()
    ensures Expand(Right, OrStore2(), 5, 3, 0) == Expansion([Premise(Keep, Extend([Prop("b"), Prop("a")]))], OrStore3(), 5, 6, 5, 6)
  {
    OrBranchExpandAt(Prop("a"), Prop("b"));
  }

  lemma OrBranchRight(t: Trace)
    ensures ScanF(Right, TcState(OrStore2(), t), 5, 3, 0, None) == Scanned(TcState(OrStore3(), t), 5, 6, false, None)
  {
    var a, b := Prop("a"), Prop("b");
    assert PyIn(Or(b, a), [b]) == Ok(false);
    OrBranchExpand();
  }

  lemma OrBranchClose(t: Trace)
    ensures EvalF(TcState(OrStore3(), t), 5, 6).res == Some(true)
  {
    var a, b := Prop("a"), Prop("b");
    assert PyIn(b, [b, a]) == Ok(true);
    var t1 := AppendLeavesF(t, [b], [b, a]).1;
    assert !AppendLeavesF(t, [b], [b, a]).0;
    assert ScanF(Left, TcState(OrStore3(), t1), 5, 6, 1, Some(true)) == Scanned(TcState(OrStore3(), t1), 5, 6, true, Some(true));
    assert ScanF(Left, TcState(OrStore3(), t), 5, 6, 0, None) == Scanned(TcState(OrStore3(), t1), 5, 6, true, Some(true));
  }

  /** The second premise `[b] |- [b v a]` closes, and empties the shared list of
      the consequents on the way. */
  lemma OrBranch(t: Trace)
    ensures var out := EvalF(TcState(OrStore2(), t), 5, 3);
      out.res == Some(true) && |out.st.store| > 4 && out.st.store[3] == []
  {
    OrBranchLeft(t);
    OrBranchRight(t);
    OrBranchClose(t);
    var out := EvalF(TcState(OrStore3(), t), 5, 6);
    assert EvalF(TcState(OrStore2(), t), 5, 3) == out;
    assert ShrunkList(out.st.store[3], OrStore3()[3]);
  }

  /** The removal of `X => Y` and its rule, on the store of `[] |- [X => Y]`
      (the initial store of both Python engines). */
  lemma ImpliesInstall(x: Formula, y: Formula)
    ensures var nil: seq<Formula> := [];
      Install([nil, nil], 0, 1, Premise(Extend([x]), Extend([y]))) == ([nil, nil, [x], [y]], 2, 3)
  {
    var nil: seq<Formula> := [];
    assert nil + [x] == [x] && nil + [y] == [y];
    assert [nil, nil] + [[x]] == [nil, nil, [x]];
    assert [nil, nil, [x]] + [[y]] == [nil, nil, [x], [y]];
    assert InstallSide([nil, nil], 0, Extend([x])) == ([nil, nil, [x]], 2);
    assert InstallSide([nil, nil, [x]], 1, Extend([y])) == ([nil, nil, [x], [y]], 3);
  }

  lemma ImpliesExpand(x: Formula, y: Formula)
    ensures var nil: seq<Formula> := [];
      Expand(Right, [nil, [Implies(x, y)]], 0, 1, 0) == Expansion([Premise(Extend([x]), Extend([y]))], [nil, nil, [x], [y]], 2, 3, 2, 3)
  {
    var nil: seq<Formula> := [];
    var s0: Store := [nil, [Implies(x, y)]];
    ExpandUnfold(Right, s0, 0, 1, 0);
    RuleShapes(x, y);
    RemoveOnly(Implies(x, y));
    assert s0[1 := []] == [nil, nil];
    ImpliesInstall(x, y);
  }

  /** For `X => Y` the first step always yields `[X] |- [Y]` in entries 2 and 3. */
  lemma ImpliesFirstStep(x: Formula, y: Formula)
    ensures var nil: seq<Formula> := [];
      Decide(Implies(x, y)) == EvalF(TcState([nil, nil, [x], [y]], Trace([], [], true)), 2, 3)
  {
    var t0 := Trace([], [], true);
    var nil: seq<Formula> := [];
    var s0 := Initial(Implies(x, y));
    assert ScanF(Left, s0, 0, 1, 0, None) == Scanned(s0, 0, 1, true, None);
    assert s0.store == [nil, [Implies(x, y)]];
    ImpliesExpand(x, y);
    assert ScanF(Right, s0, 0, 1, 0, None) == Scanned(TcState([nil, nil, [x], [y]], t0), 2, 3, false, None);
  }

  lemma AndExpand()
    ensures var a, b, c := Prop("a"), Prop("b"), Prop("c");
      var nil: seq<Formula> := [];
      Expand(Left, [nil, nil, [And(And(a, b), c)], [a]], 2, 3, 0) ==
        Expansion([Premise(Extend([And(a, b), c]), Keep)], [nil, nil, nil, [a], [And(a, b), c]], 4, 3, 4, 3)
  {
    var a, b, c := Prop("a"), Prop("b"), Prop("c");
    var Y := And(a, b);
    var nil: seq<Formula> := [];
    var st1r: Store := [nil, nil, nil, [a]];
    assert Removed(Left, [nil, nil, [And(Y, c)], [a]], 2, 3, 0) == st1r;
    assert nil + [Y, c] == [Y, c];
    assert st1r + [[Y, c]] == [nil, nil, nil, [a], [Y, c]];
    assert Install(st1r, 2, 3, Premise(Extend([Y, c]), Keep)) == ([nil, nil, nil, [a], [Y, c]], 4, 3);
  }

  function AndStore(): Store
  {
    var a, b, c := Prop("a"), Prop("b"), Prop("c");
    var nil: seq<Formula> := [];
    [nil, nil, nil, [a], [And(a, b), c]]
  }

  lemma AndLeftScan(t: Trace)
    ensures var a, b, c := Prop("a"), Prop("b"), Prop("c");
      var nil: seq<Formula> := [];
      ScanF(Left, TcState([nil, nil, [And(And(a, b), c)], [a]], t), 2, 3, 0, None) == Scanned(TcState(AndStore(), t), 4, 3, false, None)
  {
    var a, b, c := Prop("a"), Prop("b"), Prop("c");
    assert PyIn(And(And(a, b), c), [a]) == Ok(false);
    AndExpand();
  }

  lemma AndRightScan(t: Trace)
    ensures ScanF(Right, TcState(AndStore(), t), 4, 3, 0, None) == Scanned(TcState(AndStore(), t), 4, 3, true, None)
  {
    var a, b, c := Prop("a"), Prop("b"), Prop("c");
    assert [And(a, b), c][1..] == [c];
    assert PyEq(And(a, b), a) == Ok(false);
    assert PyEq(c, a) == Ok(false);
    assert PyIn(a, [c]) == Ok(false);
    assert PyIn(a, [And(a, b), c]) == Ok(false);
    assert ScanF(Right, TcState(AndStore(), t), 4, 3, 1, None) == Scanned(TcState(AndStore(), t), 4, 3, true, None);
  }

  /** `((a ^ b) ^ c) => a`: after the left scan expands the outer conjunction
      the right scan finds only atoms, and `is_nf` from that scan alone stops
      the loop with False while `a ^ b` is still unexpanded. */
  lemma NestedAndRun()
    ensures Decide(Implies(And(And(Prop("a"), Prop("b")), Prop("c")), Prop("a"))).res == Some(false)
  {
    var a, b, c := Prop("a"), Prop("b"), Prop("c");
    var t0 := Trace([], [], true);
    ImpliesFirstStep(And(And(a, b), c), a);
    AndLeftScan(t0);
    AndRightScan(t0);
  }

  lemma ContradictionExpand()
    ensures var a, b := Prop("a"), Prop("b");
      var nil: seq<Formula> := [];
      Expand(Left, [nil, nil, [And(a, Not(a))], [b]], 2, 3, 0) ==
        Expansion([Premise(Extend([a, Not(a)]), Keep)], [nil, nil, nil, [b], [a, Not(a)]], 4, 3, 4, 3)
  {
    var a, b := Prop("a"), Prop("b");
    var nil: seq<Formula> := [];
    var st1r: Store := [nil, nil, nil, [b]];
    assert Removed(Left, [nil, nil, [And(a, Not(a))], [b]], 2, 3, 0) == st1r;
    assert nil + [a, Not(a)] == [a, Not(a)];
    assert st1r + [[a, Not(a)]] == [nil, nil, nil, [b], [a, Not(a)]];
    assert Install(st1r, 2, 3, Premise(Extend([a, Not(a)]), Keep)) == ([nil, nil, nil, [b], [a, Not(a)]], 4, 3);
  }

  function ContradictionStore(): Store
  {
    var a, b := Prop("a"), Prop("b");
    var nil: seq<Formula> := [];
    [nil, nil, nil, [b], [a, Not(a)]]
  }

  lemma ContradictionLeftScan(t: Trace)
    ensures var a, b := Prop("a"), Prop("b");
      var nil: seq<Formula> := [];
      ScanF(Left, TcState([nil, nil, [And(a, Not(a))], [b]], t), 2, 3, 0, None) == Scanned(TcState(ContradictionStore(), t), 4, 3, false, None)
  {
    var a, b := Prop("a"), Prop("b");
    assert PyIn(And(a, Not(a)), [b]) == Ok(false);
    ContradictionExpand();
  }

  lemma ContradictionRightScan(t: Trace)
    ensures ScanF(Right, TcState(ContradictionStore(), t), 4, 3, 0, None) == Scanned(TcState(ContradictionStore(), t), 4, 3, true, None)
  {
  }

  /** `(a ^ ~a) => b`: the left scan splits the conjunction, the right scan
      finds only the atom `b`, and `is_nf` from that scan stops the loop with
      False at `[a, ~a] |- [b]` before `~a` is moved to the right. */
  lemma ContradictionRun()
    ensures Decide(Implies(And(Prop("a"), Not(Prop("a"))), Prop("b"))).res == Some(false)
  {
    var a, b := Prop("a"), Prop("b");
    var t0 := Trace([], [], true);
    ImpliesFirstStep(And(a, Not(a)), b);
    ContradictionLeftScan(t0);
    ContradictionRightScan(t0);
  }

  /** The four formulas are tautologies, and the corrected search reports
      each of them. */
  lemma FindingsAreTautologies()
    ensures var a, b, c := Prop("a"), Prop("b"), Prop("c");
      && Tautology(Implies(Not(a), Not(a))) && ValueSearch.CorrectedEvaluate(Implies(Not(a), Not(a)))
      && Tautology(Implies(Or(a, b), Or(b, a))) && ValueSearch.CorrectedEvaluate(Implies(Or(a, b), Or(b, a)))
      && Tautology(Implies(And(And(a, b), c), a)) && ValueSearch.CorrectedEvaluate(Implies(And(And(a, b), c), a))
      && Tautology(Implies(And(a, Not(a)), b)) && ValueSearch.CorrectedEvaluate(Implies(And(a, Not(a)), b))
  {
    var a, b, c := Prop("a"), Prop("b"), Prop("c");
    forall v: Valuation ensures Eval(Implies(Not(a), Not(a)), v) && Eval(Implies(Or(a, b), Or(b, a)), v) && Eval(Implies(And(And(a, b), c), a), v)
      && Eval(Implies(And(a, Not(a)), b), v) {
    }
  }
}
