/**
 * The two-sided sequent engine of tautology_checker.py: structural equality
 * that raises on negations, the leaf log with its run-wide fundamental flag,
 * and the search `evaluate` with its left and right scans over shared lists.
 *
 * The specification functions below (`ScanF`, `ExpandF`, `EvalF`) describe one
 * call over the list store; the class `Engine` further down holds the same
 * state in fields and runs the source's loops, and every method of it is
 * proved to produce exactly what the functions describe.
 */
module TautologyChecker {
  import opened Wrappers
  import opened Formulas
  import opened Rules
  import opened ListHeap
  import opened Printing

  /** The value of a Python expression that may raise an exception. */
  datatype Py<+T> = Ok(value: T) | Raise

  /** Short-circuit `p and q` over two comparisons. */
  function Both(p: Py<bool>, q: Py<bool>): Py<bool>
  {
    match p
    case Raise => Raise
    case Ok(b) => if b then q else Ok(false)
  }

  /** `x == y` (`Expression.__eq__`): the same class and then `equals`.
      `NegationOperator` has no `equals`, so comparing two negations raises. */
  function PyEq(x: Formula, y: Formula): Py<bool>
  {
    match (x, y)
    case (Prop(a), Prop(b)) => Ok(a == b)
    case (Not(_), Not(_)) => Raise
    case (And(a, b), And(c, d)) => Both(PyEq(a, c), PyEq(b, d))
    case (Or(a, b), Or(c, d)) => Both(PyEq(a, c), PyEq(b, d))
    case (Implies(a, b), Implies(c, d)) => Both(PyEq(a, c), PyEq(b, d))
    case (Iff(a, b), Iff(c, d)) => Both(PyEq(a, c), PyEq(b, d))
    case _ => Ok(false)
  }

  /** A comparison that does not raise decides structural equality. */
  lemma {:induction false} PyEqSound(x: Formula, y: Formula)
    requires PyEq(x, y).Ok?
    ensures PyEq(x, y).value == (x == y)
  {
    match (x, y) {
      case (And(a, b), And(c, d)) => PyEqSound(a, c); if PyEq(a, c).value { PyEqSound(b, d); }
      case (Or(a, b), Or(c, d)) => PyEqSound(a, c); if PyEq(a, c).value { PyEqSound(b, d); }
      case (Implies(a, b), Implies(c, d)) => PyEqSound(a, c); if PyEq(a, c).value { PyEqSound(b, d); }
      case (Iff(a, b), Iff(c, d)) => PyEqSound(a, c); if PyEq(a, c).value { PyEqSound(b, d); }
      case _ =>
    }
  }

  predicate NotFree(f: Formula)
  {
    match f
    case Prop(_) => true
    case Not(_) => false
    case And(a, b) => NotFree(a) && NotFree(b)
    case Or(a, b) => NotFree(a) && NotFree(b)
    case Implies(a, b) => NotFree(a) && NotFree(b)
    case Iff(a, b) => NotFree(a) && NotFree(b)
  }

  /** Without a negation on one side the comparison never raises. */
  lemma {:induction false} PyEqNotFree(x: Formula, y: Formula)
    requires NotFree(x)
    ensures PyEq(x, y) == Ok(x == y)
  {
    match (x, y) {
      case (And(a, b), And(c, d)) => PyEqNotFree(a, c); PyEqNotFree(b, d);
      case (Or(a, b), Or(c, d)) => PyEqNotFree(a, c); PyEqNotFree(b, d);
      case (Implies(a, b), Implies(c, d)) => PyEqNotFree(a, c); PyEqNotFree(b, d);
      case (Iff(a, b), Iff(c, d)) => PyEqNotFree(a, c); PyEqNotFree(b, d);
      case _ =>
    }
  }

  /** Which operand's `__eq__` Python calls does not matter. */
  lemma {:induction false} PyEqSymmetric(x: Formula, y: Formula)
    ensures PyEq(x, y) == PyEq(y, x)
  {
    match (x, y) {
      case (And(a, b), And(c, d)) => PyEqSymmetric(a, c); PyEqSymmetric(b, d);
      case (Or(a, b), Or(c, d)) => PyEqSymmetric(a, c); PyEqSymmetric(b, d);
      case (Implies(a, b), Implies(c, d)) => PyEqSymmetric(a, c); PyEqSymmetric(b, d);
      case (Iff(a, b), Iff(c, d)) => PyEqSymmetric(a, c); PyEqSymmetric(b, d);
      case _ =>
    }
  }

  /** `x in xs`: compares with each element in order, stopping at the first
      match or the first comparison that raises. */
  function PyIn(x: Formula, xs: seq<Formula>): Py<bool>
  {
    if xs == [] then Ok(false)
    else
      match PyEq(xs[0], x)
      case Raise => Raise
      case Ok(b) => if b then Ok(true) else PyIn(x, xs[1..])
  }

  lemma {:induction false} PyInSound(x: Formula, xs: seq<Formula>)
    requires PyIn(x, xs).Ok?
    ensures PyIn(x, xs).value == (x in xs)
  {
    if xs != [] {
      PyEqSound(xs[0], x);
      if !PyEq(xs[0], x).value {
        PyInSound(x, xs[1..]);
        assert xs == [xs[0]] + xs[1..];
      }
    }
  }

  /** How the `__str__` methods of the four binary operator classes write
      their operator. */
  const StrSpelling := Spelling(" ^ ", " v ", " => ", " <=> ")

  /** The logged form of a leaf: `"~"+str(f)` for each antecedent, then `str(f)`
      for each consequent. */
  function LeafStrings(left: seq<Formula>, right: seq<Formula>): seq<string>
  {
    Leaf(StrSpelling, left, right)
  }

  /** The leaf log records each leaf's sequent: with atom names free of
      brackets, blanks and `~`, two leaves with the same number of
      antecedents are logged alike only when they are the same sequent. */
  lemma LeafStringsRecord(l1: seq<Formula>, r1: seq<Formula>, l2: seq<Formula>, r2: seq<Formula>)
    requires AllPlain(l1) && AllPlain(r1) && AllPlain(l2) && AllPlain(r2)
    requires |l1| == |l2| && LeafStrings(l1, r1) == LeafStrings(l2, r2)
    ensures l1 == l2 && r1 == r2
  {
    LeafDetermines(StrSpelling, l1, r1, l2, r2);
  }

  /** The count loop of `_append_leaves`: how many antecedents occur among the
      consequents, raising where a comparison raises. */
  function CountIn(left: seq<Formula>, right: seq<Formula>): Py<nat>
    decreases |left|
  {
    if left == [] then Ok(0)
    else
      match CountIn(left[..|left| - 1], right)
      case Raise => Raise
      case Ok(n) =>
        match PyIn(left[|left| - 1], right)
        case Raise => Raise
        case Ok(b) => Ok(if b then n + 1 else n)
  }

  /** The count reaches `len(left)` exactly when every antecedent is a consequent. */
  lemma {:induction false} CountInSound(left: seq<Formula>, right: seq<Formula>)
    requires CountIn(left, right).Ok?
    ensures CountIn(left, right).value <= |left|
    ensures CountIn(left, right).value == |left| <==> forall x :: x in left ==> x in right
  {
    if left != [] {
      var init := left[..|left| - 1];
      var last := left[|left| - 1];
      CountInSound(init, right);
      PyInSound(last, right);
      assert left == init + [last];
      assert forall x :: x in left <==> x in init || x == last;
    }
  }

  /** An exception in the count loop ends it: a raising prefix makes the whole count raise. */
  lemma {:induction false} CountRaisesOnPrefix(left: seq<Formula>, right: seq<Formula>, j: nat)
    requires j <= |left| && CountIn(left[..j], right) == Raise
    ensures CountIn(left, right) == Raise
    decreases |left| - j
  {
    if j < |left| {
      assert left[..j + 1][..j] == left[..j];
      CountRaisesOnPrefix(left, right, j + 1);
    } else {
      assert left[..j] == left;
    }
  }

  /** Equal length and every antecedent among the consequents. */
  predicate Contained(left: seq<Formula>, right: seq<Formula>)
  {
    |left| == |right| && forall x :: x in left ==> x in right
  }

  /** The globals `leaf_list`, `fundamental_list` and `is_fundamental`. */
  datatype Trace = Trace(leafList: seq<seq<string>>, fundamentalList: seq<seq<string>>, isFundamental: bool)

  datatype TcState = TcState(store: Store, trace: Trace)

  /** `_append_leaves(left, right)`: whether it raised, and the new globals (the
      leaf is already in `leaf_list` when the count loop raises). */
  function AppendLeavesF(t: Trace, left: seq<Formula>, right: seq<Formula>): (bool, Trace)
  {
    var leaves := LeafStrings(left, right);
    var t1 := t.(leafList := t.leafList + [leaves]);
    if |left| == |right| then
      match CountIn(left, right)
      case Raise => (true, t1)
      case Ok(count) =>
        var t2 := if count == |left| then t1.(isFundamental := false, fundamentalList := t1.fundamentalList + [leaves]) else t1;
        (false, if t2.isFundamental then t2.(fundamentalList := t2.fundamentalList + [leaves]) else t2)
    else
      (false, if t1.isFundamental then t1.(fundamentalList := t1.fundamentalList + [leaves]) else t1)
  }

  /** Every leaf is logged; a contained leaf is added to the fundamental list
      once and clears the flag; any other leaf is added only while the flag is
      still set. The call raises only from the count loop. */
  lemma AppendLeavesClassifies(t: Trace, left: seq<Formula>, right: seq<Formula>)
    ensures AppendLeavesF(t, left, right).1.leafList == t.leafList + [LeafStrings(left, right)]
    ensures AppendLeavesF(t, left, right).0 <==> |left| == |right| && CountIn(left, right).Raise?
    ensures AppendLeavesF(t, left, right).0 ==>
              AppendLeavesF(t, left, right).1.fundamentalList == t.fundamentalList &&
              AppendLeavesF(t, left, right).1.isFundamental == t.isFundamental
    ensures !AppendLeavesF(t, left, right).0 ==>
              AppendLeavesF(t, left, right).1.fundamentalList ==
                t.fundamentalList + (if Contained(left, right) || t.isFundamental then [LeafStrings(left, right)] else []) &&
              AppendLeavesF(t, left, right).1.isFundamental == (t.isFundamental && !Contained(left, right))
  {
    if |left| == |right| && CountIn(left, right).Ok? {
      CountInSound(left, right);
    }
  }

  /** What one scan (`_evaluate_left` or `_evaluate_right`) hands back to
      `evaluate`: the new sides, `is_nf` and `is_return`; or an exception. */
  datatype Scan = Scanned(st: TcState, l: nat, r: nat, nf: bool, ret: Option<bool>) | Raised(st: TcState)

  /** What one call of `evaluate` returns (`None` after a caught exception). */
  datatype Outcome = Outcome(res: Option<bool>, st: TcState)

  /** The scan loop from index `i` of its side, with `is_return` so far `ret`:
      an antecedent (consequent) also on the other side logs a leaf and sets
      `ret`, the scan goes on; the first compound formula is expanded and ends it. */
  function ScanF(side: Side, s: TcState, l: nat, r: nat, i: nat, ret: Option<bool>): (res: Scan)
    requires Refs(s.store, l, r) && i <= |s.store[Own(side, l, r)]|
    ensures Shrunk(s.store, res.st.store)
    ensures res.Raised? ==> res.st.store == s.store
    ensures res.Scanned? ==> Refs(res.st.store, res.l, res.r) && Measure(res.st.store, res.l, res.r) <= Measure(s.store, l, r)
    ensures res.Scanned? && !res.nf ==> Measure(res.st.store, res.l, res.r) < Measure(s.store, l, r)
    ensures res.Scanned? && res.nf ==> res.l == l && res.r == r && res.st.store == s.store
    decreases Measure(s.store, l, r), 2, |s.store[Own(side, l, r)]| - i
  {
    var own := s.store[Own(side, l, r)];
    if i == |own| then
      ShrunkRefl(s.store);
      Scanned(s, l, r, true, ret)
    else
      var e := own[i];
      match PyIn(e, s.store[Other(side, l, r)])
      case Raise => ShrunkRefl(s.store); Raised(s)
      case Ok(hit) =>
        var (raised, t1) := if hit then AppendLeavesF(s.trace, s.store[l], s.store[r]) else (false, s.trace);
        if raised then ShrunkRefl(s.store); Raised(TcState(s.store, t1))
        else
          var ret1 := if hit then Some(true) else ret;
          if e.Prop? then ScanF(side, TcState(s.store, t1), l, r, i + 1, ret1)
          else ExpandF(side, TcState(s.store, t1), l, r, i, ret1)
  }

  /** The expansion in a scan, and for a two-premise rule the recursive
      `evaluate` of the second premise; a falsy result sets `ret` to False. */
  function ExpandF(side: Side, s: TcState, l: nat, r: nat, i: nat, ret: Option<bool>): (res: Scan)
    requires Refs(s.store, l, r) && i < |s.store[Own(side, l, r)]| && !s.store[Own(side, l, r)][i].Prop?
    ensures Shrunk(s.store, res.st.store)
    ensures res.Scanned? && !res.nf
    ensures Refs(res.st.store, res.l, res.r) && Measure(res.st.store, res.l, res.r) < Measure(s.store, l, r)
    decreases Measure(s.store, l, r), 1
  {
    var x := Expand(side, s.store, l, r, i);
    if |x.rule| == 1 then
      Scanned(TcState(x.store, s.trace), x.l, x.r, false, ret)
    else
      var out := EvalF(TcState(x.store, s.trace), x.bl, x.br);
      ShrunkTrans(s.store, x.store, out.st.store);
      ShrunkMeasure(x.store, out.st.store, x.l, x.r);
      Scanned(out.st, x.l, x.r, false, if out.res == Some(true) then ret else Some(false))
  }

  /** `ScanF` at an index inside the side, case by case. */
  lemma ScanAt(side: Side, s: TcState, l: nat, r: nat, i: nat, ret: Option<bool>)
    requires Refs(s.store, l, r) && i < |s.store[Own(side, l, r)]|
    ensures var e := s.store[Own(side, l, r)][i];
      var hit := PyIn(e, s.store[Other(side, l, r)]);
      var (raised, t1) := if hit.Ok? && hit.value then AppendLeavesF(s.trace, s.store[l], s.store[r]) else (false, s.trace);
      var ret1 := if hit.Ok? && hit.value then Some(true) else ret;
      && (hit.Raise? ==> ScanF(side, s, l, r, i, ret) == Raised(s))
      && (hit.Ok? && raised ==> ScanF(side, s, l, r, i, ret) == Raised(TcState(s.store, t1)))
      && (hit.Ok? && !raised && e.Prop? ==> ScanF(side, s, l, r, i, ret) == ScanF(side, TcState(s.store, t1), l, r, i + 1, ret1))
      && (hit.Ok? && !raised && !e.Prop? ==> ScanF(side, s, l, r, i, ret) == ExpandF(side, TcState(s.store, t1), l, r, i, ret1))
  {
  }

  /** `evaluate(left_side, right_side)`: left scan, then right scan, then stop
      with False when the right scan expanded nothing; an exception anywhere in
      this frame's scans gives `None`. */
  function EvalF(s: TcState, l: nat, r: nat): (out: Outcome)
    requires Refs(s.store, l, r)
    ensures Shrunk(s.store, out.st.store)
    decreases Measure(s.store, l, r), 3
  {
    match ScanF(Left, s, l, r, 0, None)
    case Raised(s1) => Outcome(None, s1)
    case Scanned(s1, l1, r1, _, ret1) =>
      if ret1.Some? then Outcome(ret1, s1)
      else
        match ScanF(Right, s1, l1, r1, 0, None)
        case Raised(s2) => ShrunkTrans(s.store, s1.store, s2.store); Outcome(None, s2)
        case Scanned(s2, l2, r2, nf2, ret2) =>
          ShrunkTrans(s.store, s1.store, s2.store);
          if ret2.Some? then Outcome(ret2, s2)
          else if nf2 then Outcome(Some(false), s2)
          else
            var out := EvalF(s2, l2, r2);
            ShrunkTrans(s.store, s2.store, out.st.store);
            out
  }

  /** The globals before `prop_expr.evaluate([], [prop_expr])`, with the two
      argument lists as store entries 0 and 1. */
  function Initial(f: Formula): TcState
  {
    TcState([[], [f]], Trace([], [], true))
  }

  /** The verdict the program prints for `f`. */
  function Decide(f: Formula): Outcome
  {
    EvalF(Initial(f), 0, 1)
  }

  /** What a scan's verdict says about the sequent it started from: `True`
      means that sequent is valid; no verdict means it is valid if the sequent
      the scan hands on is. */
  ghost predicate ScanJustified(s: Store, l: nat, r: nat, res: Scan)
    requires Refs(s, l, r)
  {
    res.Scanned? && Refs(res.st.store, res.l, res.r) ==>
      (res.ret == Some(true) ==> Valid(s[l], s[r])) &&
      (res.ret == None ==> Valid(res.st.store[res.l], res.st.store[res.r]) ==> Valid(s[l], s[r]))
  }

  lemma {:induction false} ScanSound(side: Side, s: TcState, l: nat, r: nat, i: nat, ret: Option<bool>)
    requires Refs(s.store, l, r) && i <= |s.store[Own(side, l, r)]|
    requires ret != Some(false) && (ret == Some(true) ==> Valid(s.store[l], s.store[r]))
    ensures ScanJustified(s.store, l, r, ScanF(side, s, l, r, i, ret))
    decreases Measure(s.store, l, r), 2, |s.store[Own(side, l, r)]| - i
  {
    var own := s.store[Own(side, l, r)];
    if i < |own| {
      var e := own[i];
      var hitP := PyIn(e, s.store[Other(side, l, r)]);
      if hitP.Ok? {
        var hit := hitP.value;
        if hit {
          PyInSound(e, s.store[Other(side, l, r)]);
          Axiom(s.store[l], s.store[r], e);
        }
        var (raised, t1) := if hit then AppendLeavesF(s.trace, s.store[l], s.store[r]) else (false, s.trace);
        if !raised {
          var ret1 := if hit then Some(true) else ret;
          if e.Prop? {
            ScanSound(side, TcState(s.store, t1), l, r, i + 1, ret1);
          } else {
            ExpandSound(side, TcState(s.store, t1), l, r, i, ret1);
          }
        }
      }
    }
  }

  lemma {:induction false} ExpandSound(side: Side, s: TcState, l: nat, r: nat, i: nat, ret: Option<bool>)
    requires Refs(s.store, l, r) && i < |s.store[Own(side, l, r)]| && !s.store[Own(side, l, r)][i].Prop?
    requires ret != Some(false) && (ret == Some(true) ==> Valid(s.store[l], s.store[r]))
    ensures ScanJustified(s.store, l, r, ExpandF(side, s, l, r, i, ret))
    decreases Measure(s.store, l, r), 1
  {
    var x := Expand(side, s.store, l, r, i);
    var res := ExpandF(side, s, l, r, i, ret);
    if res.ret == None && Valid(res.st.store[res.l], res.st.store[res.r]) {
      if |x.rule| == 2 {
        var out := EvalF(TcState(x.store, s.trace), x.bl, x.br);
        EvalSound(TcState(x.store, s.trace), x.bl, x.br);
        assert ShrunkList(out.st.store[x.l], x.store[x.l]) && ShrunkList(out.st.store[x.r], x.store[x.r]);
        Weaken(res.st.store[res.l], res.st.store[res.r], x.store[x.l], x.store[x.r]);
      }
      ExpandStepSound(side, s.store, l, r, i);
    }
  }

  /** Soundness: when `evaluate` answers True, the sequent it was called on is
      valid (in the store as it stood at the call). */
  lemma {:induction false} EvalSound(s: TcState, l: nat, r: nat)
    requires Refs(s.store, l, r)
    ensures EvalF(s, l, r).res == Some(true) ==> Valid(s.store[l], s.store[r])
    decreases Measure(s.store, l, r), 3
  {
    var sc := ScanF(Left, s, l, r, 0, None);
    ScanSound(Left, s, l, r, 0, None);
    if sc.Scanned? && sc.ret.None? {
      var sc2 := ScanF(Right, sc.st, sc.l, sc.r, 0, None);
      ScanSound(Right, sc.st, sc.l, sc.r, 0, None);
      if sc2.Scanned? && sc2.ret.None? && !sc2.nf {
        EvalSound(sc2.st, sc2.l, sc2.r);
      }
    }
  }

  /** The program reports a tautology only for a tautology. */
  lemma DecideSound(f: Formula)
    ensures Decide(f).res == Some(true) ==> Tautology(f)
  {
    EvalSound(Initial(f), 0, 1);
    InitialSequent(f);
  }

  /** The program's state: the list objects the search works on and the three
      globals of the leaf log. The methods are those of `Expression`, which
      act on the globals only. */
  class Engine {
    var store: Store
    var leafList: seq<seq<string>>
    var fundamentalList: seq<seq<string>>
    var isFundamental: bool

    function State(): TcState
      reads this
    {
      TcState(store, Trace(leafList, fundamentalList, isFundamental))
    }

    /** The globals as the module leaves them, and the argument lists of
        `prop_expr.evaluate([], [prop_expr])`. */
    constructor (f: Formula)
      ensures State() == Initial(f)
    {
      store := [[], [f]];
      leafList := [];
      fundamentalList := [];
      isFundamental := true;
    }

    /** `_append_leaves`; `raised` reports the exception of the count loop. */
    method AppendLeaves(left: seq<Formula>, right: seq<Formula>) returns (raised: bool)
      modifies this
      ensures (raised, State().trace) == AppendLeavesF(old(State()).trace, left, right)
      ensures store == old(store)
    {
      var leaves := LeafStrings(left, right);
      leafList := leafList + [leaves];
      if |left| == |right| {
        var count := 0;
        var i := 0;
        while i < |left|
          invariant 0 <= i <= |left|
          invariant CountIn(left[..i], right) == Ok(count)
        {
          assert left[..i + 1][..i] == left[..i];
          var hit := PyIn(left[i], right);
          if hit.Raise? {
            assert CountIn(left[..i + 1], right) == Raise;
            CountRaisesOnPrefix(left, right, i + 1);
            return true;
          }
          if hit.value {
            count := count + 1;
          }
          i := i + 1;
        }
        assert left[..i] == left;
        if |left| == count {
          isFundamental := false;
          fundamentalList := fundamentalList + [leaves];
        }
      }
      if isFundamental {
        fundamentalList := fundamentalList + [leaves];
      }
      return false;
    }

    /** `_evaluate_left` (`side == Left`) or `_evaluate_right`; `raised` reports
        an exception, which leaves the rest of the results meaningless. */
    method Scan(side: Side, l: nat, r: nat) returns (raised: bool, l1: nat, r1: nat, nf: bool, ret: Option<bool>)
      requires Refs(store, l, r)
      modifies this
      ensures var sc := ScanF(side, old(State()), l, r, 0, None);
        State() == sc.st && raised == sc.Raised? &&
        (sc.Scanned? ==> l1 == sc.l && r1 == sc.r && nf == sc.nf && ret == sc.ret)
      decreases Measure(store, l, r), 3
    {
      ghost var goal := ScanF(side, State(), l, r, 0, None);
      ret := None;
      var i := 0;
      while i < |store[Own(side, l, r)]|
        invariant Refs(store, l, r) && i <= |store[Own(side, l, r)]|
        invariant store == old(store)
        invariant ScanF(side, State(), l, r, i, ret) == goal
      {
        var stop;
        stop, raised, l1, r1, ret := Visit(side, l, r, i, ret);
        if stop {
          return raised, l1, r1, false, ret;
        }
        i := i + 1;
      }
      return false, l, r, true, ret;
    }

    /** One turn of the `for` loop of a scan: the membership test, the leaves
        of a closed sequent, and the expansion of a compound formula, after
        which (or after an exception) the scan stops. */
    method Visit(side: Side, l: nat, r: nat, i: nat, ret: Option<bool>) returns (stop: bool, raised: bool, l1: nat, r1: nat, ret1: Option<bool>)
      requires Refs(store, l, r) && i < |store[Own(side, l, r)]|
      modifies this
      ensures var sc := ScanF(side, old(State()), l, r, i, ret);
        && (stop ==> State() == sc.st && raised == sc.Raised?)
        && (stop && sc.Scanned? ==> l1 == sc.l && r1 == sc.r && !sc.nf && ret1 == sc.ret)
        && (!stop ==> store == old(store) && sc == ScanF(side, State(), l, r, i + 1, ret1))
      decreases Measure(store, l, r), 2
    {
      var e := store[Own(side, l, r)][i];
      var hit := PyIn(e, store[Other(side, l, r)]);
      ScanAt(side, State(), l, r, i, ret);
      l1, r1, ret1 := l, r, ret;
      if hit.Raise? {
        return true, true, l, r, ret;
      }
      if hit.value {
        raised := AppendLeaves(store[l], store[r]);
        if raised {
          return true, true, l, r, ret;
        }
        ret1 := Some(true);
      }
      if !e.Prop? {
        l1, r1, ret1 := ExpandStep(side, l, r, i, ret1);
        return true, false, l1, r1, ret1;
      }
      return false, false, l, r, ret1;
    }

    /** Removes the formula at index `i` of the scanned side, applies its rule,
        and for a two-premise rule evaluates the second premise first. */
    method ExpandStep(side: Side, l: nat, r: nat, i: nat, ret: Option<bool>) returns (l1: nat, r1: nat, ret1: Option<bool>)
      requires Refs(store, l, r) && i < |store[Own(side, l, r)]| && !store[Own(side, l, r)][i].Prop?
      modifies this
      ensures var sc := ExpandF(side, old(State()), l, r, i, ret);
        State() == sc.st && l1 == sc.l && r1 == sc.r && ret1 == sc.ret
      decreases Measure(store, l, r), 1
    {
      var k := Own(side, l, r);
      var e := store[k][i];
      ExpandUnfold(side, store, l, r, i);
      store := store[k := RemoveAt(store[k], i)];
      var ps := RuleOn(side, e);
      var main := Install(store, l, r, ps[0]);
      store, l1, r1 := main.0, main.1, main.2;
      ret1 := ret;
      if |ps| == 2 {
        var branch := Install(store, l, r, ps[1]);
        store := branch.0;
        var res := Evaluate(branch.1, branch.2);
        if res != Some(true) {
          ret1 := Some(false);
        }
      }
    }

    /** `evaluate(left_side, right_side)`: `None` when an exception was caught. */
    method Evaluate(l: nat, r: nat) returns (res: Option<bool>)
      requires Refs(store, l, r)
      modifies this
      ensures var out := EvalF(old(State()), l, r);
        res == out.res && State() == out.st
      decreases Measure(store, l, r), 4
    {
      ghost var goal := EvalF(State(), l, r);
      var l0, r0 := l, r;
      while true
        invariant Refs(store, l0, r0) && EvalF(State(), l0, r0) == goal
        invariant Measure(store, l0, r0) <= old(Measure(store, l, r))
        decreases Measure(store, l0, r0)
      {
        var raised, l1, r1, nf, ret := Scan(Left, l0, r0);
        if raised {
          return None;
        }
        if ret.Some? {
          return ret;
        }
        raised, l1, r1, nf, ret := Scan(Right, l1, r1);
        if raised {
          return None;
        }
        if ret.Some? {
          return ret;
        }
        if nf {
          return Some(false);
        }
        l0, r0 := l1, r1;
      }
    }
  }

  /** The program: `is_tautology = prop_expr.evaluate([], [prop_expr])`, then
      "is a Tautology" exactly when the result is truthy. */
  method IsTautology(f: Formula) returns (verdict: bool)
    ensures verdict == (Decide(f).res == Some(true))
    ensures verdict ==> Tautology(f)
  {
    var engine := new Engine(f);
    var res := engine.Evaluate(0, 1);
    verdict := res == Some(true);
    DecideSound(f);
  }
}
