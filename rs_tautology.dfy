/**
 * The sequent engine of RS_Tautology.py: total structural equality, the leaf
 * log with the `nonfundamentalnodefound` flag, and `call_func`, which returns
 * `None` for a closed search and a message for a failed one. The program has
 * no class for the biconditional, so every formula it handles satisfies
 * `NoIff`, and the store of list objects is kept free of biconditionals.
 */
module RsTautology {
  import opened Wrappers
  import opened Formulas
  import opened Rules
  import opened ListHeap
  import opened Printing

  /** `LogicalExpression.__eq__`: the same class and then `eq`. */
  function RsEq(x: Formula, y: Formula): bool
  {
    match (x, y)
    case (Prop(a), Prop(b)) => a == b
    case (Not(a), Not(b)) => RsEq(a, b)
    case (And(a, b), And(c, d)) => RsEq(a, c) && RsEq(b, d)
    case (Or(a, b), Or(c, d)) => RsEq(a, c) && RsEq(b, d)
    case (Implies(a, b), Implies(c, d)) => RsEq(a, c) && RsEq(b, d)
    case (Iff(a, b), Iff(c, d)) => RsEq(a, c) && RsEq(b, d)
    case _ => false
  }

  /** The comparison is exactly structural equality. */
  lemma {:induction false} RsEqIsEquality(x: Formula, y: Formula)
    ensures RsEq(x, y) <==> x == y
  {
    match (x, y) {
      case (Not(a), Not(b)) => RsEqIsEquality(a, b);
      case (And(a, b), And(c, d)) => RsEqIsEquality(a, c); RsEqIsEquality(b, d);
      case (Or(a, b), Or(c, d)) => RsEqIsEquality(a, c); RsEqIsEquality(b, d);
      case (Implies(a, b), Implies(c, d)) => RsEqIsEquality(a, c); RsEqIsEquality(b, d);
      case (Iff(a, b), Iff(c, d)) => RsEqIsEquality(a, c); RsEqIsEquality(b, d);
      case _ =>
    }
  }

  /** `x in xs` with this comparison. */
  function RsIn(x: Formula, xs: seq<Formula>): (b: bool)
    ensures b <==> x in xs
  {
    if xs == [] then false
    else
      RsEqIsEquality(xs[0], x);
      assert xs == [xs[0]] + xs[1..];
      RsEq(xs[0], x) || RsIn(x, xs[1..])
  }

  /** How `__str__` of `Bin_Op` writes the `op` of each of its classes.
      The program has no biconditional class, so the last entry is never
      printed. */
  const RsSpelling := Spelling(" ^ ", " V ", " -> ", " <-> ")

  predicate AllNoIff(xs: seq<Formula>)
  {
    forall x :: x in xs ==> NoIff(x)
  }

  /** No list object of the store holds a biconditional. */
  predicate NoIffStore(s: Store)
  {
    forall k :: 0 <= k < |s| ==> AllNoIff(s[k])
  }

  /** The `temp` list of `_appendleafnodes`: `"~"+str(x)` for each
      antecedent, then `str(x)` for each consequent. */
  function LeafNodes(left: seq<Formula>, right: seq<Formula>): seq<string>
  {
    Leaf(RsSpelling, left, right)
  }

  /** The leaf log records each leaf's sequent: with atom names free of
      brackets, blanks and `~`, two leaves with the same number of
      antecedents are logged alike only when they are the same sequent. */
  lemma LeafNodesRecord(l1: seq<Formula>, r1: seq<Formula>, l2: seq<Formula>, r2: seq<Formula>)
    requires AllPlain(l1) && AllPlain(r1) && AllPlain(l2) && AllPlain(r2)
    requires |l1| == |l2| && LeafNodes(l1, r1) == LeafNodes(l2, r2)
    ensures l1 == l2 && r1 == r2
  {
    LeafDetermines(RsSpelling, l1, r1, l2, r2);
  }

  /** The count loop of `_isfundamental`. */
  function Count(left: seq<Formula>, right: seq<Formula>): (n: nat)
    ensures n <= |left|
    ensures n == |left| <==> forall x :: x in left ==> x in right
    decreases |left|
  {
    if left == [] then 0
    else
      var init := left[..|left| - 1];
      assert left == init + [left[|left| - 1]];
      assert forall x :: x in left <==> x in init || x == left[|left| - 1];
      Count(init, right) + if RsIn(left[|left| - 1], right) then 1 else 0
  }

  /** The globals `leafnodes`, `fundamentals` and `nonfundamentalnodefound`,
      and the list objects of the search. */
  datatype RsState = RsState(store: Store, leafnodes: seq<seq<string>>, fundamentals: seq<seq<string>>, nonfundamentalnodefound: bool)

  /** `_isfundamental(left, right)` over the flag: its result and the new flag. */
  function IsFundamentalF(flag: bool, left: seq<Formula>, right: seq<Formula>): (bool, bool)
  {
    if |left| == |right| && Count(left, right) == |left| then (false, true)
    else (!flag, flag)
  }

  /** A leaf whose sides have equal length and share every antecedent is never
      fundamental and sets the flag; any other leaf is fundamental exactly when
      no such leaf has been seen. */
  lemma IsFundamentalClassifies(flag: bool, left: seq<Formula>, right: seq<Formula>)
    ensures var (fund, flag') := IsFundamentalF(flag, left, right);
      var contained := |left| == |right| && forall x :: x in left ==> x in right;
      fund == (!contained && !flag) && flag' == (flag || contained)
  {
  }

  /** `_appendleafnodes(left, right)`. */
  function AppendLeafNodesF(s: RsState, left: seq<Formula>, right: seq<Formula>): (t: RsState)
    requires AllNoIff(left) && AllNoIff(right)
    ensures t.store == s.store
    ensures t.leafnodes == s.leafnodes + [LeafNodes(left, right)]
    ensures var contained := |left| == |right| && forall x :: x in left ==> x in right;
      t.fundamentals == s.fundamentals + (if !contained && !s.nonfundamentalnodefound then [LeafNodes(left, right)] else []) &&
      t.nonfundamentalnodefound == (s.nonfundamentalnodefound || contained)
  {
    var temp := LeafNodes(left, right);
    var (fund, flag) := IsFundamentalF(s.nonfundamentalnodefound, left, right);
    s.(leafnodes := s.leafnodes + [temp],
       fundamentals := if fund then s.fundamentals + [temp] else s.fundamentals,
       nonfundamentalnodefound := flag)
  }

  lemma RemovedNoIff(side: Side, s: Store, l: nat, r: nat, i: nat)
    requires Refs(s, l, r) && i < |s[Own(side, l, r)]| && NoIffStore(s)
    ensures NoIffStore(Removed(side, s, l, r, i))
  {
  }

  predicate PartNoIff(p: Part)
  {
    p.Extend? ==> AllNoIff(p.extra)
  }

  lemma RuleNoIff(side: Side, e: Formula)
    requires !e.Prop? && NoIff(e)
    ensures forall j :: 0 <= j < |RuleOn(side, e)| ==> PartNoIff(RuleOn(side, e)[j].left) && PartNoIff(RuleOn(side, e)[j].right)
  {
  }

  lemma InstallNoIff(s: Store, l: nat, r: nat, p: Premise)
    requires Refs(s, l, r) && NoIffStore(s) && PartNoIff(p.left) && PartNoIff(p.right)
    ensures NoIffStore(Install(s, l, r, p).0)
  {
  }

  /** An expansion step adds only parts of the expanded formula. */
  lemma ExpandNoIff(side: Side, s: Store, l: nat, r: nat, i: nat)
    requires Refs(s, l, r) && i < |s[Own(side, l, r)]| && !s[Own(side, l, r)][i].Prop? && NoIffStore(s)
    ensures NoIffStore(Expand(side, s, l, r, i).store)
  {
    var e := s[Own(side, l, r)][i];
    assert NoIff(e);
    ExpandUnfold(side, s, l, r, i);
    var st := Removed(side, s, l, r, i);
    RemovedNoIff(side, s, l, r, i);
    var ps := RuleOn(side, e);
    RuleNoIff(side, e);
    var first := Install(st, l, r, ps[0]);
    InstallNoIff(st, l, r, ps[0]);
    if |ps| == 2 {
      InstallNoIff(first.0, l, r, ps[1]);
    }
  }

  /** What the `for` loop over one side of `call_func` ends in: a shared
      formula (`return None`), a message from the recursive call, or the sides
      for the rest of the pass with `found` cleared when it expanded. */
  datatype Pass = Closed(st: RsState) | Failed(msg: string, st: RsState) | Cont(st: RsState, l: nat, r: nat, expanded: bool)

  datatype Answer = Answer(res: Option<string>, st: RsState)

  const NotTautology := "Expression is not a tautology"

  /** One `for` loop of `call_func` from index `i` of its side. */
  function PassF(side: Side, s: RsState, l: nat, r: nat, i: nat): (res: Pass)
    requires Refs(s.store, l, r) && i <= |s.store[Own(side, l, r)]| && NoIffStore(s.store)
    ensures Shrunk(s.store, res.st.store) && NoIffStore(res.st.store)
    ensures res.Cont? ==> Refs(res.st.store, res.l, res.r) && Measure(res.st.store, res.l, res.r) <= Measure(s.store, l, r)
    ensures res.Cont? && res.expanded ==> Measure(res.st.store, res.l, res.r) < Measure(s.store, l, r)
    ensures res.Cont? && !res.expanded ==> res.l == l && res.r == r && res.st == s
    decreases Measure(s.store, l, r), 2, |s.store[Own(side, l, r)]| - i
  {
    var own := s.store[Own(side, l, r)];
    if i == |own| then
      ShrunkRefl(s.store);
      Cont(s, l, r, false)
    else if RsIn(own[i], s.store[Other(side, l, r)]) then
      ShrunkRefl(s.store);
      Closed(AppendLeafNodesF(s, s.store[l], s.store[r]))
    else if own[i].Prop? then
      PassF(side, s, l, r, i + 1)
    else
      ExpandRsF(side, s, l, r, i)
  }

  /** `remove`, the `_tleft`/`_tright` rule, and the recursive `call_func` on
      the second result of a two-result rule. */
  function ExpandRsF(side: Side, s: RsState, l: nat, r: nat, i: nat): (res: Pass)
    requires Refs(s.store, l, r) && i < |s.store[Own(side, l, r)]| && !s.store[Own(side, l, r)][i].Prop? && NoIffStore(s.store)
    ensures Shrunk(s.store, res.st.store) && NoIffStore(res.st.store) && !res.Closed?
    ensures res.Cont? ==> res.expanded && Refs(res.st.store, res.l, res.r) && Measure(res.st.store, res.l, res.r) < Measure(s.store, l, r)
    decreases Measure(s.store, l, r), 1
  {
    var x := Expand(side, s.store, l, r, i);
    ExpandNoIff(side, s.store, l, r, i);
    if |x.rule| == 1 then
      Cont(s.(store := x.store), x.l, x.r, true)
    else
      var out := CallF(s.(store := x.store), x.bl, x.br);
      ShrunkTrans(s.store, x.store, out.st.store);
      ShrunkMeasure(x.store, out.st.store, x.l, x.r);
      if out.res.Some? then Failed(out.res.value, out.st)
      else Cont(out.st, x.l, x.r, true)
  }

  /** `call_func(left, right)`: passes until a shared formula, a message, or a
      pass with `found` still set. */
  function CallF(s: RsState, l: nat, r: nat): (out: Answer)
    requires Refs(s.store, l, r) && NoIffStore(s.store)
    ensures Shrunk(s.store, out.st.store) && NoIffStore(out.st.store)
    decreases Measure(s.store, l, r), 3
  {
    match PassF(Left, s, l, r, 0)
    case Closed(s1) => Answer(None, s1)
    case Failed(m, s1) => Answer(Some(m), s1)
    case Cont(s1, l1, r1, ex1) =>
      match PassF(Right, s1, l1, r1, 0)
      case Closed(s2) => ShrunkTrans(s.store, s1.store, s2.store); Answer(None, s2)
      case Failed(m, s2) => ShrunkTrans(s.store, s1.store, s2.store); Answer(Some(m), s2)
      case Cont(s2, l2, r2, ex2) =>
        ShrunkTrans(s.store, s1.store, s2.store);
        if !ex1 && !ex2 then Answer(Some(NotTautology), s2)
        else
          var out := CallF(s2, l2, r2);
          ShrunkTrans(s.store, s2.store, out.st.store);
          out
  }

  /** The globals before `e._call_func()`, i.e. `call_func([], [e])`. */
  function Initial(f: Formula): RsState
  {
    RsState([[], [f]], [], [], false)
  }

  /** The result `rs_function` reports: `None` is "Expression is a Tautology". */
  function Decide(f: Formula): Answer
    requires NoIff(f)
  {
    var s := Initial(f);
    assert NoIffStore(s.store) by {
      assert forall x :: x in s.store[1] ==> x == f;
    }
    CallF(s, 0, 1)
  }

  lemma ExpandRsUnfold(side: Side, s: RsState, l: nat, r: nat, i: nat)
    requires Refs(s.store, l, r) && i < |s.store[Own(side, l, r)]| && !s.store[Own(side, l, r)][i].Prop? && NoIffStore(s.store)
    ensures var x := Expand(side, s.store, l, r, i);
      NoIffStore(x.store) &&
      ExpandRsF(side, s, l, r, i) ==
        if |x.rule| == 1 then Cont(s.(store := x.store), x.l, x.r, true)
        else
          var out := CallF(s.(store := x.store), x.bl, x.br);
          if out.res.Some? then Failed(out.res.value, out.st) else Cont(out.st, x.l, x.r, true)
  {
    ExpandNoIff(side, s.store, l, r, i);
  }

  /** What a pass says about the sequent it started from. */
  ghost predicate PassJustified(s: Store, l: nat, r: nat, res: Pass)
    requires Refs(s, l, r)
  {
    && (res.Closed? ==> Valid(s[l], s[r]))
    && (res.Cont? && Refs(res.st.store, res.l, res.r) ==>
          Valid(res.st.store[res.l], res.st.store[res.r]) ==> Valid(s[l], s[r]))
  }

  lemma {:induction false} PassSound(side: Side, s: RsState, l: nat, r: nat, i: nat)
    requires Refs(s.store, l, r) && i <= |s.store[Own(side, l, r)]| && NoIffStore(s.store)
    ensures PassJustified(s.store, l, r, PassF(side, s, l, r, i))
    decreases Measure(s.store, l, r), 2, |s.store[Own(side, l, r)]| - i
  {
    var own := s.store[Own(side, l, r)];
    if i < |own| {
      if RsIn(own[i], s.store[Other(side, l, r)]) {
        Axiom(s.store[l], s.store[r], own[i]);
      } else if own[i].Prop? {
        PassSound(side, s, l, r, i + 1);
      } else {
        ExpandRsSound(side, s, l, r, i);
      }
    }
  }

  lemma {:induction false} ExpandRsSound(side: Side, s: RsState, l: nat, r: nat, i: nat)
    requires Refs(s.store, l, r) && i < |s.store[Own(side, l, r)]| && !s.store[Own(side, l, r)][i].Prop? && NoIffStore(s.store)
    ensures PassJustified(s.store, l, r, ExpandRsF(side, s, l, r, i))
    decreases Measure(s.store, l, r), 1
  {
    var x := Expand(side, s.store, l, r, i);
    ExpandNoIff(side, s.store, l, r, i);
    var s1 := s.(store := x.store);
    var res := ExpandRsF(side, s, l, r, i);
    if |x.rule| == 1 {
      assert res == Cont(s1, x.l, x.r, true);
      if Valid(x.store[x.l], x.store[x.r]) {
        ExpandStepSound(side, s.store, l, r, i);
      }
    } else {
      var out := CallF(s1, x.bl, x.br);
      if out.res.None? {
        assert res == Cont(out.st, x.l, x.r, true);
        CallSound(s1, x.bl, x.br);
        if Valid(out.st.store[x.l], out.st.store[x.r]) {
          assert ShrunkList(out.st.store[x.l], x.store[x.l]) && ShrunkList(out.st.store[x.r], x.store[x.r]);
          Weaken(out.st.store[x.l], out.st.store[x.r], x.store[x.l], x.store[x.r]);
          ExpandStepSound(side, s.store, l, r, i);
        }
      }
    }
  }

  /** Soundness: `call_func` returns `None` only for a valid sequent. */
  lemma {:induction false} CallSound(s: RsState, l: nat, r: nat)
    requires Refs(s.store, l, r) && NoIffStore(s.store)
    ensures CallF(s, l, r).res == None ==> Valid(s.store[l], s.store[r])
    decreases Measure(s.store, l, r), 3
  {
    var p1 := PassF(Left, s, l, r, 0);
    PassSound(Left, s, l, r, 0);
    if p1.Cont? {
      var p2 := PassF(Right, p1.st, p1.l, p1.r, 0);
      PassSound(Right, p1.st, p1.l, p1.r, 0);
      if p2.Cont? && (p1.expanded || p2.expanded) {
        CallSound(p2.st, p2.l, p2.r);
      }
    }
  }

  /** The program reports a tautology only for a tautology. */
  lemma DecideSound(f: Formula)
    requires NoIff(f)
    ensures Decide(f).res == None ==> Tautology(f)
  {
    var s := Initial(f);
    assert NoIffStore(s.store) by {
      assert forall x :: x in s.store[1] ==> x == f;
    }
    CallSound(s, 0, 1);
    InitialSequent(f);
  }

  /** A failed search always carries the one message the program returns. */
  lemma {:induction false} CallMessage(s: RsState, l: nat, r: nat)
    requires Refs(s.store, l, r) && NoIffStore(s.store)
    ensures CallF(s, l, r).res == None || CallF(s, l, r).res == Some(NotTautology)
    decreases Measure(s.store, l, r), 3
  {
    var p1 := PassF(Left, s, l, r, 0);
    PassMessage(Left, s, l, r, 0);
    if p1.Cont? {
      var p2 := PassF(Right, p1.st, p1.l, p1.r, 0);
      PassMessage(Right, p1.st, p1.l, p1.r, 0);
      if p2.Cont? && (p1.expanded || p2.expanded) {
        CallMessage(p2.st, p2.l, p2.r);
      }
    }
  }

  lemma {:induction false} PassMessage(side: Side, s: RsState, l: nat, r: nat, i: nat)
    requires Refs(s.store, l, r) && i <= |s.store[Own(side, l, r)]| && NoIffStore(s.store)
    ensures PassF(side, s, l, r, i).Failed? ==> PassF(side, s, l, r, i).msg == NotTautology
    decreases Measure(s.store, l, r), 2, |s.store[Own(side, l, r)]| - i
  {
    var own := s.store[Own(side, l, r)];
    if i < |own| && !RsIn(own[i], s.store[Other(side, l, r)]) {
      if own[i].Prop? {
        PassMessage(side, s, l, r, i + 1);
      } else {
        ExpandMessage(side, s, l, r, i);
      }
    }
  }

  lemma {:induction false} ExpandMessage(side: Side, s: RsState, l: nat, r: nat, i: nat)
    requires Refs(s.store, l, r) && i < |s.store[Own(side, l, r)]| && !s.store[Own(side, l, r)][i].Prop? && NoIffStore(s.store)
    ensures ExpandRsF(side, s, l, r, i).Failed? ==> ExpandRsF(side, s, l, r, i).msg == NotTautology
    decreases Measure(s.store, l, r), 1
  {
    var x := Expand(side, s.store, l, r, i);
    ExpandNoIff(side, s.store, l, r, i);
    if |x.rule| == 2 {
      var s1 := s.(store := x.store);
      CallMessage(s1, x.bl, x.br);
      var out := CallF(s1, x.bl, x.br);
      assert out.res.Some? ==> ExpandRsF(side, s, l, r, i) == Failed(out.res.value, out.st);
    }
  }

  /** The program's globals and the list objects of the search. */
  class Engine {
    var store: Store
    var leafnodes: seq<seq<string>>
    var fundamentals: seq<seq<string>>
    var nonfundamentalnodefound: bool

    function State(): RsState
      reads this
    {
      RsState(store, leafnodes, fundamentals, nonfundamentalnodefound)
    }

    /** The globals as the module sets them, and the lists of `call_func([], [e])`. */
    constructor (f: Formula)
      ensures State() == Initial(f)
    {
      store := [[], [f]];
      leafnodes := [];
      fundamentals := [];
      nonfundamentalnodefound := false;
    }

    /** `_isfundamental(left, right)`. */
    method IsFundamental(left: seq<Formula>, right: seq<Formula>) returns (fund: bool)
      modifies this
      ensures (fund, nonfundamentalnodefound) == IsFundamentalF(old(nonfundamentalnodefound), left, right)
      ensures store == old(store) && leafnodes == old(leafnodes) && fundamentals == old(fundamentals)
    {
      if |left| == |right| {
        var count := 0;
        var i := 0;
        while i < |left|
          invariant 0 <= i <= |left|
          invariant count == Count(left[..i], right)
        {
          assert left[..i + 1][..i] == left[..i];
          if RsIn(left[i], right) {
            count := count + 1;
          }
          i := i + 1;
        }
        assert left[..i] == left;
        if |left| == count {
          nonfundamentalnodefound := true;
          return false;
        }
      }
      return !nonfundamentalnodefound;
    }

    /** `_appendleafnodes(left, right)`. */
    method AppendLeafNodes(left: seq<Formula>, right: seq<Formula>)
      requires AllNoIff(left) && AllNoIff(right)
      modifies this
      ensures State() == AppendLeafNodesF(old(State()), left, right)
    {
      var temp := LeafNodes(left, right);
      leafnodes := leafnodes + [temp];
      var fund := IsFundamental(left, right);
      if fund {
        fundamentals := fundamentals + [temp];
      }
    }

    /** The body of an `if not isinstance(item, Variable)` branch: `remove`,
        the rule, and the recursive call on its second result; `msg` is that
        call's non-`None` result. */
    method ExpandStep(side: Side, l: nat, r: nat, i: nat) returns (msg: Option<string>, l1: nat, r1: nat)
      requires Refs(store, l, r) && i < |store[Own(side, l, r)]| && !store[Own(side, l, r)][i].Prop? && NoIffStore(store)
      modifies this
      ensures var p := ExpandRsF(side, old(State()), l, r, i);
        State() == p.st && (p.Failed? ==> msg == Some(p.msg)) && (p.Cont? ==> msg == None && l1 == p.l && r1 == p.r)
      decreases Measure(store, l, r), 1
    {
      var k := Own(side, l, r);
      var e := store[k][i];
      ghost var s0 := State();
      ExpandRsUnfold(side, s0, l, r, i);
      ExpandUnfold(side, store, l, r, i);
      store := store[k := RemoveAt(store[k], i)];
      var items := RuleOn(side, e);
      var first := Install(store, l, r, items[0]);
      store, l1, r1 := first.0, first.1, first.2;
      msg := None;
      if |items| == 2 {
        var second := Install(store, l, r, items[1]);
        store := second.0;
        msg := CallFunc(second.1, second.2);
      }
    }

    /** One `for item in ...` loop of `call_func` over `side`: `closed` for
        the `return None` of a shared formula, `msg` for a result passed on
        from the recursion, otherwise the new sides and whether `found` was
        cleared. */
    method Pass(side: Side, l: nat, r: nat) returns (closed: bool, msg: Option<string>, l1: nat, r1: nat, expanded: bool)
      requires Refs(store, l, r) && NoIffStore(store)
      modifies this
      ensures var p := PassF(side, old(State()), l, r, 0);
        && State() == p.st && closed == p.Closed?
        && msg == (if p.Failed? then Some(p.msg) else None)
        && (p.Cont? ==> l1 == p.l && r1 == p.r && expanded == p.expanded)
      decreases Measure(store, l, r), 2
    {
      ghost var s0 := State();
      var i := 0;
      while i < |store[Own(side, l, r)]|
        invariant State() == s0 && i <= |store[Own(side, l, r)]|
        invariant PassF(side, s0, l, r, i) == PassF(side, s0, l, r, 0)
      {
        var item := store[Own(side, l, r)][i];
        if RsIn(item, store[Other(side, l, r)]) {
          assert PassF(side, s0, l, r, i) == Closed(AppendLeafNodesF(s0, s0.store[l], s0.store[r]));
          AppendLeafNodes(store[l], store[r]);
          return true, None, l, r, false;
        }
        if !item.Prop? {
          assert PassF(side, s0, l, r, i) == ExpandRsF(side, s0, l, r, i);
          msg, l1, r1 := ExpandStep(side, l, r, i);
          return false, msg, l1, r1, true;
        }
        assert PassF(side, s0, l, r, i) == PassF(side, s0, l, r, i + 1);
        i := i + 1;
      }
      assert PassF(side, s0, l, r, i) == Cont(s0, l, r, false);
      return false, None, l, r, false;
    }

    /** `call_func(left, right)`. */
    method CallFunc(l: nat, r: nat) returns (res: Option<string>)
      requires Refs(store, l, r) && NoIffStore(store)
      modifies this
      ensures var out := CallF(old(State()), l, r);
        res == out.res && State() == out.st
      decreases Measure(store, l, r), 3
    {
      ghost var goal := CallF(State(), l, r);
      var left, right := l, r;
      while true
        invariant Refs(store, left, right) && NoIffStore(store) && CallF(State(), left, right) == goal
        invariant Measure(store, left, right) <= old(Measure(store, l, r))
        decreases Measure(store, left, right)
      {
        var found := true;
        var closed, msg, expanded;
        closed, msg, left, right, expanded := Pass(Left, left, right);
        if closed {
          return None;
        }
        if msg.Some? {
          return msg;
        }
        if expanded {
          found := false;
        }
        closed, msg, left, right, expanded := Pass(Right, left, right);
        if closed {
          return None;
        }
        if msg.Some? {
          return msg;
        }
        if expanded {
          found := false;
        }
        if found {
          return Some(NotTautology);
        }
      }
    }
  }

  /** `rs_function`: "Expression is a Tautology" exactly when `_call_func`
      returns `None`. */
  method IsTautology(f: Formula) returns (verdict: bool)
    requires NoIff(f)
    ensures verdict == (Decide(f).res == None)
    ensures verdict ==> Tautology(f)
  {
    var engine := new Engine(f);
    assert NoIffStore(engine.store) by {
      assert forall x :: x in engine.store[1] ==> x == f;
    }
    var res := engine.CallFunc(0, 1);
    verdict := res == None;
    DecideSound(f);
  }
}
