/**
 * `ReversePolishNotation` of RS_Strategy.cpp: the shunting-yard pass that turns
 * the cleaned-up infix input into the post-order string `buildTree` reads.
 * `Rpn` is the character-by-character specification; `None` stands for the
 * undefined behaviour of `st.top()` on an empty stack when a closing bracket
 * has no matching opening bracket.
 */
module ReversePolish {
  import opened Wrappers
  import opened Trees

  /** The output so far and the operator stack, top last. */
  datatype RpnState = RpnState(out: string, st: seq<char>)

  function Top(st: seq<char>): char
    requires st != []
  {
    st[|st| - 1]
  }

  function Pop(st: seq<char>): seq<char>
    requires st != []
  {
    st[..|st| - 1]
  }

  /** `)` or `]`: pop and emit until `open`, then drop `open`. */
  function PopUntil(s: RpnState, open: char): Option<RpnState>
    decreases |s.st|
  {
    if s.st == [] then None
    else if Top(s.st) == open then Some(RpnState(s.out, Pop(s.st)))
    else PopUntil(RpnState(s.out + [Top(s.st)], Pop(s.st)), open)
  }

  /** Pop and emit while the top has priority at least `p`. */
  function PopWhile(s: RpnState, p: int): RpnState
    decreases |s.st|
  {
    if s.st != [] && Prior(Top(s.st)) >= p then PopWhile(RpnState(s.out + [Top(s.st)], Pop(s.st)), p)
    else s
  }

  /** One input character. */
  function Step(s: RpnState, c: char): Option<RpnState>
  {
    if c == '(' || c == '[' then Some(RpnState(s.out, s.st + [c]))
    else if c == ')' then PopUntil(s, '(')
    else if c == ']' then PopUntil(s, '[')
    else if Prior(c) >= 1 then
      var t := PopWhile(s, Prior(c));
      Some(RpnState(t.out + (if c == Negation then [Placeholder] else []), t.st + [c]))
    else Some(RpnState(s.out + [c], s.st))
  }

  function Fold(s: RpnState, raw: string): Option<RpnState>
    decreases |raw|
  {
    if raw == [] then Some(s)
    else match Step(s, raw[0])
      case None => None
      case Some(t) => Fold(t, raw[1..])
  }

  lemma FoldUnfold(s: RpnState, raw: string)
    requires raw != []
    ensures Fold(s, raw).Some? ==> Step(s, raw[0]).Some?
    ensures Step(s, raw[0]).Some? ==> Fold(s, raw) == Fold(Step(s, raw[0]).value, raw[1..])
  {
  }

  /** The stack read from the top down. */
  function Reverse(st: seq<char>): (rs: seq<char>)
    ensures |rs| == |st|
  {
    if st == [] then [] else [Top(st)] + Reverse(Pop(st))
  }

  /** The end of the input: the rest of the stack is emitted, top first. */
  function Flush(s: RpnState): string
  {
    s.out + Reverse(s.st)
  }

  function Rpn(raw: string): Option<string>
  {
    match Fold(RpnState("", []), raw)
    case None => None
    case Some(s) => Some(Flush(s))
  }

  method ReversePolishNotation(raw: string) returns (rp: string)
    requires Rpn(raw).Some?
    ensures Rpn(raw) == Some(rp)
  {
    var out: string := "";
    var st: seq<char> := [];
    var i := 0;
    while i < |raw|
      invariant 0 <= i <= |raw|
      invariant Fold(RpnState(out, st), raw[i..]) == Fold(RpnState("", []), raw)
      invariant Fold(RpnState(out, st), raw[i..]).Some?
    {
      var c := raw[i];
      ghost var s0 := RpnState(out, st);
      assert raw[i..][0] == c && raw[i..][1..] == raw[i + 1..];
      assert Step(s0, c).Some? && Fold(Step(s0, c).value, raw[i + 1..]) == Fold(s0, raw[i..]);
      if c == '(' || c == '[' {
        st := st + [c];
      } else if c == ')' || c == ']' {
        var open := if c == ')' then '(' else '[';
        while Top(st) != open
          invariant PopUntil(RpnState(out, st), open) == PopUntil(s0, open)
          invariant PopUntil(RpnState(out, st), open).Some?
          decreases |st|
        {
          out := out + [Top(st)];
          st := Pop(st);
        }
        st := Pop(st);
      } else if Prior(c) >= 1 {
        while st != [] && Prior(Top(st)) >= Prior(c)
          invariant PopWhile(RpnState(out, st), Prior(c)) == PopWhile(s0, Prior(c))
          decreases |st|
        {
          out := out + [Top(st)];
          st := Pop(st);
        }
        st := st + [c];
        if c == Negation {
          out := out + [Placeholder];
        }
      } else {
        out := out + [c];
      }
      assert RpnState(out, st) == Step(s0, c).value;
      i := i + 1;
    }
    assert raw[i..] == [];
    ghost var fin := RpnState(out, st);
    assert Fold(RpnState("", []), raw) == Some(fin);
    while st != []
      invariant out + Reverse(st) == Flush(fin)
      decreases |st|
    {
      assert Reverse(st) == [Top(st)] + Reverse(Pop(st));
      out := out + [Top(st)];
      st := Pop(st);
    }
    assert out + Reverse(st) == out;
    rp := out;
  }

  // ---------------------------------------------------------------------
  // Atoms keep their order and every `~` adds its placeholder.
  // ---------------------------------------------------------------------

  predicate OperandChar(c: char)
  {
    Prior(c) == 0 && !IsBracket(c)
  }

  /** The characters of `s` that are neither operators nor brackets, in order. */
  function Operands(s: string): (os: string)
    ensures forall c :: c in os ==> OperandChar(c)
  {
    if s == [] then []
    else (if OperandChar(s[0]) then [s[0]] else []) + Operands(s[1..])
  }

  /** What the input contributes to the operands of the output: each operand
      itself, and a placeholder for each `~`. */
  function Skeleton(raw: string): string
  {
    if raw == [] then []
    else (if raw[0] == Negation then [Placeholder] else if OperandChar(raw[0]) then [raw[0]] else []) + Skeleton(raw[1..])
  }

  lemma {:induction false} OperandsAppend(a: string, b: string)
    ensures Operands(a + b) == Operands(a) + Operands(b)
  {
    if a == [] {
      assert a + b == b;
    } else {
      assert (a + b)[0] == a[0] && (a + b)[1..] == a[1..] + b;
      OperandsAppend(a[1..], b);
    }
  }

  /** The stack only ever holds operators and opening brackets. */
  predicate StackChar(c: char)
  {
    Prior(c) >= 1 || c == '(' || c == '['
  }

  predicate StackChars(st: seq<char>)
  {
    forall c :: c in st ==> StackChar(c)
  }

  lemma PopStack(st: seq<char>)
    requires st != [] && StackChars(st)
    ensures StackChars(Pop(st)) && StackChar(Top(st))
  {
  }

  lemma NoOperandOfStackChar(c: char)
    requires Prior(c) >= 1 || c == '(' || c == '['
    ensures Operands([c]) == []
  {
  }

  lemma {:induction false} PopUntilOperands(s: RpnState, open: char)
    requires StackChars(s.st) && PopUntil(s, open).Some?
    ensures Operands(PopUntil(s, open).value.out) == Operands(s.out)
    ensures StackChars(PopUntil(s, open).value.st)
    decreases |s.st|
  {
    if Top(s.st) != open {
      PopStack(s.st);
      NoOperandOfStackChar(Top(s.st));
      OperandsAppend(s.out, [Top(s.st)]);
      PopUntilOperands(RpnState(s.out + [Top(s.st)], Pop(s.st)), open);
    }
  }

  lemma {:induction false} PopWhileOperands(s: RpnState, p: int)
    requires StackChars(s.st)
    ensures Operands(PopWhile(s, p).out) == Operands(s.out)
    ensures StackChars(PopWhile(s, p).st)
    decreases |s.st|
  {
    if s.st != [] && Prior(Top(s.st)) >= p {
      PopStack(s.st);
      NoOperandOfStackChar(Top(s.st));
      OperandsAppend(s.out, [Top(s.st)]);
      PopWhileOperands(RpnState(s.out + [Top(s.st)], Pop(s.st)), p);
    }
  }

  lemma StepOperands(s: RpnState, c: char)
    requires StackChars(s.st) && Step(s, c).Some?
    ensures Operands(Step(s, c).value.out) == Operands(s.out) + Skeleton([c])
    ensures StackChars(Step(s, c).value.st)
  {
    assert Skeleton([c]) == (if c == Negation then [Placeholder] else if OperandChar(c) then [c] else []) by {
      assert [c][1..] == [];
    }
    if c == '(' || c == '[' {
    } else if c == ')' {
      PopUntilOperands(s, '(');
    } else if c == ']' {
      PopUntilOperands(s, '[');
    } else if Prior(c) >= 1 {
      var w := PopWhile(s, Prior(c));
      PopWhileOperands(s, Prior(c));
      OperandsAppend(w.out, if c == Negation then [Placeholder] else []);
      assert Operands([Placeholder]) == [Placeholder] by {
        assert [Placeholder][1..] == [];
      }
    } else {
      OperandsAppend(s.out, [c]);
      assert Operands([c]) == [c] by {
        assert [c][1..] == [];
      }
    }
  }

  lemma Concat3(u: string, t: string, s: string, p: string, q: string, r: string)
    requires u == t + q && t == s + p && r == p + q
    ensures u == s + r
  {
  }

  lemma {:induction false} FoldOperands(s: RpnState, raw: string)
    requires StackChars(s.st) && Fold(s, raw).Some?
    ensures Operands(Fold(s, raw).value.out) == Operands(s.out) + Skeleton(raw)
    ensures StackChars(Fold(s, raw).value.st)
    decreases |raw|
  {
    if raw != [] {
      FoldUnfold(s, raw);
      var t := Step(s, raw[0]).value;
      StepOperands(s, raw[0]);
      FoldOperands(t, raw[1..]);
      SkeletonCons(raw);
      var u := Fold(t, raw[1..]).value;
      Concat3(Operands(u.out), Operands(t.out), Operands(s.out), Skeleton([raw[0]]), Skeleton(raw[1..]), Skeleton(raw));
    }
  }

  lemma SkeletonCons(raw: string)
    requires raw != []
    ensures Skeleton(raw) == Skeleton([raw[0]]) + Skeleton(raw[1..])
  {
  }

  lemma {:induction false} ReverseOperands(st: seq<char>)
    requires StackChars(st)
    ensures Operands(Reverse(st)) == []
    decreases |st|
  {
    if st != [] {
      PopStack(st);
      NoOperandOfStackChar(Top(st));
      OperandsAppend([Top(st)], Reverse(Pop(st)));
      ReverseOperands(Pop(st));
    }
  }

  /** The operands of the output are the operands of the input in their input
      order, with a placeholder just where each `~` was read. */
  lemma RpnOperands(raw: string)
    requires Rpn(raw).Some?
    ensures Operands(Rpn(raw).value) == Skeleton(raw)
  {
    var s := Fold(RpnState("", []), raw).value;
    FoldOperands(RpnState("", []), raw);
    ReverseOperands(s.st);
    OperandsAppend(s.out, Reverse(s.st));
  }

  // ---------------------------------------------------------------------
  // Balanced brackets: defined, no bracket left, every operator once.
  // ---------------------------------------------------------------------

  /** `raw` closes every bracket it opens, with the matching kind, given the
      brackets `opens` already open (innermost last). */
  function Nest(raw: string, opens: seq<char>): bool
    decreases |raw|
  {
    if raw == [] then opens == []
    else if raw[0] == '(' || raw[0] == '[' then Nest(raw[1..], opens + [raw[0]])
    else if raw[0] == ')' then opens != [] && Top(opens) == '(' && Nest(raw[1..], Pop(opens))
    else if raw[0] == ']' then opens != [] && Top(opens) == '[' && Nest(raw[1..], Pop(opens))
    else Nest(raw[1..], opens)
  }

  predicate Balanced(raw: string)
  {
    Nest(raw, [])
  }

  /** The brackets of a stack, bottom first. */
  function OpenOf(st: seq<char>): seq<char>
    decreases |st|
  {
    if st == [] then [] else OpenOf(Pop(st)) + (if IsBracket(Top(st)) then [Top(st)] else [])
  }

  predicate NoBracket(s: string)
  {
    forall c :: c in s ==> !IsBracket(c)
  }

  /** The operators of a string, counted. */
  function OpCount(s: string): multiset<char>
  {
    if s == [] then multiset{} else (if Prior(s[0]) >= 1 then multiset{s[0]} else multiset{}) + OpCount(s[1..])
  }

  lemma {:induction false} OpCountAppend(a: string, b: string)
    ensures OpCount(a + b) == OpCount(a) + OpCount(b)
  {
    if a == [] {
      assert a + b == b;
    } else {
      assert (a + b)[0] == a[0] && (a + b)[1..] == a[1..] + b;
      OpCountAppend(a[1..], b);
    }
  }

  lemma OpCountSplit(st: seq<char>)
    requires st != []
    ensures OpCount(st) == OpCount(Pop(st)) + OpCount([Top(st)])
  {
    assert st == Pop(st) + [Top(st)];
    OpCountAppend(Pop(st), [Top(st)]);
  }

  lemma OpCountOne(c: char)
    ensures OpCount([c]) == if Prior(c) >= 1 then multiset{c} else multiset{}
  {
  }

  /** Moving the top of the stack to the output keeps the operator count and
      adds no bracket when the top is an operator. */
  lemma MoveTop(s: RpnState)
    requires s.st != [] && NoBracket(s.out) && Prior(Top(s.st)) >= 1
    ensures NoBracket(s.out + [Top(s.st)])
    ensures OpenOf(Pop(s.st)) == OpenOf(s.st)
    ensures OpCount(s.out + [Top(s.st)]) + OpCount(Pop(s.st)) == OpCount(s.out) + OpCount(s.st)
  {
    var c := Top(s.st);
    assert !IsBracket(c);
    assert OpenOf(s.st) == OpenOf(Pop(s.st)) + [];
    assert Pop(s.out + [c]) == s.out;
    OpCountSplit(s.st);
    OpCountAppend(s.out, [c]);
  }

  /** The bracket on top is the one being closed: it is dropped. */
  lemma PopUntilHere(s: RpnState, open: char)
    requires StackChars(s.st) && NoBracket(s.out) && s.st != [] && IsBracket(Top(s.st))
    requires OpenOf(s.st) != [] && Top(OpenOf(s.st)) == open
    ensures PopUntil(s, open) == Some(RpnState(s.out, Pop(s.st)))
    ensures StackChars(Pop(s.st)) && OpenOf(Pop(s.st)) == Pop(OpenOf(s.st))
    ensures OpCount(Pop(s.st)) == OpCount(s.st)
  {
    PopStack(s.st);
    assert OpenOf(s.st) == OpenOf(Pop(s.st)) + [Top(s.st)];
    assert Pop(OpenOf(Pop(s.st)) + [Top(s.st)]) == OpenOf(Pop(s.st));
    OpCountSplit(s.st);
    OpCountOne(Top(s.st));
  }

  lemma {:induction false} PopUntilBalanced(s: RpnState, open: char)
    requires StackChars(s.st) && NoBracket(s.out) && IsBracket(open)
    requires OpenOf(s.st) != [] && Top(OpenOf(s.st)) == open
    ensures PopUntil(s, open).Some?
    ensures var t := PopUntil(s, open).value;
      && StackChars(t.st) && NoBracket(t.out) && OpenOf(t.st) == Pop(OpenOf(s.st))
      && OpCount(t.out) + OpCount(t.st) == OpCount(s.out) + OpCount(s.st)
    decreases |s.st|
  {
    assert s.st != [];
    if IsBracket(Top(s.st)) {
      PopUntilHere(s, open);
    } else {
      PopStack(s.st);
      var s1 := RpnState(s.out + [Top(s.st)], Pop(s.st));
      assert Prior(Top(s.st)) >= 1;
      MoveTop(s);
      assert PopUntil(s, open) == PopUntil(s1, open);
      PopUntilBalanced(s1, open);
    }
  }

  lemma {:induction false} PopWhileBalanced(s: RpnState, p: int)
    requires StackChars(s.st) && NoBracket(s.out) && p >= 1
    ensures var t := PopWhile(s, p);
      && StackChars(t.st) && NoBracket(t.out) && OpenOf(t.st) == OpenOf(s.st)
      && OpCount(t.out) + OpCount(t.st) == OpCount(s.out) + OpCount(s.st)
    decreases |s.st|
  {
    if s.st != [] && Prior(Top(s.st)) >= p {
      MoveTop(s);
      PopWhileBalanced(RpnState(s.out + [Top(s.st)], Pop(s.st)), p);
    }
  }

  lemma {:induction false} NoBracketAppend(a: string, b: string)
    requires NoBracket(a) && NoBracket(b)
    ensures NoBracket(a + b)
    decreases |b|
  {
  }

  lemma PushChars(st: seq<char>, c: char)
    requires StackChars(st) && (Prior(c) >= 1 || c == '(' || c == '[')
    ensures StackChars(st + [c]) && Top(st + [c]) == c && Pop(st + [c]) == st
  {
  }

  lemma OperatorStepBalanced(s: RpnState, c: char)
    requires StackChars(s.st) && NoBracket(s.out) && Prior(c) >= 1
    ensures Step(s, c).Some?
    ensures var t := Step(s, c).value;
      && StackChars(t.st) && NoBracket(t.out) && OpenOf(t.st) == OpenOf(s.st)
      && OpCount(t.out) + OpCount(t.st) == OpCount(s.out) + OpCount(s.st) + OpCount([c])
  {
    var w := PopWhile(s, Prior(c));
    PopWhileBalanced(s, Prior(c));
    var ph: string := if c == Negation then [Placeholder] else [];
    assert Step(s, c) == Some(RpnState(w.out + ph, w.st + [c]));
    PushOperator(w, c, ph);
  }

  /** Pushing an operator, after its placeholder operand if it has one. */
  lemma PushOperator(w: RpnState, c: char, ph: string)
    requires StackChars(w.st) && NoBracket(w.out) && Prior(c) >= 1
    requires ph == [] || ph == [Placeholder]
    ensures StackChars(w.st + [c]) && NoBracket(w.out + ph) && OpenOf(w.st + [c]) == OpenOf(w.st)
    ensures OpCount(w.out + ph) + OpCount(w.st + [c]) == OpCount(w.out) + OpCount(w.st) + OpCount([c])
  {
    PushChars(w.st, c);
    assert !IsBracket(c);
    assert OpenOf(w.st + [c]) == OpenOf(Pop(w.st + [c])) + [];
    assert NoBracket(ph) by {
      assert Pop([Placeholder]) == [];
    }
    NoBracketAppend(w.out, ph);
    OpCounts(w, c, ph);
  }

  lemma OpCounts(w: RpnState, c: char, ph: string)
    requires ph == [] || ph == [Placeholder]
    ensures OpCount(w.out + ph) + OpCount(w.st + [c]) == OpCount(w.out) + OpCount(w.st) + OpCount([c])
  {
    OpCountAppend(w.out, ph);
    OpCountAppend(w.st, [c]);
    assert OpCount(ph) == multiset{} by {
      OpCountOne(Placeholder);
    }
  }

  lemma OpenStepBalanced(s: RpnState, c: char)
    requires StackChars(s.st) && NoBracket(s.out) && (c == '(' || c == '[')
    ensures Step(s, c).Some?
    ensures var t := Step(s, c).value;
      && StackChars(t.st) && NoBracket(t.out) && OpenOf(t.st) == OpenOf(s.st) + [c]
      && OpCount(t.out) + OpCount(t.st) == OpCount(s.out) + OpCount(s.st) + OpCount([c])
  {
    OpCountOne(c);
    PushChars(s.st, c);
    OpCountSplit(s.st + [c]);
  }

  lemma AtomStepBalanced(s: RpnState, c: char)
    requires StackChars(s.st) && NoBracket(s.out) && Prior(c) == 0 && !IsBracket(c)
    ensures Step(s, c).Some?
    ensures var t := Step(s, c).value;
      && StackChars(t.st) && NoBracket(t.out) && OpenOf(t.st) == OpenOf(s.st)
      && OpCount(t.out) + OpCount(t.st) == OpCount(s.out) + OpCount(s.st) + OpCount([c])
  {
    OpCountOne(c);
    OpCountAppend(s.out, [c]);
    assert Pop(s.out + [c]) == s.out;
  }

  lemma StepBalanced(s: RpnState, c: char, opens: seq<char>)
    requires StackChars(s.st) && NoBracket(s.out) && OpenOf(s.st) == opens
    requires (c == ')' ==> opens != [] && Top(opens) == '(') && (c == ']' ==> opens != [] && Top(opens) == '[')
    ensures Step(s, c).Some?
    ensures var t := Step(s, c).value;
      && StackChars(t.st) && NoBracket(t.out)
      && OpenOf(t.st) == NextOpens(opens, c)
      && OpCount(t.out) + OpCount(t.st) == OpCount(s.out) + OpCount(s.st) + OpCount([c])
  {
    OpCountOne(c);
    if c == '(' || c == '[' {
      OpenStepBalanced(s, c);
    } else if c == ')' {
      PopUntilBalanced(s, '(');
    } else if c == ']' {
      PopUntilBalanced(s, '[');
    } else if Prior(c) >= 1 {
      OperatorStepBalanced(s, c);
    } else {
      AtomStepBalanced(s, c);
    }
  }

  /** The brackets still open after reading `c`. */
  function NextOpens(opens: seq<char>, c: char): seq<char>
  {
    if c == '(' || c == '[' then opens + [c]
    else if (c == ')' || c == ']') && opens != [] then Pop(opens)
    else opens
  }

  lemma NestStep(raw: string, opens: seq<char>)
    requires raw != [] && Nest(raw, opens)
    ensures raw[0] == ')' ==> opens != [] && Top(opens) == '('
    ensures raw[0] == ']' ==> opens != [] && Top(opens) == '['
    ensures Nest(raw[1..], NextOpens(opens, raw[0]))
  {
  }

  lemma CountStep(before: multiset<char>, mid: multiset<char>, after: multiset<char>, one: multiset<char>, rest: multiset<char>, all: multiset<char>)
    requires after == mid + rest && mid == before + one && all == one + rest
    ensures after == before + all
  {
  }

  lemma {:induction false} FoldBalanced(s: RpnState, raw: string, opens: seq<char>)
    requires StackChars(s.st) && NoBracket(s.out) && OpenOf(s.st) == opens && Nest(raw, opens)
    ensures Fold(s, raw).Some?
    ensures var t := Fold(s, raw).value;
      && StackChars(t.st) && NoBracket(t.out) && OpenOf(t.st) == []
      && OpCount(t.out) + OpCount(t.st) == OpCount(s.out) + OpCount(s.st) + OpCount(raw)
    decreases |raw|
  {
    if raw != [] {
      var c := raw[0];
      NestStep(raw, opens);
      StepBalanced(s, c, opens);
      var t := Step(s, c).value;
      FoldUnfold(s, raw);
      FoldBalanced(t, raw[1..], NextOpens(opens, c));
      assert raw == [c] + raw[1..];
      OpCountAppend([c], raw[1..]);
      var u := Fold(t, raw[1..]).value;
      CountStep(OpCount(s.out) + OpCount(s.st), OpCount(t.out) + OpCount(t.st), OpCount(u.out) + OpCount(u.st),
        OpCount([c]), OpCount(raw[1..]), OpCount(raw));
    }
  }

  lemma {:induction false} FlushBalanced(st: seq<char>)
    requires StackChars(st) && OpenOf(st) == []
    ensures NoBracket(Reverse(st)) && OpCount(Reverse(st)) == OpCount(st)
    decreases |st|
  {
    if st != [] {
      assert !IsBracket(Top(st)) && OpenOf(Pop(st)) == [];
      FlushBalanced(Pop(st));
      assert NoBracket([Top(st)]) by {
        assert Pop([Top(st)]) == [];
      }
      NoBracketAppend([Top(st)], Reverse(Pop(st)));
      OpCountSplit(st);
      OpCountAppend([Top(st)], Reverse(Pop(st)));
    }
  }

  /** With balanced brackets the pass is defined, leaves no bracket in its
      output and emits every operator of the input exactly once. */
  lemma RpnBalanced(raw: string)
    requires Balanced(raw)
    ensures Rpn(raw).Some?
    ensures NoBracket(Rpn(raw).value)
    ensures OpCount(Rpn(raw).value) == OpCount(raw)
  {
    FoldBalanced(RpnState("", []), raw, []);
    var t := Fold(RpnState("", []), raw).value;
    FlushBalanced(t.st);
    NoBracketAppend(t.out, Reverse(t.st));
    OpCountAppend(t.out, Reverse(t.st));
  }

  // ---------------------------------------------------------------------
  // Reading one character at the head of the input.
  // ---------------------------------------------------------------------

  lemma FoldCons(s: RpnState, c: char, rest: string)
    ensures Fold(s, [c] + rest) == match Step(s, c) case None => None case Some(t) => Fold(t, rest)
  {
  }

  lemma FoldStep(s: RpnState, c: char, rest: string, t: RpnState)
    requires Step(s, c) == Some(t)
    ensures Fold(s, [c] + rest) == Fold(t, rest)
  {
  }

  /** An operand goes straight to the output. */
  lemma OperandStep(s: RpnState, x: char, rest: string)
    requires OperandChar(x)
    ensures Fold(s, [x] + rest) == Fold(RpnState(s.out + [x], s.st), rest)
  {
  }

  // ---------------------------------------------------------------------
  // A fully bracketed formula comes out in post-order.
  // ---------------------------------------------------------------------

  /** The input that writes formula `t` with every binary operator in
      brackets; a negation of a negation brackets its operand, since the pass
      would otherwise pop the outer `~` when it reads the inner one. */
  function Infix(t: Tree): string
    requires Formula(t)
  {
    match t
    case Node(c, l, r) =>
      if c == Negation then [Negation] + (if r.v == Negation then "(" + Infix(r) + ")" else Infix(r))
      else if Prior(c) == 1 then "(" + Infix(l) + [c] + Infix(r) + ")"
      else [c]
  }

  /** The state after reading `Infix(t)`: a negation leaves its `~` on the
      stack until the next operator or bracket pops it. */
  function After(t: Tree, s: RpnState): RpnState
    requires Formula(t)
  {
    if t.v == Negation then RpnState(s.out + PostOrder(t)[..|PostOrder(t)| - 1], s.st + [Negation])
    else RpnState(s.out + PostOrder(t), s.st)
  }

  /** A `~` may be read here without popping an earlier `~`. */
  predicate NoPendingNegation(st: seq<char>)
  {
    st == [] || Prior(Top(st)) < 2
  }

  lemma NegationPostOrder(t: Tree)
    requires Formula(t) && t.v == Negation
    ensures PostOrder(t) == [Placeholder] + PostOrder(t.r) + [Negation]
    ensures PostOrder(t)[..|PostOrder(t)| - 1] == [Placeholder] + PostOrder(t.r)
  {
  }

  /** Reading `o` (priority 1) right after `Infix(l)`, which followed `(`. */
  lemma OperatorAfter(l: Tree, s: RpnState, o: char)
    requires Formula(l) && Prior(o) == 1
    ensures Step(After(l, RpnState(s.out, s.st + ['('])), o) == Some(RpnState(s.out + PostOrder(l), s.st + ['(', o]))
  {
    var s1 := RpnState(s.out, s.st + ['(']);
    var a := After(l, s1);
    if l.v == Negation {
      NegationPostOrder(l);
      assert Top(a.st) == Negation && Pop(a.st) == s.st + ['('];
      assert a.out + [Negation] == s.out + PostOrder(l);
      assert PopWhile(a, 1) == PopWhile(RpnState(s.out + PostOrder(l), s.st + ['(']), 1);
    }
    assert Top(s.st + ['(']) == '(';
    assert PopWhile(RpnState(s.out + PostOrder(l), s.st + ['(']), 1) == RpnState(s.out + PostOrder(l), s.st + ['(']);
    assert o != Negation;
    assert s.st + ['('] + [o] == s.st + ['(', o];
    assert s.out + PostOrder(l) + [] == s.out + PostOrder(l);
  }

  /** Reading `)` right after `Infix(r)`, which followed `( .. o`. */
  lemma CloseAfter(r: Tree, out: string, st: seq<char>, o: char)
    requires Formula(r) && Prior(o) == 1
    ensures PopUntil(After(r, RpnState(out, st + ['(', o])), '(') == Some(RpnState(out + PostOrder(r) + [o], st))
  {
    var s2 := RpnState(out, st + ['(', o]);
    var a := After(r, s2);
    var b := RpnState(out + PostOrder(r), st + ['(', o]);
    if r.v == Negation {
      NegationPostOrder(r);
      assert Top(a.st) == Negation && Pop(a.st) == st + ['(', o];
      assert a.out + [Negation] == out + PostOrder(r);
      assert PopUntil(a, '(') == PopUntil(b, '(');
    }
    assert Top(b.st) == o && Pop(b.st) == st + ['('];
    var c := RpnState(out + PostOrder(r) + [o], st + ['(']);
    assert PopUntil(b, '(') == PopUntil(c, '(');
    assert Top(c.st) == '(' && Pop(c.st) == st;
  }

  lemma {:induction false} InfixFold(t: Tree, s: RpnState, rest: string)
    requires Formula(t) && (t.v == Negation ==> NoPendingNegation(s.st))
    ensures Fold(s, Infix(t) + rest) == Fold(After(t, s), rest)
    decreases t
  {
    match t
    case Node(c, l, r) =>
      if c == Negation {
        NegationFold(t, s, rest);
      } else if Prior(c) == 1 {
        BinaryFold(t, s, rest);
      } else {
        FoldCons(s, c, rest);
        assert PostOrder(t) == [c];
      }
  }

  /** How `Infix` of a binary formula splits around its brackets. */
  lemma BinaryInfix(t: Tree, rest: string)
    requires Formula(t) && Prior(t.v) == 1
    ensures Infix(t) + rest == ['('] + (Infix(t.l) + ([t.v] + (Infix(t.r) + ([')'] + rest))))
  {
  }

  lemma OpenStep(s: RpnState, open: char)
    requires open == '(' || open == '['
    ensures Step(s, open) == Some(RpnState(s.out, s.st + [open]))
    ensures NoPendingNegation(s.st + [open])
  {
  }

  lemma BinaryAfter(t: Tree, s: RpnState)
    requires Formula(t) && Prior(t.v) == 1
    ensures After(t, s) == RpnState(s.out + PostOrder(t.l) + PostOrder(t.r) + [t.v], s.st)
  {
  }

  lemma {:induction false} BinaryFold(t: Tree, s: RpnState, rest: string)
    requires Formula(t) && Prior(t.v) == 1
    ensures Fold(s, Infix(t) + rest) == Fold(After(t, s), rest)
    decreases t, 0
  {
    var Node(c, l, r) := t;
    var b := Infix(r);
    var s1 := RpnState(s.out, s.st + ['(']);
    var s2 := RpnState(s.out + PostOrder(l), s.st + ['(', c]);
    var s3 := RpnState(s.out + PostOrder(l) + PostOrder(r) + [c], s.st);
    calc {
      Fold(s, Infix(t) + rest);
      { BinaryInfix(t, rest); }
      Fold(s, ['('] + (Infix(l) + ([c] + (b + ([')'] + rest)))));
      { OpenStep(s, '('); FoldStep(s, '(', Infix(l) + ([c] + (b + ([')'] + rest))), s1); }
      Fold(s1, Infix(l) + ([c] + (b + ([')'] + rest))));
      { OpenStep(s, '('); InfixFold(l, s1, [c] + (b + ([')'] + rest))); }
      Fold(After(l, s1), [c] + (b + ([')'] + rest)));
      { OperatorAfter(l, s, c); FoldStep(After(l, s1), c, b + ([')'] + rest), s2); }
      Fold(s2, b + ([')'] + rest));
      { assert Top(s2.st) == c; InfixFold(r, s2, [')'] + rest); }
      Fold(After(r, s2), [')'] + rest);
      { CloseAfter(r, s.out + PostOrder(l), s.st, c); FoldStep(After(r, s2), ')', rest, s3); }
      Fold(s3, rest);
      { BinaryAfter(t, s); }
      Fold(After(t, s), rest);
    }
  }

  /** After a negation: its placeholder and its operand's post-order are
      out, and the `~` waits on the stack. */
  lemma NegationAfter(t: Tree, s: RpnState)
    requires Formula(t) && t.v == Negation
    ensures After(t, s) == RpnState(s.out + [Placeholder] + PostOrder(t.r), s.st + [Negation])
    ensures t.r.v != Negation ==> After(t.r, RpnState(s.out + [Placeholder], s.st + [Negation])) == After(t, s)
  {
    NegationPostOrder(t);
    assert s.out + [Placeholder] + PostOrder(t.r) == s.out + ([Placeholder] + PostOrder(t.r));
  }

  lemma NegationStep(s: RpnState)
    requires NoPendingNegation(s.st)
    ensures Step(s, Negation) == Some(RpnState(s.out + [Placeholder], s.st + [Negation]))
  {
  }

  /** Reading `)` right after `Infix(r)` of a negation, which followed `(`. */
  lemma CloseNegation(r: Tree, out: string, st: seq<char>)
    requires Formula(r) && r.v == Negation
    ensures PopUntil(After(r, RpnState(out, st + ['('])), '(') == Some(RpnState(out + PostOrder(r), st))
  {
    NegationPostOrder(r);
    var a := After(r, RpnState(out, st + ['(']));
    assert Top(a.st) == Negation && Pop(a.st) == st + ['('];
    var d := RpnState(out + PostOrder(r), st + ['(']);
    assert a.out + [Negation] == d.out;
    assert PopUntil(a, '(') == PopUntil(d, '(');
    assert Top(d.st) == '(' && Pop(d.st) == st;
  }

  lemma DoubleNegationInfix(t: Tree, rest: string)
    requires Formula(t) && t.v == Negation && t.r.v == Negation
    ensures Infix(t) + rest == [Negation] + (['('] + (Infix(t.r) + ([')'] + rest)))
  {
  }

  lemma {:induction false} DoubleNegationFold(t: Tree, s: RpnState, rest: string)
    requires Formula(t) && t.v == Negation && t.r.v == Negation && NoPendingNegation(s.st)
    ensures Fold(s, Infix(t) + rest) == Fold(After(t, s), rest)
    decreases t, 0
  {
    var r := t.r;
    var b := Infix(r);
    var s1 := RpnState(s.out + [Placeholder], s.st + [Negation]);
    var s2 := RpnState(s1.out, s1.st + ['(']);
    var s3 := RpnState(s1.out + PostOrder(r), s1.st);
    calc {
      Fold(s, Infix(t) + rest);
      { DoubleNegationInfix(t, rest); }
      Fold(s, [Negation] + (['('] + (b + ([')'] + rest))));
      { NegationStep(s); FoldStep(s, Negation, ['('] + (b + ([')'] + rest)), s1); }
      Fold(s1, ['('] + (b + ([')'] + rest)));
      { OpenStep(s1, '('); FoldStep(s1, '(', b + ([')'] + rest), s2); }
      Fold(s2, b + ([')'] + rest));
      { OpenStep(s1, '('); InfixFold(r, s2, [')'] + rest); }
      Fold(After(r, s2), [')'] + rest);
      { CloseNegation(r, s1.out, s1.st); FoldStep(After(r, s2), ')', rest, s3); }
      Fold(s3, rest);
      { NegationAfter(t, s); }
      Fold(After(t, s), rest);
    }
  }

  lemma {:induction false} NegationFold(t: Tree, s: RpnState, rest: string)
    requires Formula(t) && t.v == Negation && NoPendingNegation(s.st)
    ensures Fold(s, Infix(t) + rest) == Fold(After(t, s), rest)
    decreases t, 1
  {
    var r := t.r;
    if r.v == Negation {
      DoubleNegationFold(t, s, rest);
    } else {
      var s1 := RpnState(s.out + [Placeholder], s.st + [Negation]);
      assert Infix(t) + rest == [Negation] + (Infix(r) + rest);
      NegationStep(s);
      FoldStep(s, Negation, Infix(r) + rest, s1);
      InfixFold(r, s1, rest);
      NegationAfter(t, s);
    }
  }

  /** The final flush after `Infix(t)`: the pending `~` of a negation goes
      last. */
  lemma FlushAfter(t: Tree)
    requires Formula(t)
    ensures Flush(After(t, RpnState("", []))) == PostOrder(t)
  {
  }

  lemma FlushNegation(t: Tree)
    requires Formula(t) && t.v == Negation
    ensures Flush(After(t, RpnState("", []))) == PostOrder(t)
  {
  }

  /** A fully bracketed formula is emitted exactly in post-order, which is
      what `buildTree` consumes. */
  lemma RpnOfInfix(t: Tree)
    requires Formula(t)
    ensures Rpn(Infix(t)) == Some(PostOrder(t))
  {
    var s0 := RpnState("", []);
    InfixFold(t, s0, []);
    assert Infix(t) + [] == Infix(t);
    assert Fold(s0, Infix(t)) == Some(After(t, s0));
    FlushAfter(t);
  }

  // ---------------------------------------------------------------------
  // Priorities: with as few brackets as the priorities allow, a formula
  // still comes out in post-order. The binary operators group to the left
  // and `~` takes the operand right after it.
  // ---------------------------------------------------------------------

  /** How a formula is written as the right operand of a binary operator:
      a binary formula needs brackets, an atom or a negation does not. */
  function RightText(t: Tree): string
    requires Formula(t)
    decreases t, 1
  {
    if Prior(t.v) == 1 then "(" + MinInfix(t) + ")" else MinInfix(t)
  }

  /** The input that writes `t` with the fewest brackets: none around a left
      operand, none around an atom or a negation on the right, and none around
      an atom after `~`. */
  function MinInfix(t: Tree): string
    requires Formula(t)
    decreases t, 0
  {
    match t
    case Node(c, l, r) =>
      if c == Negation then [Negation] + (if Prior(r.v) >= 1 then "(" + MinInfix(r) + ")" else [r.v])
      else if Prior(c) == 1 then MinInfix(l) + [c] + RightText(r)
      else [c]
  }

  /** What reading `RightText(t)` leaves on the stack: the `~` of a negation. */
  function RightPending(t: Tree): seq<char>
    requires Formula(t)
  {
    if t.v == Negation then [Negation] else []
  }

  /** What reading `MinInfix(t)` leaves on the stack: the operator at the top
      of `t` and the `~` of a negated right operand. */
  function Pending(t: Tree): seq<char>
    requires Formula(t)
  {
    if t.v == Negation then [Negation]
    else if Prior(t.v) == 1 then [t.v] + RightPending(t.r)
    else []
  }

  /** What reading `RightText(t)` emits. */
  function RightDone(t: Tree): string
    requires Formula(t)
  {
    if t.v == Negation then [Placeholder] + PostOrder(t.r) else PostOrder(t)
  }

  /** What reading `MinInfix(t)` emits. */
  function Done(t: Tree): string
    requires Formula(t)
  {
    if t.v == Negation then [Placeholder] + PostOrder(t.r)
    else if Prior(t.v) == 1 then PostOrder(t.l) + RightDone(t.r)
    else [t.v]
  }

  lemma ReverseShort(a: char, b: char)
    ensures Reverse([]) == [] && Reverse([a]) == [a] && Reverse([a, b]) == [b, a]
  {
    assert Pop([a]) == [] && Top([a]) == a;
    assert Pop([a, b]) == [a] && Top([a, b]) == b;
  }

  /** The characters a right operand leaves on the stack come out last and
      finish its post-order. */
  lemma RightDonePending(t: Tree)
    requires Formula(t)
    ensures RightDone(t) + Reverse(RightPending(t)) == PostOrder(t)
  {
    ReverseShort(Negation, Negation);
    if t.v == Negation {
      NegationPostOrder(t);
    } else {
      assert PostOrder(t) + [] == PostOrder(t);
    }
  }

  /** The characters left on the stack come out last, top first, and finish
      the post-order. */
  lemma DonePending(t: Tree)
    requires Formula(t)
    ensures Done(t) + Reverse(Pending(t)) == PostOrder(t)
    ensures forall k :: 0 <= k < |Pending(t)| ==> Prior(Pending(t)[k]) >= 1
  {
    var c := t.v;
    if c == Negation {
      ReverseShort(c, c);
      NegationPostOrder(t);
    } else if Prior(c) == 1 {
      BinaryDonePending(t);
    } else {
      ReverseShort(c, c);
      assert Done(t) == PostOrder(t) && Pending(t) == [];
    }
  }

  lemma BinaryDonePending(t: Tree)
    requires Formula(t) && t.v != Negation && Prior(t.v) == 1
    ensures Done(t) + Reverse(Pending(t)) == PostOrder(t)
  {
    var c, r := t.v, t.r;
    ReverseShort(c, Negation);
    RightDonePending(r);
    assert Reverse(Pending(t)) == Reverse(RightPending(r)) + [c] by {
      if r.v == Negation {
        assert Pending(t) == [c, Negation] && RightPending(r) == [Negation];
      } else {
        assert Pending(t) == [c] && RightPending(r) == [];
      }
    }
    calc {
      Done(t) + Reverse(Pending(t));
      (PostOrder(t.l) + RightDone(r)) + (Reverse(RightPending(r)) + [c]);
      PostOrder(t.l) + (RightDone(r) + Reverse(RightPending(r))) + [c];
      PostOrder(t.l) + PostOrder(r) + [c];
    }
  }

  /** The top of the stack is a bracket, or there is none: a binary operator
      read now pops nothing that was there before. */
  predicate OpenTop(st: seq<char>)
  {
    st == [] || Prior(Top(st)) == 0
  }

  /** A binary operator pops exactly the operators read since the last
      bracket, top first. */
  lemma {:induction false} PopPending(out: string, st: seq<char>, p: seq<char>)
    requires OpenTop(st) && forall k :: 0 <= k < |p| ==> Prior(p[k]) >= 1
    ensures PopWhile(RpnState(out, st + p), 1) == RpnState(out + Reverse(p), st)
    decreases |p|
  {
    if p == [] {
      assert st + p == st;
    } else {
      assert Top(st + p) == Top(p) && Pop(st + p) == st + Pop(p);
      PopPending(out + [Top(p)], st, Pop(p));
      assert out + [Top(p)] + Reverse(Pop(p)) == out + Reverse(p);
    }
  }

  /** A closing bracket pops exactly the operators read since its opening
      bracket, top first, and then the bracket. */
  lemma {:induction false} ClosePending(out: string, st: seq<char>, p: seq<char>)
    requires forall k :: 0 <= k < |p| ==> Prior(p[k]) >= 1
    ensures PopUntil(RpnState(out, st + ['('] + p), '(') == Some(RpnState(out + Reverse(p), st))
    decreases |p|
  {
    if p == [] {
      assert st + ['('] + p == st + ['('];
      assert Top(st + ['(']) == '(' && Pop(st + ['(']) == st;
      assert Reverse(p) == [] && out + [] == out;
    } else {
      assert Top(st + ['('] + p) == Top(p) && Pop(st + ['('] + p) == st + ['('] + Pop(p);
      assert Top(p) != '(';
      ClosePending(out + [Top(p)], st, Pop(p));
      assert out + [Top(p)] + Reverse(Pop(p)) == out + Reverse(p);
    }
  }

  /** How `MinInfix` of a binary formula splits around its operator. */
  lemma MinBinaryText(t: Tree, rest: string)
    requires Formula(t) && Prior(t.v) == 1
    ensures MinInfix(t) + rest == MinInfix(t.l) + ([t.v] + (RightText(t.r) + rest))
  {
  }

  /** How a bracketed formula splits around its brackets. */
  lemma BracketText(t: Tree, rest: string)
    requires Formula(t)
    ensures "(" + MinInfix(t) + ")" + rest == ['('] + (MinInfix(t) + ([')'] + rest))
  {
  }

  /** How `MinInfix` of a negation splits after its `~`. */
  lemma MinNegationText(t: Tree, rest: string)
    requires Formula(t) && t.v == Negation
    ensures Prior(t.r.v) >= 1 ==> MinInfix(t) + rest == [Negation] + ("(" + MinInfix(t.r) + ")" + rest)
    ensures Prior(t.r.v) < 1 ==> MinInfix(t) + rest == [Negation] + ([t.r.v] + rest)
  {
  }

  /** Reading `MinInfix(t)` on a stack whose top is a bracket or empty. */
  lemma {:induction false} MinFold(t: Tree, s: RpnState, rest: string)
    requires Formula(t) && OpenTop(s.st)
    ensures Fold(s, MinInfix(t) + rest) == Fold(RpnState(s.out + Done(t), s.st + Pending(t)), rest)
    decreases t, 2
  {
    var Node(c, l, r) := t;
    if c == Negation {
      NegationMinFold(t, s, rest);
    } else if Prior(c) == 1 {
      var b := RightText(r) + rest;
      var a := RpnState(s.out + Done(l), s.st + Pending(l));
      var a1 := RpnState(s.out + PostOrder(l), s.st + [c]);
      calc {
        Fold(s, MinInfix(t) + rest);
        { MinBinaryText(t, rest); }
        Fold(s, MinInfix(l) + ([c] + b));
        { MinFold(l, s, [c] + b); }
        Fold(a, [c] + b);
        { OperatorPops(l, s, c); FoldStep(a, c, b, a1); }
        Fold(a1, b);
        { assert Top(a1.st) == c; RightFold(r, a1, rest); }
        Fold(RpnState(a1.out + RightDone(r), a1.st + RightPending(r)), rest);
        { assert a1.out + RightDone(r) == s.out + Done(t);
          assert a1.st + RightPending(r) == s.st + Pending(t); }
        Fold(RpnState(s.out + Done(t), s.st + Pending(t)), rest);
      }
    } else {
      OperandStep(s, c, rest);
      assert s.st + [] == s.st;
    }
  }

  /** A binary operator read after `MinInfix(l)` completes `l` and waits on
      the stack. */
  lemma OperatorPops(l: Tree, s: RpnState, c: char)
    requires Formula(l) && OpenTop(s.st) && Prior(c) == 1
    ensures Step(RpnState(s.out + Done(l), s.st + Pending(l)), c) == Some(RpnState(s.out + PostOrder(l), s.st + [c]))
  {
    DonePending(l);
    OperatorStep(s.out + Done(l), s.st, Pending(l), c);
    assert s.out + Done(l) + Reverse(Pending(l)) == s.out + PostOrder(l);
  }

  /** A binary operator pops the operators above the last bracket and takes
      their place. */
  lemma OperatorStep(out: string, st: seq<char>, p: seq<char>, c: char)
    requires OpenTop(st) && Prior(c) == 1
    requires forall k :: 0 <= k < |p| ==> Prior(p[k]) >= 1
    ensures Step(RpnState(out, st + p), c) == Some(RpnState(out + Reverse(p), st + [c]))
  {
    PopPending(out, st, p);
    assert c != Negation && !IsBracket(c);
    assert out + Reverse(p) + [] == out + Reverse(p);
  }

  /** Reading `~` and its operand: the placeholder and the operand's
      post-order are emitted and the `~` waits on the stack. */
  lemma {:induction false} NegationMinFold(t: Tree, s: RpnState, rest: string)
    requires Formula(t) && t.v == Negation && NoPendingNegation(s.st)
    ensures Fold(s, MinInfix(t) + rest) == Fold(RpnState(s.out + Done(t), s.st + [Negation]), rest)
    decreases t, 1
  {
    var r := t.r;
    var s1 := RpnState(s.out + [Placeholder], s.st + [Negation]);
    NegationStep(s);
    MinNegationText(t, rest);
    if Prior(r.v) >= 1 {
      FoldStep(s, Negation, "(" + MinInfix(r) + ")" + rest, s1);
      BracketFold(r, s1, rest);
      assert s1.out + PostOrder(r) == s.out + Done(t);
    } else {
      FoldStep(s, Negation, [r.v] + rest, s1);
      OperandStep(s1, r.v, rest);
      assert PostOrder(r) == [r.v];
      assert s1.out + [r.v] == s.out + Done(t);
    }
  }

  /** A bracketed formula is emitted whole, in post-order, and leaves the
      stack as it found it. */
  lemma {:induction false} BracketFold(t: Tree, s: RpnState, rest: string)
    requires Formula(t)
    ensures Fold(s, "(" + MinInfix(t) + ")" + rest) == Fold(RpnState(s.out + PostOrder(t), s.st), rest)
    decreases t, 3
  {
    var s1 := RpnState(s.out, s.st + ['(']);
    var a := RpnState(s.out + Done(t), s.st + ['('] + Pending(t));
    var s2 := RpnState(s.out + PostOrder(t), s.st);
    calc {
      Fold(s, "(" + MinInfix(t) + ")" + rest);
      { BracketText(t, rest); }
      Fold(s, ['('] + (MinInfix(t) + ([')'] + rest)));
      { OpenStep(s, '('); FoldStep(s, '(', MinInfix(t) + ([')'] + rest), s1); }
      Fold(s1, MinInfix(t) + ([')'] + rest));
      { OpenStep(s, '('); MinFold(t, s1, [')'] + rest); assert s1.st + Pending(t) == a.st; }
      Fold(a, [')'] + rest);
      { ClosePops(t, s); FoldStep(a, ')', rest, s2); }
      Fold(s2, rest);
    }
  }

  /** A closing bracket read after `MinInfix(t)` completes `t`. */
  lemma ClosePops(t: Tree, s: RpnState)
    requires Formula(t)
    ensures Step(RpnState(s.out + Done(t), s.st + ['('] + Pending(t)), ')') == Some(RpnState(s.out + PostOrder(t), s.st))
  {
    DonePending(t);
    ClosePending(s.out + Done(t), s.st, Pending(t));
    assert s.out + Done(t) + Reverse(Pending(t)) == s.out + PostOrder(t);
  }

  /** Reading a right operand right after its binary operator. */
  lemma {:induction false} RightFold(t: Tree, s: RpnState, rest: string)
    requires Formula(t) && NoPendingNegation(s.st)
    ensures Fold(s, RightText(t) + rest) == Fold(RpnState(s.out + RightDone(t), s.st + RightPending(t)), rest)
    decreases t, 4
  {
    if Prior(t.v) == 1 {
      BracketFold(t, s, rest);
      assert s.st + [] == s.st;
    } else if t.v == Negation {
      NegationMinFold(t, s, rest);
    } else {
      OperandStep(s, t.v, rest);
      assert PostOrder(t) == [t.v] && s.st + [] == s.st;
    }
  }

  /** With only the brackets the priorities need, every formula is still
      emitted exactly in post-order, which is what `buildTree` consumes. */
  lemma RpnOfMinInfix(t: Tree)
    requires Formula(t)
    ensures Rpn(MinInfix(t)) == Some(PostOrder(t))
  {
    var s0 := RpnState("", []);
    MinFold(t, s0, []);
    assert MinInfix(t) + [] == MinInfix(t);
    assert s0.out + Done(t) == Done(t) && s0.st + Pending(t) == Pending(t);
    assert Fold(s0, MinInfix(t)) == Some(RpnState(Done(t), Pending(t)));
    DonePending(t);
  }

  /** An operand of a chain: an atom, or an atom under `~`. */
  datatype Operand = Plain(x: char) | Negated(x: char)

  /** One link `o x` of a chain `x0 o1 x1 … on xn`. */
  datatype Link = Link(op: char, arg: Operand)

  function OperandText(u: Operand): string
  {
    match u
    case Plain(x) => [x]
    case Negated(x) => [Negation, x]
  }

  function OperandTree(u: Operand): Tree
  {
    match u
    case Plain(x) => Leaf(x)
    case Negated(x) => Neg(Leaf(x))
  }

  /** Atoms for operands and binary operators between them. */
  predicate ChainOk(u0: Operand, links: seq<Link>)
  {
    IsAtom(u0.x) && forall k :: 0 <= k < |links| ==> Prior(links[k].op) == 1 && IsAtom(links[k].arg.x)
  }

  /** The input `x0 o1 x1 … on xn`, without brackets. */
  function ChainText(u0: Operand, links: seq<Link>): string
    decreases |links|
  {
    if links == [] then OperandText(u0)
    else
      var last := links[|links| - 1];
      ChainText(u0, links[..|links| - 1]) + [last.op] + OperandText(last.arg)
  }

  /** The left-nested formula `(…((x0 o1 x1) o2 x2) … on xn)`. */
  function ChainTree(u0: Operand, links: seq<Link>): Tree
    decreases |links|
  {
    if links == [] then OperandTree(u0)
    else
      var last := links[|links| - 1];
      Node(last.op, ChainTree(u0, links[..|links| - 1]), OperandTree(last.arg))
  }

  /** An operand is a formula and is written as itself. */
  lemma OperandMinInfix(u: Operand)
    requires IsAtom(u.x)
    ensures Formula(OperandTree(u)) && Prior(OperandTree(u).v) != 1
    ensures MinInfix(OperandTree(u)) == OperandText(u)
  {
  }

  /** A chain is the fewest-brackets writing of its left-nested formula. */
  lemma {:induction false} ChainMinInfix(u0: Operand, links: seq<Link>)
    requires ChainOk(u0, links)
    ensures Formula(ChainTree(u0, links))
    ensures MinInfix(ChainTree(u0, links)) == ChainText(u0, links)
    decreases |links|
  {
    if links == [] {
      OperandMinInfix(u0);
    } else {
      var init := links[..|links| - 1];
      var last := links[|links| - 1];
      assert ChainOk(u0, init) by {
        forall k | 0 <= k < |init|
          ensures Prior(init[k].op) == 1 && IsAtom(init[k].arg.x)
        {
          assert init[k] == links[k];
        }
      }
      ChainMinInfix(u0, init);
      OperandMinInfix(last.arg);
    }
  }

  /** `x0 o1 x1 … on xn`, with atoms or negated atoms for operands and binary
      operators between them, is emitted as the post-order of the left-nested
      formula: the binary operators group to the left, and each `~` takes the
      atom right after it. */
  lemma LeftAssociative(u0: Operand, links: seq<Link>)
    requires ChainOk(u0, links)
    ensures Formula(ChainTree(u0, links))
    ensures Rpn(ChainText(u0, links)) == Some(PostOrder(ChainTree(u0, links)))
  {
    ChainMinInfix(u0, links);
    RpnOfMinInfix(ChainTree(u0, links));
  }
}
