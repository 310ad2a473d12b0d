/**
 * One round of the `main` loop of RS_Strategy.cpp: the clean-up of the
 * input line, the shunting-yard pass, `buildTree`, `preOrderTraversal` and
 * the leaf check. The answer is proved to be the validity of the formula the
 * tree stands for.
 */
module RsProgram {
  import opened Wrappers
  import opened Trees
  import opened ReversePolish
  import opened TreeBuilder
  import opened RsStrategy
  import opened LeafCheck

  /** `erase(remove(begin, end, x), end)`: every `x` goes, each other
      character stays as often as it was there; `EraseAppend` and
      `EraseSingle` say that the order is kept too. */
  function Erase(s: string, x: char): (r: string)
    ensures forall c :: c in r <==> c in s && c != x
    ensures multiset(r) == multiset(s)[x := 0]
    ensures |r| <= |s|
  {
    if s == [] then []
    else
      assert s == [s[0]] + s[1..];
      (if s[0] == x then [] else [s[0]]) + Erase(s[1..], x)
  }

  /** One character: an `x` is erased, any other is kept. */
  lemma EraseSingle(c: char, x: char)
    ensures Erase([c], x) == if c == x then [] else [c]
  {
    assert [c][1..] == [];
  }

  /** Erasing works piece by piece, so the kept characters keep their order. */
  lemma {:induction false} EraseAppend(a: string, b: string, x: char)
    ensures Erase(a + b, x) == Erase(a, x) + Erase(b, x)
    decreases |a|
  {
    if a == [] {
      assert a + b == b;
    } else {
      assert (a + b)[0] == a[0];
      assert (a + b)[1..] == a[1..] + b;
      EraseAppend(a[1..], b, x);
    }
  }

  /** A string without `x` is left as it is. */
  lemma {:induction false} EraseAbsent(s: string, x: char)
    requires x !in s
    ensures Erase(s, x) == s
  {
    if s != [] {
      assert x !in s[1..];
      EraseAbsent(s[1..], x);
      assert [s[0]] + s[1..] == s;
    }
  }

  /** Step 2 of `main`: the dashes of `->` and all blanks are removed, every
      other character is kept as often as it was there. */
  function Clean(raw: string): (r: string)
    ensures forall c :: c in r <==> c in raw && c != '-' && c != ' '
    ensures multiset(r) == multiset(raw)['-' := 0][' ' := 0]
  {
    Erase(Erase(raw, '-'), ' ')
  }

  /** Cleaning works piece by piece, so the kept characters keep their order. */
  lemma CleanAppend(a: string, b: string)
    ensures Clean(a + b) == Clean(a) + Clean(b)
  {
    EraseAppend(a, b, '-');
    EraseAppend(Erase(a, '-'), Erase(b, '-'), ' ');
  }

  /** A line with neither dashes nor blanks is left as it is. */
  lemma CleanAbsent(raw: string)
    requires '-' !in raw && ' ' !in raw
    ensures Clean(raw) == raw
  {
    EraseAbsent(raw, '-');
    EraseAbsent(raw, ' ');
  }

  lemma {:induction false} InfixChars(t: Tree)
    requires Formula(t)
    ensures '-' !in Infix(t) && ' ' !in Infix(t)
    decreases t
  {
    if t.v == Negation {
      InfixChars(t.r);
    } else if Prior(t.v) == 1 {
      InfixChars(t.l);
      InfixChars(t.r);
    }
  }

  lemma {:induction false} MinInfixChars(t: Tree)
    requires Formula(t)
    ensures '-' !in MinInfix(t) && ' ' !in MinInfix(t)
    decreases t
  {
    if t.v == Negation {
      MinInfixChars(t.r);
    } else if Prior(t.v) == 1 {
      MinInfixChars(t.l);
      MinInfixChars(t.r);
    }
  }

  /** The tree a cleaned line is read into, when it is read without undefined
      behaviour. */
  function ParseLine(raw: string): Option<Tree>
  {
    match Rpn(Clean(raw))
    case None => None
    case Some(rp) => Build(rp)
  }

  /** Steps 2 to 6 of one round of `main`, for a line that is not `q`: the
      answer is `tautology` after `show(seqs)`. The tree must be a formula, as
      the program does no grammar check. */
  method CheckSequence(raw: string) returns (isTautology: bool)
    requires ParseLine(raw).Some? && Formula(ParseLine(raw).value)
    ensures isTautology <==> TValid(ParseLine(raw).value)
  {
    var line := Clean(raw);
    var rp := ReversePolishNotation(line);
    var seqTree := BuildTree(rp);
    var seqs := PreOrder(seqTree);
    PreOrderDecides(seqTree);
    var checker := new Classifier();
    checker.Show(seqs);
    ShowAll(seqs, true);
    isTautology := checker.tautology;
  }

  /** A fully bracketed formula is read back as itself, so `CheckSequence`
      on it answers its validity. */
  lemma ParseLineInfix(t: Tree)
    requires Formula(t)
    ensures ParseLine(Infix(t)) == Some(t)
  {
    InfixChars(t);
    CleanAbsent(Infix(t));
    ParseInfix(t);
  }

  /** A formula written with the fewest brackets is read back as itself, so
      `CheckSequence` on it answers its validity. */
  lemma ParseLineMinInfix(t: Tree)
    requires Formula(t)
    ensures ParseLine(MinInfix(t)) == Some(t)
  {
    MinInfixChars(t);
    CleanAbsent(MinInfix(t));
    ParseMinInfix(t);
  }
}
