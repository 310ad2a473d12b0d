# Rasiowa–Sikorski tautology checkers, modelled in Dafny

The repository checks propositional tautologies with the Rasiowa–Sikorski
(RS) decomposition method. It does so in three independent programs:

* `tautology_checker.py` uses two-sided sequents `left ⊢ right`. `evaluate`
  scans the antecedents, then the consequents. It removes the first compound
  formula in place, applies its rule, and decides a two-premise rule's second
  premise recursively. Every leaf it meets is logged in `leaf_list`, and part
  of them in `fundamental_list`, under the run-wide flag `is_fundamental`.
* `RS_Tautology.py` is the same search with a different loop. A formula
  shared by the two sides closes the sequent at once. "Expression is not a
  tautology" is returned only after a pass in which nothing was expanded.
  Every leaf is logged in `leafnodes`, and part of them in `fundamentals`,
  under `nonfundamentalnodefound`.
* `RS_Strategy.cpp` is one-sided. Each input line goes through these steps:
  1. It is cleaned of `-` and blanks.
  2. The shunting-yard pass `ReversePolishNotation` turns it into post-order.
     It emits a `#` placeholder so that `~` becomes a binary node.
  3. `buildTree` turns the post-order into a character tree.
  4. `preOrderTraversal` grows a tree of sequences with `RSMethod`.
  5. The two `show` functions classify the leaves, using the globals `pos`,
     `neg`, `fundamental` and `tautology`.

## How the model is built

**Shared parts.**
* Formulas are a datatype (`Formulas.Formula`).
* The meaning of a sequent is `Formulas.Valid`.
* The rule tables of both Python programs are `Rules.LeftRule` and
  `Rules.RightRule`. Each side of a premise is either the very list object
  the rule was handed (`Keep`) or a new list `xs + [..]` (`Extend`).
* The `__str__` methods of both programs are `Printing.Show`, with each
  program's spelling of the operators as a parameter. The leaves both
  programs log are `Printing.Leaf`.

**Python list objects.** Python's list objects are modelled explicitly, in
`ListHeap`.
* A list reference is an index into a store of list contents.
* `remove` rewrites one entry in place.
* `+` appends a new entry.
* With this, a removal made in the recursive search of a second premise is
  seen by the first premise that shares the list. This is exactly how the
  programs behave.

**Each Python engine.** Each engine is modelled twice:
* as a specification over the store and the global logs;
* as a class (`TautologyChecker.Engine`, `RsTautology.Engine`). Its fields
  are the store and the globals, and its methods carry the `while`/`for`
  loops of the source. Each method is proved to compute its specification.

**Exceptions.** In tautology_checker.py, `Expression.__eq__` calls `equals`,
which `NegationOperator` does not define. So `x == y` is modelled as a value
that may raise (`TautologyChecker.PyEq`). Each `in` test and the count loop
of `_append_leaves` propagate the exception. `evaluate` turns it into `None`.

**Identity in `in` and `remove`.** Python's identity shortcut in `in` and
`list.remove` is not modelled.
* `remove(e)` is modelled as removing the element at the scan's index. The
  elements before it are all atoms, and comparing an atom with a compound
  formula is `False` without a call to `equals`.
* `in` is modelled through `__eq__` alone. In the sequents the search builds,
  the only objects that occur both as a scanned formula and as a member of
  the other side are the shared `Proposition`/`Variable` objects. Those
  compare equal by name anyway.

**The corrected search.** `ValueSearch` is a corrected search shaped like
`call_func` of RS_Tautology.py:
* list values instead of shared list objects;
* total structural equality;
* a stop that needs both passes to expand nothing.

It is proved to decide validity. `ValueSearch.CorrectedCall` is `_call_func`
with these corrections. `ValueSearch.CorrectedEvaluate` gives the verdict
that the top-level `evaluate` of tautology_checker.py evidently means to
give, but not that loop's own shape: its scan goes on past a closed sequent
and still expands the next compound formula. The findings below are run
step by step through the as-written models.

**RS_Strategy.cpp.**
* Character trees are a datatype.
* `ReversePolishNotation` and `buildTree` are methods with loops, proved
  equal to the fold functions `Rpn`/`Build`.
* `RSMethod` is a function from the sequence and its context to the children
  it installs on the current node of the sequence tree.
* The globals of `show` are the fields of `LeafCheck.Classifier`.
* `NodeMemory` models the pointer steps of `sharedCode` on an explicit memory
  of cells, the one place where node identity changes the outcome.

  At every leaf, `show` leaves `pos`, `neg` and `fundamental` cleared, and
  `main` resets `tautology` after every line. So every round starts from the
  initial globals, and `RsProgram.CheckSequence` uses a fresh `Classifier`
  for each line.

The main results are these:

* `TautologyChecker.IsTautology` and `RsTautology.IsTautology` are sound.
  They report a tautology only for a tautology.
* `RsProgram.CheckSequence` answers exactly the validity of the formula the
  input line is read into, once the dangling pointer that `sharedCode`
  leaves is cleared (`NodeMemory.DanglingRead`, `NodeMemory.FixedRestores`).
* `ValueSearch.SearchValid` proves that the corrected search decides
  validity.
* `ReversePolish.RpnOfMinInfix` shows that the pass emits the post-order
  of every formula written with only the brackets the priorities need.
  `ReversePolish.LeftAssociative` applies it to chains `x0 o1 x1 … on xn`.
* `Printing.LeafDetermines` shows that a logged leaf records its sequent,
  once the number of antecedents is known.

## Model

| member | source | states |
|---|---|---|
| Formulas.Size | tautology_checker.py:118-206 | every formula has size at least 1, so removing one strictly shrinks a side |
| Formulas.InitialSequent | tautology_checker.py:237 | the starting sequent `[] ⊢ [f]` of both engines is valid exactly when `f` is a tautology |
| Rules.LeftRule | tautology_checker.py:118-206 | the `_left_side` rules give one or two premises, each adding only formulas smaller than the expanded one and building at least one side as a fresh list; the table itself is checked against the meaning of the connectives by `Rules.LeftRuleInvertible`; RS_Tautology.py:125-169 has the same table as `_tleft` |
| Rules.RightRule | tautology_checker.py:118-206 | the `_right_side` rules, with the same size and fresh-list guarantees; checked against the connectives by `Rules.RightRuleInvertible`; RS_Tautology.py:125-169 has the same table as `_tright` |
| Rules.LeftRuleInvertible | tautology_checker.py:118-206 | a left rule's conclusion is valid exactly when all of its premises are valid, for `_left_side` and for `_tleft` (RS_Tautology.py:125-169) alike |
| Rules.RightRuleInvertible | tautology_checker.py:118-206 | a right rule's conclusion is valid exactly when all of its premises are valid, for `_right_side` and for `_tright` (RS_Tautology.py:125-169) alike |
| ListHeap.RemoveAt | tautology_checker.py:61 | `remove` takes out exactly the matched element: one element fewer, its size off the side, the multiset reduced by that element alone |
| ListHeap.Install | tautology_checker.py:62-63 | building a premise leaves every existing list untouched; the premise's two sides are distinct lists holding the rule's contents; the measure grows by exactly the added formulas |
| ListHeap.Removed | tautology_checker.py:61 | the in-place removal only shrinks lists and lowers the frame measure by the removed formula's size |
| ListHeap.Expand | tautology_checker.py:60-63 | removal plus rule: every old list only shrinks, both premises are strictly lighter than the frame, and their sides hold the rule's premises built from the lists after removal |
| ListHeap.ExpandStepSound | tautology_checker.py:60-68 | if the premises are valid, the sequent before the removal is valid |
| TautologyChecker.PyEq | tautology_checker.py:29-31 | definition of `==`: the same class and then `equals` of the operands, raising for two negations because `NegationOperator` has no `equals`; its meaning is stated by `PyEqSound`, `PyEqNotFree` and `PyEqSymmetric` |
| TautologyChecker.PyEqSound | tautology_checker.py:29-31 | a comparison that does not raise answers structural equality |
| TautologyChecker.PyEqNotFree | tautology_checker.py:196-209 | a comparison with a negation-free formula never raises and is structural equality |
| TautologyChecker.PyEqSymmetric | tautology_checker.py:29-31 | `x == y` and `y == x` give the same result, exception included |
| TautologyChecker.PyIn | tautology_checker.py:57 | definition of `x in xs`: each element compared in order, stopping at the first match or the first comparison that raises; its meaning is stated by `PyInSound` |
| TautologyChecker.PyInSound | tautology_checker.py:57 | a membership test that does not raise answers list membership |
| Printing.Show | tautology_checker.py:125-126 | definition of `str` in both engines (this `__str__` and those at tautology_checker.py:146-219 and RS_Tautology.py:118-181), with the operator spelling as a parameter; what it guarantees is stated by `Printing.ShowUnique` |
| Printing.ShowUnique | RS_Tautology.py:118-119 | unique reading: with atom names free of brackets, blanks and `~`, and operators that begin with a blank and differ in their second character, a printed formula and what follows it determine the formula |
| Printing.Leaf | tautology_checker.py:37-38 | definition of the logged leaf, `"~"+str(x)` for each antecedent then `str(x)` for each consequent; what it records is stated by `Printing.LeafDetermines` |
| Printing.LeafDetermines | RS_Tautology.py:51-52 | for such names and operators, two sequents with the same number of antecedents log the same leaf only if they are the same sequent |
| TautologyChecker.LeafStrings | tautology_checker.py:37-38 | definition: the leaf of `_append_leaves`, `Printing.Leaf` with this program's operator spelling; what it records is stated by `TautologyChecker.LeafStringsRecord` and how it is logged by `TautologyChecker.AppendLeavesClassifies` |
| TautologyChecker.LeafStringsRecord | tautology_checker.py:37-39 | the leaf appended to `leaf_list` records its sequent: two sequents with the same number of antecedents give the same leaf only if they are equal, when atom names hold no bracket, blank or `~` |
| TautologyChecker.CountIn | tautology_checker.py:41-45 | definition of the count loop of `_append_leaves`, raising where an `in` raises; stated by `CountInSound` and `CountRaisesOnPrefix` |
| TautologyChecker.CountInSound | tautology_checker.py:42-46 | the count never exceeds `len(left)`, and it reaches `len(left)` exactly when every antecedent occurs among the consequents |
| TautologyChecker.CountRaisesOnPrefix | tautology_checker.py:43-45 | an exception on a prefix of the count loop is an exception of the whole loop |
| TautologyChecker.AppendLeavesF | tautology_checker.py:36-50 | definition of `_append_leaves` on the globals, with whether it raised; stated by `AppendLeavesClassifies` |
| TautologyChecker.AppendLeavesClassifies | tautology_checker.py:36-50 | every leaf is logged. A contained leaf of equal length goes to `fundamental_list` once and clears the flag; any other leaf goes there only while the flag is set. Only the count loop can raise, and then the fundamental log and the flag are left unchanged |
| TautologyChecker.ScanF | tautology_checker.py:52-70 | a scan only shrinks old lists; a scan that expanded lowers the frame measure; a scan that expanded nothing returns the same lists and store |
| TautologyChecker.ExpandF | tautology_checker.py:60-68 | an expansion (with the recursive `evaluate` of a second premise) always ends the scan with `is_nf` false and a strictly lighter frame |
| TautologyChecker.EvalF | tautology_checker.py:92-108 | `evaluate` only ever shrinks the lists that existed when it was called |
| TautologyChecker.ScanSound | tautology_checker.py:52-70 | when a scan returns True, the sequent is valid; with no verdict, the handed-on sequent is valid only if the original is; a False has a rejected premise behind it |
| TautologyChecker.ExpandSound | tautology_checker.py:60-68 | the same for the expansion branch of a scan |
| TautologyChecker.EvalSound | tautology_checker.py:92-106 | `evaluate` returns True only for a valid sequent |
| TautologyChecker.Decide | tautology_checker.py:237 | definition: `evaluate([], [f])` on a fresh store and cleared globals; stated by `DecideSound` and, refuted for completeness, by the findings |
| TautologyChecker.DecideSound | tautology_checker.py:237 | the program reports a tautology only for a tautology |
| TautologyChecker.Engine.constructor | tautology_checker.py:230-232 | the globals start empty with `is_fundamental` True, and the store holds just the argument lists `[]` and `[f]` |
| TautologyChecker.Engine.AppendLeaves | tautology_checker.py:36-50 | the method computes `_append_leaves` on the globals and touches no list of the search |
| TautologyChecker.Engine.Scan | tautology_checker.py:52-90 | the `for` loop of `_evaluate_left`/`_evaluate_right` computes the scan specification |
| TautologyChecker.Engine.Visit | tautology_checker.py:56-69 | one turn of that loop either ends the scan with the specified result or leaves the lists alone and hands on the rest of the scan |
| TautologyChecker.Engine.ExpandStep | tautology_checker.py:60-68 | removal, rule and recursive call compute the expansion specification |
| TautologyChecker.Engine.Evaluate | tautology_checker.py:92-108 | the `while True` loop computes `evaluate`'s specification, `None` after an exception |
| TautologyChecker.IsTautology | tautology_checker.py:237-238 | the verdict is exactly `evaluate([], [f])` being True, and a True verdict means `f` is a tautology |
| RsTautology.RsEq | RS_Tautology.py:46-47 | definition of `==`: the same class and then `eq` of the operands; stated by `RsEqIsEquality` |
| RsTautology.RsEqIsEquality | RS_Tautology.py:46-47 | `__eq__` with the `eq` of `Bin_Op`, `Not` and `Variable` is exactly structural equality |
| RsTautology.RsIn | RS_Tautology.py:79 | `x in xs` is list membership |
| RsTautology.LeafNodes | RS_Tautology.py:51-52 | definition: `temp` of `_appendleafnodes`, `Printing.Leaf` with this program's operator spelling; what it records is stated by `RsTautology.LeafNodesRecord` and how it is logged by `RsTautology.AppendLeafNodesF` |
| RsTautology.LeafNodesRecord | RS_Tautology.py:51-53 | the leaf appended to `leafnodes` records its sequent: two sequents with the same number of antecedents give the same leaf only if they are equal, when atom names hold no bracket, blank or `~` |
| RsTautology.Count | RS_Tautology.py:62-67 | the count is at most `len(left)`, and it equals `len(left)` exactly when every antecedent is a consequent |
| RsTautology.IsFundamentalF | RS_Tautology.py:58-71 | definition of `_isfundamental` on the flag; stated by `IsFundamentalClassifies` |
| RsTautology.IsFundamentalClassifies | RS_Tautology.py:58-71 | a contained leaf of equal length returns False and sets the flag; any other leaf returns True exactly while no such leaf has been seen |
| RsTautology.AppendLeafNodesF | RS_Tautology.py:50-55 | every leaf goes to `leafnodes`; it goes to `fundamentals` exactly when it is not contained and the flag was clear; the flag records contained leaves |
| RsTautology.ExpandNoIff | RS_Tautology.py:128-169 | an expansion only adds subformulas, so no list of the search ever holds a biconditional |
| RsTautology.PassF | RS_Tautology.py:78-91 | a pass only shrinks old lists and keeps them biconditional-free; an expanding pass lowers the frame measure; a pass that expanded nothing changes nothing |
| RsTautology.ExpandRsF | RS_Tautology.py:82-91 | an expansion never closes the sequent and, when the search goes on, leaves a strictly lighter frame |
| RsTautology.CallF | RS_Tautology.py:74-107 | `call_func` only shrinks the lists that existed when it was called |
| RsTautology.PassSound | RS_Tautology.py:76-105 | a closed pass had a valid sequent; a pass that goes on hands over a sequent that is valid only if the original was |
| RsTautology.ExpandRsSound | RS_Tautology.py:82-104 | the same for the expansion inside a pass |
| RsTautology.CallSound | RS_Tautology.py:74-107 | `call_func` returns `None` only for a valid sequent |
| RsTautology.Decide | RS_Tautology.py:109-110 | definition: `call_func([], [e])` on a fresh store and cleared globals; stated by `DecideSound` and `CallMessage` |
| RsTautology.DecideSound | RS_Tautology.py:109-110 | `_call_func` returns `None` only for a tautology |
| RsTautology.CallMessage | RS_Tautology.py:106-107 | `call_func` returns `None` or the one message "Expression is not a tautology" |
| RsTautology.PassMessage | RS_Tautology.py:86-89 | a pass fails only with that message |
| RsTautology.ExpandMessage | RS_Tautology.py:100-103 | a recursive call's non-`None` result, returned at once, is that message |
| RsTautology.Engine.constructor | RS_Tautology.py:199-203 | the globals start empty with the flag clear, and the store holds just the argument lists `[]` and `[e]` |
| RsTautology.Engine.IsFundamental | RS_Tautology.py:58-71 | that method computes `_isfundamental` on the flag and changes nothing else |
| RsTautology.Engine.AppendLeafNodes | RS_Tautology.py:50-55 | that method computes `_appendleafnodes` on the globals |
| RsTautology.Engine.ExpandStep | RS_Tautology.py:82-91 | removal, `_tleft`/`_tright` and the recursive call compute the expansion specification |
| RsTautology.Engine.Pass | RS_Tautology.py:78-105 | one `for` loop computes the pass specification: closed, failed with its message, or the lists to go on with |
| RsTautology.Engine.CallFunc | RS_Tautology.py:74-107 | the `while True` loop computes `call_func`'s specification |
| RsTautology.IsTautology | RS_Tautology.py:206-215 | "Expression is a Tautology" is reported exactly when `_call_func` returns `None`, and then `e` is a tautology |
| TcFindings.NegationRun | tautology_checker.py:196-209 | `~a >> ~a` ends with `None`, because comparing the two negations raises |
| TcFindings.CommutedOrRun | tautology_checker.py:139-141 | `(a v b) >> (b v a)` is answered False, because the recursive branch empties the shared right list |
| TcFindings.ContradictionRun | tautology_checker.py:96-106 | `(a ^ ~a) >> b` is answered False at `[a, ~a] ⊢ [b]` |
| TcFindings.NestedAndRun | tautology_checker.py:96-106 | `((a ^ b) ^ c) >> a` is answered False while `a ^ b` is still unexpanded |
| TcFindings.FindingsAreTautologies | tautology_checker.py:92-108 | the four formulas are tautologies, and the corrected search reports each of them |
| RsFindings.RsCommutedOrRun | RS_Tautology.py:165-166 | `(a v b) >> (b v a)` is answered "Expression is not a tautology" |
| RsFindings.RsCommutedOrTautology | RS_Tautology.py:74-107 | that formula is a tautology, and the corrected search returns `None` for it |
| ValueSearch.First | RS_Tautology.py:78-91 | the loop index where a pass stops: everything before it is an atom not on the other side, and the formula there is shared or compound |
| ValueSearch.PassV | RS_Tautology.py:76-105 | an expanding pass strictly lowers the weight; a pass that expanded nothing returns the sequent unchanged |
| ValueSearch.ExpansionValid | RS_Tautology.py:128-169 | removing a compound formula and applying its rule keeps validity in both directions |
| ValueSearch.AtomsInvalid | RS_Tautology.py:106-107 | a sequent of atoms with no atom shared by both sides is falsifiable, so failing there is right |
| ValueSearch.PassValid | RS_Tautology.py:76-105 | a pass's verdict is the sequent's validity; its hand-on is exactly as valid; a pass that expanded nothing found only unshared atoms |
| ValueSearch.SearchValid | RS_Tautology.py:74-107 | the corrected search returns True exactly for valid sequents |
| ValueSearch.CorrectedEvaluate | tautology_checker.py:237 | the verdict `evaluate([], [f])` is meant to give: truthy exactly for tautologies (computed by the corrected search, not by `evaluate`'s loop) |
| ValueSearch.CorrectedCall | RS_Tautology.py:74-107 | the corrected `call_func([], [f])` is `None` exactly for tautologies, and otherwise the message |
| Trees.Prior | RS_Strategy.cpp:18 | definition of the `prior` map: 1 for `^`, `v` and `>`, 2 for `~`, 0 for every other character; used by the pass and `buildTree`, and its effect is stated by `ReversePolish.RpnOfMinInfix` and `ReversePolish.LeftAssociative` |
| Trees.FormulaShaped | RS_Strategy.cpp:117-153 | a formula tree has the shape `buildTree` produces |
| ReversePolish.Step | RS_Strategy.cpp:58-104 | definition of one character of the pass; stated through `ReversePolishNotation`, `RpnOfInfix` and `RpnOfMinInfix` |
| ReversePolish.PopUntil | RS_Strategy.cpp:64-84 | definition of a closing bracket popping to its opening bracket, `None` where `st.top()` would read an empty stack; stated by `RpnBalanced` |
| ReversePolish.PopWhile | RS_Strategy.cpp:88-93 | definition of popping while the top has at least the reading operator's priority; stated by `RpnOfMinInfix` and `LeftAssociative` |
| ReversePolish.Flush | RS_Strategy.cpp:107-112 | definition of emitting the rest of the stack, top first; stated by `RpnOfInfix` and `RpnOfMinInfix` |
| ReversePolish.Rpn | RS_Strategy.cpp:49-114 | definition of the whole pass, `None` for its undefined behaviour; the method `ReversePolishNotation` computes it |
| ReversePolish.ReversePolishNotation | RS_Strategy.cpp:49-114 | the loops compute the shunting-yard specification `Rpn` |
| ReversePolish.RpnOperands | RS_Strategy.cpp:95-104 | the operands of the output are those of the input in input order, with a `#` just where each `~` was read |
| ReversePolish.RpnBalanced | RS_Strategy.cpp:61-84 | with balanced brackets the pass is defined, leaves no bracket in its output, and emits every operator of the input exactly once |
| ReversePolish.RpnOfMinInfix | RS_Strategy.cpp:86-98 | written with only the brackets the priorities need (none around a left operand, none around an atom or a negation on the right, none after `~` before an atom), every formula is still emitted exactly in post-order |
| ReversePolish.ChainMinInfix | RS_Strategy.cpp:86-98 | an unbracketed chain `x0 o1 x1 … on xn`, with atoms or negated atoms for operands, is the fewest-brackets writing of its left-nested formula |
| ReversePolish.LeftAssociative | RS_Strategy.cpp:86-98 | every chain `x0 o1 x1 … on xn` of binary operators, with `x` or `~x` operands, is emitted as the post-order of `(…(x0 o1 x1) … on xn)`: the binary operators group to the left and each `~` takes the atom after it |
| ReversePolish.RpnOfInfix | RS_Strategy.cpp:49-114 | a fully bracketed formula is emitted exactly in post-order |
| TreeBuilder.BStep | RS_Strategy.cpp:133-149 | definition of one character of `buildTree`: an operator takes the top two trees as right and left child, anything else is a leaf; `None` where the stack runs out |
| TreeBuilder.BFold | RS_Strategy.cpp:131-150 | the loop of `buildTree` over a non-empty string that does not run out leaves at least one tree on the stack; the rest is stated by `BuildPostOrder` |
| TreeBuilder.Build | RS_Strategy.cpp:117-153 | definition of `buildTree`'s result, a blank node for the empty string; the method `BuildTree` computes it and `BuildPostOrder` states its meaning |
| TreeBuilder.BuildTree | RS_Strategy.cpp:117-153 | the stack loop computes the specification `Build`, including the single blank node for empty input |
| TreeBuilder.BuildPostOrder | RS_Strategy.cpp:117-153 | `buildTree` rebuilds every tree of the produced shape from its post-order |
| TreeBuilder.ParseInfix | RS_Strategy.cpp:463-464 | the shunting-yard pass followed by `buildTree` reads a fully bracketed formula back as itself |
| TreeBuilder.ParseMinInfix | RS_Strategy.cpp:463-464 | the shunting-yard pass followed by `buildTree` reads a formula written with the fewest brackets back as itself |
| TreeBuilder.CopyInto | RS_Strategy.cpp:156-170 | `copyTree` writes every value of the original into the target, and leaves a child the original lacks as the target had it |
| TreeBuilder.CopyIntoBlank | RS_Strategy.cpp:173-178 | copying into a fresh node, as `addSeqsTreeLeft` does, yields the sequence itself |
| RsStrategy.RuleFor | RS_Strategy.cpp:216-321 | definition of the rewrite `RSMethod` applies to a component; stated by `RuleShrinks` and `RuleSound` |
| RsStrategy.RuleShrinks | RS_Strategy.cpp:216-321 | every rewritten component is a formula of smaller weight |
| RsStrategy.RsMethod | RS_Strategy.cpp:204-327 | installed children are lighter formulas; a clause installs nothing; any other sequence installs a left child; a right child, once installed, stays |
| RsStrategy.Expand | RS_Strategy.cpp:332 | the children of a sequence are lighter formulas; there is none exactly when the sequence is a clause of literals; a right child only comes with a left one |
| RsStrategy.PreOrder | RS_Strategy.cpp:330-337 | the traversal terminates and the root of the sequence tree is the input sequence |
| RsStrategy.Plug | RS_Strategy.cpp:204-213 | definition of the sequence rebuilt around a component rewritten in place through `seq_prev` and `branch`; stated by `PlugEquivalent` and `PlugConjunction` |
| RsStrategy.PlugEquivalent | RS_Strategy.cpp:172-201 | replacing one component by an equivalent one keeps the validity of the whole sequence |
| RsStrategy.PlugConjunction | RS_Strategy.cpp:292-321 | a conjunction component splits the sequence into two that are jointly valid exactly when it is |
| RsStrategy.RuleSound | RS_Strategy.cpp:216-321 | each rewrite is an equivalence, and a conjunction is the meet of its two conjuncts |
| RsStrategy.RsMethodJustified | RS_Strategy.cpp:204-327 | after `RSMethod` the installed children are jointly valid exactly when the sequence is |
| RsStrategy.ExpandJustified | RS_Strategy.cpp:332 | the same for `RSMethod` on a whole sequence |
| RsStrategy.ClauseValid | RS_Strategy.cpp:351-380 | a clause of literals is valid exactly when some atom occurs in it both plain and negated |
| LeafCheck.Record | RS_Strategy.cpp:360-376 | a literal is appended to the list of its polarity, the other list is kept, and `fundamental` goes on saying exactly whether some atom is in both lists |
| LeafCheck.CollectF | RS_Strategy.cpp:351-380 | definition of `show(tn, negation)` on the globals; stated by `CollectConsistent`, `ClauseCollect` and `Classifier.Collect` |
| LeafCheck.CollectConsistent | RS_Strategy.cpp:351-380 | `fundamental` always says whether some atom is in both `pos` and `neg` |
| LeafCheck.ClauseCollect | RS_Strategy.cpp:351-380 | on a clause, `pos` and `neg` gain exactly its plain and its negated atoms |
| LeafCheck.FundamentalValid | RS_Strategy.cpp:351-380 | from cleared globals, a leaf is found fundamental exactly when its sequence is valid |
| LeafCheck.ShowF | RS_Strategy.cpp:383-427 | definition of `show(seqs)` on the globals; stated by `ShowAll` and `Classifier.Show` |
| LeafCheck.ShowAll | RS_Strategy.cpp:383-427 | from cleared globals, `show(seqs)` leaves them cleared and keeps `tautology` only when every leaf is fundamental |
| LeafCheck.PreOrderDecides | RS_Strategy.cpp:330-337 | every leaf of the sequence tree is fundamental exactly when the input sequence is valid |
| LeafCheck.Classifier.constructor | RS_Strategy.cpp:20-23 | the globals start cleared with `tautology` true |
| LeafCheck.Classifier.Collect | RS_Strategy.cpp:351-380 | `show(tn, negation)` computes its specification on the globals and does not touch `tautology` |
| LeafCheck.Classifier.Show | RS_Strategy.cpp:383-427 | `show(seqs)` computes its specification on the globals |
| RsProgram.Erase | RS_Strategy.cpp:459 | `erase(remove(..))` drops every copy of the character and keeps every other character as often as it occurs |
| RsProgram.EraseSingle | RS_Strategy.cpp:459 | a single character is dropped if it is the erased one and kept otherwise |
| RsProgram.EraseAppend | RS_Strategy.cpp:459 | erasing works piece by piece, so together with `EraseSingle` the kept characters stay in their order |
| RsProgram.Clean | RS_Strategy.cpp:459-460 | the cleaned line has every character of the input except `-` and blanks, each as often as in the input |
| RsProgram.CleanAppend | RS_Strategy.cpp:459-460 | cleaning works piece by piece, so the kept characters stay in their order |
| RsProgram.CleanAbsent | RS_Strategy.cpp:459-460 | a line without `-` and blanks is left unchanged |
| RsProgram.ParseLine | RS_Strategy.cpp:458-464 | definition of steps 2 and 3 of `main`, `None` for undefined behaviour; stated by `ParseLineInfix`, `ParseLineMinInfix` and `CheckSequence` |
| NodeMemory.SharedForward | RS_Strategy.cpp:184-191 | definition: the first half of `sharedCode`, pointer statement by pointer statement; stated by `NodeMemory.ForwardShape` |
| NodeMemory.ForwardShape | RS_Strategy.cpp:184-191 | for a `~` node with two distinct children, the left child becomes `~` over a fresh placeholder and the left grandchild, and the right child becomes `~` over a second fresh placeholder and the right grandchild. No other cell changes and nothing is deleted |
| NodeMemory.SharedRestore | RS_Strategy.cpp:195-200 | definition: the undo of `sharedCode`, as written or with `seq->left->left` cleared; stated by `NodeMemory.RestoreShape` |
| NodeMemory.RestoreShape | RS_Strategy.cpp:195-200 | both placeholders are deleted, the right child gets its left grandchild back, the left child is a placeholder again and the node is `~` again. As written, the placeholder still points to the deleted cell; no other cell changes |
| NodeMemory.ExampleLayout | RS_Strategy.cpp:156-169 | a memory with the example layout holds `~(a ^ b) v (c > d)`, as `copyTree` reads it |
| NodeMemory.RewrittenCopy | RS_Strategy.cpp:181-193 | the copy `addSeqsTreeLeft` makes inside `sharedCode` is the sequence with `~(a ^ b)` rewritten as `RsStrategy.RuleFor` says, which is what the value model installs |
| NodeMemory.CopyRestored | RS_Strategy.cpp:156-169 | after the undo, copying the sequence touches the deleted placeholder exactly when the pointer is not cleared; once it is cleared, the copy is the original sequence and touches no deleted cell |
| NodeMemory.DanglingRead | RS_Strategy.cpp:194-198 | as written, after `~(a ^ b)` is rewritten, the placeholder points to a deleted cell and the next copy of the sequence reads it |
| NodeMemory.FixedRestores | RS_Strategy.cpp:194-198 | with the pointer cleared, the undo gives back the original sequence, and copying it reads no deleted cell |
| RsProgram.CheckSequence | RS_Strategy.cpp:458-481 | one round of `main` answers "tautology" exactly when the formula the line is read into is valid, for the program whose `sharedCode` clears the pointer it leaves dangling (see Findings) |
| RsProgram.ParseLineInfix | RS_Strategy.cpp:458-464 | a fully bracketed formula is read back as itself, so `CheckSequence` on it answers its own validity |
| RsProgram.ParseLineMinInfix | RS_Strategy.cpp:458-464 | a formula written with the fewest brackets is read back as itself, so `CheckSequence` on it answers its own validity |

## Left out

- Console I/O is not modelled: the prompts, the printing of results and logs, the `getline`/`q` loop of `main`, `input`/`print` and `rs_function`'s output. Neither is the tree printer `show(TreeNode<char>*, int)`, the printing inside `show(seqs)`, or the "The tree is empty!" message of `buildTree`. None of it affects the answer.
- Python `eval` of the input text, the operator overloads that build formulas and the `lower()` of the input are not modelled. Formulas are built with the datatype's constructors. `Variable.__hash__` is not modelled, because nothing in the search hashes.
- The exception message that `evaluate` prints is not modelled; the exception path is the result `None`.
- Python's identity shortcut of `in` and `list.remove` is not modelled, for the reason given above.
- RsTautology.IsTautology: requires a formula without a biconditional, because RS_Tautology.py has no class for it (`Iff` is a `NameError`). Like the other engine, it states soundness only.
- C++ memory is not modelled outside `NodeMemory`: `new`/`delete`, the leaks and node identity. Trees are values. The restore after each rewrite is therefore implicit: `RSMethod` is a function, and the sequence it reads is never changed. As a result the rest of the model is the program with the dangling placeholder pointer of `sharedCode` cleared. As written, a later copy of the same sequence reads freed memory, which is undefined behaviour (see Findings). `NodeMemory` models the pointer steps of `sharedCode` alone, on one memory layout.
- ReversePolish.ReversePolishNotation: requires that the pass is defined. `st.top()` on an empty stack, after a `)` or `]` with no opening bracket, is undefined behaviour; the specification gives `None` there.
- TreeBuilder.BuildTree: requires that the post-order has two operands for every operator. Popping an empty `std::stack` is undefined behaviour; the specification gives `None` there.
- RsProgram.CheckSequence: requires that the line is read without undefined behaviour into a well-formed formula tree. The program does no grammar check, and two consecutive `~` or a malformed line give trees whose meaning it does not define.
- Python's recursion limit is not modelled; the model's recursion is unbounded. On a formula deep enough to hit it, `evaluate` catches the `RecursionError` and returns `None` (tautology_checker.py:107-108). In RS_Tautology.py the error escapes `rs_function`, because the handler catches only `NameError` (RS_Tautology.py:220-229).
- `prior[...]` inserting zero entries for unknown characters is not modelled; `Prior` is a total function that is 0 off the four operators.
- TautologyChecker.LeafStringsRecord and RsTautology.LeafNodesRecord: require atom names that are nonempty and hold no bracket, blank or `~`. Python accepts any string as a name, and `Variable("(a v b)")` prints exactly as the disjunction of `a` and `b` does, so two different sequents can log the same leaf.
- TautologyChecker.IsTautology: states soundness only, not completeness, because neither Python program as written is complete (see Findings).

## Findings

| source | as written | input that shows it | evidently intended | confidence | as-written member | corrected member |
|---|---|---|---|---|---|---|
| tautology_checker.py:196-209 | `NegationOperator` defines no `equals`, so `__eq__` between two negations raises and `evaluate` returns `None` | `~a >> ~a` | negations compare by their child | not executed | TcFindings.NegationRun | ValueSearch.CorrectedEvaluate |
| tautology_checker.py:139-141 | Or-left hands the same right list to both premises; the recursive search of the second premise removes `b v a` from it, leaving `[a] ⊢ []` to the first | `(a v b) >> (b v a)` | each premise owns its lists | not executed | TcFindings.CommutedOrRun | ValueSearch.CorrectedEvaluate |
| tautology_checker.py:96-106 | the loop stops with False on `is_nf` of the right scan alone, even when the left scan just expanded | `(a ^ ~a) >> b` | stop only when neither scan expanded anything | not executed | TcFindings.ContradictionRun | ValueSearch.CorrectedEvaluate |
| tautology_checker.py:96-106 | the same stop test leaves a compound antecedent unexpanded | `((a ^ b) ^ c) >> a` | stop only when neither scan expanded anything | not executed | TcFindings.NestedAndRun | ValueSearch.CorrectedEvaluate |
| RS_Strategy.cpp:194-198 | the undo of `sharedCode` deletes the placeholder it put under the old one but leaves `seq->left->left` pointing to it. A later `copyTree` of the same sequence, through `addSeqsTreeLeft` (line 177) or the conjunction copies (lines 302-319), follows that pointer into freed memory | `~(a ^ b) v (c > d)`: the rewrite of `c > d` copies the sequence after `~(a ^ b)` was rewritten | `seq->left->left = nullptr` after the delete, so the placeholder is a leaf again, as `NodeMemory.FixedRestores` shows | not executed | NodeMemory.DanglingRead | RsProgram.CheckSequence |
| RS_Tautology.py:165-166 | `Or._tleft` hands the same right list to both premises; the recursive call on the second removes a formula the first still needs | `(a v b) >> (b v a)` | each premise owns its lists | not executed | RsFindings.RsCommutedOrRun | ValueSearch.CorrectedCall |
