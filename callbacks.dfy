/**
 * `callback_applier` (src/nso_rr.h:1327-1578): evaluates a callback node
 * left in a tree by a rule. The algebra callbacks compute on the elements
 * of their arguments and wrap the result as a constant; the relation and
 * constant-check callbacks choose between two of their arguments; the
 * syntactic and quantifier callbacks are in their own modules.
 */
module Callbacks {
  import opened Wrappers
  import opened TauTree
  import opened Builders
  import opened SyntacticChecks
  import opened QuantifierElimination

  /**
   * The operations of the Boolean algebras: `&`, `|`, `~`, and the tests
   * `== false` and `== true`.
   */
  datatype Algebra = Algebra(
    conj: (Elem, Elem) -> Elem,
    disj: (Elem, Elem) -> Elem,
    neg: Elem -> Elem,
    isZero: Elem -> bool,
    isOne: Elem -> bool)

  // ---------------------------------------------------------------------------
  // Algebra operations

  /** The bf constant `{ e }`: the tree the constant builder makes from a leaf holding `e`. */
  function ConstantNode(e: Elem): Node
  {
    Make(bf, [Make(bf_constant, [Make(constant, [BaLeaf(e)])])])
  }

  /** `tau_apply_builder(bldr_bf_constant, {leaf})` builds the constant `{ e }`. */
  lemma ConstantNodeIsBuilt(e: Elem)
    ensures Apply1(BldrBfConstant, BaLeaf(e)) == ConstantNode(e)
  {
    BfConstantShape(e);
  }

  /** `n || bf_cb_arg || bf || only_child_extractor || ba_extractor`: the elements of the operands. */
  function OperandElements(n: Node): seq<Elem>
  {
    BaElements(OnlyChildren(ChildrenAll(Children(n, bf_cb_arg), bf)))
  }

  /** `apply_binary_operation(op, n)`: `op` on the first two operand elements, as a constant. */
  function BinaryOperation(op: (Elem, Elem) -> Elem, n: Node): Node
  {
    var es := OperandElements(n);
    if |es| < 2 then n else ConstantNode(op(es[0], es[1]))
  }

  /** `apply_unary_operation(op, n)`: `op` on the first operand element, as a constant. */
  function UnaryOperation(op: Elem -> Elem, n: Node): Node
  {
    var es := OperandElements(n);
    if |es| < 1 then n else ConstantNode(op(es[0]))
  }

  // ---------------------------------------------------------------------------
  // Relations and constant checks

  /**
   * `apply_equality_relation(test, n)`: the first wff argument when the
   * element of the first bf argument passes `test`, otherwise the second.
   */
  function EqualityRelation(test: Elem -> bool, n: Node): (r: Node)
    ensures r == n || r in CallbackArgs(n, wff_cb_arg)
  {
    var e := RelationElement(n);
    var wffArgs := CallbackArgs(n, wff_cb_arg);
    if e.None? then n
    else if test(e.value) then (if |wffArgs| >= 1 then wffArgs[0] else n)
    else if |wffArgs| >= 2 then wffArgs[1]
    else n
  }

  /** `n | bf_cb_arg | bf | only_child_extractor | ba_extractor`: the element a relation compares. */
  function RelationElement(n: Node): Option<Elem>
  {
    var bfArg := OnlyChildOf(ChildOf(Child(n, bf_cb_arg), bf));
    if bfArg.None? then None else BaOf(bfArg.value)
  }

  /** `x | bf_constant | constant | only_child_extractor | ba_extractor`: the element of a bf constant. */
  function ConstantOf(x: Node): Option<Elem>
  {
    var leaf := OnlyChildOf(ChildOf(Child(x, bf_constant), constant));
    if leaf.None? then None else BaOf(leaf.value)
  }

  /** Reading the element back out of a constant gives the element. */
  lemma ConstantRoundTrip(e: Elem)
    ensures ConstantOf(ConstantNode(e)) == Some(e)
  {
    var c := Make(constant, [BaLeaf(e)]);
    var k := Make(bf_constant, [c]);
    assert Child(ConstantNode(e), bf_constant) == Some(k) by {
      assert IsNonTerminal(bf_constant, ConstantNode(e).children[0]);
    }
    assert Child(k, constant) == Some(c) by {
      assert IsNonTerminal(constant, k.children[0]);
    }
  }

  /**
   * `apply_constant_check(test, n)` with bf arguments `[c, r]`: `r` when the
   * element of the constant `c` passes `test`, otherwise `c`.
   */
  function ConstantCheck(test: Elem -> bool, n: Node): (r: Node)
    ensures r == n || r in CallbackArgs(n, bf_cb_arg)
  {
    var args := CallbackArgs(n, bf_cb_arg);
    if |args| == 0 then n
    else
      var e := ConstantOf(args[0]);
      if e.None? then n
      else if test(e.value) then (if |args| >= 2 then args[1] else n)
      else args[0]
  }

  // ---------------------------------------------------------------------------
  // The tau callbacks

  /** `apply_tau_positives_upwards` with tau arguments `[p, r]`: `r` when `p` holds a wff, otherwise `n`. */
  function PositivesUpwards(n: Node): Node
  {
    var args := CallbackArgs(n, tau_cb_arg);
    if |args| >= 1 && Child(args[0], wff).Some? then (if |args| >= 2 then args[1] else n)
    else n
  }

  /**
   * `apply_tau_collapse_positives` with tau arguments `[p, q]` or `[p, q, r]`:
   * when `p` and `q` both hold a wff, the tau of their conjunction, joined
   * with `r` by the tau `&&` when there is a third argument; otherwise `n`.
   */
  function CollapsePositives(n: Node): Node
  {
    var args := CallbackArgs(n, tau_cb_arg);
    if |args| < 2 then n
    else
      var l, r := Child(args[0], wff), Child(args[1], wff);
      if l.None? || r.None? || |l.value.children| == 0 || |r.value.children| == 0 then n
      else
        var t := Make(tau, [BuildWffAnd(l.value, r.value)]);
        if |args| == 2 then t
        else
          var third := OnlyChild(args[2]);
          if third.None? || |third.value.children| == 0 then n
          else BuildTauAnd(t, third.value)
  }

  /** A tau node wrapping a wff holds that wff. */
  lemma TauHolds(p: Node)
    ensures Child(Make(tau, [p]), wff) == (if IsNonTerminal(wff, p) then Some(p) else None)
  {
    assert [p][1..] == [];
  }

  /** A positive first argument hoists the second; any other first argument leaves the node alone. */
  lemma PositivesUpwardsChoice(n: Node, p: Node, r: Node)
    requires CallbackArgs(n, tau_cb_arg) == [Make(tau, [p]), r]
    ensures PositivesUpwards(n) == if IsNonTerminal(wff, p) then r else n
  {
    TauHolds(p);
  }

  /** Two positive tau formulas collapse into the tau of the conjunction of their wffs. */
  lemma CollapsePositivesShape(n: Node, p: Node, q: Node)
    requires Wrapped(wff, p) && Wrapped(wff, q)
    requires CallbackArgs(n, tau_cb_arg) == [Make(tau, [p]), Make(tau, [q])]
    ensures CollapsePositives(n) == Make(tau, [Make(wff, [Make(wff_and, [p, q])])])
  {
    TauHolds(p);
    TauHolds(q);
    WffShapes(p, q);
  }

  /** With a third argument, the conjunction is joined to it by the tau `&&`. */
  lemma CollapsePositivesThree(n: Node, p: Node, q: Node, t: Node)
    requires Wrapped(wff, p) && Wrapped(wff, q) && Wrapped(tau, t)
    requires CallbackArgs(n, tau_cb_arg) == [Make(tau, [p]), Make(tau, [q]), Make(tau, [t])]
    ensures CollapsePositives(n) == Make(tau, [Make(tau_and, [Make(tau, [Make(wff, [Make(wff_and, [p, q])])]), t])])
  {
    TauHolds(p);
    TauHolds(q);
    WffShapes(p, q);
    var c := Make(tau, [Make(wff, [Make(wff_and, [p, q])])]);
    assert Wrapped(tau, c);
    TauShapes(c, t);
  }

  // ---------------------------------------------------------------------------
  // The dispatcher

  /**
   * `callback_applier::operator()`: a node `is_callback` accepts goes to its
   * callback; any other node is returned as it is. The `_xor` operation, as
   * written, computes `l | r`. The two tau cases of the dispatch table are
   * never reached, because `is_callback` does not accept their nonterminals.
   */
  function ApplyCallback(alg: Algebra, n: Node): (r: Node)
    ensures !IsCallback(n) ==> r == n
  {
    if !IsCallback(n) then n
    else match n.value.lit.nt
      case bf_neg_cb => UnaryOperation(alg.neg, n)
      case bf_and_cb => BinaryOperation(alg.conj, n)
      case bf_or_cb => BinaryOperation(alg.disj, n)
      case bf_xor_cb => BinaryOperation(alg.disj, n)
      case bf_eq_cb => EqualityRelation(alg.isZero, n)
      case bf_neq_cb => EqualityRelation(e => !alg.isZero(e), n)
      case bf_is_one_cb => ConstantCheck(alg.isOne, n)
      case bf_is_zero_cb => ConstantCheck(alg.isZero, n)
      case bf_has_subformula_cb => HasSubformula(n, bf_cb_arg)
      case wff_has_clashing_subformulas_cb => ClashingSubformulas(n)
      case wff_has_subformula_cb => HasSubformula(n, wff_cb_arg)
      case wff_remove_existential_cb => RemoveExistential(n)
      case wff_remove_bexistential_cb => RemoveBExistential(n)
      case wff_remove_buniversal_cb => RemoveBUniversal(n)
      case bf_remove_funiversal_cb => RemoveFUniversal(n)
      case bf_remove_fexistential_cb => RemoveFExistential(n)
      case tau_collapse_positives_cb => CollapsePositives(n)
      case tau_positives_upwards_cb => PositivesUpwards(n)
      case _ => n
  }

  /** The tau callbacks are left in the tree untouched: `is_callback` does not let them through. */
  lemma TauCallbacksUnchanged(alg: Algebra, n: Node)
    requires NonTerminalOf(n) == Some(tau_collapse_positives_cb) || NonTerminalOf(n) == Some(tau_positives_upwards_cb)
    ensures ApplyCallback(alg, n) == n
  {
  }

  // ---------------------------------------------------------------------------
  // What each callback computes, for any callback node with the given arguments

  /** `bf_and_cb` on operands holding `a` and `b` is the constant `{ a & b }`. */
  lemma AndCallback(alg: Algebra, n: Node, a: Elem, b: Elem)
    requires NonTerminalOf(n) == Some(bf_and_cb) && OperandElements(n) == [a, b]
    ensures ApplyCallback(alg, n) == ConstantNode(alg.conj(a, b))
  {
  }

  /** `bf_or_cb` on operands holding `a` and `b` is the constant `{ a | b }`. */
  lemma OrCallback(alg: Algebra, n: Node, a: Elem, b: Elem)
    requires NonTerminalOf(n) == Some(bf_or_cb) && OperandElements(n) == [a, b]
    ensures ApplyCallback(alg, n) == ConstantNode(alg.disj(a, b))
  {
  }

  /** As written, `bf_xor_cb` on operands holding `a` and `b` is `{ a | b }`, not the exclusive or. */
  lemma XorCallback(alg: Algebra, n: Node, a: Elem, b: Elem)
    requires NonTerminalOf(n) == Some(bf_xor_cb) && OperandElements(n) == [a, b]
    ensures ApplyCallback(alg, n) == ConstantNode(alg.disj(a, b))
  {
  }

  /** `bf_neg_cb` on an operand holding `a` is the constant `{ ~a }`. */
  lemma NegCallback(alg: Algebra, n: Node, a: Elem)
    requires NonTerminalOf(n) == Some(bf_neg_cb) && OperandElements(n) == [a]
    ensures ApplyCallback(alg, n) == ConstantNode(alg.neg(a))
  {
  }

  /**
   * An algebra callback with fewer element operands than its operation
   * takes is left as it is (the source reads past the end of the vector).
   */
  lemma AlgebraCallbackUnevaluated(alg: Algebra, n: Node)
    requires NonTerminalOf(n) == Some(bf_and_cb) || NonTerminalOf(n) == Some(bf_or_cb)
             || NonTerminalOf(n) == Some(bf_xor_cb)
    requires |OperandElements(n)| < 2
    ensures ApplyCallback(alg, n) == n
  {
  }

  /** A relation comparing `e` chooses its first wff argument when `e` passes `test` and its second otherwise. */
  lemma RelationChoice(test: Elem -> bool, n: Node, e: Elem, x: Node, y: Node)
    requires RelationElement(n) == Some(e) && CallbackArgs(n, wff_cb_arg) == [x, y]
    ensures EqualityRelation(test, n) == if test(e) then x else y
  {
  }

  /** `bf_eq_cb` goes to `equality_relation` with the zero test. */
  lemma EqDispatch(alg: Algebra, n: Node)
    requires NonTerminalOf(n) == Some(bf_eq_cb)
    ensures ApplyCallback(alg, n) == EqualityRelation(alg.isZero, n)
  {
  }

  /** `bf_neq_cb` goes to `equality_relation` with the negated zero test. */
  lemma NeqDispatch(alg: Algebra, n: Node)
    requires NonTerminalOf(n) == Some(bf_neq_cb)
    ensures ApplyCallback(alg, n) == EqualityRelation(e => !alg.isZero(e), n)
  {
  }

  /** `bf_eq_cb` comparing `e` chooses its first wff argument when `e` is zero and its second otherwise. */
  lemma EqCallback(alg: Algebra, n: Node, e: Elem, x: Node, y: Node)
    requires NonTerminalOf(n) == Some(bf_eq_cb)
    requires RelationElement(n) == Some(e) && CallbackArgs(n, wff_cb_arg) == [x, y]
    ensures ApplyCallback(alg, n) == if alg.isZero(e) then x else y
  {
    EqDispatch(alg, n);
    RelationChoice(alg.isZero, n, e, x, y);
  }

  /** `bf_neq_cb` comparing `e` makes the opposite choice. */
  lemma NeqCallback(alg: Algebra, n: Node, e: Elem, x: Node, y: Node)
    requires NonTerminalOf(n) == Some(bf_neq_cb)
    requires RelationElement(n) == Some(e) && CallbackArgs(n, wff_cb_arg) == [x, y]
    ensures ApplyCallback(alg, n) == if alg.isZero(e) then y else x
  {
    NeqDispatch(alg, n);
    RelationChoice(e => !alg.isZero(e), n, e, x, y);
  }

  /** A constant check on `{e}` and `r` gives `r` when `e` passes `test` and `{e}` otherwise. */
  lemma ConstantChoice(test: Elem -> bool, n: Node, e: Elem, r: Node)
    requires CallbackArgs(n, bf_cb_arg) == [ConstantNode(e), r]
    ensures ConstantCheck(test, n) == if test(e) then r else ConstantNode(e)
  {
    ConstantRoundTrip(e);
  }

  /** `bf_is_zero_cb` goes to `constant_check` with the zero test. */
  lemma IsZeroDispatch(alg: Algebra, n: Node)
    requires NonTerminalOf(n) == Some(bf_is_zero_cb)
    ensures ApplyCallback(alg, n) == ConstantCheck(alg.isZero, n)
  {
    assert IsNonTerminalNode(n) && n.value.lit.nt == bf_is_zero_cb;
    assert IsCallback(n);
  }

  /** `bf_is_one_cb` goes to `constant_check` with the one test. */
  lemma IsOneDispatch(alg: Algebra, n: Node)
    requires NonTerminalOf(n) == Some(bf_is_one_cb)
    ensures ApplyCallback(alg, n) == ConstantCheck(alg.isOne, n)
  {
    assert IsNonTerminalNode(n) && n.value.lit.nt == bf_is_one_cb;
    assert IsCallback(n);
  }

  /** `bf_is_zero_cb {e} r` is `r` when `e` is zero and the constant `{e}` otherwise. */
  lemma IsZeroCallback(alg: Algebra, n: Node, e: Elem, r: Node)
    requires NonTerminalOf(n) == Some(bf_is_zero_cb) && CallbackArgs(n, bf_cb_arg) == [ConstantNode(e), r]
    ensures ApplyCallback(alg, n) == if alg.isZero(e) then r else ConstantNode(e)
  {
    IsZeroDispatch(alg, n);
    ConstantChoice(alg.isZero, n, e, r);
  }

  /** `bf_is_one_cb {e} r` is `r` when `e` is one and the constant `{e}` otherwise. */
  lemma IsOneCallback(alg: Algebra, n: Node, e: Elem, r: Node)
    requires NonTerminalOf(n) == Some(bf_is_one_cb) && CallbackArgs(n, bf_cb_arg) == [ConstantNode(e), r]
    ensures ApplyCallback(alg, n) == if alg.isOne(e) then r else ConstantNode(e)
  {
    IsOneDispatch(alg, n);
    ConstantChoice(alg.isOne, n, e, r);
  }

  /** `bf_has_subformula_cb f s r` is `r` when `s` is a subtree of `f` and `f` otherwise. */
  lemma BfHasSubformulaCallback(alg: Algebra, n: Node, f: Node, s: Node, r: Node)
    requires NonTerminalOf(n) == Some(bf_has_subformula_cb) && CallbackArgs(n, bf_cb_arg) == [f, s, r]
    ensures ApplyCallback(alg, n) == if Occurs(s, f) then r else f
  {
  }

  /** `wff_has_subformula_cb f s r` is `r` when `s` is a subtree of `f` and `f` otherwise. */
  lemma WffHasSubformulaCallback(alg: Algebra, n: Node, f: Node, s: Node, r: Node)
    requires NonTerminalOf(n) == Some(wff_has_subformula_cb) && CallbackArgs(n, wff_cb_arg) == [f, s, r]
    ensures ApplyCallback(alg, n) == if Occurs(s, f) then r else f
  {
  }

  /** `wff_has_clashing_subformulas_cb` is the clashing check. */
  lemma ClashingCallback(alg: Algebra, n: Node)
    requires NonTerminalOf(n) == Some(wff_has_clashing_subformulas_cb)
    ensures ApplyCallback(alg, n) == ClashingSubformulas(n)
  {
  }

  /** `wff_remove_existential_cb` is the existential elimination. */
  lemma RemoveExistentialCallback(alg: Algebra, n: Node)
    requires NonTerminalOf(n) == Some(wff_remove_existential_cb)
    ensures ApplyCallback(alg, n) == RemoveExistential(n)
  {
  }

  /** `wff_remove_bexistential_cb` is the Boolean existential elimination. */
  lemma RemoveBExistentialCallback(alg: Algebra, n: Node)
    requires NonTerminalOf(n) == Some(wff_remove_bexistential_cb)
    ensures ApplyCallback(alg, n) == RemoveBExistential(n)
  {
  }

  /** `wff_remove_buniversal_cb` is the Boolean universal elimination. */
  lemma RemoveBUniversalCallback(alg: Algebra, n: Node)
    requires NonTerminalOf(n) == Some(wff_remove_buniversal_cb)
    ensures ApplyCallback(alg, n) == RemoveBUniversal(n)
  {
  }

  /** `bf_remove_fexistential_cb` is the functional existential elimination. */
  lemma RemoveFExistentialCallback(alg: Algebra, n: Node)
    requires NonTerminalOf(n) == Some(bf_remove_fexistential_cb)
    ensures ApplyCallback(alg, n) == RemoveFExistential(n)
  {
  }

  /** `bf_remove_funiversal_cb` is the functional universal elimination. */
  lemma RemoveFUniversalCallback(alg: Algebra, n: Node)
    requires NonTerminalOf(n) == Some(bf_remove_funiversal_cb)
    ensures ApplyCallback(alg, n) == RemoveFUniversal(n)
  {
  }

  /**
   * `wff_has_clashing_subformulas_cb f r` on a formula whose literals are
   * well formed: `r` exactly when a negated literal of some conjunction of
   * `f` is a positive literal of some conjunction, `f` otherwise.
   */
  lemma ClashingCallbackMeaning(alg: Algebra, n: Node)
    requires NonTerminalOf(n) == Some(wff_has_clashing_subformulas_cb)
    requires |CallbackArgs(n, wff_cb_arg)| >= 2
    requires OperandLiterals(SelectAll(CallbackArgs(n, wff_cb_arg)[0], All)).Some?
    requires var ls := OperandLiterals(SelectAll(CallbackArgs(n, wff_cb_arg)[0], All)).value;
             forall i :: 0 <= i < |ls.negatives| ==> Negated(ls.negatives[i]).Some?
    ensures var args := CallbackArgs(n, wff_cb_arg);
            var ls := OperandLiterals(SelectAll(args[0], All)).value;
            ApplyCallback(alg, n) ==
              if exists i :: 0 <= i < |ls.negatives| && Negated(ls.negatives[i]).value in ls.positives
              then args[1] else args[0]
  {
    ClashingCallback(alg, n);
    ClashingSubformulasMeaning(n);
  }

  /**
   * `wff_remove_buniversal_cb v f T F` on a wrapped formula `f`: the
   * conjunction `f[v := T] && f[v := F]`, true exactly when both instances are.
   */
  lemma BUniversalCallbackMeaning(alg: Algebra, n: Node, v: Node, f: Node, t: Node, e: Node, val: Node -> bool)
    requires NonTerminalOf(n) == Some(wff_remove_buniversal_cb)
    requires Wrapped(wff, f) && f != v
    requires CallbackArgs(n, wff_cb_arg) == [v, f, t, e]
    ensures ApplyCallback(alg, n) == Make(wff, [Make(wff_and, [Replace(f, map[v := t]), Replace(f, map[v := e])])])
    ensures Eval(WffFamily, ApplyCallback(alg, n), val)
            == (Eval(WffFamily, Replace(f, map[v := t]), val) && Eval(WffFamily, Replace(f, map[v := e]), val))
  {
    RemoveBUniversalCallback(alg, n);
    BooleanRemovalShape(n, v, f, t, e);
    BooleanRemovalMeaning(n, v, f, t, e, val);
  }

  /**
   * `wff_remove_bexistential_cb v f T F` on a wrapped formula `f`: the
   * disjunction `f[v := T] || f[v := F]`, true exactly when either instance is.
   */
  lemma BExistentialCallbackMeaning(alg: Algebra, n: Node, v: Node, f: Node, t: Node, e: Node, val: Node -> bool)
    requires NonTerminalOf(n) == Some(wff_remove_bexistential_cb)
    requires Wrapped(wff, f) && f != v
    requires CallbackArgs(n, wff_cb_arg) == [v, f, t, e]
    ensures ApplyCallback(alg, n) == Make(wff, [Make(wff_or, [Replace(f, map[v := t]), Replace(f, map[v := e])])])
    ensures Eval(WffFamily, ApplyCallback(alg, n), val)
            == (Eval(WffFamily, Replace(f, map[v := t]), val) || Eval(WffFamily, Replace(f, map[v := e]), val))
  {
    RemoveBExistentialCallback(alg, n);
    BooleanRemovalShape(n, v, f, t, e);
    BooleanRemovalMeaning(n, v, f, t, e, val);
  }

  /** `bf_remove_funiversal_cb v f c d` on a wrapped term `f`: the bf `&` of `f[v := c]` and `f[v := d]`. */
  lemma FUniversalCallbackMeaning(alg: Algebra, n: Node, v: Node, f: Node, one: Node, zero: Node)
    requires NonTerminalOf(n) == Some(bf_remove_funiversal_cb)
    requires Wrapped(bf, f) && f != v
    requires CallbackArgs(n, bf_cb_arg) == [v, f, one, zero]
    ensures ApplyCallback(alg, n) == Make(bf, [Make(bf_and, [Replace(f, map[v := one]), Replace(f, map[v := zero])])])
  {
    RemoveFUniversalCallback(alg, n);
    FunctionalRemovalShape(n, v, f, one, zero);
  }

  /** `bf_remove_fexistential_cb v f c d` on a wrapped term `f`: the bf `|` of `f[v := c]` and `f[v := d]`. */
  lemma FExistentialCallbackMeaning(alg: Algebra, n: Node, v: Node, f: Node, one: Node, zero: Node)
    requires NonTerminalOf(n) == Some(bf_remove_fexistential_cb)
    requires Wrapped(bf, f) && f != v
    requires CallbackArgs(n, bf_cb_arg) == [v, f, one, zero]
    ensures ApplyCallback(alg, n) == Make(bf, [Make(bf_or, [Replace(f, map[v := one]), Replace(f, map[v := zero])])])
  {
    RemoveFExistentialCallback(alg, n);
    FunctionalRemovalShape(n, v, f, one, zero);
  }

  /**
   * `wff_remove_existential_cb v' f` with `v` the only child of `v'`, when
   * no disjunct throws: `f` with each disjunct's top-most equation `f = 0`
   * rewritten to `all v f = 0`, every disequation of the callback node
   * rewritten to `ex v g' != 0`, where `g'` is decided by the last disjunct
   * of `f` alone, and nothing else replaced; a formula without disjuncts, or
   * without equations under a node without disequations, comes back as it is.
   */
  lemma RemoveExistentialCallbackMeaning(alg: Algebra, n: Node, v: Node)
    requires NonTerminalOf(n) == Some(wff_remove_existential_cb)
    requires |CallbackArgs(n, wff_cb_arg)| >= 2 && OnlyChild(CallbackArgs(n, wff_cb_arg)[0]) == Some(v)
    requires AllLeafChanges(Leaves(CallbackArgs(n, wff_cb_arg)[1], wff_or, wff), v, SelectAll(n, IsBfNeq)).Some?
    ensures var f := CallbackArgs(n, wff_cb_arg)[1];
            var leaves := Leaves(f, wff_or, wff);
            exists m :: ApplyCallback(alg, n) == Replace(f, m) && ExistentialChanges(m, leaves, v, SelectAll(n, IsBfNeq))
    ensures var f := CallbackArgs(n, wff_cb_arg)[1];
            Leaves(f, wff_or, wff) == [] ==> ApplyCallback(alg, n) == f
    ensures var f := CallbackArgs(n, wff_cb_arg)[1];
            SelectAll(n, IsBfNeq) == [] && (forall x :: Occurs(x, f) ==> !IsBfEq(x)) ==> ApplyCallback(alg, n) == f
  {
    RemoveExistentialCallback(alg, n);
    var f := CallbackArgs(n, wff_cb_arg)[1];
    var leaves := Leaves(f, wff_or, wff);
    var neqs := SelectAll(n, IsBfNeq);
    var m := AllLeafChanges(leaves, v, neqs).value;
    assert ApplyCallback(alg, n) == Replace(f, m);
    SelectAllMembers(n, IsBfNeq);
    AllLeafChangesMeaning(leaves, v, neqs);
    if leaves == [] {
      ReplaceNothing(f);
    }
    if neqs == [] && (forall x :: Occurs(x, f) ==> !IsBfEq(x)) {
      RemoveExistentialNoConstraints(n);
    }
  }

  // ---------------------------------------------------------------------------
  // The callback nodes rules leave behind have those arguments

  /** A bf operand holding an element directly, as a rule leaves it after matching `{ $X }`. */
  function Operand(e: Elem): Node
  {
    Make(bf, [BaLeaf(e)])
  }

  /** The algebra callback `k e1 e2`. */
  function BinaryCallback(k: Nt, a: Elem, b: Elem): Node
  {
    Make(k, [Make(bf_cb_arg, [Operand(a)]), Make(bf_cb_arg, [Operand(b)])])
  }

  /** Selecting `nt` from a pair of `nt` nodes keeps both. */
  lemma FilterPair(x: Node, y: Node, nt: Nt)
    requires IsNonTerminal(nt, x) && IsNonTerminal(nt, y)
    ensures Filter([x, y], nt) == [x, y]
  {
    assert [x, y][1..] == [y] && [y][1..] == [];
    assert Filter([y], nt) == [y];
  }

  /** The bf children of the two arguments of `k e1 e2`. */
  lemma OperandsOfPair(a: Elem, b: Elem)
    ensures ChildrenAll([Make(bf_cb_arg, [Operand(a)]), Make(bf_cb_arg, [Operand(b)])], bf) == [Operand(a), Operand(b)]
  {
    var wa, wb := Make(bf_cb_arg, [Operand(a)]), Make(bf_cb_arg, [Operand(b)]);
    assert Children(wa, bf) == [Operand(a)] by {
      assert IsNonTerminal(bf, Operand(a)) && [Operand(a)][1..] == [];
    }
    assert Children(wb, bf) == [Operand(b)] by {
      assert IsNonTerminal(bf, Operand(b)) && [Operand(b)][1..] == [];
    }
    assert [wa, wb][1..] == [wb] && [wb][1..] == [];
    assert ChildrenAll([wb], bf) == [Operand(b)] + ChildrenAll([], bf);
    assert ChildrenAll([wa, wb], bf) == [Operand(a)] + ChildrenAll([wb], bf);
  }

  /** The only children of the two operands, and the elements they hold. */
  lemma ElementsOfPair(a: Elem, b: Elem)
    ensures OnlyChildren([Operand(a), Operand(b)]) == [BaLeaf(a), BaLeaf(b)]
    ensures BaElements([BaLeaf(a), BaLeaf(b)]) == [a, b]
  {
    var os, ls := [Operand(a), Operand(b)], [BaLeaf(a), BaLeaf(b)];
    assert os[1..] == [Operand(b)] && os[1..][1..] == [];
    assert OnlyChildren(os[1..]) == [BaLeaf(b)];
    assert ls[1..] == [BaLeaf(b)] && ls[1..][1..] == [];
    assert BaElements(ls[1..]) == [b];
  }

  /** The operands of `k e1 e2` hold `e1` and `e2`. */
  lemma BinaryOperands(k: Nt, a: Elem, b: Elem)
    ensures NonTerminalOf(BinaryCallback(k, a, b)) == Some(k)
    ensures OperandElements(BinaryCallback(k, a, b)) == [a, b]
  {
    var wa, wb := Make(bf_cb_arg, [Operand(a)]), Make(bf_cb_arg, [Operand(b)]);
    FilterPair(wa, wb, bf_cb_arg);
    OperandsOfPair(a, b);
    ElementsOfPair(a, b);
  }

  /** The relation callback `k e x y`. */
  function RelationCallback(k: Nt, e: Elem, x: Node, y: Node): Node
  {
    Make(k, WrapEach(bf_cb_arg, [Operand(e)]) + WrapEach(wff_cb_arg, [x, y]))
  }

  /** The element a relation callback `k e x y` compares is `e`. */
  lemma RelationElementOf(k: Nt, e: Elem, x: Node, y: Node)
    ensures RelationElement(RelationCallback(k, e, x, y)) == Some(e)
  {
    var n := RelationCallback(k, e, x, y);
    var a := Make(bf_cb_arg, [Operand(e)]);
    assert n.children[0] == a && IsNonTerminal(bf_cb_arg, a);
    assert Child(n, bf_cb_arg) == Some(a);
    assert a.children[0] == Operand(e) && IsNonTerminal(bf, Operand(e));
    assert Child(a, bf) == Some(Operand(e));
  }

  /** `k e x y` compares `e` and chooses between `x` and `y`. */
  lemma RelationArguments(k: Nt, e: Elem, x: Node, y: Node)
    ensures NonTerminalOf(RelationCallback(k, e, x, y)) == Some(k)
    ensures RelationElement(RelationCallback(k, e, x, y)) == Some(e)
    ensures CallbackArgs(RelationCallback(k, e, x, y), wff_cb_arg) == [x, y]
  {
    var n := RelationCallback(k, e, x, y);
    CallbackArgsOf(k, bf_cb_arg, [Operand(e)], wff_cb_arg, [x, y]);
    assert CallbackArgs(n, wff_cb_arg) == [x, y];
    RelationElementOf(k, e, x, y);
  }

  /** The arguments of a callback `k x1 ... xm` whose arguments are all of kind `arg`. */
  lemma UniformArguments(k: Nt, arg: Nt, other: Nt, xs: seq<Node>)
    requires arg != other
    ensures NonTerminalOf(Make(k, WrapEach(arg, xs))) == Some(k)
    ensures CallbackArgs(Make(k, WrapEach(arg, xs)), arg) == xs
  {
    var ws := WrapEach(arg, xs);
    assert ws + WrapEach(other, []) == ws;
    CallbackArgsOf(k, arg, xs, other, []);
  }
}
