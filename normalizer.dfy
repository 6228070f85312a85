/**
 * The normaliser of src/normalizer2.h (418-527): `normalizer_step`, the
 * equivalence test `is_equivalent_predicate` and the outer `normalizer`
 * loop.
 *
 * `normalizer_step` runs six `repeat_all` stages in a fixed order over the
 * main tree of a formula and keeps its recurrence relations. The parsed
 * rules of the libraries come from the parameter `rule`, since parsing is
 * not part of this model, and `tau_apply` is the `Engine` of the step
 * combinators.
 */
module Normalizer {
  import opened Wrappers
  import opened TauTree
  import opened Builders
  import opened Drivers
  import opened Combinators
  import opened Libraries

  /** `formula`: the recurrence relations and the main tree. */
  datatype Formula = Formula(recRelations: seq<Rule>, main: Node)

  /** `make_library`: the rules of a library, parsed, in order. */
  function Library(rule: RuleName -> Rule, names: seq<RuleName>): Step
  {
    Step(seq(|names|, i requires 0 <= i < |names| => rule(names[i])))
  }

  /**
   * The six stages of `normalizer_step`, each the `steps` its `repeat_all`
   * runs: the recurrence relations, the definitions, the elimination of
   * `all`, the DNF group, the positives group and the bf group.
   */
  function Stages(rule: RuleName -> Rule, rec: seq<Rule>): seq<seq<Step>>
  {
    [ [Step(rec)],
      [Library(rule, ApplyDefs)],
      [Library(rule, ElimForAll)],
      [Library(rule, ToDnfWff), Library(rule, SimplifyWff), Library(rule, ClauseSimplifyWff)],
      [Library(rule, BfPositivesUpwards), Library(rule, SqueezePositives), Library(rule, WffRemoveExistential)],
      [Library(rule, BfElimQuantifiers), Library(rule, SimplifyBf), Library(rule, ApplyCb),
       Library(rule, ClauseSimplifyBf), Library(rule, Trivialities), Library(rule, ToDnfWff),
       Library(rule, SimplifyWff), Library(rule, ClauseSimplifyWff)] ]
  }

  /** `n | repeat_all(s1) | repeat_all(s2) | ...`: each stage on the output of the one before. */
  function RunStages(e: Engine, stages: seq<seq<Step>>, n: Node, fuel: nat): Option<Node>
  {
    if stages == [] then Some(n)
    else match RepeatAll(e, stages[0], n, fuel)
      case None => None
      case Some(m) => RunStages(e, stages[1..], m, fuel)
  }

  /** `normalizer_step`: the stages over `main`; the recurrence relations are returned as they are. */
  function NormalizerStep(e: Engine, rule: RuleName -> Rule, form: Formula, fuel: nat): (r: Option<Formula>)
    ensures r.Some? ==> r.value.recRelations == form.recRelations
  {
    match RunStages(e, Stages(rule, form.recRelations), form.main, fuel)
    case None => None
    case Some(m) => Some(Formula(form.recRelations, m))
  }

  /**
   * The run of the stages, one output per stage: each output is what
   * `repeat_all` returns for its stage on the output before it. When every
   * stage returns, there is one output per stage and the last is the result;
   * otherwise the stage after the last output ran out of fuel.
   */
  lemma {:induction false} RunStagesTrace(e: Engine, stages: seq<seq<Step>>, n: Node, fuel: nat) returns (ms: seq<Node>)
    ensures 1 <= |ms| <= |stages| + 1 && ms[0] == n
    ensures forall k :: 0 <= k < |ms| - 1 ==> RepeatAll(e, stages[k], ms[k], fuel) == Some(ms[k + 1])
    ensures RunStages(e, stages, n, fuel).Some? ==> |ms| == |stages| + 1 && RunStages(e, stages, n, fuel) == Some(ms[|ms| - 1])
    ensures RunStages(e, stages, n, fuel).None? ==> |ms| <= |stages| && RepeatAll(e, stages[|ms| - 1], ms[|ms| - 1], fuel).None?
  {
    if stages == [] {
      ms := [n];
    } else {
      match RepeatAll(e, stages[0], n, fuel)
      case None =>
        ms := [n];
      case Some(m) =>
        var rest := RunStagesTrace(e, stages[1..], m, fuel);
        ms := [n] + rest;
        forall k | 1 <= k < |ms| - 1
          ensures RepeatAll(e, stages[k], ms[k], fuel) == Some(ms[k + 1])
        {
          assert stages[k] == stages[1..][k - 1] && ms[k] == rest[k - 1] && ms[k + 1] == rest[k];
        }
    }
  }

  /**
   * `normalizer_step` keeps the recurrence relations and changes only
   * `main`, by the six stages in their fixed order: `ms[k + 1]` is what the
   * `k`-th stage of `Stages` returns on `ms[k]`.
   */
  lemma NormalizerStepStages(e: Engine, rule: RuleName -> Rule, form: Formula, fuel: nat) returns (ms: seq<Node>)
    requires NormalizerStep(e, rule, form, fuel).Some?
    ensures NormalizerStep(e, rule, form, fuel).value.recRelations == form.recRelations
    ensures |ms| == 7 && ms[0] == form.main && ms[6] == NormalizerStep(e, rule, form, fuel).value.main
    ensures forall k :: 0 <= k < 6 ==> RepeatAll(e, Stages(rule, form.recRelations)[k], ms[k], fuel) == Some(ms[k + 1])
  {
    ms := RunStagesTrace(e, Stages(rule, form.recRelations), form.main, fuel);
  }

  // ---------------------------------------------------------------------------
  // is_equivalent_predicate

  /** `free_variables(n)`: the captures of `n`, as a set. */
  function FreeVariables(n: Node): set<Node>
  {
    set x | x in SelectAll(n, IsCapture)
  }

  /** The free variables are exactly the capture nodes occurring in the tree. */
  lemma FreeVariablesAre(n: Node)
    ensures forall x :: x in FreeVariables(n) <==> Occurs(x, n) && IsCapture(x)
  {
    SelectAllMembers(n, IsCapture);
  }

  /** `for (v : order) wff = build_wff_all(v, wff)`. */
  function CloseAll(order: seq<Node>, body: Node): (r: Node)
    requires |body.children| > 0
    ensures |r.children| > 0
    decreases |order|
  {
    if order == [] then body else CloseAll(order[1..], BuildWffAll(order[0], body))
  }

  /** `order` lists each element of `vars` once, and nothing else. */
  ghost predicate Enumerates(order: seq<Node>, vars: set<Node>)
  {
    (forall x :: x in order <==> x in vars) &&
    (forall i, j :: 0 <= i < j < |order| ==> order[i] != order[j])
  }

  /** Closing a `wff` under one more variable puts its `all` outermost, around the closure so far. */
  lemma {:induction false} CloseAllLast(order: seq<Node>, v: Node, body: Node)
    requires Wrapped(wff, body)
    ensures Wrapped(wff, CloseAll(order, body))
    ensures CloseAll(order + [v], body) == Make(wff, [Make(wff_all, [v, CloseAll(order, body)])])
    decreases |order|
  {
    if order == [] {
      assert [v][1..] == [];
      WffQuantifierShapes(v, body);
    } else {
      var b := BuildWffAll(order[0], body);
      WffQuantifierShapes(order[0], body);
      assert (order + [v])[1..] == order[1..] + [v];
      CloseAllLast(order[1..], v, b);
    }
  }

  /** Every variable of the closure is bound in it, and the body is kept inside it. */
  lemma {:induction false} CloseAllBinds(order: seq<Node>, body: Node)
    requires Wrapped(wff, body)
    ensures Occurs(body, CloseAll(order, body))
    ensures forall v :: v in order ==> Occurs(v, CloseAll(order, body))
    decreases |order|
  {
    if order != [] {
      var init, v := order[..|order| - 1], order[|order| - 1];
      assert order == init + [v];
      CloseAllBinds(init, body);
      CloseAllLast(init, v, body);
      var c := CloseAll(init, body);
      var q := Make(wff_all, [v, c]);
      var r := Make(wff, [q]);
      assert r.children[0] == q && q.children[0] == v && q.children[1] == c;
      assert Occurs(c, q);
      forall x | Occurs(x, c)
        ensures Occurs(x, r)
      {
        assert Occurs(x, q.children[1]);
        assert Occurs(x, q);
        assert Occurs(x, r.children[0]);
      }
      assert Occurs(v, q.children[0]);
      assert Occurs(v, r.children[0]);
    }
  }

  /** `norm_form.main | wff | wff_t`: `main` has a `wff` child, and that child a `wff_t` child. */
  predicate HasWffT(main: Node)
  {
    ChildOf(Child(main, wff), wff_t).Some?
  }

  /**
   * The test looks two levels down: the `wff` tree `T` itself does not pass
   * it, while a node holding `T` as its `wff` child does.
   */
  lemma HasWffTLevels()
    ensures !HasWffT(CanonicalTrue)
    ensures HasWffT(Make(tau, [CanonicalTrue]))
  {
    assert CanonicalTrue.children[0] == Make(wff_t, []);
    assert Make(tau, [CanonicalTrue]).children[0] == CanonicalTrue;
  }

  /**
   * The loop of `operator()` that closes `wff` under `all` for each variable,
   * in the iteration order of the set (the order in which `std::set` keeps
   * its elements, which the model leaves open).
   */
  method CloseUnderAll(vars: set<Node>, body: Node) returns (w: Node, ghost order: seq<Node>)
    requires |body.children| > 0
    ensures Enumerates(order, vars) && w == CloseAll(order, body)
  {
    var rest := vars;
    w := body;
    order := [];
    while rest != {}
      invariant |w.children| > 0
      invariant w == CloseAll(order, body)
      invariant forall x :: x in vars <==> x in order || x in rest
      invariant forall x :: x in order ==> x !in rest
      invariant forall i, j :: 0 <= i < j < |order| ==> order[i] != order[j]
      decreases |rest|
    {
      var v :| v in rest;
      CloseAllAppend(order, v, body);
      w := BuildWffAll(v, w);
      order := order + [v];
      rest := rest - {v};
    }
  }

  /** Closing under one more variable wraps the closure so far. */
  lemma {:induction false} CloseAllAppend(order: seq<Node>, v: Node, body: Node)
    requires |body.children| > 0
    ensures CloseAll(order + [v], body) == BuildWffAll(v, CloseAll(order, body))
    decreases |order|
  {
    if order == [] {
      assert [v][1..] == [];
    } else {
      assert (order + [v])[1..] == order[1..] + [v];
      CloseAllAppend(order[1..], v, BuildWffAll(order[0], body));
    }
  }

  /**
   * `is_equivalent_predicate(node)(n)`: `equiv(node, n)` closed under `all`
   * for every capture of either tree, normalised by `normalize` (the
   * `normalizer` of this file, a parameter here), is true when the
   * normalised main passes `| wff | wff_t`.
   */
  method IsEquivalent(normalize: Formula -> Formula, node: Node, n: Node) returns (b: bool, ghost order: seq<Node>)
    requires |node.children| > 0 && |n.children| > 0
    ensures Enumerates(order, FreeVariables(node) + FreeVariables(n))
    ensures b <==> HasWffT(normalize(Formula([], CloseAll(order, BuildWffEquiv(node, n)))).main)
  {
    var nodeFreeVariables := FreeVariables(node);
    var freeVars := FreeVariables(n) + nodeFreeVariables;
    var w := BuildWffEquiv(node, n);
    w, order := CloseUnderAll(freeVars, w);
    var normForm := normalize(Formula([], w));
    var check := ChildOf(Child(normForm.main, wff), wff_t);
    b := check.Some?;
  }

  // ---------------------------------------------------------------------------
  // normalizer

  /** `step` applied `k` times to `form`. */
  function StepN(step: Formula -> Formula, form: Formula, k: nat): Formula
  {
    if k == 0 then form else step(StepN(step, form, k - 1))
  }

  /** Some earlier main tree is equivalent to `main`. */
  predicate Seen(equivalent: (Node, Node) -> bool, previous: seq<Node>, main: Node)
  {
    exists i :: 0 <= i < |previous| && equivalent(main, previous[i])
  }

  /**
   * The loop `normalizer` intends: stop when the current main tree is
   * equivalent to an earlier one, otherwise remember it and take one more
   * `normalizer_step`. `fuel` bounds the number of rounds.
   */
  function NormalizeFrom(step: Formula -> Formula, equivalent: (Node, Node) -> bool,
                         previous: seq<Node>, current: Formula, fuel: nat): Option<Formula>
    decreases fuel
  {
    if Seen(equivalent, previous, current.main) then Some(current)
    else if fuel == 0 then None
    else NormalizeFrom(step, equivalent, previous + [current.main], step(current), fuel - 1)
  }

  /** `normalizer(form)`: starts from one `normalizer_step` with nothing seen. */
  function Normalize(step: Formula -> Formula, equivalent: (Node, Node) -> bool, form: Formula, fuel: nat): Option<Formula>
  {
    NormalizeFrom(step, equivalent, [], step(form), fuel)
  }

  lemma {:induction false} NormalizeFromSeen(step: Formula -> Formula, equivalent: (Node, Node) -> bool,
                                             form: Formula, m: nat, previous: seq<Node>, fuel: nat)
    requires |previous| == m && forall i :: 0 <= i < m ==> previous[i] == StepN(step, form, i + 1).main
    requires NormalizeFrom(step, equivalent, previous, StepN(step, form, m + 1), fuel).Some?
    ensures exists k, j :: 1 <= j < k &&
              NormalizeFrom(step, equivalent, previous, StepN(step, form, m + 1), fuel).value == StepN(step, form, k) &&
              equivalent(StepN(step, form, k).main, StepN(step, form, j).main)
    decreases fuel
  {
    var current := StepN(step, form, m + 1);
    if Seen(equivalent, previous, current.main) {
      var i :| 0 <= i < |previous| && equivalent(current.main, previous[i]);
      assert equivalent(StepN(step, form, m + 1).main, StepN(step, form, i + 1).main);
    } else {
      var p := previous + [current.main];
      assert StepN(step, form, m + 2) == step(current);
      forall i | 0 <= i < m + 1
        ensures p[i] == StepN(step, form, i + 1).main
      {
        if i < m {
          assert p[i] == previous[i];
        }
      }
      NormalizeFromSeen(step, equivalent, form, m + 1, p, fuel - 1);
    }
  }

  /**
   * What `normalizer` returns: the formula after `k` steps, whose main tree
   * is equivalent to the main tree after some earlier step `j >= 1`.
   */
  lemma NormalizeSeen(step: Formula -> Formula, equivalent: (Node, Node) -> bool, form: Formula, fuel: nat)
    requires Normalize(step, equivalent, form, fuel).Some?
    ensures exists k, j :: 1 <= j < k && Normalize(step, equivalent, form, fuel).value == StepN(step, form, k) &&
                           equivalent(StepN(step, form, k).main, StepN(step, form, j).main)
  {
    assert StepN(step, form, 1) == step(form);
    NormalizeFromSeen(step, equivalent, form, 0, [], fuel);
  }

  lemma {:induction false} StepNKeepsRelations(step: Formula -> Formula, form: Formula, k: nat)
    requires forall f :: step(f).recRelations == f.recRelations
    ensures StepN(step, form, k).recRelations == form.recRelations
  {
    if k > 0 {
      StepNKeepsRelations(step, form, k - 1);
    }
  }

  /** With a step that keeps the recurrence relations, as `normalizer_step` does, so does `normalizer`. */
  lemma NormalizeKeepsRelations(step: Formula -> Formula, equivalent: (Node, Node) -> bool, form: Formula, fuel: nat)
    requires forall f :: step(f).recRelations == f.recRelations
    requires Normalize(step, equivalent, form, fuel).Some?
    ensures Normalize(step, equivalent, form, fuel).value.recRelations == form.recRelations
  {
    NormalizeSeen(step, equivalent, form, fuel);
    var k, j :| 1 <= j < k && Normalize(step, equivalent, form, fuel).value == StepN(step, form, k) &&
                equivalent(StepN(step, form, k).main, StepN(step, form, j).main);
    StepNKeepsRelations(step, form, k);
  }

  /** The search over `previous` for a tree equivalent to `main`. */
  method FindEquivalent(equivalent: (Node, Node) -> bool, previous: seq<Node>, main: Node) returns (found: bool)
    ensures found <==> Seen(equivalent, previous, main)
  {
    found := false;
    var i := |previous|;
    while i > 0 && !found
      invariant 0 <= i <= |previous|
      invariant found ==> Seen(equivalent, previous, main)
      invariant !found ==> forall j :: i <= j < |previous| ==> !equivalent(main, previous[j])
    {
      i := i - 1;
      if equivalent(main, previous[i]) {
        found := true;
      }
    }
  }

  /** `normalizer(form)`, with the loop as intended: `previous` grows by one main tree per round. */
  method NormalizeApply(step: Formula -> Formula, equivalent: (Node, Node) -> bool, form: Formula, fuel: nat)
    returns (res: Option<Formula>)
    ensures res == Normalize(step, equivalent, form, fuel)
  {
    var previous: seq<Node> := [];
    var current := step(form);
    var left := fuel;
    while true
      invariant Normalize(step, equivalent, form, fuel) == NormalizeFrom(step, equivalent, previous, current, left)
      decreases left
    {
      var found := FindEquivalent(equivalent, previous, current.main);
      if found {
        return Some(current);
      }
      if left == 0 {
        return None;
      }
      previous := previous + [current.main];
      current := step(current);
      left := left - 1;
    }
  }
}
