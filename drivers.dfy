/**
 * The rule drivers of src/nso_rr.h (1581-1680).
 *
 * `nso_rr_apply_if` applies one rule through the matcher and then evaluates
 * every callback in the result; over a list of rules it drives each rule to
 * its own fixed point before moving to the next. `nso_rr_apply` applies one
 * rule, evaluates the callbacks and folds the `shift` arithmetic; over a
 * list it applies each rule once, in order.
 *
 * The matcher `apply_with_skip` (and `apply_with_skip_if`, which also takes
 * a predicate) lives in rewriting.h, which is not part of this model: it is
 * a parameter of type `Matcher`, and everything here holds for every
 * matcher. The loops of the fixed point have no termination argument in the
 * source; here they carry a fuel bound and report `None` when it runs out.
 */
module Drivers {
  import opened Wrappers
  import opened TauTree
  import opened Builders
  import opened Callbacks

  /** `apply_with_skip(r, n, ...)`: rewrites `n` with rule `r`. */
  type Matcher = (Rule, Node) -> Node

  /**
   * `callback_applier` as a function value. The drivers below take the
   * callback applier as a parameter `apply`; the engine's is `Applier(alg)`.
   */
  function Applier(alg: Algebra): Node -> Node
  {
    x => ApplyCallback(alg, x)
  }

  // ---------------------------------------------------------------------------
  // The callback stage

  /** The `changes` map the callback loop fills: `changes[cb] = cb_applier(cb)` for each `cb` in turn. */
  function CallbackChanges(apply: Node -> Node, cbs: seq<Node>): map<Node, Node>
  {
    if cbs == [] then map[]
    else CallbackChanges(apply, cbs[..|cbs| - 1])[cbs[|cbs| - 1] := apply(cbs[|cbs| - 1])]
  }

  /** The loop's map sends exactly the callbacks it saw to their values, whatever their order. */
  lemma {:induction false} CallbackChangesAre(apply: Node -> Node, cbs: seq<Node>)
    ensures CallbackChanges(apply, cbs) == map k | k in cbs :: apply(k)
  {
    if cbs != [] {
      var init := cbs[..|cbs| - 1];
      CallbackChangesAre(apply, init);
      assert cbs == init + [cbs[|cbs| - 1]];
    }
  }

  /** The callback stage shared by both drivers: every callback in `nn` is replaced by its value. */
  function EvaluateCallbacks(apply: Node -> Node, nn: Node): Node
  {
    var cbs := SelectAll(nn, IsCallback);
    if cbs == [] then nn else Replace(nn, CallbackChanges(apply, cbs))
  }

  /** A rewritten tree without callbacks comes through the callback stage unchanged. */
  lemma NoCallbacksUnchanged(apply: Node -> Node, nn: Node)
    requires forall x :: Occurs(x, nn) ==> !IsCallback(x)
    ensures EvaluateCallbacks(apply, nn) == nn
  {
    EmptySelection(nn, IsCallback);
  }

  /** When the rewritten tree is itself a callback, the stage returns its value. */
  lemma RootCallbackEvaluated(apply: Node -> Node, nn: Node)
    requires IsCallback(nn)
    ensures EvaluateCallbacks(apply, nn) == apply(nn)
  {
    var cbs := SelectAll(nn, IsCallback);
    assert nn in cbs;
    CallbackChangesAre(apply, cbs);
  }

  /** Callbacks the applier leaves as they are do not change the tree. */
  lemma FixedCallbacksUnchanged(apply: Node -> Node, nn: Node)
    requires forall x :: Occurs(x, nn) && IsCallback(x) ==> apply(x) == x
    ensures EvaluateCallbacks(apply, nn) == nn
  {
    var cbs := SelectAll(nn, IsCallback);
    SelectAllMembers(nn, IsCallback);
    if cbs != [] {
      var m := CallbackChanges(apply, cbs);
      CallbackChangesAre(apply, cbs);
      ReplaceFixed(nn, m);
    }
  }

  /** `replace` with a map that sends every key to itself is the identity. */
  lemma {:induction false} ReplaceFixed(n: Node, m: map<Node, Node>)
    requires forall k :: k in m ==> m[k] == k
    ensures Replace(n, m) == n
  {
    if n !in m {
      var cs := ReplaceAll(n.children, m);
      forall i | 0 <= i < |n.children|
        ensures cs[i] == n.children[i]
      {
        ReplaceFixed(n.children[i], m);
      }
      assert cs == n.children;
    }
  }

  // ---------------------------------------------------------------------------
  // nso_rr_apply_if

  /** The two cases of the callback stage, as implications. */
  lemma CallbackStageCases(apply: Node -> Node, nn: Node)
    ensures (forall x :: Occurs(x, nn) ==> !IsCallback(x)) ==> EvaluateCallbacks(apply, nn) == nn
    ensures IsCallback(nn) ==> EvaluateCallbacks(apply, nn) == apply(nn)
  {
    if forall x :: Occurs(x, nn) ==> !IsCallback(x) {
      NoCallbacksUnchanged(apply, nn);
    }
    if IsCallback(nn) {
      RootCallbackEvaluated(apply, nn);
    }
  }

  /**
   * `nso_rr_apply_if(r, n, predicate)`: the matcher's rewrite, then the
   * callback stage. A rewrite without callbacks is the result; a rewrite that
   * is itself a callback is replaced by the callback's value.
   */
  function ApplyIf(apply: Node -> Node, matcher: Matcher, r: Rule, n: Node): (res: Node)
    ensures (forall x :: Occurs(x, matcher(r, n)) ==> !IsCallback(x)) ==> res == matcher(r, n)
    ensures IsCallback(matcher(r, n)) ==> res == apply(matcher(r, n))
  {
    CallbackStageCases(apply, matcher(r, n));
    EvaluateCallbacks(apply, matcher(r, n))
  }

  /** One rule as a step function on trees. */
  function RuleStep(apply: Node -> Node, matcher: Matcher, r: Rule): Node -> Node
  {
    x => ApplyIf(apply, matcher, r, x)
  }

  /**
   * Iterating `step` from `n` until the tree stops changing, as the
   * `while (nnn != nn)` loop does; `fuel` bounds the number of changes, and
   * `None` means it ran out.
   */
  function Fixpoint(step: Node -> Node, n: Node, fuel: nat): (r: Option<Node>)
    ensures r.Some? ==> step(r.value) == r.value
    decreases fuel
  {
    if step(n) == n then Some(n)
    else if fuel == 0 then None
    else Fixpoint(step, step(n), fuel - 1)
  }

  /** The fuel is only a bound: a fixed point found with some fuel is found with more. */
  lemma {:induction false} FixpointMoreFuel(step: Node -> Node, n: Node, fuel: nat, more: nat)
    requires fuel <= more
    requires Fixpoint(step, n, fuel).Some?
    ensures Fixpoint(step, n, more) == Fixpoint(step, n, fuel)
    decreases fuel
  {
    if step(n) != n {
      FixpointMoreFuel(step, step(n), fuel - 1, more - 1);
    }
  }

  /** A tree the step already leaves alone is its own fixed point, for any fuel. */
  lemma FixpointOfFixed(step: Node -> Node, n: Node, fuel: nat)
    requires step(n) == n
    ensures Fixpoint(step, n, fuel) == Some(n)
  {
  }

  /** `nso_rr_apply_if(rs, n, predicate)`: each rule of `rs`, in order, to its own fixed point. */
  function ApplyIfAll(apply: Node -> Node, matcher: Matcher, rs: seq<Rule>, n: Node, fuel: nat): Option<Node>
  {
    if rs == [] then Some(n)
    else match Fixpoint(RuleStep(apply, matcher, rs[0]), n, fuel)
      case None => None
      case Some(m) => ApplyIfAll(apply, matcher, rs[1..], m, fuel)
  }

  /** The result is a fixed point of the last rule. */
  lemma {:induction false} ApplyIfAllFixed(apply: Node -> Node, matcher: Matcher, rs: seq<Rule>, n: Node, fuel: nat)
    requires rs != []
    requires ApplyIfAll(apply, matcher, rs, n, fuel).Some?
    ensures var m := ApplyIfAll(apply, matcher, rs, n, fuel).value;
            ApplyIf(apply, matcher, rs[|rs| - 1], m) == m
  {
    var m := Fixpoint(RuleStep(apply, matcher, rs[0]), n, fuel).value;
    if |rs| > 1 {
      ApplyIfAllFixed(apply, matcher, rs[1..], m, fuel);
    } else {
      assert RuleStep(apply, matcher, rs[0])(m) == m;
    }
  }

  /** Rules are taken in order: running `rs + ts` runs `rs`, then `ts` on its result. */
  lemma {:induction false} ApplyIfAllOrder(apply: Node -> Node, matcher: Matcher, rs: seq<Rule>, ts: seq<Rule>, n: Node, fuel: nat)
    ensures ApplyIfAll(apply, matcher, rs + ts, n, fuel) ==
            match ApplyIfAll(apply, matcher, rs, n, fuel)
            case None => None
            case Some(m) => ApplyIfAll(apply, matcher, ts, m, fuel)
  {
    if rs == [] {
      assert rs + ts == ts;
    } else {
      assert (rs + ts)[0] == rs[0];
      assert (rs + ts)[1..] == rs[1..] + ts;
      match Fixpoint(RuleStep(apply, matcher, rs[0]), n, fuel)
      case None =>
      case Some(m) => ApplyIfAllOrder(apply, matcher, rs[1..], ts, m, fuel);
    }
  }

  /** `nso_rr_apply_if(r, n, predicate)` with the callback loop filling `changes`. */
  method NsoRrApplyIf(apply: Node -> Node, matcher: Matcher, r: Rule, n: Node) returns (res: Node)
    ensures res == ApplyIf(apply, matcher, r, n)
  {
    var nn := matcher(r, n);
    var cbs := SelectAll(nn, IsCallback);
    if cbs == [] {
      return nn;
    }
    var changes := CollectCallbacks(apply, cbs);
    res := Replace(nn, changes);
  }

  /** The callback loop: `changes[cb] = cb_applier(cb)` for each callback in turn. */
  method CollectCallbacks(apply: Node -> Node, cbs: seq<Node>) returns (changes: map<Node, Node>)
    ensures changes == CallbackChanges(apply, cbs)
  {
    changes := map[];
    for i := 0 to |cbs|
      invariant changes == CallbackChanges(apply, cbs[..i])
    {
      assert cbs[..i + 1][..i] == cbs[..i];
      changes := changes[cbs[i] := apply(cbs[i])];
    }
    assert cbs[..|cbs|] == cbs;
  }

  /** `nso_rr_apply_if(rs, n, predicate)`: the nested `while (nnn != nn)` loops, with a fuel bound per rule. */
  method NsoRrApplyIfRules(apply: Node -> Node, matcher: Matcher, rs: seq<Rule>, n: Node, fuel: nat) returns (res: Option<Node>)
    ensures res == ApplyIfAll(apply, matcher, rs, n, fuel)
  {
    if rs == [] {
      return Some(n);
    }
    var nn := n;
    for i := 0 to |rs|
      invariant ApplyIfAll(apply, matcher, rs, n, fuel) == ApplyIfAll(apply, matcher, rs[i..], nn, fuel)
    {
      var m := RunRule(apply, matcher, rs[i], nn, fuel);
      assert rs[i..][1..] == rs[i + 1..];
      if m.None? {
        return None;
      }
      nn := m.value;
    }
    return Some(nn);
  }

  /** One rule to its fixed point: `while (nnn != nn) { nn = nnn; nnn = apply(r, nn); }`. */
  method RunRule(apply: Node -> Node, matcher: Matcher, r: Rule, n: Node, fuel: nat) returns (res: Option<Node>)
    ensures res == Fixpoint(RuleStep(apply, matcher, r), n, fuel)
  {
    var nn := n;
    var left := fuel;
    var nnn := NsoRrApplyIf(apply, matcher, r, nn);
    while nnn != nn
      invariant nnn == RuleStep(apply, matcher, r)(nn)
      invariant Fixpoint(RuleStep(apply, matcher, r), n, fuel) == Fixpoint(RuleStep(apply, matcher, r), nn, left)
      decreases left
    {
      if left == 0 {
        return None;
      }
      nn := nnn;
      left := left - 1;
      nnn := NsoRrApplyIf(apply, matcher, r, nn);
    }
    return Some(nn);
  }

  // ---------------------------------------------------------------------------
  // nso_rr_apply: shift folding

  /** What the shift loop makes of one `shift` node. */
  datatype ShiftFold =
    | Kept        // not two `num` operands
    | Malformed   // a `num` operand without an offset leaf, where the source throws `bad_optional_access`
    | Underflow   // left < right: the whole call gives up
    | Folded(value: nat)

  /** The offset of a `num` node: `only_child_extractor` then `offset_extractor`. */
  function NumValue(x: Node): Option<nat>
  {
    match OnlyChild(x)
    case None => None
    case Some(d) => OffsetOf(d)
  }

  /** A `num` node holding `k`, as the shift loop builds it. */
  function NumNode(k: nat): (r: Node)
    ensures IsNonTerminal(num, r) && NumValue(r) == Some(k)
  {
    Make(num, [NumLeaf(k)])
  }

  /** The fold of one shift: `shift || num` must give exactly two operands. */
  function FoldShift(s: Node): ShiftFold
  {
    var args := Children(s, num);
    if |args| != 2 then Kept
    else
      var left := NumValue(args[0]);
      var right := NumValue(args[1]);
      if left.None? || right.None? then Malformed
      else if left.value < right.value then Underflow
      else Folded(left.value - right.value)
  }

  /** A shift of two numbers folds to their difference, or underflows when the first is smaller. */
  lemma FoldShiftOfNumbers(a: nat, b: nat)
    ensures FoldShift(Make(shift, [NumNode(a), NumNode(b)])) == if a < b then Underflow else Folded(a - b)
  {
    var ops := [NumNode(a), NumNode(b)];
    assert ops[1..] == [NumNode(b)];
    assert Filter([NumNode(b)], num) == [NumNode(b)] + Filter([], num);
    assert Filter(ops, num) == [NumNode(a)] + Filter([NumNode(b)], num);
  }

  /** Whether some shift in `shifts` underflows. */
  predicate AnyUnderflow(fold: Node -> ShiftFold, shifts: seq<Node>)
  {
    exists i :: 0 <= i < |shifts| && fold(shifts[i]).Underflow?
  }

  /** The `changes` map after the shift loop: each shift that folds maps to the `num` of its difference. */
  function ShiftChanges(fold: Node -> ShiftFold, changes: map<Node, Node>, shifts: seq<Node>): map<Node, Node>
  {
    if shifts == [] then changes
    else
      var m := ShiftChanges(fold, changes, shifts[..|shifts| - 1]);
      var s := shifts[|shifts| - 1];
      if fold(s).Folded? then m[s := NumNode(fold(s).value)] else m
  }

  /** Every shift that folds is mapped to the `num` of its difference. */
  lemma {:induction false} ShiftChangesFolded(fold: Node -> ShiftFold, changes: map<Node, Node>, shifts: seq<Node>, s: Node)
    requires s in shifts && fold(s).Folded?
    ensures s in ShiftChanges(fold, changes, shifts)
    ensures ShiftChanges(fold, changes, shifts)[s] == NumNode(fold(s).value)
  {
    var init := shifts[..|shifts| - 1];
    if s != shifts[|shifts| - 1] {
      var i :| 0 <= i < |shifts| && shifts[i] == s;
      assert init[i] == s;
      ShiftChangesFolded(fold, changes, init, s);
    }
  }

  /** Every other key keeps the value the callback loop gave it, and no other key is added. */
  lemma {:induction false} ShiftChangesKept(fold: Node -> ShiftFold, changes: map<Node, Node>, shifts: seq<Node>, k: Node)
    ensures k in ShiftChanges(fold, changes, shifts) <==> k in changes || (k in shifts && fold(k).Folded?)
    ensures k in changes && !(k in shifts && fold(k).Folded?) ==> ShiftChanges(fold, changes, shifts)[k] == changes[k]
  {
    if shifts != [] {
      var init := shifts[..|shifts| - 1];
      assert shifts == init + [shifts[|shifts| - 1]];
      ShiftChangesKept(fold, changes, init, k);
    }
  }

  /** One more shift of the loop. */
  lemma ShiftChangesStep(fold: Node -> ShiftFold, changes: map<Node, Node>, shifts: seq<Node>, i: int)
    requires 0 <= i < |shifts|
    ensures var m := ShiftChanges(fold, changes, shifts[..i]);
            ShiftChanges(fold, changes, shifts[..i + 1]) ==
              if fold(shifts[i]).Folded? then m[shifts[i] := NumNode(fold(shifts[i]).value)] else m
  {
    assert shifts[..i + 1][..i] == shifts[..i];
  }

  predicate IsShift(x: Node)
  {
    IsNonTerminal(shift, x)
  }

  /** The shift nodes of a tree, in pre-order. */
  function Shifts(nn: Node): seq<Node>
  {
    SelectAll(nn, IsShift)
  }

  /** The callback part of the `changes` map of `nso_rr_apply`. */
  function CallbackMap(apply: Node -> Node, nn: Node): map<Node, Node>
  {
    var cbs := SelectAll(nn, IsCallback);
    if cbs == [] then map[] else CallbackChanges(apply, cbs)
  }

  /** The whole `changes` map of `nso_rr_apply`, or `None` when a shift underflows. */
  function RewriteChanges(apply: Node -> Node, nn: Node): Option<map<Node, Node>>
  {
    var shifts := Shifts(nn);
    if AnyUnderflow(FoldShift, shifts) then None else Some(ShiftChanges(FoldShift, CallbackMap(apply, nn), shifts))
  }

  /**
   * `nso_rr_apply(r, n)`: the matcher's rewrite, then one replacement with
   * the callback values and the folded shifts. As written, a shift with
   * `left < right` makes the call return the original input `n`, discarding
   * the rewrite as well.
   */
  function ApplyOnce(apply: Node -> Node, matcher: Matcher, r: Rule, n: Node): (res: Node)
    ensures res == n || exists m :: res == Replace(matcher(r, n), m)
  {
    var nn := matcher(r, n);
    match RewriteChanges(apply, nn)
    case None => n
    case Some(changes) =>
      if changes == map[] then
        ReplaceNothing(nn);
        assert nn == Replace(nn, map[]);
        nn
      else
        var res := Replace(nn, changes);
        assert res == Replace(matcher(r, n), changes);
        res
  }

  /** An underflowing shift anywhere in the rewrite discards the rewrite: the input comes back. */
  lemma UnderflowDiscardsRewrite(apply: Node -> Node, matcher: Matcher, r: Rule, n: Node, s: Node)
    requires Occurs(s, matcher(r, n)) && IsNonTerminal(shift, s)
    requires FoldShift(s).Underflow?
    ensures ApplyOnce(apply, matcher, r, n) == n
  {
    var shifts := Shifts(matcher(r, n));
    SelectAllMembers(matcher(r, n), IsShift);
    assert s in shifts;
    var i :| 0 <= i < |shifts| && shifts[i] == s;
    assert AnyUnderflow(FoldShift, shifts);
  }

  /** Without callbacks or shifts, `nso_rr_apply` is the matcher's rewrite. */
  lemma PlainRewrite(apply: Node -> Node, matcher: Matcher, r: Rule, n: Node)
    requires forall x :: Occurs(x, matcher(r, n)) ==> !IsCallback(x) && !IsShift(x)
    ensures ApplyOnce(apply, matcher, r, n) == matcher(r, n)
  {
    var nn := matcher(r, n);
    EmptySelection(nn, IsCallback);
    EmptySelection(nn, IsShift);
  }

  /** A selection over a tree none of whose subtrees qualifies is empty. */
  lemma EmptySelection(n: Node, p: Node -> bool)
    requires forall x :: Occurs(x, n) ==> !p(x)
    ensures SelectAll(n, p) == []
  {
    SelectAllMembers(n, p);
    if SelectAll(n, p) != [] {
      assert SelectAll(n, p)[0] in SelectAll(n, p);
    }
  }

  /** A selection over a `num` node finds neither the node nor its leaf when `p` rejects both. */
  lemma NumNodeSelects(k: nat, p: Node -> bool)
    requires !p(NumNode(k)) && !p(NumLeaf(k))
    ensures SelectAll(NumNode(k), p) == []
  {
    var leaf := NumLeaf(k);
    assert SelectAll(leaf, p) == [];
    assert [leaf][1..] == [];
    assert SelectAllIn([leaf], p) == [];
  }

  /** A selection over a shift of two numbers finds at most the shift itself. */
  lemma ShiftOfNumbersSelects(a: nat, b: nat, p: Node -> bool)
    requires !p(NumNode(a)) && !p(NumLeaf(a)) && !p(NumNode(b)) && !p(NumLeaf(b))
    ensures var nn := Make(shift, [NumNode(a), NumNode(b)]);
            SelectAll(nn, p) == if p(nn) then [nn] else []
  {
    var ops := [NumNode(a), NumNode(b)];
    NumNodeSelects(a, p);
    NumNodeSelects(b, p);
    assert ops[1..] == [NumNode(b)];
    assert [NumNode(b)][1..] == [];
    assert SelectAllIn([NumNode(b)], p) == [];
    assert SelectAllIn(ops, p) == [];
  }

  /** The `changes` map for a shift of two numbers, the first not smaller: the shift goes to their difference. */
  lemma ShiftOfNumbersChanges(apply: Node -> Node, a: nat, b: nat)
    requires b <= a
    ensures var nn := Make(shift, [NumNode(a), NumNode(b)]);
            RewriteChanges(apply, nn) == Some(map[nn := NumNode(a - b)])
  {
    var nn := Make(shift, [NumNode(a), NumNode(b)]);
    FoldShiftOfNumbers(a, b);
    ShiftOfNumbersSelects(a, b, IsShift);
    ShiftOfNumbersSelects(a, b, IsCallback);
    assert CallbackMap(apply, nn) == map[];
    assert ShiftChanges(FoldShift, map[], [nn]) == map[nn := NumNode(a - b)];
  }

  /** The rewrite of a shift with two numbers, the first not smaller, is the `num` of their difference. */
  lemma ShiftRootFolded(apply: Node -> Node, matcher: Matcher, r: Rule, n: Node, a: nat, b: nat)
    requires matcher(r, n) == Make(shift, [NumNode(a), NumNode(b)])
    requires b <= a
    ensures ApplyOnce(apply, matcher, r, n) == NumNode(a - b)
  {
    var nn := matcher(r, n);
    ShiftOfNumbersChanges(apply, a, b);
    assert nn in map[nn := NumNode(a - b)];
  }

  /** `nso_rr_apply(r, n)` with its two loops filling one `changes` map. */
  method NsoRrApply(apply: Node -> Node, matcher: Matcher, r: Rule, n: Node) returns (res: Node)
    ensures res == ApplyOnce(apply, matcher, r, n)
  {
    var nn := matcher(r, n);
    var changes := map[];
    var cbs := SelectAll(nn, IsCallback);
    if cbs != [] {
      changes := CollectCallbacks(apply, cbs);
    }
    assert changes == CallbackMap(apply, nn);
    var ok;
    ok, changes := FoldShifts(FoldShift, changes, Shifts(nn));
    if !ok {
      return n;
    }
    if changes != map[] {
      return Replace(nn, changes);
    }
    return nn;
  }

  /** The shift loop: folds each shift into `changes`, and stops at the first underflow. */
  method FoldShifts(fold: Node -> ShiftFold, base: map<Node, Node>, shifts: seq<Node>) returns (ok: bool, changes: map<Node, Node>)
    ensures ok <==> !AnyUnderflow(fold, shifts)
    ensures ok ==> changes == ShiftChanges(fold, base, shifts)
  {
    changes := base;
    for i := 0 to |shifts|
      invariant forall j :: 0 <= j < i ==> !fold(shifts[j]).Underflow?
      invariant changes == ShiftChanges(fold, base, shifts[..i])
    {
      ShiftChangesStep(fold, base, shifts, i);
      var f := fold(shifts[i]);
      if f.Underflow? {
        return false, changes;
      }
      if f.Folded? {
        changes := changes[shifts[i] := NumNode(f.value)];
      }
    }
    assert shifts[..|shifts|] == shifts;
    return true, changes;
  }

  // ---------------------------------------------------------------------------
  // nso_rr_apply over a list of rules

  /** `nso_rr_apply(rs, n)`: each rule once, in order. */
  function ApplyAll(apply: Node -> Node, matcher: Matcher, rs: seq<Rule>, n: Node): (res: Node)
    ensures rs == [] ==> res == n
  {
    if rs == [] then n else ApplyAll(apply, matcher, rs[1..], ApplyOnce(apply, matcher, rs[0], n))
  }

  /** Running `rs + ts` runs `rs`, then `ts` on its result. */
  lemma {:induction false} ApplyAllOrder(apply: Node -> Node, matcher: Matcher, rs: seq<Rule>, ts: seq<Rule>, n: Node)
    ensures ApplyAll(apply, matcher, rs + ts, n) == ApplyAll(apply, matcher, ts, ApplyAll(apply, matcher, rs, n))
  {
    if rs == [] {
      assert rs + ts == ts;
    } else {
      assert (rs + ts)[1..] == rs[1..] + ts;
      ApplyAllOrder(apply, matcher, rs[1..], ts, ApplyOnce(apply, matcher, rs[0], n));
    }
  }

  /** `nso_rr_apply(rs, n)`: `for (auto& r : rs) nn = nso_rr_apply(r, nn)`. */
  method NsoRrApplyRules(apply: Node -> Node, matcher: Matcher, rs: seq<Rule>, n: Node) returns (res: Node)
    ensures res == ApplyAll(apply, matcher, rs, n)
  {
    if rs == [] {
      return n;
    }
    res := n;
    for i := 0 to |rs|
      invariant ApplyAll(apply, matcher, rs, n) == ApplyAll(apply, matcher, rs[i..], res)
    {
      assert rs[i..][1..] == rs[i + 1..];
      res := NsoRrApply(apply, matcher, rs[i], res);
    }
  }
}
