/**
 * The quantifier-removing callbacks of `callback_applier`
 * (src/nso_rr.h:1396-1478): `get_leaves`, the bounded and functional
 * quantifier removal that substitutes the two constants for the variable,
 * and `apply_wff_remove_existential`.
 */
module QuantifierElimination {
  import opened Wrappers
  import opened TauTree
  import opened Builders

  // ---------------------------------------------------------------------------
  // get_leaves

  /**
   * `get_leaves(n, branch, skip)`: below a node with a `branch` child, the
   * leaves of each `skip` child of that branch, in order; any other node is a
   * leaf itself.
   */
  function Leaves(n: Node, branch: Nt, skip: Nt): seq<Node>
    decreases Size(n), 0
  {
    var b := Child(n, branch);
    if b.None? then [n]
    else
      BranchIsSmaller(n, b.value, skip);
      LeavesAll(Children(b.value, skip), branch, skip)
  }

  function LeavesAll(s: seq<Node>, branch: Nt, skip: Nt): seq<Node>
    decreases SizeAll(s), 1
  {
    if s == [] then [] else Leaves(s[0], branch, skip) + LeavesAll(s[1..], branch, skip)
  }

  /** The `skip` children of a child of `n` weigh less than `n`. */
  lemma BranchIsSmaller(n: Node, b: Node, skip: Nt)
    requires b in n.children
    ensures SizeAll(Children(b, skip)) < Size(n)
  {
    var i :| 0 <= i < |n.children| && n.children[i] == b;
    SizeOfChild(n, i);
    SizeOfFilter(b.children, skip);
  }

  /** The recursion of `get_leaves`, pushing onto the vector it is given. */
  method CollectLeaves(n: Node, branch: Nt, skip: Nt, leaves: seq<Node>) returns (out: seq<Node>)
    ensures out == leaves + Leaves(n, branch, skip)
    decreases Size(n), 0
  {
    var b := Child(n, branch);
    if b.None? {
      return leaves + [n];
    }
    var cs := Children(b.value, skip);
    BranchIsSmaller(n, b.value, skip);
    out := CollectLeavesAll(cs, branch, skip, leaves);
  }

  /** The loop of `get_leaves` over the `skip` children of the branch. */
  method CollectLeavesAll(cs: seq<Node>, branch: Nt, skip: Nt, leaves: seq<Node>) returns (out: seq<Node>)
    ensures out == leaves + LeavesAll(cs, branch, skip)
    decreases SizeAll(cs), 1
  {
    out := leaves;
    assert cs[0..] == cs;
    var i := 0;
    while i < |cs|
      invariant 0 <= i <= |cs|
      invariant out + LeavesAll(cs[i..], branch, skip) == leaves + LeavesAll(cs, branch, skip)
    {
      LeavesAllStep(cs, i, branch, skip);
      SizeOfElement(cs, i);
      ghost var before := out;
      out := CollectLeaves(cs[i], branch, skip, out);
      assert out + LeavesAll(cs[i + 1..], branch, skip) == before + LeavesAll(cs[i..], branch, skip);
      i := i + 1;
    }
    assert cs[i..] == [];
  }

  /** The leaves of a suffix are those of its head followed by those of the rest. */
  lemma LeavesAllStep(cs: seq<Node>, i: nat, branch: Nt, skip: Nt)
    requires i < |cs|
    ensures LeavesAll(cs[i..], branch, skip) == Leaves(cs[i], branch, skip) + LeavesAll(cs[i + 1..], branch, skip)
  {
    assert cs[i..][0] == cs[i] && cs[i..][1..] == cs[i + 1..];
  }

  /** Every leaf is a subtree of `n` without a `branch` child. */
  lemma {:induction false} LeavesSound(n: Node, branch: Nt, skip: Nt)
    ensures forall l :: l in Leaves(n, branch, skip) ==> Occurs(l, n) && Child(l, branch).None?
    decreases Size(n), 0
  {
    var b := Child(n, branch);
    if b.Some? {
      var cs := Children(b.value, skip);
      BranchIsSmaller(n, b.value, skip);
      LeavesAllSound(cs, branch, skip);
      FilterMembers(b.value.children, skip);
      forall l | l in Leaves(n, branch, skip)
        ensures Occurs(l, n)
      {
        var i :| 0 <= i < |cs| && Occurs(l, cs[i]);
        assert cs[i] in b.value.children;
        var j :| 0 <= j < |b.value.children| && b.value.children[j] == cs[i];
        assert Occurs(l, b.value);
        var k :| 0 <= k < |n.children| && n.children[k] == b.value;
      }
    }
  }

  lemma {:induction false} LeavesAllSound(s: seq<Node>, branch: Nt, skip: Nt)
    ensures forall l :: l in LeavesAll(s, branch, skip) ==>
              Child(l, branch).None? && exists i :: 0 <= i < |s| && Occurs(l, s[i])
    decreases SizeAll(s), 1
  {
    if s != [] {
      LeavesSound(s[0], branch, skip);
      LeavesAllSound(s[1..], branch, skip);
      forall l | l in LeavesAll(s[1..], branch, skip)
        ensures exists i :: 0 <= i < |s| && Occurs(l, s[i])
      {
        var i :| 0 <= i < |s[1..]| && Occurs(l, s[1..][i]);
        assert s[1..][i] == s[i + 1];
      }
    }
  }

  /** A node without a `branch` child is its own only leaf. */
  lemma LeafOfItself(n: Node, branch: Nt, skip: Nt)
    requires Child(n, branch).None?
    ensures Leaves(n, branch, skip) == [n]
  {
  }

  // ---------------------------------------------------------------------------
  // Bounded and functional quantifier removal

  /**
   * `get_quantifier_remove_constituents(arg, n)` with arguments
   * `[v, f, T, F]`: `f` with `v` replaced by `T`, and `f` with `v` replaced
   * by `F`. `None` for a node with fewer than four arguments.
   */
  function Constituents(arg: Nt, n: Node): (r: Option<(Node, Node)>)
    ensures |CallbackArgs(n, arg)| < 4 <==> r.None?
  {
    var args := CallbackArgs(n, arg);
    if |args| < 4 then None
    else Some((Replace(args[1], map[args[0] := args[2]]), Replace(args[1], map[args[0] := args[3]])))
  }

  /** Both sides of a removal can be trimmed by the builders. */
  predicate Trimmable(c: Option<(Node, Node)>)
  {
    c.Some? && |c.value.0.children| > 0 && |c.value.1.children| > 0
  }

  /** `apply_wff_remove_buniversal`: `f[v := T] && f[v := F]`. */
  function RemoveBUniversal(n: Node): (r: Node)
    ensures |CallbackArgs(n, wff_cb_arg)| < 4 ==> r == n
    ensures r == n || Wrapped(wff, r)
  {
    var c := Constituents(wff_cb_arg, n);
    if !Trimmable(c) then n else BuildWffAnd(c.value.0, c.value.1)
  }

  /** `apply_wff_remove_bexistential`: `f[v := T] || f[v := F]`. */
  function RemoveBExistential(n: Node): (r: Node)
    ensures |CallbackArgs(n, wff_cb_arg)| < 4 ==> r == n
    ensures r == n || Wrapped(wff, r)
  {
    var c := Constituents(wff_cb_arg, n);
    if !Trimmable(c) then n else BuildWffOr(c.value.0, c.value.1)
  }

  /** `apply_bf_remove_funiversal`: `f[v := 1] & f[v := 0]`. */
  function RemoveFUniversal(n: Node): (r: Node)
    ensures |CallbackArgs(n, bf_cb_arg)| < 4 ==> r == n
    ensures r == n || Wrapped(bf, r)
  {
    var c := Constituents(bf_cb_arg, n);
    if !Trimmable(c) then n else BuildBfAnd(c.value.0, c.value.1)
  }

  /** `apply_bf_remove_fexistential`: `f[v := 1] | f[v := 0]`. */
  function RemoveFExistential(n: Node): (r: Node)
    ensures |CallbackArgs(n, bf_cb_arg)| < 4 ==> r == n
    ensures r == n || Wrapped(bf, r)
  {
    var c := Constituents(bf_cb_arg, n);
    if !Trimmable(c) then n else BuildBfOr(c.value.0, c.value.1)
  }

  /** A wrapped formula that is not the variable stays wrapped after the substitution. */
  lemma SubstitutionKeepsWrapper(nt: Nt, f: Node, v: Node, t: Node)
    requires Wrapped(nt, f) && f != v
    ensures Replace(f, map[v := t]) == Make(nt, [Replace(Trim(f), map[v := t])])
    ensures Wrapped(nt, Replace(f, map[v := t]))
  {
    Unwrap(nt, f);
  }

  /** The callback node `cb v f t e` with every argument under `arg`. */
  function QuantifierCallback(cb: Nt, arg: Nt, v: Node, f: Node, t: Node, e: Node): Node
  {
    Make(cb, WrapEach(arg, [v, f, t, e]))
  }

  lemma ArgumentsOf(cb: Nt, arg: Nt, v: Node, f: Node, t: Node, e: Node)
    requires arg == wff_cb_arg || arg == bf_cb_arg
    ensures CallbackArgs(QuantifierCallback(cb, arg, v, f, t, e), arg) == [v, f, t, e]
  {
    var other := if arg == wff_cb_arg then bf_cb_arg else wff_cb_arg;
    CallbackArgsOf(cb, arg, [v, f, t, e], other, []);
    assert WrapEach(arg, [v, f, t, e]) + WrapEach(other, []) == WrapEach(arg, [v, f, t, e]);
  }

  /**
   * Removing a Boolean universal (existential) quantifier over `v` from a
   * wrapped formula `f` gives the conjunction (disjunction) of the formula
   * with `v` set to `T` and with `v` set to `F`, left side first.
   */
  lemma BooleanRemovalShape(n: Node, v: Node, f: Node, t: Node, e: Node)
    requires Wrapped(wff, f) && f != v
    requires CallbackArgs(n, wff_cb_arg) == [v, f, t, e]
    ensures RemoveBUniversal(n) == Make(wff, [Make(wff_and, [Replace(f, map[v := t]), Replace(f, map[v := e])])])
    ensures RemoveBExistential(n) == Make(wff, [Make(wff_or, [Replace(f, map[v := t]), Replace(f, map[v := e])])])
  {
    var l, r := Replace(f, map[v := t]), Replace(f, map[v := e]);
    SubstitutionKeepsWrapper(wff, f, v, t);
    SubstitutionKeepsWrapper(wff, f, v, e);
    WffShapes(l, r);
  }

  /** The truth value of the removal is the conjunction (disjunction) of the two instances. */
  lemma BooleanRemovalMeaning(n: Node, v: Node, f: Node, t: Node, e: Node, val: Node -> bool)
    requires Wrapped(wff, f) && f != v
    requires CallbackArgs(n, wff_cb_arg) == [v, f, t, e]
    ensures Eval(WffFamily, RemoveBUniversal(n), val)
            == (Eval(WffFamily, Replace(f, map[v := t]), val) && Eval(WffFamily, Replace(f, map[v := e]), val))
    ensures Eval(WffFamily, RemoveBExistential(n), val)
            == (Eval(WffFamily, Replace(f, map[v := t]), val) || Eval(WffFamily, Replace(f, map[v := e]), val))
  {
    var l, r := Replace(f, map[v := t]), Replace(f, map[v := e]);
    BooleanRemovalShape(n, v, f, t, e);
    EvalSteps(WffFamily, l, r, val);
    EvalSteps(WffFamily, Make(wff_and, [l, r]), r, val);
    EvalSteps(WffFamily, Make(wff_or, [l, r]), r, val);
  }

  /**
   * Removing a functional universal (existential) quantifier over `v` from a
   * wrapped term `f` gives the bf `&` (`|`) of the term with `v` set to the
   * first constant and with `v` set to the second, left side first.
   */
  lemma FunctionalRemovalShape(n: Node, v: Node, f: Node, one: Node, zero: Node)
    requires Wrapped(bf, f) && f != v
    requires CallbackArgs(n, bf_cb_arg) == [v, f, one, zero]
    ensures RemoveFUniversal(n) == Make(bf, [Make(bf_and, [Replace(f, map[v := one]), Replace(f, map[v := zero])])])
    ensures RemoveFExistential(n) == Make(bf, [Make(bf_or, [Replace(f, map[v := one]), Replace(f, map[v := zero])])])
  {
    var l, r := Replace(f, map[v := one]), Replace(f, map[v := zero]);
    SubstitutionKeepsWrapper(bf, f, v, one);
    SubstitutionKeepsWrapper(bf, f, v, zero);
    BfShapes(l, r);
  }

  // ---------------------------------------------------------------------------
  // remove_existential

  predicate IsBfEq(n: Node)
  {
    IsNonTerminal(bf_eq, n)
  }

  predicate IsBfNeq(n: Node)
  {
    IsNonTerminal(bf_neq, n)
  }

  /**
   * The new form of a disequation `g != 0`: `ex v g' != 0` with `g' = g` or,
   * when the leaf has an equation, `g' = g[v := v + f]`. `None` where the
   * source throws or trims an empty node.
   */
  function NeqImage(neq: Node, v: Node, sub: Option<Node>): Option<Node>
  {
    var g := Child(neq, bf);
    if g.None? then None
    else
      var ngi := if sub.Some? then Replace(g.value, map[v := sub.value]) else g.value;
      if |ngi.children| == 0 then None
      else Child(BuildWffNeq(BuildBfEx(v, ngi)), bf_neq)
  }

  /**
   * The new form of an equation `f = 0`, `all v f = 0`, and the term `v + f`
   * the disequations are rewritten with.
   */
  function EqImage(eq: Node, v: Node): Option<(Node, Node)>
  {
    var f := Child(eq, bf);
    if f.None? || |f.value.children| == 0 then None
    else
      var e := Child(BuildWffEq(BuildBfAll(v, f.value)), bf_eq);
      var xf := OnlyChild(BuildBfXor(Wrap(bf, v), f.value));
      if e.None? || xf.None? then None else Some((e.value, xf.value))
  }

  /** The inner loop: every disequation of `neqs` gets its new form. */
  function NeqChanges(changes: map<Node, Node>, neqs: seq<Node>, v: Node, sub: Option<Node>): Option<map<Node, Node>>
    decreases |neqs|
  {
    if neqs == [] then Some(changes)
    else
      var prev := NeqChanges(changes, neqs[..|neqs| - 1], v, sub);
      var img := NeqImage(neqs[|neqs| - 1], v, sub);
      if prev.None? || img.None? then None
      else Some(prev.value[neqs[|neqs| - 1] := img.value])
  }

  /** The substitution a leaf gives the disequations: `v + f` for its top-most equation `f = 0`. */
  function LeafChanges(changes: map<Node, Node>, leaf: Node, v: Node, neqs: seq<Node>): Option<map<Node, Node>>
  {
    var eq := FindTop(leaf, IsBfEq);
    if eq.None? then NeqChanges(changes, neqs, v, None)
    else
      var img := EqImage(eq.value, v);
      if img.None? then None
      else NeqChanges(changes[eq.value := img.value.0], neqs, v, Some(img.value.1))
  }

  /** The outer loop over the leaves, in order. */
  function AllLeafChanges(leaves: seq<Node>, v: Node, neqs: seq<Node>): Option<map<Node, Node>>
    decreases |leaves|
  {
    if leaves == [] then Some(map[])
    else
      var prev := AllLeafChanges(leaves[..|leaves| - 1], v, neqs);
      if prev.None? then None else LeafChanges(prev.value, leaves[|leaves| - 1], v, neqs)
  }

  /**
   * `apply_wff_remove_existential` with arguments `[v', f]`, `v` the only
   * child of `v'`: the changes gathered over the disjuncts of `f` applied to
   * `f`. As written, every disjunct rewrites every disequation of the whole
   * callback node, not only its own. A malformed node is returned as it is.
   */
  function RemoveExistential(n: Node): (r: Node)
    ensures |CallbackArgs(n, wff_cb_arg)| < 2 ==> r == n
    ensures |CallbackArgs(n, wff_cb_arg)| >= 2 && OnlyChild(CallbackArgs(n, wff_cb_arg)[0]).None? ==> r == n
    ensures r == n || exists m :: r == Replace(CallbackArgs(n, wff_cb_arg)[1], m)
  {
    var args := CallbackArgs(n, wff_cb_arg);
    if |args| < 2 then n
    else
      var v := OnlyChild(args[0]);
      if v.None? then n
      else
        var changes := AllLeafChanges(Leaves(args[1], wff_or, wff), v.value, SelectAll(n, IsBfNeq));
        if changes.None? then n
        else
          var r := Replace(args[1], changes.value);
          assert r == Replace(CallbackArgs(n, wff_cb_arg)[1], changes.value);
          r
  }

  lemma {:induction false} NeqChangesFail(changes: map<Node, Node>, neqs: seq<Node>, v: Node, sub: Option<Node>, k: int)
    requires 0 <= k <= |neqs|
    requires NeqChanges(changes, neqs[..k], v, sub).None?
    ensures NeqChanges(changes, neqs, v, sub).None?
    decreases |neqs| - k
  {
    if k == |neqs| {
      assert neqs[..k] == neqs;
    } else {
      var init := neqs[..|neqs| - 1];
      assert init[..k] == neqs[..k];
      NeqChangesFail(changes, init, v, sub, k);
    }
  }

  lemma {:induction false} AllLeafChangesFail(leaves: seq<Node>, v: Node, neqs: seq<Node>, k: int)
    requires 0 <= k <= |leaves|
    requires AllLeafChanges(leaves[..k], v, neqs).None?
    ensures AllLeafChanges(leaves, v, neqs).None?
    decreases |leaves| - k
  {
    if k == |leaves| {
      assert leaves[..k] == leaves;
    } else {
      var init := leaves[..|leaves| - 1];
      assert init[..k] == leaves[..k];
      AllLeafChangesFail(init, v, neqs, k);
    }
  }

  /** One more disequation: its new form is added, or the scan throws. */
  lemma NeqChangesStep(changes: map<Node, Node>, neqs: seq<Node>, v: Node, sub: Option<Node>, j: int)
    requires 0 <= j < |neqs|
    ensures var prev := NeqChanges(changes, neqs[..j], v, sub);
            var img := NeqImage(neqs[j], v, sub);
            NeqChanges(changes, neqs[..j + 1], v, sub) ==
              if prev.None? || img.None? then None else Some(prev.value[neqs[j] := img.value])
  {
    var pre := neqs[..j + 1];
    assert pre[..|pre| - 1] == neqs[..j] && pre[|pre| - 1] == neqs[j];
  }

  /** The inner loop of the source, over the disequations of the node. */
  method RewriteDisequations(changes: map<Node, Node>, neqs: seq<Node>, v: Node, sub: Option<Node>)
    returns (out: Option<map<Node, Node>>)
    ensures out == NeqChanges(changes, neqs, v, sub)
  {
    var wffChanges := changes;
    var j := 0;
    while j < |neqs|
      invariant 0 <= j <= |neqs|
      invariant NeqChanges(changes, neqs[..j], v, sub) == Some(wffChanges)
    {
      var neq := neqs[j];
      NeqChangesStep(changes, neqs, v, sub, j);
      var wffNeq := NeqImage(neq, v, sub);
      if wffNeq.None? {
        NeqChangesFail(changes, neqs, v, sub, j + 1);
        return None;
      }
      wffChanges := wffChanges[neq := wffNeq.value];
      j := j + 1;
    }
    assert neqs[..j] == neqs;
    return Some(wffChanges);
  }

  /** The body of the loop over the leaves: the leaf's top-most equation, then every disequation. */
  method RewriteLeaf(changes: map<Node, Node>, l: Node, v: Node, neqs: seq<Node>) returns (out: Option<map<Node, Node>>)
    ensures out == LeafChanges(changes, l, v, neqs)
  {
    var checkEq := FindTop(l, IsBfEq);
    if checkEq.Some? {
      var img := EqImage(checkEq.value, v);
      if img.None? {
        return None;
      }
      var wffChanges := changes[checkEq.value := img.value.0];
      out := RewriteDisequations(wffChanges, neqs, v, Some(img.value.1));
    } else {
      out := RewriteDisequations(changes, neqs, v, None);
    }
  }

  /** `apply_wff_remove_existential` as the source runs it: a loop over the leaves around the loop above. */
  method RemoveExistentialLoop(n: Node) returns (r: Node)
    ensures r == RemoveExistential(n)
  {
    var args := CallbackArgs(n, wff_cb_arg);
    if |args| < 2 {
      return n;
    }
    var v := OnlyChild(args[0]);
    if v.None? {
      return n;
    }
    var f := args[1];
    var leaves := CollectLeaves(f, wff_or, wff, []);
    assert leaves == Leaves(f, wff_or, wff);
    var neqs := SelectAll(n, IsBfNeq);
    var wffChanges: map<Node, Node> := map[];
    var i := 0;
    while i < |leaves|
      invariant 0 <= i <= |leaves|
      invariant AllLeafChanges(leaves[..i], v.value, neqs) == Some(wffChanges)
    {
      var l := leaves[i];
      assert leaves[..i + 1][..i] == leaves[..i] && leaves[..i + 1][i] == l;
      var next := RewriteLeaf(wffChanges, l, v.value, neqs);
      if next.None? {
        AllLeafChangesFail(leaves, v.value, neqs, i + 1);
        return n;
      }
      wffChanges := next.value;
      i := i + 1;
    }
    assert leaves[..i] == leaves;
    return Replace(f, wffChanges);
  }

  /** Every disequation ends up with its new form under the given substitution. */
  lemma {:induction false} NeqChangesResult(changes: map<Node, Node>, neqs: seq<Node>, v: Node, sub: Option<Node>)
    requires NeqChanges(changes, neqs, v, sub).Some?
    ensures var m := NeqChanges(changes, neqs, v, sub).value;
            (forall x :: x in m <==> x in changes || x in neqs) &&
            (forall x :: x in neqs ==> NeqImage(x, v, sub).Some? && m[x] == NeqImage(x, v, sub).value) &&
            (forall x :: x in changes && x !in neqs ==> m[x] == changes[x])
    decreases |neqs|
  {
    if neqs != [] {
      var init, last := neqs[..|neqs| - 1], neqs[|neqs| - 1];
      assert NeqChanges(changes, init, v, sub).Some? && NeqImage(last, v, sub).Some?;
      var prev, img := NeqChanges(changes, init, v, sub).value, NeqImage(last, v, sub).value;
      assert NeqChanges(changes, neqs, v, sub).value == prev[last := img];
      NeqChangesResult(changes, init, v, sub);
      assert forall x :: x in neqs <==> x in init || x == last;
    }
  }

  /** The substitution the last leaf passes to the disequations. */
  function LeafSubstitution(leaf: Node, v: Node): Option<Node>
  {
    var eq := FindTop(leaf, IsBfEq);
    if eq.None? || EqImage(eq.value, v).None? then None else Some(EqImage(eq.value, v).value.1)
  }

  /**
   * As written, each leaf rewrites every disequation of the callback node, so
   * the form a disequation ends up with is decided by the last leaf alone,
   * whichever disjunct the disequation belongs to.
   */
  lemma LastLeafDecides(leaves: seq<Node>, v: Node, neqs: seq<Node>)
    requires leaves != []
    requires AllLeafChanges(leaves, v, neqs).Some?
    ensures var m := AllLeafChanges(leaves, v, neqs).value;
            var sub := LeafSubstitution(leaves[|leaves| - 1], v);
            forall x :: x in neqs ==> x in m && NeqImage(x, v, sub).Some? && m[x] == NeqImage(x, v, sub).value
  {
    var prev := AllLeafChanges(leaves[..|leaves| - 1], v, neqs).value;
    var last := leaves[|leaves| - 1];
    var eq := FindTop(last, IsBfEq);
    if eq.None? {
      NeqChangesResult(prev, neqs, v, None);
    } else {
      var img := EqImage(eq.value, v).value;
      NeqChangesResult(prev[eq.value := img.0], neqs, v, Some(img.1));
    }
  }

  /** One round of the outer loop is the inner loop, from the map with the leaf's equation added. */
  lemma LeafChangesCases(changes: map<Node, Node>, leaf: Node, v: Node, neqs: seq<Node>)
    returns (start: map<Node, Node>, sub: Option<Node>)
    requires LeafChanges(changes, leaf, v, neqs).Some?
    ensures LeafChanges(changes, leaf, v, neqs) == NeqChanges(start, neqs, v, sub)
    ensures FindTop(leaf, IsBfEq).None? ==> start == changes
    ensures FindTop(leaf, IsBfEq).Some? ==>
              var eq := FindTop(leaf, IsBfEq).value;
              EqImage(eq, v).Some? && start == changes[eq := EqImage(eq, v).value.0]
  {
    var eq := FindTop(leaf, IsBfEq);
    if eq.None? {
      start, sub := changes, None;
    } else {
      start, sub := changes[eq.value := EqImage(eq.value, v).value.0], Some(EqImage(eq.value, v).value.1);
    }
  }

  /**
   * The keys of the outer loop's change map: the disequations and the
   * top-most equations of the leaves, and nothing else.
   */
  lemma {:induction false} AllLeafChangesKeys(leaves: seq<Node>, v: Node, neqs: seq<Node>)
    requires AllLeafChanges(leaves, v, neqs).Some?
    ensures var m := AllLeafChanges(leaves, v, neqs).value;
            forall x :: x in m ==> x in neqs || exists i :: 0 <= i < |leaves| && FindTop(leaves[i], IsBfEq) == Some(x)
    decreases |leaves|
  {
    if leaves != [] {
      var init, last := leaves[..|leaves| - 1], leaves[|leaves| - 1];
      var prev := AllLeafChanges(init, v, neqs).value;
      AllLeafChangesKeys(init, v, neqs);
      assert AllLeafChanges(leaves, v, neqs) == LeafChanges(prev, last, v, neqs);
      var start, sub := LeafChangesCases(prev, last, v, neqs);
      NeqChangesResult(start, neqs, v, sub);
      var m := AllLeafChanges(leaves, v, neqs).value;
      forall x | x in m && x !in neqs
        ensures exists i :: 0 <= i < |leaves| && FindTop(leaves[i], IsBfEq) == Some(x)
      {
        if x in prev {
          var i :| 0 <= i < |init| && FindTop(init[i], IsBfEq) == Some(x);
          assert leaves[i] == init[i];
        } else {
          assert FindTop(leaves[|leaves| - 1], IsBfEq) == Some(x);
        }
      }
    }
  }

  /**
   * Every leaf's top-most equation `f = 0` is sent to `all v f = 0`. A later
   * leaf with the same equation writes the same value, and the disequations
   * are other nodes, so no leaf's equation is lost.
   */
  lemma AllLeafChangesEquations(leaves: seq<Node>, v: Node, neqs: seq<Node>)
    requires AllLeafChanges(leaves, v, neqs).Some?
    requires forall x :: x in neqs ==> IsBfNeq(x)
    ensures var m := AllLeafChanges(leaves, v, neqs).value;
            forall i :: 0 <= i < |leaves| && FindTop(leaves[i], IsBfEq).Some? ==>
              var eq := FindTop(leaves[i], IsBfEq).value;
              EqImage(eq, v).Some? && eq in m && m[eq] == EqImage(eq, v).value.0
  {
    forall i | 0 <= i < |leaves| && FindTop(leaves[i], IsBfEq).Some? {
      LeafEquationKept(leaves, v, neqs, i);
    }
  }

  lemma {:induction false} LeafEquationKept(leaves: seq<Node>, v: Node, neqs: seq<Node>, i: int)
    requires AllLeafChanges(leaves, v, neqs).Some?
    requires forall x :: x in neqs ==> IsBfNeq(x)
    requires 0 <= i < |leaves| && FindTop(leaves[i], IsBfEq).Some?
    ensures var eq := FindTop(leaves[i], IsBfEq).value;
            var m := AllLeafChanges(leaves, v, neqs).value;
            EqImage(eq, v).Some? && eq in m && m[eq] == EqImage(eq, v).value.0
    decreases |leaves|
  {
    var init := leaves[..|leaves| - 1];
    var e := FindTop(leaves[i], IsBfEq).value;
    if i < |init| {
      assert leaves[i] == init[i];
      LeafEquationKept(init, v, neqs, i);
      var prev := AllLeafChanges(init, v, neqs).value;
      assert AllLeafChanges(leaves, v, neqs) == LeafChanges(prev, leaves[|leaves| - 1], v, neqs);
      LeafChangesKeepEquation(prev, leaves[|leaves| - 1], v, neqs, e);
    } else {
      LastLeafEquation(leaves, v, neqs);
    }
  }

  /** The last leaf's own equation is written by its round. */
  lemma LastLeafEquation(leaves: seq<Node>, v: Node, neqs: seq<Node>)
    requires AllLeafChanges(leaves, v, neqs).Some?
    requires forall x :: x in neqs ==> IsBfNeq(x)
    requires leaves != [] && FindTop(leaves[|leaves| - 1], IsBfEq).Some?
    ensures var eq := FindTop(leaves[|leaves| - 1], IsBfEq).value;
            var m := AllLeafChanges(leaves, v, neqs).value;
            EqImage(eq, v).Some? && eq in m && m[eq] == EqImage(eq, v).value.0
  {
    var init, last := leaves[..|leaves| - 1], leaves[|leaves| - 1];
    var prev := AllLeafChanges(init, v, neqs).value;
    var e := FindTop(last, IsBfEq).value;
    assert AllLeafChanges(leaves, v, neqs) == LeafChanges(prev, last, v, neqs);
    var start, sub := LeafChangesCases(prev, last, v, neqs);
    assert IsBfEq(e) && !IsBfNeq(e);
    NeqChangesKeeps(start, neqs, v, sub, e);
  }

  /** An equation written by an earlier round keeps its value through the next leaf's round. */
  lemma LeafChangesKeepEquation(prev: map<Node, Node>, last: Node, v: Node, neqs: seq<Node>, e: Node)
    requires LeafChanges(prev, last, v, neqs).Some?
    requires forall x :: x in neqs ==> IsBfNeq(x)
    requires IsBfEq(e) && EqImage(e, v).Some?
    requires e in prev && prev[e] == EqImage(e, v).value.0
    ensures e in LeafChanges(prev, last, v, neqs).value
    ensures LeafChanges(prev, last, v, neqs).value[e] == EqImage(e, v).value.0
  {
    var start, sub := LeafChangesCases(prev, last, v, neqs);
    assert e in start && start[e] == prev[e];
    assert !IsBfNeq(e);
    NeqChangesKeeps(start, neqs, v, sub, e);
  }

  /** The inner loop keeps every entry whose key is not a disequation. */
  lemma NeqChangesKeeps(changes: map<Node, Node>, neqs: seq<Node>, v: Node, sub: Option<Node>, k: Node)
    requires NeqChanges(changes, neqs, v, sub).Some?
    requires k in changes && k !in neqs
    ensures k in NeqChanges(changes, neqs, v, sub).value
    ensures NeqChanges(changes, neqs, v, sub).value[k] == changes[k]
  {
    NeqChangesResult(changes, neqs, v, sub);
  }

  /**
   * The change map of `remove_existential` over the disjuncts `leaves`: its
   * keys are the disequations and the disjuncts' top-most equations and
   * nothing else, every such equation `f = 0` goes to `all v f = 0`, and
   * every disequation goes to the form the last disjunct gives it.
   */
  ghost predicate ExistentialChanges(m: map<Node, Node>, leaves: seq<Node>, v: Node, neqs: seq<Node>)
  {
    (forall x :: x in m ==> x in neqs || exists i :: 0 <= i < |leaves| && FindTop(leaves[i], IsBfEq) == Some(x)) &&
    (forall i :: 0 <= i < |leaves| && FindTop(leaves[i], IsBfEq).Some? ==>
       var eq := FindTop(leaves[i], IsBfEq).value;
       EqImage(eq, v).Some? && eq in m && m[eq] == EqImage(eq, v).value.0) &&
    (leaves != [] ==>
       forall x :: x in neqs ==>
         var img := NeqImage(x, v, LeafSubstitution(leaves[|leaves| - 1], v));
         x in m && img.Some? && m[x] == img.value)
  }

  /** The outer loop, when no disjunct throws, builds exactly such a map. */
  lemma AllLeafChangesMeaning(leaves: seq<Node>, v: Node, neqs: seq<Node>)
    requires AllLeafChanges(leaves, v, neqs).Some?
    requires forall x :: x in neqs ==> IsBfNeq(x)
    ensures ExistentialChanges(AllLeafChanges(leaves, v, neqs).value, leaves, v, neqs)
  {
    AllLeafChangesKeys(leaves, v, neqs);
    AllLeafChangesEquations(leaves, v, neqs);
    if leaves != [] {
      LastLeafDecides(leaves, v, neqs);
    }
  }

  /**
   * `apply_wff_remove_existential` on a node with a variable and a formula:
   * the node itself when a disjunct throws, and otherwise the formula with
   * each disjunct's top-most equation `f = 0` replaced by `all v f = 0`,
   * each disequation by the form the last disjunct gives it, and nothing else.
   */
  lemma RemoveExistentialMeaning(n: Node)
    requires |CallbackArgs(n, wff_cb_arg)| >= 2 && OnlyChild(CallbackArgs(n, wff_cb_arg)[0]).Some?
    ensures var args := CallbackArgs(n, wff_cb_arg);
            var leaves, v := Leaves(args[1], wff_or, wff), OnlyChild(args[0]).value;
            var changes := AllLeafChanges(leaves, v, SelectAll(n, IsBfNeq));
            (changes.None? ==> RemoveExistential(n) == n) &&
            (changes.Some? ==> exists m :: RemoveExistential(n) == Replace(args[1], m) && ExistentialChanges(m, leaves, v, SelectAll(n, IsBfNeq)))
  {
    var args := CallbackArgs(n, wff_cb_arg);
    var leaves, v := Leaves(args[1], wff_or, wff), OnlyChild(args[0]).value;
    var changes := AllLeafChanges(leaves, v, SelectAll(n, IsBfNeq));
    if changes.Some? {
      SelectAllMembers(n, IsBfNeq);
      AllLeafChangesMeaning(leaves, v, SelectAll(n, IsBfNeq));
      assert RemoveExistential(n) == Replace(args[1], changes.value);
    }
  }

  /**
   * A formula without equations under a callback node without disequations
   * comes back unchanged.
   */
  lemma RemoveExistentialNoConstraints(n: Node)
    requires |CallbackArgs(n, wff_cb_arg)| >= 2 && OnlyChild(CallbackArgs(n, wff_cb_arg)[0]).Some?
    requires SelectAll(n, IsBfNeq) == []
    requires forall x :: Occurs(x, CallbackArgs(n, wff_cb_arg)[1]) ==> !IsBfEq(x)
    ensures RemoveExistential(n) == CallbackArgs(n, wff_cb_arg)[1]
  {
    var args := CallbackArgs(n, wff_cb_arg);
    var v := OnlyChild(args[0]).value;
    var leaves := Leaves(args[1], wff_or, wff);
    LeavesSound(args[1], wff_or, wff);
    NoEquationsNoChanges(leaves, v, args[1]);
    ReplaceNothing(args[1]);
  }

  lemma {:induction false} NoEquationsNoChanges(leaves: seq<Node>, v: Node, f: Node)
    requires forall l :: l in leaves ==> Occurs(l, f)
    requires forall x :: Occurs(x, f) ==> !IsBfEq(x)
    ensures AllLeafChanges(leaves, v, []) == Some(map[])
    decreases |leaves|
  {
    if leaves != [] {
      var last := leaves[|leaves| - 1];
      NoEquationsNoChanges(leaves[..|leaves| - 1], v, f);
      OccursTransitive(last, f);
      assert FindTop(last, IsBfEq).None?;
    }
  }

  /** A subtree of a subtree is a subtree. */
  lemma OccursTransitive(l: Node, f: Node)
    requires Occurs(l, f)
    ensures forall x :: Occurs(x, l) ==> Occurs(x, f)
  {
    forall x | Occurs(x, l) ensures Occurs(x, f) {
      OccursTrans(x, l, f);
    }
  }

  lemma {:induction false} OccursTrans(x: Node, l: Node, f: Node)
    requires Occurs(x, l) && Occurs(l, f)
    ensures Occurs(x, f)
    decreases f
  {
    if l != f {
      var i :| 0 <= i < |f.children| && Occurs(l, f.children[i]);
      OccursTrans(x, l, f.children[i]);
    }
  }
}
