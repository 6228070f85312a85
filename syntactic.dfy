/**
 * The syntactic callbacks of `callback_applier` (src/nso_rr.h:1481-1519):
 * `has_subformula`, the clashing-subformulas check over the conjunctions of
 * a formula, and the structural comparison `are_equal`.
 */
module SyntacticChecks {
  import opened Wrappers
  import opened TauTree

  /** `all`: the predicate every node satisfies. */
  predicate All(n: Node)
  {
    true
  }

  // ---------------------------------------------------------------------------
  // has_subformula

  /**
   * `apply_has_subformula_check(n, arg)` with arguments `[f, s, r]`: `r` when
   * `s` is a subtree of `f`, otherwise `f`. With exactly two arguments `[f, s]`
   * the search still runs and an absent `s` gives `f`; a present `s` would
   * read a third argument that does not exist, and the model then returns the
   * node as it is, as it does for a node with fewer than two arguments.
   */
  function HasSubformula(n: Node, arg: Nt): (r: Node)
    ensures |CallbackArgs(n, arg)| < 2 ==> r == n
    ensures |CallbackArgs(n, arg)| == 2 ==>
              var args := CallbackArgs(n, arg);
              r == if Occurs(args[1], args[0]) then n else args[0]
    ensures |CallbackArgs(n, arg)| >= 3 ==>
              var args := CallbackArgs(n, arg);
              r == if Occurs(args[1], args[0]) then args[2] else args[0]
  {
    var args := CallbackArgs(n, arg);
    if |args| < 2 then n
    else
      SelectAllMembers(args[0], All);
      if args[1] in SelectAll(args[0], All) then (if |args| < 3 then n else args[2])
      else args[0]
  }

  // ---------------------------------------------------------------------------
  // has_clashing_subformulas

  /** The positive and negative literals gathered so far, each in the order found. */
  datatype Literals = Literals(positives: seq<Node>, negatives: seq<Node>)

  /** A child of a conjunction that holds a literal: a `wff` node not wrapping another conjunction. */
  predicate HoldsLiteral(c: Node)
  {
    Child(c, wff_and).None? && IsNonTerminal(wff, c)
  }

  /** A literal goes with the negatives when it is a `wff_neg` node, otherwise with the positives. */
  function AddLiteral(ls: Literals, cc: Node): Literals
  {
    if IsNonTerminal(wff_neg, cc) then ls.(negatives := ls.negatives + [cc])
    else ls.(positives := ls.positives + [cc])
  }

  /**
   * The literals the children `cs` of one conjunction add to `ls`; `None` where
   * a literal holder has no only child (the source's `optional_value_extractor`
   * throws there).
   */
  function ConjunctLiterals(ls: Literals, cs: seq<Node>): Option<Literals>
    decreases |cs|
  {
    if cs == [] then Some(ls)
    else
      var prev := ConjunctLiterals(ls, cs[..|cs| - 1]);
      var c := cs[|cs| - 1];
      if prev.None? || !HoldsLiteral(c) then prev
      else if OnlyChild(c).None? then None
      else Some(AddLiteral(prev.value, OnlyChild(c).value))
  }

  /** The literals of every conjunction among `ops`, in order. */
  function OperandLiterals(ops: seq<Node>): Option<Literals>
    decreases |ops|
  {
    if ops == [] then Some(Literals([], []))
    else
      var prev := OperandLiterals(ops[..|ops| - 1]);
      var op := ops[|ops| - 1];
      if prev.None? || !IsNonTerminal(wff_and, op) then prev
      else ConjunctLiterals(prev.value, op.children)
  }

  /** `negation | wff | only_child_extractor`: the formula a negation literal negates. */
  function Negated(negation: Node): Option<Node>
  {
    OnlyChildOf(Child(negation, wff))
  }

  /**
   * Scanning the negations in order: `Some(true)` at the first one whose
   * negated formula is a positive literal, `Some(false)` when there is none,
   * `None` where a negation has no negated formula (the source throws).
   */
  function FirstClash(negatives: seq<Node>, positives: seq<Node>): Option<bool>
  {
    if negatives == [] then Some(false)
    else
      var negated := Negated(negatives[0]);
      if negated.None? then None
      else if negated.value in positives then Some(true)
      else FirstClash(negatives[1..], positives)
  }

  /**
   * `apply_wff_clashing_subformulas_check` with arguments `[f, r]`: `r` when
   * some conjunction in `f` has a literal `w` and some conjunction has the
   * literal `¬w`, otherwise `f`.
   */
  function ClashingSubformulas(n: Node): (r: Node)
    ensures |CallbackArgs(n, wff_cb_arg)| < 2 ==> r == n
    ensures |CallbackArgs(n, wff_cb_arg)| >= 2 ==> r in {n, CallbackArgs(n, wff_cb_arg)[0], CallbackArgs(n, wff_cb_arg)[1]}
  {
    var args := CallbackArgs(n, wff_cb_arg);
    if |args| < 2 then n
    else
      var lits := OperandLiterals(SelectAll(args[0], All));
      if lits.None? then n
      else
        var clash := FirstClash(lits.value.negatives, lits.value.positives);
        if clash.None? then n
        else if clash.value then args[1]
        else args[0]
  }

  /** Once a prefix of the children throws, the whole conjunction does. */
  lemma {:induction false} ConjunctLiteralsFail(ls: Literals, cs: seq<Node>, k: int)
    requires 0 <= k <= |cs|
    requires ConjunctLiterals(ls, cs[..k]).None?
    ensures ConjunctLiterals(ls, cs).None?
    decreases |cs| - k
  {
    if k == |cs| {
      assert cs[..k] == cs;
    } else {
      var init := cs[..|cs| - 1];
      assert init[..k] == cs[..k];
      ConjunctLiteralsFail(ls, init, k);
    }
  }

  /** Once a prefix of the operands throws, the whole scan does. */
  lemma {:induction false} OperandLiteralsFail(ops: seq<Node>, k: int)
    requires 0 <= k <= |ops|
    requires OperandLiterals(ops[..k]).None?
    ensures OperandLiterals(ops).None?
    decreases |ops| - k
  {
    if k == |ops| {
      assert ops[..k] == ops;
    } else {
      var init := ops[..|ops| - 1];
      assert init[..k] == ops[..k];
      OperandLiteralsFail(init, k);
    }
  }

  /** The inner loop: the literals the children of one conjunction push. */
  method GatherConjunct(start: Literals, cs: seq<Node>) returns (out: Option<Literals>)
    ensures out == ConjunctLiterals(start, cs)
  {
    var positives, negatives := start.positives, start.negatives;
    var j := 0;
    while j < |cs|
      invariant 0 <= j <= |cs|
      invariant ConjunctLiterals(start, cs[..j]) == Some(Literals(positives, negatives))
    {
      var c := cs[j];
      assert cs[..j + 1][..j] == cs[..j] && cs[..j + 1][j] == c;
      if Child(c, wff_and).None? && IsNonTerminal(wff, c) {
        var cc := OnlyChild(c);
        if cc.None? {
          ConjunctLiteralsFail(start, cs, j + 1);
          return None;
        }
        if IsNonTerminal(wff_neg, cc.value) {
          negatives := negatives + [cc.value];
        } else {
          positives := positives + [cc.value];
        }
      }
      j := j + 1;
    }
    assert cs[..j] == cs;
    return Some(Literals(positives, negatives));
  }

  /** The second phase: each negation is looked for among the positives. */
  method FindClash(negatives: seq<Node>, positives: seq<Node>) returns (clash: Option<bool>)
    ensures clash == FirstClash(negatives, positives)
  {
    var k := 0;
    while k < |negatives|
      invariant 0 <= k <= |negatives|
      invariant FirstClash(negatives, positives) == FirstClash(negatives[k..], positives)
    {
      var negated := OnlyChildOf(Child(negatives[k], wff));
      if negated.None? {
        return None;
      }
      var p := 0;
      while p < |positives|
        invariant 0 <= p <= |positives|
        invariant forall q :: 0 <= q < p ==> positives[q] != negated.value
      {
        if positives[p] == negated.value {
          return Some(true);
        }
        p := p + 1;
      }
      assert negatives[k..][1..] == negatives[k + 1..];
      k := k + 1;
    }
    return Some(false);
  }

  /**
   * `apply_wff_clashing_subformulas_check` as the source runs it: the
   * literals are pushed into `positives` and `negatives` while scanning every
   * conjunction of the first argument, then the negations are checked.
   */
  method ClashingSubformulasCheck(n: Node) returns (r: Node)
    ensures r == ClashingSubformulas(n)
  {
    var args := CallbackArgs(n, wff_cb_arg);
    if |args| < 2 {
      return n;
    }
    var lits := GatherOperands(SelectAll(args[0], All));
    if lits.None? {
      return n;
    }
    var clash := FindClash(lits.value.negatives, lits.value.positives);
    if clash.None? {
      return n;
    }
    return if clash.value then args[1] else args[0];
  }

  /** The first phase: the outer loop over the subtrees of the formula. */
  method GatherOperands(ops: seq<Node>) returns (out: Option<Literals>)
    ensures out == OperandLiterals(ops)
  {
    var lits := Literals([], []);
    var i := 0;
    while i < |ops|
      invariant 0 <= i <= |ops|
      invariant OperandLiterals(ops[..i]) == Some(lits)
    {
      var op := ops[i];
      assert ops[..i + 1][..i] == ops[..i] && ops[..i + 1][i] == op;
      if IsNonTerminal(wff_and, op) {
        var next := GatherConjunct(lits, op.children);
        if next.None? {
          OperandLiteralsFail(ops, i + 1);
          return None;
        }
        lits := next.value;
      }
      i := i + 1;
    }
    assert ops[..i] == ops;
    return Some(lits);
  }

  /**
   * When every negation negates something, the scan finds a clash exactly when
   * some negation negates a positive literal.
   */
  lemma {:induction false} FirstClashMeaning(negatives: seq<Node>, positives: seq<Node>)
    requires forall i :: 0 <= i < |negatives| ==> Negated(negatives[i]).Some?
    ensures FirstClash(negatives, positives) ==
            Some(exists i :: 0 <= i < |negatives| && Negated(negatives[i]).value in positives)
  {
    if negatives != [] {
      FirstClashMeaning(negatives[1..], positives);
      assert forall i :: 1 <= i < |negatives| ==> negatives[i] == negatives[1..][i - 1];
      if Negated(negatives[0]).value !in positives {
        if exists i :: 0 <= i < |negatives| && Negated(negatives[i]).value in positives {
          var i :| 0 <= i < |negatives| && Negated(negatives[i]).value in positives;
          assert Negated(negatives[1..][i - 1]).value in positives;
        }
      }
    }
  }

  /** Literal holders, from every child of a conjunction that holds one. */
  predicate LiteralOf(x: Node, ops: seq<Node>)
  {
    exists i, j :: 0 <= i < |ops| && IsNonTerminal(wff_and, ops[i]) && 0 <= j < |ops[i].children|
      && HoldsLiteral(ops[i].children[j]) && ops[i].children[j].children == [x]
  }

  /** Every gathered literal comes from `ops`; the negatives are exactly the `wff_neg` ones. */
  predicate SoundLiterals(ls: Literals, ops: seq<Node>)
  {
    (forall x :: x in ls.negatives ==> IsNonTerminal(wff_neg, x) && LiteralOf(x, ops)) &&
    (forall x :: x in ls.positives ==> !IsNonTerminal(wff_neg, x) && LiteralOf(x, ops))
  }

  lemma AddLiteralSound(ls: Literals, ops: seq<Node>, x: Node)
    requires SoundLiterals(ls, ops) && LiteralOf(x, ops)
    ensures SoundLiterals(AddLiteral(ls, x), ops)
  {
  }

  lemma HolderLiteral(ops: seq<Node>, i: int, j: int)
    requires 0 <= i < |ops| && IsNonTerminal(wff_and, ops[i]) && 0 <= j < |ops[i].children|
    requires HoldsLiteral(ops[i].children[j]) && OnlyChild(ops[i].children[j]).Some?
    ensures LiteralOf(OnlyChild(ops[i].children[j]).value, ops)
  {
  }

  lemma {:induction false} ConjunctLiteralsSound(ls: Literals, ops: seq<Node>, i: int, p: int)
    requires 0 <= i < |ops| && IsNonTerminal(wff_and, ops[i]) && 0 <= p <= |ops[i].children|
    requires SoundLiterals(ls, ops)
    ensures ConjunctLiterals(ls, ops[i].children[..p]).Some? ==>
              SoundLiterals(ConjunctLiterals(ls, ops[i].children[..p]).value, ops)
  {
    if p > 0 {
      var cs := ops[i].children[..p];
      assert cs[..|cs| - 1] == ops[i].children[..p - 1];
      ConjunctLiteralsSound(ls, ops, i, p - 1);
      var c := cs[|cs| - 1];
      assert c == ops[i].children[p - 1];
      var prev := ConjunctLiterals(ls, cs[..|cs| - 1]);
      if prev.Some? && HoldsLiteral(c) && OnlyChild(c).Some? {
        HolderLiteral(ops, i, p - 1);
        AddLiteralSound(prev.value, ops, OnlyChild(c).value);
      }
    }
  }

  /**
   * Every literal gathered is the only child of a `wff` child of a conjunction
   * among the operands; the negatives are exactly the `wff_neg` ones.
   */
  lemma {:induction false} OperandLiteralsSound(ops: seq<Node>, p: int)
    requires 0 <= p <= |ops|
    ensures OperandLiterals(ops[..p]).Some? ==> SoundLiterals(OperandLiterals(ops[..p]).value, ops)
  {
    if p > 0 {
      var pre := ops[..p];
      assert pre[..|pre| - 1] == ops[..p - 1];
      OperandLiteralsSound(ops, p - 1);
      var op := pre[|pre| - 1];
      assert op == ops[p - 1];
      var prev := OperandLiterals(pre[..|pre| - 1]);
      if prev.Some? && IsNonTerminal(wff_and, op) {
        assert op.children[..|op.children|] == op.children;
        ConjunctLiteralsSound(prev.value, ops, p - 1, |op.children|);
      }
    }
  }

  /**
   * The clashing check on a formula whose literals are all well formed:
   * the result is the replacement argument exactly when a negated literal
   * of some conjunction is a positive literal of some conjunction.
   */
  lemma ClashingSubformulasMeaning(n: Node)
    requires |CallbackArgs(n, wff_cb_arg)| >= 2
    requires OperandLiterals(SelectAll(CallbackArgs(n, wff_cb_arg)[0], All)).Some?
    requires var ls := OperandLiterals(SelectAll(CallbackArgs(n, wff_cb_arg)[0], All)).value;
             forall i :: 0 <= i < |ls.negatives| ==> Negated(ls.negatives[i]).Some?
    ensures var args := CallbackArgs(n, wff_cb_arg);
            var ls := OperandLiterals(SelectAll(args[0], All)).value;
            ClashingSubformulas(n) ==
              if exists i :: 0 <= i < |ls.negatives| && Negated(ls.negatives[i]).value in ls.positives
              then args[1] else args[0]
  {
    var args := CallbackArgs(n, wff_cb_arg);
    var ls := OperandLiterals(SelectAll(args[0], All)).value;
    FirstClashMeaning(ls.negatives, ls.positives);
  }

  // ---------------------------------------------------------------------------
  // are_equal

  /**
   * `are_equal(p, n)`: equal values, and the essential children agree pairwise
   * (each pair equal or recursively `are_equal`) until either list runs out.
   */
  function AreEqual(p: Node, n: Node): bool
    decreases Size(p) + Size(n), 0
  {
    p.value == n.value && ChildrenAgree(p.children, n.children)
  }

  function ChildrenAgree(ps: seq<Node>, ns: seq<Node>): bool
    decreases SizeAll(ps) + SizeAll(ns), 1
  {
    if ps == [] || ns == [] then true
    else if IsNonEssential(ps[0]) then ChildrenAgree(ps[1..], ns)
    else if IsNonEssential(ns[0]) then ChildrenAgree(ps, ns[1..])
    else if ps[0] == ns[0] || AreEqual(ps[0], ns[0]) then ChildrenAgree(ps[1..], ns[1..])
    else false
  }

  /** The loop of `are_equal`, walking the two child lists with one iterator each. */
  method CompareTrees(p: Node, n: Node) returns (r: bool)
    ensures r == AreEqual(p, n)
    decreases Size(p) + Size(n)
  {
    if p.value != n.value {
      return false;
    }
    var i, j := 0, 0;
    while i < |p.children| && j < |n.children|
      invariant 0 <= i <= |p.children| && 0 <= j <= |n.children|
      invariant AreEqual(p, n) == ChildrenAgree(p.children[i..], n.children[j..])
      decreases |p.children| - i + |n.children| - j
    {
      var a, b := p.children[i], n.children[j];
      assert p.children[i..][1..] == p.children[i + 1..];
      assert n.children[j..][1..] == n.children[j + 1..];
      if IsNonEssential(a) {
        i := i + 1;
        continue;
      }
      if IsNonEssential(b) {
        j := j + 1;
        continue;
      }
      if a == b {
        i, j := i + 1, j + 1;
        continue;
      }
      SizeOfChild(p, i);
      SizeOfChild(n, j);
      var same := CompareTrees(a, b);
      if same {
        i, j := i + 1, j + 1;
        continue;
      }
      return false;
    }
    return true;
  }

  /** A non-essential child at the head of the second list is skipped. */
  lemma {:induction false} SkipNonEssential(ps: seq<Node>, x: Node, ns: seq<Node>)
    requires IsNonEssential(x)
    ensures ChildrenAgree(ps, [x] + ns) == ChildrenAgree(ps, ns)
    decreases |ps|
  {
    var xs := [x] + ns;
    assert xs[0] == x && xs[1..] == ns;
    if ps != [] && IsNonEssential(ps[0]) {
      SkipNonEssential(ps[1..], x, ns);
    }
  }

  /** Every tree is `are_equal` to itself. */
  lemma AreEqualReflexive(p: Node)
    ensures AreEqual(p, p)
  {
    ChildrenAgreeReflexive(p.children);
  }

  lemma {:induction false} ChildrenAgreeReflexive(s: seq<Node>)
    ensures ChildrenAgree(s, s)
  {
    if s != [] {
      ChildrenAgreeReflexive(s[1..]);
      if IsNonEssential(s[0]) {
        assert s == [s[0]] + s[1..];
        SkipNonEssential(s[1..], s[0], s[1..]);
      }
    }
  }

  /**
   * As written, `are_equal` stops as soon as either child list runs out, so a
   * tree is `are_equal` to every tree that extends its children.
   */
  lemma AreEqualPrefix(v: Sym, cs: seq<Node>, ds: seq<Node>)
    ensures AreEqual(Node(v, cs), Node(v, cs + ds))
    ensures ds != [] ==> Node(v, cs) != Node(v, cs + ds)
  {
    ChildrenAgreePrefix(cs, ds);
    if ds != [] {
      assert |cs + ds| > |cs|;
    }
  }

  lemma {:induction false} ChildrenAgreePrefix(cs: seq<Node>, ds: seq<Node>)
    ensures ChildrenAgree(cs, cs + ds)
  {
    if cs != [] {
      var rest := cs[1..];
      assert (cs + ds)[0] == cs[0] && (cs + ds)[1..] == rest + ds;
      ChildrenAgreePrefix(rest, ds);
      if IsNonEssential(cs[0]) {
        assert cs + ds == [cs[0]] + (rest + ds);
        SkipNonEssential(rest, cs[0], rest + ds);
      }
    }
  }
}
