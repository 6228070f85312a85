/**
 * Rules, builders and the `build_*` constructors of src/nso_rr.h
 * (807-824, 1039-1320).
 *
 * A builder is a rule whose matcher is a head `( $X $Y ... )` listing
 * captures and whose body is a formula over those captures;
 * `tau_apply_builder` binds the captures to its arguments positionally and
 * substitutes them into the body. Each primitive `build_*` function is
 * written as the tree its builder produces from the trimmed arguments, and
 * the `*BuildersInstantiate` lemmas prove that applying the builder gives
 * exactly that tree; the derived connectives compose other `build_*`
 * functions.
 */
module Builders {
  import opened Wrappers
  import opened TauTree

  /** `rule<node_t>`: a matcher and a body; a builder is a rule whose matcher is its head. */
  datatype Rule = Rule(matcher: Node, body: Node)

  // ---------------------------------------------------------------------------
  // make_rule

  /** A `rule` node of kind `kind` (bf_rule, wff_rule or tau_rule) with the given matcher and body. */
  function RuleNode(kind: Nt, m: Node, b: Node): Node
    requires kind in {bf_rule, wff_rule, tau_rule}
  {
    var (mt, bt) := if kind == bf_rule then (bf_matcher, bf_body)
                    else if kind == wff_rule then (wff_matcher, wff_body)
                    else (tau_matcher, tau_body);
    Make(rule, [Make(kind, [Make(mt, [m]), Make(bt, [b])])])
  }

  /** `make_rule(rule_t, matcher_t, body_t, rule)`; `None` where the source throws `bad_optional_access`. */
  function MakeRuleOf(kind: Nt, mt: Nt, bt: Nt, r: Node): Option<Rule>
  {
    var m := OnlyChildOf(ChildOf(Child(r, kind), mt));
    var b := OnlyChildOf(ChildOf(Child(r, kind), bt));
    if m.Some? && b.Some? then Some(Rule(m.value, b.value)) else None
  }

  /**
   * `make_rule(rule)`: dispatches on the kind of the only child of a `rule`
   * node; `None` where the source throws or reaches `assert(false)`.
   */
  function MakeRule(r: Node): (res: Option<Rule>)
    ensures res.Some? ==> OnlyChild(r).Some? && NonTerminalOf(OnlyChild(r).value).Some? &&
                          NonTerminalOf(OnlyChild(r).value).value in {bf_rule, wff_rule, tau_rule}
  {
    var o := OnlyChild(r);
    if o.None? || NonTerminalOf(o.value).None? then None
    else
      var kind := NonTerminalOf(o.value).value;
      if kind == bf_rule then MakeRuleOf(bf_rule, bf_matcher, bf_body, r)
      else if kind == wff_rule then MakeRuleOf(wff_rule, wff_matcher, wff_body, r)
      else if kind == tau_rule then MakeRuleOf(tau_rule, tau_matcher, tau_body, r)
      else None
  }

  /** The extraction of one rule kind reads back the matcher and body it finds. */
  lemma MakeRuleOfNode(kind: Nt, mt: Nt, bt: Nt, m: Node, b: Node)
    requires mt != bt
    ensures MakeRuleOf(kind, mt, bt, Make(rule, [Make(kind, [Make(mt, [m]), Make(bt, [b])])])) == Some(Rule(m, b))
  {
    var mn, bn := Make(mt, [m]), Make(bt, [b]);
    var k := Make(kind, [mn, bn]);
    var r := Make(rule, [k]);
    assert Child(r, kind) == Some(k) by {
      assert IsNonTerminal(kind, r.children[0]);
    }
    assert Child(k, mt) == Some(mn) by {
      assert IsNonTerminal(mt, k.children[0]);
    }
    assert Child(k, bt) == Some(bn) by {
      assert !IsNonTerminal(bt, k.children[0]);
      assert k.children[1..] == [bn];
      assert IsNonTerminal(bt, k.children[1..][0]);
      assert FirstOf(k.children[1..], bt) == Some(bn);
    }
    assert OnlyChild(mn) == Some(m) && OnlyChild(bn) == Some(b);
  }

  /** Reading a rule back out of a rule node gives its matcher and body. */
  lemma MakeRuleRoundTrip(kind: Nt, m: Node, b: Node)
    requires kind in {bf_rule, wff_rule, tau_rule}
    ensures MakeRule(RuleNode(kind, m, b)) == Some(Rule(m, b))
  {
    if kind == bf_rule {
      var k := Make(bf_rule, [Make(bf_matcher, [m]), Make(bf_body, [b])]);
      assert RuleNode(kind, m, b) == Make(rule, [k]);
      assert OnlyChild(Make(rule, [k])) == Some(k);
      assert NonTerminalOf(k) == Some(bf_rule);
      assert MakeRule(Make(rule, [k])) == MakeRuleOf(bf_rule, bf_matcher, bf_body, Make(rule, [k]));
      MakeRuleOfNode(bf_rule, bf_matcher, bf_body, m, b);
    } else if kind == wff_rule {
      var k := Make(wff_rule, [Make(wff_matcher, [m]), Make(wff_body, [b])]);
      assert RuleNode(kind, m, b) == Make(rule, [k]);
      assert OnlyChild(Make(rule, [k])) == Some(k);
      assert NonTerminalOf(k) == Some(wff_rule);
      assert MakeRule(Make(rule, [k])) == MakeRuleOf(wff_rule, wff_matcher, wff_body, Make(rule, [k]));
      MakeRuleOfNode(wff_rule, wff_matcher, wff_body, m, b);
    } else {
      var k := Make(tau_rule, [Make(tau_matcher, [m]), Make(tau_body, [b])]);
      assert RuleNode(kind, m, b) == Make(rule, [k]);
      assert OnlyChild(Make(rule, [k])) == Some(k);
      assert NonTerminalOf(k) == Some(tau_rule);
      assert MakeRule(Make(rule, [k])) == MakeRuleOf(tau_rule, tau_matcher, tau_body, Make(rule, [k]));
      MakeRuleOfNode(tau_rule, tau_matcher, tau_body, m, b);
    }
  }

  // ---------------------------------------------------------------------------
  // tau_apply_builder

  /** `b.first || capture`: the captures of a builder head, in order. */
  function Captures(head: Node): seq<Node>
  {
    Children(head, capture)
  }

  /**
   * The map `tau_apply_builder` fills: the i-th variable to the i-th argument,
   * a later occurrence of a repeated variable overriding an earlier one.
   */
  function CaptureMap(vars: seq<Node>, args: seq<Node>): (m: map<Node, Node>)
    requires |args| >= |vars|
    ensures m.Keys == set v | v in vars
    decreases |vars|
  {
    if vars == [] then map[]
    else CaptureMap(vars[..|vars| - 1], args)[vars[|vars| - 1] := args[|vars| - 1]]
  }

  /** A variable that does not occur again later is bound to the argument at its own position. */
  lemma {:induction false} CaptureMapLast(vars: seq<Node>, args: seq<Node>, i: nat)
    requires |args| >= |vars| && i < |vars|
    requires forall j :: i < j < |vars| ==> vars[j] != vars[i]
    ensures CaptureMap(vars, args)[vars[i]] == args[i]
    decreases |vars|
  {
    var k := |vars| - 1;
    if i < k {
      var front := vars[..k];
      assert front[i] == vars[i];
      assert vars[k] != vars[i];
      CaptureMapLast(front, args, i);
    }
  }

  /** The builder's body with its captures replaced by the arguments. */
  function Instantiate(b: Rule, args: seq<Node>): Node
    requires |args| >= |Captures(b.matcher)|
  {
    Replace(b.body, CaptureMap(Captures(b.matcher), args))
  }

  /** `tau_apply_builder(b, n)`: fills the capture map in a loop, then replaces. */
  method TauApplyBuilder(b: Rule, args: seq<Node>) returns (r: Node)
    requires |args| >= |Captures(b.matcher)|
    ensures r == Instantiate(b, args)
  {
    var changes: map<Node, Node> := map[];
    var vars := Captures(b.matcher);
    var i := 0;
    while i < |vars|
      invariant 0 <= i <= |vars|
      invariant changes == CaptureMap(vars[..i], args)
    {
      assert vars[..i + 1][..i] == vars[..i];
      changes := changes[vars[i] := args[i]];
      i := i + 1;
    }
    assert vars[..i] == vars;
    r := Replace(b.body, changes);
  }

  /** A body that mentions none of the captures comes back unchanged. */
  lemma InstantiateCaptureFree(b: Rule, args: seq<Node>)
    requires |args| >= |Captures(b.matcher)|
    requires forall v :: v in Captures(b.matcher) ==> !Occurs(v, b.body)
    ensures Instantiate(b, args) == b.body
  {
    ReplaceUntouched(b.body, CaptureMap(Captures(b.matcher), args));
  }

  // ---------------------------------------------------------------------------
  // Builder constants (src/nso_rr.h:1058-1156)

  /** A capture `$name`. */
  function Cap(name: char): Node
  {
    Make(capture, [Node(Source(Terminal(name)), [])])
  }

  const X: Node := Cap('X')
  const Y: Node := Cap('Y')
  const Head1: Node := Make(builder_head, [X])
  const Head2: Node := Make(builder_head, [X, Y])

  const BldrBf0 := Rule(Head1, Make(bf, [Make(bf_f, [])]))
  const BldrBf1 := Rule(Head1, Make(bf, [Make(bf_t, [])]))
  const BldrWffF := Rule(Head1, Make(wff, [Make(wff_f, [])]))
  /** As written, `bldr_wff_T` is made from the text of `F`, so it equals `bldr_wff_F`. */
  const BldrWffT := BldrWffF

  const BldrWffEq := Rule(Head1, Make(wff, [Make(bf_eq, [Make(bf, [X]), Make(bf, [Make(bf_f, [])])])]))
  const BldrWffNeq := Rule(Head1, Make(wff, [Make(bf_neq, [Make(bf, [X]), Make(bf, [Make(bf_f, [])])])]))
  const BldrBfNotLessEqual := Rule(Head2, Make(wff, [Make(bf_not_less_equal, [Make(bf, [X]), Make(bf, [Y])])]))
  const BldrWffAnd := Rule(Head2, Make(wff, [Make(wff_and, [Make(wff, [X]), Make(wff, [Y])])]))
  const BldrWffOr := Rule(Head2, Make(wff, [Make(wff_or, [Make(wff, [X]), Make(wff, [Y])])]))
  const BldrWffNeg := Rule(Head1, Make(wff, [Make(wff_neg, [Make(wff, [X])])]))
  const BldrWffAll := Rule(Head2, Make(wff, [Make(wff_all, [X, Make(wff, [Y])])]))
  const BldrWffEx := Rule(Head2, Make(wff, [Make(wff_ex, [X, Make(wff, [Y])])]))
  const BldrWffBall := Rule(Head2, Make(wff, [Make(wff_ball, [X, Make(wff, [Y])])]))
  const BldrWffBex := Rule(Head2, Make(wff, [Make(wff_bex, [X, Make(wff, [Y])])]))

  const BldrBfAnd := Rule(Head2, Make(bf, [Make(bf_and, [Make(bf, [X]), Make(bf, [Y])])]))
  const BldrBfOr := Rule(Head2, Make(bf, [Make(bf_or, [Make(bf, [X]), Make(bf, [Y])])]))
  const BldrBfNeg := Rule(Head1, Make(bf, [Make(bf_neg, [Make(bf, [X])])]))
  const BldrBfSplitter := Rule(Head1, Make(bf, [Make(bf_splitter, [Make(bf, [X])])]))
  const BldrBfAll := Rule(Head2, Make(bf, [Make(bf_all, [X, Make(bf, [Y])])]))
  const BldrBfEx := Rule(Head2, Make(bf, [Make(bf_ex, [X, Make(bf, [Y])])]))
  const BldrBfConstant := Rule(Head1, Make(bf, [Make(bf_constant, [Make(constant, [X])])]))

  const BldrTauAnd := Rule(Head2, Make(tau, [Make(tau_and, [Make(tau, [X]), Make(tau, [Y])])]))
  const BldrTauOr := Rule(Head2, Make(tau, [Make(tau_or, [Make(tau, [X]), Make(tau, [Y])])]))
  const BldrTauNeg := Rule(Head1, Make(tau, [Make(tau_neg, [Make(tau, [X])])]))

  /** The constants `_0`, `_1`, `_F` and `_T`: the bodies of the basic builders. */
  const BfZero: Node := BldrBf0.body
  const BfOne: Node := BldrBf1.body
  const WffFalse: Node := BldrWffF.body
  const WffTrue: Node := BldrWffT.body

  /** The canonical true formula `T`, which `_T` was meant to be. */
  const CanonicalTrue: Node := Make(wff, [Make(wff_t, [])])

  lemma HeadCaptures()
    ensures Captures(Head1) == [X]
    ensures Captures(Head2) == [X, Y]
  {
    assert [X][1..] == [] && [X, Y][1..] == [Y];
    assert Filter([X], capture) == [X];
    assert Filter([Y], capture) == [Y] by { assert [Y][1..] == []; }
    assert Filter([X, Y], capture) == [X] + Filter([Y], capture);
  }

  /** As written, `_T` is the false formula and not the canonical true one. */
  lemma TrueIsFalse()
    ensures WffTrue == WffFalse
    ensures WffTrue != CanonicalTrue
  {
  }

  // ---------------------------------------------------------------------------
  // trim and the build_* constructors

  /** `trim(n)`: the first child (undefined behaviour in the source when there is none). */
  function Trim(n: Node): Node
    requires |n.children| > 0
  {
    n.children[0]
  }

  function Apply1(b: Rule, a: Node): Node
    requires b.matcher == Head1
  {
    HeadCaptures();
    Instantiate(b, [a])
  }

  function Apply2(b: Rule, a: Node, c: Node): Node
    requires b.matcher == Head2
  {
    HeadCaptures();
    Instantiate(b, [a, c])
  }

  function BuildWffEq(l: Node): (res: Node)
    requires |l.children| > 0
    ensures |res.children| > 0
    ensures Wrapped(wff, res)
  {
    Make(wff, [Make(bf_eq, [Make(bf, [Trim(l)]), BfZero])])
  }

  function BuildWffNeq(l: Node): (res: Node)
    requires |l.children| > 0
    ensures |res.children| > 0
    ensures Wrapped(wff, res)
  {
    Make(wff, [Make(bf_neq, [Make(bf, [Trim(l)]), BfZero])])
  }

  function BuildWffAnd(l: Node, r: Node): (res: Node)
    requires |l.children| > 0 && |r.children| > 0
    ensures |res.children| > 0
    ensures Wrapped(wff, res)
  {
    Make(wff, [Make(wff_and, [Make(wff, [Trim(l)]), Make(wff, [Trim(r)])])])
  }

  function BuildWffOr(l: Node, r: Node): (res: Node)
    requires |l.children| > 0 && |r.children| > 0
    ensures |res.children| > 0
    ensures Wrapped(wff, res)
  {
    Make(wff, [Make(wff_or, [Make(wff, [Trim(l)]), Make(wff, [Trim(r)])])])
  }

  function BuildWffNeg(l: Node): (res: Node)
    requires |l.children| > 0
    ensures |res.children| > 0
    ensures Wrapped(wff, res)
  {
    Make(wff, [Make(wff_neg, [Make(wff, [Trim(l)])])])
  }

  function BuildWffXor(l: Node, r: Node): (res: Node)
    requires |l.children| > 0 && |r.children| > 0
    ensures Wrapped(wff, res)
  {
    BuildWffOr(BuildWffAnd(BuildWffNeg(l), r), BuildWffAnd(BuildWffNeg(r), l))
  }

  function BuildWffImply(l: Node, r: Node): (res: Node)
    requires |l.children| > 0 && |r.children| > 0
    ensures |res.children| > 0
    ensures Wrapped(wff, res)
  {
    BuildWffOr(BuildWffNeg(l), r)
  }

  function BuildWffConditional(x: Node, y: Node, z: Node): (res: Node)
    requires |x.children| > 0 && |y.children| > 0 && |z.children| > 0
    ensures Wrapped(wff, res)
  {
    BuildWffAnd(BuildWffImply(x, y), BuildWffImply(BuildWffNeg(x), z))
  }

  function BuildWffEquiv(l: Node, r: Node): (res: Node)
    requires |l.children| > 0 && |r.children| > 0
    ensures Wrapped(wff, res)
  {
    BuildWffAnd(BuildWffImply(l, r), BuildWffImply(r, l))
  }

  function BuildWffAll(l: Node, r: Node): (res: Node)
    requires |r.children| > 0
    ensures Wrapped(wff, res)
  {
    Make(wff, [Make(wff_all, [l, Make(wff, [Trim(r)])])])
  }

  function BuildWffEx(l: Node, r: Node): (res: Node)
    requires |r.children| > 0
    ensures Wrapped(wff, res)
  {
    Make(wff, [Make(wff_ex, [l, Make(wff, [Trim(r)])])])
  }

  function BuildWffBall(l: Node, r: Node): (res: Node)
    requires |r.children| > 0
    ensures Wrapped(wff, res)
  {
    Make(wff, [Make(wff_ball, [l, Make(wff, [Trim(r)])])])
  }

  function BuildWffBex(l: Node, r: Node): (res: Node)
    requires |r.children| > 0
    ensures Wrapped(wff, res)
  {
    Make(wff, [Make(wff_bex, [l, Make(wff, [Trim(r)])])])
  }

  function BuildBfAnd(l: Node, r: Node): (res: Node)
    requires |l.children| > 0 && |r.children| > 0
    ensures |res.children| > 0
    ensures Wrapped(bf, res)
  {
    Make(bf, [Make(bf_and, [Make(bf, [Trim(l)]), Make(bf, [Trim(r)])])])
  }

  function BuildBfOr(l: Node, r: Node): (res: Node)
    requires |l.children| > 0 && |r.children| > 0
    ensures |res.children| > 0
    ensures Wrapped(bf, res)
  {
    Make(bf, [Make(bf_or, [Make(bf, [Trim(l)]), Make(bf, [Trim(r)])])])
  }

  function BuildBfNeg(l: Node): (res: Node)
    requires |l.children| > 0
    ensures |res.children| > 0
    ensures Wrapped(bf, res)
  {
    Make(bf, [Make(bf_neg, [Make(bf, [Trim(l)])])])
  }

  function BuildBfXor(l: Node, r: Node): (res: Node)
    requires |l.children| > 0 && |r.children| > 0
    ensures |res.children| > 0
    ensures Wrapped(bf, res)
  {
    BuildBfOr(BuildBfAnd(BuildBfNeg(l), r), BuildBfAnd(BuildBfNeg(r), l))
  }

  /** `build_bf_less`: as written it joins two formulas with the bf `|` builder. */
  function BuildBfLess(l: Node, r: Node): (res: Node)
    requires |l.children| > 0 && |r.children| > 0
    ensures Wrapped(bf, res)
  {
    BuildBfOr(BuildWffEq(BuildBfAnd(l, BuildBfNeg(r))), BuildWffNeq(BuildBfXor(l, BuildBfNeg(r))))
  }

  function BuildBfLessEqual(l: Node, r: Node): (res: Node)
    requires |l.children| > 0 && |r.children| > 0
    ensures Wrapped(wff, res)
  {
    BuildWffEq(BuildBfAnd(l, BuildBfNeg(r)))
  }

  function BuildBfAll(l: Node, r: Node): (res: Node)
    requires |r.children| > 0
    ensures |res.children| > 0
    ensures Wrapped(bf, res)
  {
    Make(bf, [Make(bf_all, [l, Make(bf, [Trim(r)])])])
  }

  function BuildBfEx(l: Node, r: Node): (res: Node)
    requires |r.children| > 0
    ensures |res.children| > 0
    ensures Wrapped(bf, res)
  {
    Make(bf, [Make(bf_ex, [l, Make(bf, [Trim(r)])])])
  }

  function BuildTauAnd(l: Node, r: Node): (res: Node)
    requires |l.children| > 0 && |r.children| > 0
    ensures |res.children| > 0
    ensures Wrapped(tau, res)
  {
    Make(tau, [Make(tau_and, [Make(tau, [Trim(l)]), Make(tau, [Trim(r)])])])
  }

  function BuildTauOr(l: Node, r: Node): (res: Node)
    requires |l.children| > 0 && |r.children| > 0
    ensures |res.children| > 0
    ensures Wrapped(tau, res)
  {
    Make(tau, [Make(tau_or, [Make(tau, [Trim(l)]), Make(tau, [Trim(r)])])])
  }

  function BuildTauNeg(l: Node): (res: Node)
    requires |l.children| > 0
    ensures |res.children| > 0
    ensures Wrapped(tau, res)
  {
    Make(tau, [Make(tau_neg, [Make(tau, [Trim(l)])])])
  }

  function BuildTauEquiv(l: Node, r: Node): (res: Node)
    requires |l.children| > 0 && |r.children| > 0
    ensures Wrapped(tau, res)
  {
    BuildTauAnd(BuildTauOr(BuildTauNeg(l), r), BuildTauOr(BuildTauNeg(r), l))
  }

  function BuildTauXor(l: Node, r: Node): (res: Node)
    requires |l.children| > 0 && |r.children| > 0
    ensures Wrapped(tau, res)
  {
    BuildTauOr(BuildTauAnd(BuildTauNeg(l), r), BuildTauAnd(BuildTauNeg(r), l))
  }


  // ---------------------------------------------------------------------------
  // What the builders build

  /** Replacing inside a node that is not itself a key replaces inside its children. */
  lemma ReplaceInside(nt: Nt, cs: seq<Node>, m: map<Node, Node>)
    requires Make(nt, cs) !in m
    ensures Replace(Make(nt, cs), m) == Make(nt, ReplaceAll(cs, m))
  {
  }

  lemma CaptureMaps(a: Node, b: Node)
    ensures CaptureMap([X], [a]) == map[X := a]
    ensures CaptureMap([X, Y], [a, b]) == map[X := a, Y := b]
  {
    assert [X][..0] == [];
    assert [X, Y][..1] == [X];
  }

  /** A one-capture builder substitutes its argument for `$X`. */
  lemma Apply1Map(b: Rule, a: Node)
    requires b.matcher == Head1
    ensures Apply1(b, a) == Replace(b.body, map[X := a])
  {
    HeadCaptures();
    CaptureMaps(a, a);
  }

  /** A two-capture builder substitutes its arguments for `$X` and `$Y`. */
  lemma Apply2Map(b: Rule, a: Node, c: Node)
    requires b.matcher == Head2
    ensures Apply2(b, a, c) == Replace(b.body, map[X := a, Y := c])
  {
    HeadCaptures();
    CaptureMaps(a, c);
  }

  /** Replacing inside a one-child node that is not a key. */
  lemma ReplaceOne(nt: Nt, c: Node, m: map<Node, Node>)
    requires Make(nt, [c]) !in m
    ensures Replace(Make(nt, [c]), m) == Make(nt, [Replace(c, m)])
  {
    assert ReplaceAll([c], m) == [Replace(c, m)];
  }

  /** Replacing inside a two-child node that is not a key. */
  lemma ReplaceTwo(nt: Nt, c: Node, d: Node, m: map<Node, Node>)
    requires Make(nt, [c, d]) !in m
    ensures Replace(Make(nt, [c, d]), m) == Make(nt, [Replace(c, m), Replace(d, m)])
  {
    assert ReplaceAll([c, d], m) == [Replace(c, m), Replace(d, m)];
  }

  /** Nodes of any kind other than `capture` are not captures. */
  lemma NotCapture(nt: Nt, cs: seq<Node>)
    requires nt != capture
    ensures Make(nt, cs) != X && Make(nt, cs) != Y
  {
    assert X.value == Source(NonTerminal(capture));
  }

  /** A one-capture pattern `outer(op(inner($X)))` instantiated with `a`. */
  lemma Pattern1(outer: Nt, op: Nt, inner: Nt, a: Node)
    requires outer != capture && op != capture && inner != capture
    ensures Apply1(Rule(Head1, Make(outer, [Make(op, [Make(inner, [X])])])), a)
            == Make(outer, [Make(op, [Make(inner, [a])])])
  {
    var m := map[X := a];
    var ix := Make(inner, [X]);
    var o := Make(op, [ix]);
    Apply1Map(Rule(Head1, Make(outer, [o])), a);
    NotCapture(inner, [X]);
    NotCapture(op, [ix]);
    NotCapture(outer, [o]);
    ReplaceOne(inner, X, m);
    ReplaceOne(op, ix, m);
    ReplaceOne(outer, o, m);
  }

  /** A two-capture pattern `outer(op(inner($X), inner($Y)))` instantiated with `a`, `b`. */
  lemma Pattern2(outer: Nt, op: Nt, inner: Nt, a: Node, b: Node)
    requires outer != capture && op != capture && inner != capture
    ensures Apply2(Rule(Head2, Make(outer, [Make(op, [Make(inner, [X]), Make(inner, [Y])])])), a, b)
            == Make(outer, [Make(op, [Make(inner, [a]), Make(inner, [b])])])
  {
    var m := map[X := a, Y := b];
    assert X != Y;
    var ix, iy := Make(inner, [X]), Make(inner, [Y]);
    var o := Make(op, [ix, iy]);
    Apply2Map(Rule(Head2, Make(outer, [o])), a, b);
    NotCapture(inner, [X]);
    NotCapture(inner, [Y]);
    NotCapture(op, [ix, iy]);
    NotCapture(outer, [o]);
    ReplaceOne(inner, X, m);
    ReplaceOne(inner, Y, m);
    ReplaceTwo(op, ix, iy, m);
    ReplaceOne(outer, o, m);
  }

  /** A binder pattern `outer(op($X, inner($Y)))` instantiated with `v`, `a`. */
  lemma PatternBinder(outer: Nt, op: Nt, inner: Nt, v: Node, a: Node)
    requires outer != capture && op != capture && inner != capture
    ensures Apply2(Rule(Head2, Make(outer, [Make(op, [X, Make(inner, [Y])])])), v, a)
            == Make(outer, [Make(op, [v, Make(inner, [a])])])
  {
    var m := map[X := v, Y := a];
    assert X != Y;
    var iy := Make(inner, [Y]);
    var o := Make(op, [X, iy]);
    Apply2Map(Rule(Head2, Make(outer, [o])), v, a);
    NotCapture(inner, [Y]);
    NotCapture(op, [X, iy]);
    NotCapture(outer, [o]);
    ReplaceOne(inner, Y, m);
    ReplaceTwo(op, X, iy, m);
    ReplaceOne(outer, o, m);
  }

  lemma WffAndShape(a: Node, b: Node)
    ensures Apply2(BldrWffAnd, a, b) == Make(wff, [Make(wff_and, [Make(wff, [a]), Make(wff, [b])])])
  {
    Pattern2(wff, wff_and, wff, a, b);
  }

  lemma WffOrShape(a: Node, b: Node)
    ensures Apply2(BldrWffOr, a, b) == Make(wff, [Make(wff_or, [Make(wff, [a]), Make(wff, [b])])])
  {
    Pattern2(wff, wff_or, wff, a, b);
  }

  /** `_0` contains no capture. */
  lemma ZeroUnchanged(a: Node)
    ensures Replace(BfZero, map[X := a]) == BfZero
  {
    var m := map[X := a];
    var f := Make(bf_f, []);
    NotCapture(bf_f, []);
    NotCapture(bf, [f]);
    assert Replace(f, m) == f by {
      assert ReplaceAll([], m) == [];
    }
    ReplaceOne(bf, f, m);
  }

  /** An equation pattern `wff(op(bf($X), _0))` instantiated with `a`. */
  lemma PatternEquation(op: Nt, a: Node)
    requires op != capture
    ensures Apply1(Rule(Head1, Make(wff, [Make(op, [Make(bf, [X]), BfZero])])), a)
            == Make(wff, [Make(op, [Make(bf, [a]), BfZero])])
  {
    var m := map[X := a];
    var bx := Make(bf, [X]);
    var e := Make(op, [bx, BfZero]);
    Apply1Map(Rule(Head1, Make(wff, [e])), a);
    NotCapture(bf, [X]);
    NotCapture(op, [bx, BfZero]);
    NotCapture(wff, [e]);
    ReplaceOne(bf, X, m);
    ZeroUnchanged(a);
    ReplaceTwo(op, bx, BfZero, m);
    ReplaceOne(wff, e, m);
  }

  lemma WffEqShape(a: Node)
    ensures Apply1(BldrWffEq, a) == Make(wff, [Make(bf_eq, [Make(bf, [a]), BfZero])])
    ensures Apply1(BldrWffNeq, a) == Make(wff, [Make(bf_neq, [Make(bf, [a]), BfZero])])
  {
    PatternEquation(bf_eq, a);
    PatternEquation(bf_neq, a);
  }

  lemma BfAndShape(a: Node, b: Node)
    ensures Apply2(BldrBfAnd, a, b) == Make(bf, [Make(bf_and, [Make(bf, [a]), Make(bf, [b])])])
  {
    Pattern2(bf, bf_and, bf, a, b);
  }

  lemma BfOrShape(a: Node, b: Node)
    ensures Apply2(BldrBfOr, a, b) == Make(bf, [Make(bf_or, [Make(bf, [a]), Make(bf, [b])])])
  {
    Pattern2(bf, bf_or, bf, a, b);
  }

  lemma BfNegShape(a: Node)
    ensures Apply1(BldrBfNeg, a) == Make(bf, [Make(bf_neg, [Make(bf, [a])])])
  {
    Pattern1(bf, bf_neg, bf, a);
  }

  lemma TauAndShape(a: Node, b: Node)
    ensures Apply2(BldrTauAnd, a, b) == Make(tau, [Make(tau_and, [Make(tau, [a]), Make(tau, [b])])])
  {
    Pattern2(tau, tau_and, tau, a, b);
  }

  lemma TauOrShape(a: Node, b: Node)
    ensures Apply2(BldrTauOr, a, b) == Make(tau, [Make(tau_or, [Make(tau, [a]), Make(tau, [b])])])
  {
    Pattern2(tau, tau_or, tau, a, b);
  }

  lemma TauNegShape(a: Node)
    ensures Apply1(BldrTauNeg, a) == Make(tau, [Make(tau_neg, [Make(tau, [a])])])
  {
    Pattern1(tau, tau_neg, tau, a);
  }

  /** A node of kind `nt` with exactly one child, as the parser makes `wff`, `bf` and `tau` nodes. */
  predicate Wrapped(nt: Nt, n: Node)
  {
    IsNonTerminal(nt, n) && |n.children| == 1
  }

  lemma Unwrap(nt: Nt, n: Node)
    requires Wrapped(nt, n)
    ensures n == Make(nt, [Trim(n)])
  {
    assert n.children == [Trim(n)];
  }

  /**
   * On wrapped operands the primitive wff builders put the operands themselves
   * under the new connective: `trim` and the wrapping in the body cancel out.
   */
  lemma WffShapes(l: Node, r: Node)
    requires Wrapped(wff, l) && Wrapped(wff, r)
    ensures BuildWffAnd(l, r) == Make(wff, [Make(wff_and, [l, r])])
    ensures BuildWffOr(l, r) == Make(wff, [Make(wff_or, [l, r])])
    ensures BuildWffNeg(l) == Make(wff, [Make(wff_neg, [l])])
  {
    Unwrap(wff, l);
    Unwrap(wff, r);
    WffAndShape(Trim(l), Trim(r));
    WffOrShape(Trim(l), Trim(r));
    Pattern1(wff, wff_neg, wff, Trim(l));
  }

  /** The bf builders and the equations over wrapped operands. */
  lemma BfShapes(l: Node, r: Node)
    requires Wrapped(bf, l) && Wrapped(bf, r)
    ensures BuildBfAnd(l, r) == Make(bf, [Make(bf_and, [l, r])])
    ensures BuildBfOr(l, r) == Make(bf, [Make(bf_or, [l, r])])
    ensures BuildBfNeg(l) == Make(bf, [Make(bf_neg, [l])])
    ensures BuildWffEq(l) == Make(wff, [Make(bf_eq, [l, BfZero])])
    ensures BuildWffNeq(l) == Make(wff, [Make(bf_neq, [l, BfZero])])
  {
    Unwrap(bf, l);
    Unwrap(bf, r);
    BfAndShape(Trim(l), Trim(r));
    BfOrShape(Trim(l), Trim(r));
    BfNegShape(Trim(l));
    WffEqShape(Trim(l));
  }

  lemma TauShapes(l: Node, r: Node)
    requires Wrapped(tau, l) && Wrapped(tau, r)
    ensures BuildTauAnd(l, r) == Make(tau, [Make(tau_and, [l, r])])
    ensures BuildTauOr(l, r) == Make(tau, [Make(tau_or, [l, r])])
    ensures BuildTauNeg(l) == Make(tau, [Make(tau_neg, [l])])
  {
    Unwrap(tau, l);
    Unwrap(tau, r);
    TauAndShape(Trim(l), Trim(r));
    TauOrShape(Trim(l), Trim(r));
    TauNegShape(Trim(l));
  }

  /** The wff binders keep the variable as given and put the trimmed body under the quantifier. */
  lemma WffQuantifierShapes(v: Node, r: Node)
    requires Wrapped(wff, r)
    ensures BuildWffAll(v, r) == Make(wff, [Make(wff_all, [v, r])])
    ensures BuildWffEx(v, r) == Make(wff, [Make(wff_ex, [v, r])])
    ensures BuildWffBall(v, r) == Make(wff, [Make(wff_ball, [v, r])])
    ensures BuildWffBex(v, r) == Make(wff, [Make(wff_bex, [v, r])])
  {
    Unwrap(wff, r);
    PatternBinder(wff, wff_all, wff, v, Trim(r));
    PatternBinder(wff, wff_ex, wff, v, Trim(r));
    PatternBinder(wff, wff_ball, wff, v, Trim(r));
    PatternBinder(wff, wff_bex, wff, v, Trim(r));
  }

  lemma BfQuantifierShapes(v: Node, r: Node)
    requires Wrapped(bf, r)
    ensures BuildBfAll(v, r) == Make(bf, [Make(bf_all, [v, r])])
    ensures BuildBfEx(v, r) == Make(bf, [Make(bf_ex, [v, r])])
  {
    Unwrap(bf, r);
    PatternBinder(bf, bf_all, bf, v, Trim(r));
    PatternBinder(bf, bf_ex, bf, v, Trim(r));
  }

  /** `bf_constant` wraps an algebra leaf as `{ e }`. */
  lemma BfConstantShape(e: Elem)
    ensures Apply1(BldrBfConstant, BaLeaf(e)) == Make(bf, [Make(bf_constant, [Make(constant, [BaLeaf(e)])])])
  {
    Pattern1(bf, bf_constant, constant, BaLeaf(e));
  }

  /** `build_bf_xor(l, r)` is `(l' & r) | (r' & l)`. */
  lemma BfXorShape(l: Node, r: Node)
    requires Wrapped(bf, l) && Wrapped(bf, r)
    ensures BuildBfXor(l, r) ==
            Make(bf, [Make(bf_or, [Make(bf, [Make(bf_and, [Make(bf, [Make(bf_neg, [l])]), r])]),
                                   Make(bf, [Make(bf_and, [Make(bf, [Make(bf_neg, [r])]), l])])])])
  {
    BfShapes(l, r);
    BfShapes(r, l);
    var nl, nr := BuildBfNeg(l), BuildBfNeg(r);
    BfShapes(nl, r);
    BfShapes(nr, l);
    BfShapes(BuildBfAnd(nl, r), BuildBfAnd(nr, l));
  }

  /** `build_bf_less_equal(l, r)` is the equation `(l & r') = 0`. */
  lemma BfLessEqualShape(l: Node, r: Node)
    requires Wrapped(bf, l) && Wrapped(bf, r)
    ensures BuildBfLessEqual(l, r) ==
            Make(wff, [Make(bf_eq, [Make(bf, [Make(bf_and, [l, Make(bf, [Make(bf_neg, [r])])])]), BfZero])])
  {
    BfShapes(r, l);
    var nr := BuildBfNeg(r);
    assert nr == Make(bf, [Make(bf_neg, [r])]);
    BfShapes(l, nr);
    var a := BuildBfAnd(l, nr);
    assert a == Make(bf, [Make(bf_and, [l, nr])]);
    BfShapes(a, a);
    assert BuildBfLessEqual(l, r) == BuildWffEq(a);
  }

  /**
   * `build_bf_less(l, r)`, as written, puts the two equations `(l & r') = 0`
   * and `(l + r') != 0` under a bf `|`, not under a wff `||`.
   */
  lemma BfLessShape(l: Node, r: Node)
    requires Wrapped(bf, l) && Wrapped(bf, r)
    ensures BuildBfLess(l, r) ==
            Make(bf, [Make(bf_or, [
              Make(bf, [Make(bf_eq, [BuildBfAnd(l, BuildBfNeg(r)), BfZero])]),
              Make(bf, [Make(bf_neq, [BuildBfXor(l, BuildBfNeg(r)), BfZero])])])])
  {
    BfShapes(r, l);
    var nr := BuildBfNeg(r);
    assert nr == Make(bf, [Make(bf_neg, [r])]);
    BfShapes(l, nr);
    var a := BuildBfAnd(l, nr);
    assert a == Make(bf, [Make(bf_and, [l, nr])]);
    BfShapes(a, a);
    BfXorShape(l, nr);
    var x := BuildBfXor(l, nr);
    assert Wrapped(bf, x);
    BfShapes(x, x);
    var e, ne := BuildWffEq(a), BuildWffNeq(x);
    assert e == Make(wff, [Make(bf_eq, [a, BfZero])]);
    assert ne == Make(wff, [Make(bf_neq, [x, BfZero])]);
    BfOrShape(Make(bf_eq, [a, BfZero]), Make(bf_neq, [x, BfZero]));
    assert BuildBfLess(l, r) == Apply2(BldrBfOr, Trim(e), Trim(ne));
  }

  // ---------------------------------------------------------------------------
  // The build_* constructors are the builders applied

  /** `build_wff_eq`, `build_wff_neq` and the wff connectives are their builders applied to the trimmed operands. */
  lemma WffBuildersInstantiate(l: Node, r: Node)
    requires |l.children| > 0 && |r.children| > 0
    ensures BuildWffEq(l) == Apply1(BldrWffEq, Trim(l))
    ensures BuildWffNeq(l) == Apply1(BldrWffNeq, Trim(l))
    ensures BuildWffAnd(l, r) == Apply2(BldrWffAnd, Trim(l), Trim(r))
    ensures BuildWffOr(l, r) == Apply2(BldrWffOr, Trim(l), Trim(r))
    ensures BuildWffNeg(l) == Apply1(BldrWffNeg, Trim(l))
  {
    WffEqShape(Trim(l));
    WffAndShape(Trim(l), Trim(r));
    WffOrShape(Trim(l), Trim(r));
    Pattern1(wff, wff_neg, wff, Trim(l));
  }

  /** The bf connectives are their builders applied to the trimmed operands. */
  lemma BfBuildersInstantiate(l: Node, r: Node)
    requires |l.children| > 0 && |r.children| > 0
    ensures BuildBfAnd(l, r) == Apply2(BldrBfAnd, Trim(l), Trim(r))
    ensures BuildBfOr(l, r) == Apply2(BldrBfOr, Trim(l), Trim(r))
    ensures BuildBfNeg(l) == Apply1(BldrBfNeg, Trim(l))
  {
    BfAndShape(Trim(l), Trim(r));
    BfOrShape(Trim(l), Trim(r));
    BfNegShape(Trim(l));
  }

  /** The tau connectives are their builders applied to the trimmed operands. */
  lemma TauBuildersInstantiate(l: Node, r: Node)
    requires |l.children| > 0 && |r.children| > 0
    ensures BuildTauAnd(l, r) == Apply2(BldrTauAnd, Trim(l), Trim(r))
    ensures BuildTauOr(l, r) == Apply2(BldrTauOr, Trim(l), Trim(r))
    ensures BuildTauNeg(l) == Apply1(BldrTauNeg, Trim(l))
  {
    TauAndShape(Trim(l), Trim(r));
    TauOrShape(Trim(l), Trim(r));
    TauNegShape(Trim(l));
  }

  /** The quantifier constructors keep the variable and trim the body before applying their builders. */
  lemma BinderBuildersInstantiate(v: Node, r: Node)
    requires |r.children| > 0
    ensures BuildWffAll(v, r) == Apply2(BldrWffAll, v, Trim(r))
    ensures BuildWffEx(v, r) == Apply2(BldrWffEx, v, Trim(r))
    ensures BuildWffBall(v, r) == Apply2(BldrWffBall, v, Trim(r))
    ensures BuildWffBex(v, r) == Apply2(BldrWffBex, v, Trim(r))
    ensures BuildBfAll(v, r) == Apply2(BldrBfAll, v, Trim(r))
    ensures BuildBfEx(v, r) == Apply2(BldrBfEx, v, Trim(r))
  {
    PatternBinder(wff, wff_all, wff, v, Trim(r));
    PatternBinder(wff, wff_ex, wff, v, Trim(r));
    PatternBinder(wff, wff_ball, wff, v, Trim(r));
    PatternBinder(wff, wff_bex, wff, v, Trim(r));
    PatternBinder(bf, bf_all, bf, v, Trim(r));
    PatternBinder(bf, bf_ex, bf, v, Trim(r));
  }

  // ---------------------------------------------------------------------------
  // Propositional reading of wff and tau trees

  /** The node kinds of a propositional layer: wrapper, conjunction, disjunction, negation. */
  datatype Family = Family(node: Nt, conj: Nt, disj: Nt, neg: Nt)

  const WffFamily := Family(wff, wff_and, wff_or, wff_neg)
  const TauFamily := Family(tau, tau_and, tau_or, tau_neg)

  /**
   * The truth value of a tree built from the family's connectives and the
   * constants `T`/`F`; every other subtree is an atom valued by `val`.
   */
  function Eval(f: Family, n: Node, val: Node -> bool): bool
  {
    if IsNonTerminal(f.node, n) && |n.children| == 1 then Eval(f, n.children[0], val)
    else if IsNonTerminal(f.conj, n) && |n.children| == 2 then Eval(f, n.children[0], val) && Eval(f, n.children[1], val)
    else if IsNonTerminal(f.disj, n) && |n.children| == 2 then Eval(f, n.children[0], val) || Eval(f, n.children[1], val)
    else if IsNonTerminal(f.neg, n) && |n.children| == 1 then !Eval(f, n.children[0], val)
    else if IsNonTerminal(wff_t, n) then true
    else if IsNonTerminal(wff_f, n) then false
    else val(n)
  }

  /** One step of `Eval` on each connective of a family. */
  lemma EvalSteps(f: Family, a: Node, b: Node, val: Node -> bool)
    requires f == WffFamily || f == TauFamily
    ensures Eval(f, Make(f.node, [a]), val) == Eval(f, a, val)
    ensures Eval(f, Make(f.conj, [a, b]), val) == (Eval(f, a, val) && Eval(f, b, val))
    ensures Eval(f, Make(f.disj, [a, b]), val) == (Eval(f, a, val) || Eval(f, b, val))
    ensures Eval(f, Make(f.neg, [a]), val) == !Eval(f, a, val)
  {
    EvalWrapper(f, a, val);
    EvalConj(f, a, b, val);
    EvalDisj(f, a, b, val);
    EvalNeg(f, a, val);
  }

  lemma EvalWrapper(f: Family, a: Node, val: Node -> bool)
    requires f == WffFamily || f == TauFamily
    ensures Eval(f, Make(f.node, [a]), val) == Eval(f, a, val)
  {
    assert IsNonTerminal(f.node, Make(f.node, [a]));
  }

  lemma EvalConj(f: Family, a: Node, b: Node, val: Node -> bool)
    requires f == WffFamily || f == TauFamily
    ensures Eval(f, Make(f.conj, [a, b]), val) == (Eval(f, a, val) && Eval(f, b, val))
  {
    var n := Make(f.conj, [a, b]);
    assert !IsNonTerminal(f.node, n) && IsNonTerminal(f.conj, n);
  }

  lemma EvalDisj(f: Family, a: Node, b: Node, val: Node -> bool)
    requires f == WffFamily || f == TauFamily
    ensures Eval(f, Make(f.disj, [a, b]), val) == (Eval(f, a, val) || Eval(f, b, val))
  {
    var n := Make(f.disj, [a, b]);
    assert !IsNonTerminal(f.node, n) && !IsNonTerminal(f.conj, n) && IsNonTerminal(f.disj, n);
  }

  lemma EvalNeg(f: Family, a: Node, val: Node -> bool)
    requires f == WffFamily || f == TauFamily
    ensures Eval(f, Make(f.neg, [a]), val) == !Eval(f, a, val)
  {
    var n := Make(f.neg, [a]);
    assert !IsNonTerminal(f.node, n) && !IsNonTerminal(f.conj, n) && !IsNonTerminal(f.disj, n);
  }

  /** `build_wff_imply(l, r)` is `!l || r`. */
  lemma WffImplyMeaning(l: Node, r: Node, val: Node -> bool)
    requires Wrapped(wff, l) && Wrapped(wff, r)
    ensures Wrapped(wff, BuildWffImply(l, r))
    ensures Eval(WffFamily, BuildWffImply(l, r), val) == (!Eval(WffFamily, l, val) || Eval(WffFamily, r, val))
  {
    var f := WffFamily;
    WffShapes(l, r);
    var nl := BuildWffNeg(l);
    assert nl == Make(wff, [Make(wff_neg, [l])]);
    WffShapes(nl, r);
    var res := BuildWffImply(l, r);
    assert res == Make(wff, [Make(wff_or, [nl, r])]);
    EvalSteps(f, l, r, val);
    EvalSteps(f, Make(wff_neg, [l]), r, val);
    EvalSteps(f, nl, r, val);
    EvalSteps(f, Make(wff_or, [nl, r]), r, val);
  }

  /** `build_wff_xor(l, r)` is true exactly when `l` and `r` differ. */
  lemma WffXorMeaning(l: Node, r: Node, val: Node -> bool)
    requires Wrapped(wff, l) && Wrapped(wff, r)
    ensures Eval(WffFamily, BuildWffXor(l, r), val) == (Eval(WffFamily, l, val) != Eval(WffFamily, r, val))
  {
    var f := WffFamily;
    WffShapes(l, r);
    WffShapes(r, l);
    var nl, nr := BuildWffNeg(l), BuildWffNeg(r);
    assert nl == Make(wff, [Make(wff_neg, [l])]);
    assert nr == Make(wff, [Make(wff_neg, [r])]);
    WffShapes(nl, r);
    WffShapes(nr, l);
    var a1, a2 := BuildWffAnd(nl, r), BuildWffAnd(nr, l);
    assert a1 == Make(wff, [Make(wff_and, [nl, r])]);
    assert a2 == Make(wff, [Make(wff_and, [nr, l])]);
    WffShapes(a1, a2);
    assert BuildWffXor(l, r) == Make(wff, [Make(wff_or, [a1, a2])]);
    EvalSteps(f, l, r, val);
    EvalSteps(f, r, l, val);
    EvalSteps(f, Make(wff_neg, [l]), r, val);
    EvalSteps(f, Make(wff_neg, [r]), l, val);
    EvalSteps(f, nl, r, val);
    EvalSteps(f, nr, l, val);
    EvalSteps(f, Make(wff_and, [nl, r]), r, val);
    EvalSteps(f, Make(wff_and, [nr, l]), r, val);
    EvalSteps(f, a1, a2, val);
    EvalSteps(f, Make(wff_or, [a1, a2]), r, val);
  }

  /** `build_wff_equiv(l, r)` is true exactly when `l` and `r` agree. */
  lemma WffEquivMeaning(l: Node, r: Node, val: Node -> bool)
    requires Wrapped(wff, l) && Wrapped(wff, r)
    ensures Eval(WffFamily, BuildWffEquiv(l, r), val) == (Eval(WffFamily, l, val) == Eval(WffFamily, r, val))
  {
    var f := WffFamily;
    WffImplyMeaning(l, r, val);
    WffImplyMeaning(r, l, val);
    var i1, i2 := BuildWffImply(l, r), BuildWffImply(r, l);
    WffShapes(i1, i2);
    assert BuildWffEquiv(l, r) == Make(wff, [Make(wff_and, [i1, i2])]);
    EvalSteps(f, i1, i2, val);
    EvalSteps(f, Make(wff_and, [i1, i2]), i2, val);
  }

  /** `build_wff_conditional(x, y, z)` is `y` when `x` holds and `z` otherwise. */
  lemma WffConditionalMeaning(x: Node, y: Node, z: Node, val: Node -> bool)
    requires Wrapped(wff, x) && Wrapped(wff, y) && Wrapped(wff, z)
    ensures Eval(WffFamily, BuildWffConditional(x, y, z), val) ==
            if Eval(WffFamily, x, val) then Eval(WffFamily, y, val) else Eval(WffFamily, z, val)
  {
    var f := WffFamily;
    WffShapes(x, y);
    var nx := BuildWffNeg(x);
    assert nx == Make(wff, [Make(wff_neg, [x])]);
    EvalSteps(f, x, y, val);
    EvalSteps(f, Make(wff_neg, [x]), y, val);
    WffImplyMeaning(x, y, val);
    WffImplyMeaning(nx, z, val);
    var i1, i2 := BuildWffImply(x, y), BuildWffImply(nx, z);
    WffShapes(i1, i2);
    assert BuildWffConditional(x, y, z) == Make(wff, [Make(wff_and, [i1, i2])]);
    EvalSteps(f, i1, i2, val);
    EvalSteps(f, Make(wff_and, [i1, i2]), i2, val);
  }

  /** `build_tau_xor(l, r)` is true exactly when `l` and `r` differ. */
  lemma TauXorMeaning(l: Node, r: Node, val: Node -> bool)
    requires Wrapped(tau, l) && Wrapped(tau, r)
    ensures Eval(TauFamily, BuildTauXor(l, r), val) == (Eval(TauFamily, l, val) != Eval(TauFamily, r, val))
  {
    var f := TauFamily;
    TauShapes(l, r);
    TauShapes(r, l);
    var nl, nr := BuildTauNeg(l), BuildTauNeg(r);
    assert nl == Make(tau, [Make(tau_neg, [l])]);
    assert nr == Make(tau, [Make(tau_neg, [r])]);
    TauShapes(nl, r);
    TauShapes(nr, l);
    var a1, a2 := BuildTauAnd(nl, r), BuildTauAnd(nr, l);
    assert a1 == Make(tau, [Make(tau_and, [nl, r])]);
    assert a2 == Make(tau, [Make(tau_and, [nr, l])]);
    TauShapes(a1, a2);
    assert BuildTauXor(l, r) == Make(tau, [Make(tau_or, [a1, a2])]);
    EvalSteps(f, l, r, val);
    EvalSteps(f, r, l, val);
    EvalSteps(f, Make(tau_neg, [l]), r, val);
    EvalSteps(f, Make(tau_neg, [r]), l, val);
    EvalSteps(f, nl, r, val);
    EvalSteps(f, nr, l, val);
    EvalSteps(f, Make(tau_and, [nl, r]), r, val);
    EvalSteps(f, Make(tau_and, [nr, l]), r, val);
    EvalSteps(f, a1, a2, val);
    EvalSteps(f, Make(tau_or, [a1, a2]), r, val);
  }

  /** `build_tau_equiv(l, r)` is true exactly when `l` and `r` agree. */
  lemma TauEquivMeaning(l: Node, r: Node, val: Node -> bool)
    requires Wrapped(tau, l) && Wrapped(tau, r)
    ensures Eval(TauFamily, BuildTauEquiv(l, r), val) == (Eval(TauFamily, l, val) == Eval(TauFamily, r, val))
  {
    var f := TauFamily;
    TauShapes(l, r);
    TauShapes(r, l);
    var nl, nr := BuildTauNeg(l), BuildTauNeg(r);
    assert nl == Make(tau, [Make(tau_neg, [l])]);
    assert nr == Make(tau, [Make(tau_neg, [r])]);
    TauShapes(nl, r);
    TauShapes(nr, l);
    var o1, o2 := BuildTauOr(nl, r), BuildTauOr(nr, l);
    assert o1 == Make(tau, [Make(tau_or, [nl, r])]);
    assert o2 == Make(tau, [Make(tau_or, [nr, l])]);
    TauShapes(o1, o2);
    assert BuildTauEquiv(l, r) == Make(tau, [Make(tau_and, [o1, o2])]);
    EvalSteps(f, l, r, val);
    EvalSteps(f, r, l, val);
    EvalSteps(f, Make(tau_neg, [l]), r, val);
    EvalSteps(f, Make(tau_neg, [r]), l, val);
    EvalSteps(f, nl, r, val);
    EvalSteps(f, nr, l, val);
    EvalSteps(f, Make(tau_or, [nl, r]), r, val);
    EvalSteps(f, Make(tau_or, [nr, l]), r, val);
    EvalSteps(f, o1, o2, val);
    EvalSteps(f, Make(tau_and, [o1, o2]), r, val);
  }

  /** The constant leaves `T` and `F` evaluate to true and false. */
  lemma EvalConstants(val: Node -> bool)
    ensures Eval(WffFamily, Make(wff_t, []), val)
    ensures !Eval(WffFamily, Make(wff_f, []), val)
  {
  }

  /** `_T` evaluates to false, while the canonical `T` evaluates to true. */
  lemma TrueConstantValues(val: Node -> bool)
    ensures !Eval(WffFamily, WffTrue, val)
    ensures Eval(WffFamily, CanonicalTrue, val)
  {
    var t, ff := Make(wff_t, []), Make(wff_f, []);
    assert WffTrue == Make(wff, [ff]);
    EvalConstants(val);
    EvalWrapper(WffFamily, ff, val);
    EvalWrapper(WffFamily, t, val);
  }
}
