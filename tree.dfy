/**
 * The trees the Tau rewriting engine works on (`tau_sym` / `sp_tau_node` of
 * src/nso_rr.h), the category predicates, the child selectors `|` and `||`,
 * the extractors, and the generic tree helpers `replace`, `select_all` and
 * `find_top` that the engine uses everywhere.
 *
 * Trees are kept in the shape the engine inspects: the punctuation leaves the
 * parser keeps (parentheses, operator symbols) are not represented, and the
 * repetition helper nodes of the grammar are flattened, so that a builder head
 * holds its captures as direct children.
 */
module TauTree {
  import opened Wrappers

  /** An element of one of the Boolean algebras (`std::variant<BAs...>`); kept abstract. */
  type Elem(==, !new)

  /** The nonterminals of the Tau grammar the engine refers to by name. */
  datatype Nt =
    // formulas
    | wff | bf | tau | capture | variable
    | wff_and | wff_or | wff_neg | wff_all | wff_ex | wff_ball | wff_bex | wff_t | wff_f
    | bf_eq | bf_neq | bf_not_less_equal
    | bf_and | bf_or | bf_neg | bf_all | bf_ex | bf_t | bf_f | bf_splitter
    | bf_constant | constant | binding
    | tau_and | tau_or | tau_neg
    | shift | num
    // whitespace: `_` (optional) and `__` (required) in the grammar
    | opt_ws | req_ws
    // callbacks and their argument wrappers
    | bf_and_cb | bf_or_cb | bf_xor_cb | bf_neg_cb | bf_eq_cb | bf_neq_cb
    | bf_is_one_cb | bf_is_zero_cb
    | wff_has_clashing_subformulas_cb | bf_has_subformula_cb | wff_has_subformula_cb
    | wff_remove_existential_cb | wff_remove_buniversal_cb | wff_remove_bexistential_cb
    | bf_remove_funiversal_cb | bf_remove_fexistential_cb
    | tau_collapse_positives_cb | tau_positives_upwards_cb
    | bf_cb_arg | wff_cb_arg | tau_cb_arg
    // rules and builders
    | rule | bf_rule | wff_rule | tau_rule
    | bf_matcher | bf_body | wff_matcher | wff_body | tau_matcher | tau_body
    | builder_head

  /** A grammar symbol (`idni::lit<char, char>`): a nonterminal, a terminal character, or null. */
  datatype Lit = NonTerminal(nt: Nt) | Terminal(ch: char) | Null

  /** `tau_sym`: a grammar symbol, an algebra element, or a `size_t` offset. */
  datatype Sym = Source(lit: Lit) | Ba(elem: Elem) | Offset(offset: nat)

  /** A tree node: a value and its ordered children. */
  datatype Node = Node(value: Sym, children: seq<Node>)

  // ---------------------------------------------------------------------------
  // Node construction

  /** A nonterminal node with the given children (`make_node`). */
  function Make(nt: Nt, children: seq<Node>): Node
  {
    Node(Source(NonTerminal(nt)), children)
  }

  /** `wrap(t, n)`: a `t` node whose only child is `n`. */
  function Wrap(nt: Nt, n: Node): (r: Node)
    ensures IsNonTerminal(nt, r) && OnlyChild(r) == Some(n)
  {
    Make(nt, [n])
  }

  /** A leaf holding an algebra element. */
  function BaLeaf(e: Elem): Node
  {
    Node(Ba(e), [])
  }

  /** A leaf holding an offset (`size_t`). */
  function NumLeaf(k: nat): Node
  {
    Node(Offset(k), [])
  }

  // ---------------------------------------------------------------------------
  // Category predicates

  predicate IsNonTerminalNode(n: Node)
  {
    n.value.Source? && n.value.lit.NonTerminal?
  }

  predicate IsNonTerminal(nt: Nt, n: Node)
  {
    IsNonTerminalNode(n) && n.value.lit.nt == nt
  }

  /** Terminal nodes: every grammar symbol that is not a nonterminal, including null. */
  predicate IsTerminalNode(n: Node)
  {
    n.value.Source? && !n.value.lit.NonTerminal?
  }

  predicate IsTerminal(c: char, n: Node)
  {
    IsTerminalNode(n) && n.value.lit == Terminal(c)
  }

  predicate IsCapture(n: Node)
  {
    IsNonTerminal(capture, n)
  }

  predicate IsVarOrCapture(n: Node)
  {
    IsNonTerminal(capture, n) || IsNonTerminal(variable, n)
  }

  predicate IsQuantifierNt(nt: Nt)
  {
    nt in {bf_all, bf_ex, wff_all, wff_ex, wff_ball, wff_bex}
  }

  predicate IsQuantifier(n: Node)
  {
    IsNonTerminalNode(n) && IsQuantifierNt(n.value.lit.nt)
  }

  /** The whitespace nonterminals `_` and `__`. */
  predicate IsWhitespace(n: Node)
  {
    IsNonTerminal(opt_ws, n) || IsNonTerminal(req_ws, n)
  }

  /** Non-essential symbols are the whitespace nonterminals in this model. */
  predicate IsNonEssential(n: Node)
  {
    n.value.Source? && IsWhitespace(n)
  }

  /** The sixteen nonterminals `is_callback` accepts; the two tau callbacks are not among them. */
  predicate IsCallbackNt(nt: Nt)
  {
    nt in {bf_and_cb, bf_or_cb, bf_xor_cb, bf_neg_cb, bf_eq_cb, bf_neq_cb,
           bf_is_one_cb, bf_is_zero_cb, wff_has_clashing_subformulas_cb,
           bf_has_subformula_cb, wff_has_subformula_cb, wff_remove_existential_cb,
           wff_remove_buniversal_cb, wff_remove_bexistential_cb,
           bf_remove_funiversal_cb, bf_remove_fexistential_cb}
  }

  predicate IsCallback(n: Node)
  {
    IsNonTerminalNode(n) && IsCallbackNt(n.value.lit.nt)
  }

  /** How the category predicates and the extractors relate. */
  lemma CategoryPredicates(n: Node)
    ensures IsNonTerminalNode(n) ==> !IsTerminalNode(n)
    ensures n.value.Source? ==> IsNonTerminalNode(n) || IsTerminalNode(n)
    ensures IsCapture(n) ==> IsVarOrCapture(n) && !IsQuantifier(n) && !IsCallback(n)
    ensures IsQuantifier(n) ==> !IsCallback(n)
    ensures IsCallback(n) || IsQuantifier(n) || IsVarOrCapture(n) ==> NonTerminalOf(n).Some?
    ensures !IsCallback(Make(tau_collapse_positives_cb, n.children))
    ensures !IsCallback(Make(tau_positives_upwards_cb, n.children))
  {
  }

  // ---------------------------------------------------------------------------
  // Selectors: `n | nt` and `n || nt`

  /** The elements of `s` that are `nt` nodes, in order. */
  function Filter(s: seq<Node>, nt: Nt): (r: seq<Node>)
    ensures |r| <= |s|
  {
    if s == [] then []
    else if IsNonTerminal(nt, s[0]) then [s[0]] + Filter(s[1..], nt)
    else Filter(s[1..], nt)
  }

  /** `Filter` keeps exactly the `nt` nodes of `s`. */
  lemma {:induction false} FilterMembers(s: seq<Node>, nt: Nt)
    ensures forall x :: x in Filter(s, nt) <==> x in s && IsNonTerminal(nt, x)
  {
    if s != [] {
      FilterMembers(s[1..], nt);
      assert s == [s[0]] + s[1..];
    }
  }

  /** `n || nt`: the children of `n` that are `nt` nodes, in order. */
  function Children(n: Node, nt: Nt): (r: seq<Node>)
    ensures |r| <= |n.children|
  {
    Filter(n.children, nt)
  }

  /** The first element of `s` that is an `nt` node. */
  function FirstOf(s: seq<Node>, nt: Nt): (r: Option<Node>)
    ensures r.Some? ==> r.value in s && IsNonTerminal(nt, r.value)
  {
    if s == [] then None
    else if IsNonTerminal(nt, s[0]) then Some(s[0])
    else FirstOf(s[1..], nt)
  }

  /** `FirstOf` finds nothing exactly when `s` has no `nt` node. */
  lemma {:induction false} FirstOfNone(s: seq<Node>, nt: Nt)
    ensures FirstOf(s, nt).None? <==> forall i :: 0 <= i < |s| ==> !IsNonTerminal(nt, s[i])
  {
    if s != [] && !IsNonTerminal(nt, s[0]) {
      var t := s[1..];
      FirstOfNone(t, nt);
      assert forall j :: 0 < j < |s| ==> s[j] == t[j - 1];
    }
  }

  /** What `FirstOf` finds is the `nt` node of `s` that no other `nt` node precedes. */
  lemma {:induction false} FirstOfFirst(s: seq<Node>, nt: Nt)
    requires FirstOf(s, nt).Some?
    ensures exists i :: 0 <= i < |s| && s[i] == FirstOf(s, nt).value
                        && forall j :: 0 <= j < i ==> !IsNonTerminal(nt, s[j])
  {
    if IsNonTerminal(nt, s[0]) {
      assert s[0] == FirstOf(s, nt).value;
    } else {
      var t := s[1..];
      FirstOfFirst(t, nt);
      var i :| 0 <= i < |t| && t[i] == FirstOf(t, nt).value
               && forall j :: 0 <= j < i ==> !IsNonTerminal(nt, t[j]);
      forall j | 0 <= j < i + 1 ensures !IsNonTerminal(nt, s[j]) {
        if j > 0 { assert s[j] == t[j - 1]; }
      }
      assert s[i + 1] == t[i];
    }
  }

  /** `n | nt`: the first child of `n` that is an `nt` node, if any. */
  function Child(n: Node, nt: Nt): Option<Node>
  {
    FirstOf(n.children, nt)
  }

  /** `o | nt` on an optional node. */
  function ChildOf(o: Option<Node>, nt: Nt): Option<Node>
  {
    if o.Some? then Child(o.value, nt) else None
  }

  /** `o || nt` on an optional node. */
  function ChildrenOf(o: Option<Node>, nt: Nt): seq<Node>
  {
    if o.Some? then Children(o.value, nt) else []
  }

  /** `v || nt` on a vector: the `nt` children of every node of `v`, concatenated. */
  function ChildrenAll(v: seq<Node>, nt: Nt): (r: seq<Node>)
  {
    if v == [] then []
    else
      var r := Children(v[0], nt) + ChildrenAll(v[1..], nt);
      assert forall i :: 1 <= i < |v| ==> v[i] == v[1..][i - 1];
      r
  }

  lemma {:induction false} FilterHead(s: seq<Node>, nt: Nt)
    ensures Filter(s, nt) == [] <==> FirstOf(s, nt).None?
    ensures Filter(s, nt) != [] ==> FirstOf(s, nt) == Some(Filter(s, nt)[0])
  {
    if s != [] && !IsNonTerminal(nt, s[0]) {
      FilterHead(s[1..], nt);
    }
  }

  /** `n | nt` is the head of `n || nt`. */
  lemma ChildIsFirstOfChildren(n: Node, nt: Nt)
    ensures Child(n, nt) == if Children(n, nt) == [] then None else Some(Children(n, nt)[0])
  {
    FilterHead(n.children, nt);
  }

  // ---------------------------------------------------------------------------
  // Extractors

  /** `terminal_extractor`: the character of a non-null terminal node. */
  function TerminalOf(n: Node): (r: Option<char>)
    ensures r.Some? <==> IsTerminalNode(n) && n.value.lit != Null
    ensures r.Some? ==> IsTerminal(r.value, n)
  {
    if n.value.Source? && n.value.lit.Terminal? then Some(n.value.lit.ch) else None
  }

  /** `non_terminal_extractor`: the nonterminal of a nonterminal node. */
  function NonTerminalOf(n: Node): (r: Option<Nt>)
    ensures r.Some? <==> IsNonTerminalNode(n)
    ensures forall nt :: r == Some(nt) <==> IsNonTerminal(nt, n)
  {
    if IsNonTerminalNode(n) then Some(n.value.lit.nt) else None
  }

  /** `offset_extractor` (= `size_t_extractor`): the offset a node holds. */
  function OffsetOf(n: Node): (r: Option<nat>)
    ensures r.Some? <==> n.value.Offset?
    ensures forall k: nat :: r == Some(k) <==> n.value == Offset(k)
  {
    if n.value.Offset? then Some(n.value.offset) else None
  }

  /** `ba_extractor`: the algebra element a node holds. */
  function BaOf(n: Node): (r: Option<Elem>)
    ensures r.Some? <==> n.value.Ba?
    ensures forall e :: r == Some(e) <==> n.value == Ba(e)
  {
    if n.value.Ba? then Some(n.value.elem) else None
  }

  /** `only_child_extractor`: the child of a node that has exactly one. */
  function OnlyChild(n: Node): (r: Option<Node>)
    ensures r.Some? <==> |n.children| == 1
    ensures r.Some? ==> n.children == [r.value]
  {
    if |n.children| == 1 then Some(n.children[0]) else None
  }

  /** `o | only_child_extractor` on an optional node. */
  function OnlyChildOf(o: Option<Node>): Option<Node>
  {
    if o.Some? then OnlyChild(o.value) else None
  }

  /** `v || only_child_extractor`: the only children of those nodes of `v` that have one. */
  function OnlyChildren(v: seq<Node>): (r: seq<Node>)
    ensures |r| <= |v|
    ensures forall x :: x in r <==> exists i :: 0 <= i < |v| && OnlyChild(v[i]) == Some(x)
  {
    if v == [] then []
    else
      var rest := OnlyChildren(v[1..]);
      assert forall i :: 1 <= i < |v| ==> v[i] == v[1..][i - 1];
      if OnlyChild(v[0]).Some? then [OnlyChild(v[0]).value] + rest else rest
  }

  /** `v || ba_extractor`: the algebra elements held by the nodes of `v`, skipping the others. */
  function BaElements(v: seq<Node>): (r: seq<Elem>)
    ensures |r| <= |v|
    ensures forall e :: e in r <==> exists i :: 0 <= i < |v| && BaOf(v[i]) == Some(e)
  {
    if v == [] then []
    else
      var rest := BaElements(v[1..]);
      assert forall i :: 1 <= i < |v| ==> v[i] == v[1..][i - 1];
      if v[0].value.Ba? then [v[0].value.elem] + rest else rest
  }

  /** The vector extractors keep the order of their input: extracting from `a + b` is extracting from `a`, then from `b`. */
  lemma {:induction false} ExtractAppend(a: seq<Node>, b: seq<Node>)
    ensures OnlyChildren(a + b) == OnlyChildren(a) + OnlyChildren(b)
    ensures BaElements(a + b) == BaElements(a) + BaElements(b)
  {
    if a == [] {
      assert a + b == b;
    } else {
      assert (a + b)[1..] == a[1..] + b;
      ExtractAppend(a[1..], b);
    }
  }

  /** Extracting from a freshly built leaf gives back what was stored. */
  lemma LeafRoundTrips(e: Elem, k: nat, nt: Nt, n: Node)
    ensures BaOf(BaLeaf(e)) == Some(e) && OffsetOf(BaLeaf(e)) == None
    ensures OffsetOf(NumLeaf(k)) == Some(k) && BaOf(NumLeaf(k)) == None
    ensures NonTerminalOf(Make(nt, [n])) == Some(nt) && OnlyChild(Make(nt, [n])) == Some(n)
    ensures OnlyChildren([Make(nt, [n])]) == [n]
  {
  }

  /** `n || arg || only_child_extractor`: the arguments of a callback node, unwrapped. */
  function CallbackArgs(n: Node, arg: Nt): seq<Node>
  {
    OnlyChildren(Children(n, arg))
  }

  /** Each node of `xs` under its own `nt` node, as a callback holds its arguments. */
  function WrapEach(nt: Nt, xs: seq<Node>): (r: seq<Node>)
    ensures |r| == |xs|
    ensures forall i :: 0 <= i < |xs| ==> r[i] == Make(nt, [xs[i]])
  {
    if xs == [] then [] else [Make(nt, [xs[0]])] + WrapEach(nt, xs[1..])
  }

  lemma {:induction false} FilterAppend(s: seq<Node>, t: seq<Node>, nt: Nt)
    ensures Filter(s + t, nt) == Filter(s, nt) + Filter(t, nt)
  {
    if s == [] {
      assert s + t == t;
    } else {
      assert (s + t)[0] == s[0] && (s + t)[1..] == s[1..] + t;
      FilterAppend(s[1..], t, nt);
    }
  }

  lemma {:induction false} UnwrapEach(nt: Nt, other: Nt, xs: seq<Node>)
    requires nt != other
    ensures OnlyChildren(Filter(WrapEach(nt, xs), nt)) == xs
    ensures Filter(WrapEach(nt, xs), other) == []
  {
    if xs != [] {
      var w := WrapEach(nt, xs);
      assert w[1..] == WrapEach(nt, xs[1..]);
      UnwrapEach(nt, other, xs[1..]);
      assert Filter(w, nt) == [w[0]] + Filter(w[1..], nt);
      assert OnlyChildren([w[0]] + Filter(w[1..], nt)) == [xs[0]] + OnlyChildren(Filter(w[1..], nt)) by {
        assert ([w[0]] + Filter(w[1..], nt))[1..] == Filter(w[1..], nt);
      }
    }
  }

  /**
   * A callback node whose arguments of kind `a` are `xs`, followed by its
   * arguments of kind `b`, `ys`: selecting either kind gives them back.
   */
  lemma CallbackArgsOf(k: Nt, a: Nt, xs: seq<Node>, b: Nt, ys: seq<Node>)
    requires a != b
    ensures CallbackArgs(Make(k, WrapEach(a, xs) + WrapEach(b, ys)), a) == xs
    ensures CallbackArgs(Make(k, WrapEach(a, xs) + WrapEach(b, ys)), b) == ys
  {
    var wa, wb := WrapEach(a, xs), WrapEach(b, ys);
    var n := Make(k, wa + wb);
    FilterAppend(wa, wb, a);
    FilterAppend(wa, wb, b);
    UnwrapEach(a, b, xs);
    UnwrapEach(b, a, ys);
    assert Children(n, a) == Filter(wa, a) by {
      assert Filter(wa + wb, a) == Filter(wa, a) + [];
    }
    assert Children(n, b) == Filter(wb, b) by {
      assert Filter(wa + wb, b) == [] + Filter(wb, b);
    }
  }

  // ---------------------------------------------------------------------------
  // Subtrees, `replace`, `select_all`, `find_top`

  /** The number of nodes of a tree; the measure the traversals below decrease. */
  function Size(n: Node): (r: nat)
    ensures r >= 1
  {
    1 + SizeAll(n.children)
  }

  function SizeAll(s: seq<Node>): nat
  {
    if s == [] then 0 else Size(s[0]) + SizeAll(s[1..])
  }

  lemma {:induction false} SizeOfElement(s: seq<Node>, i: int)
    requires 0 <= i < |s|
    ensures Size(s[i]) <= SizeAll(s)
  {
    if i > 0 {
      SizeOfElement(s[1..], i - 1);
    }
  }

  lemma {:induction false} SizeOfFilter(s: seq<Node>, nt: Nt)
    ensures SizeAll(Filter(s, nt)) <= SizeAll(s)
  {
    if s != [] {
      SizeOfFilter(s[1..], nt);
      if IsNonTerminal(nt, s[0]) {
        assert ([s[0]] + Filter(s[1..], nt))[1..] == Filter(s[1..], nt);
      }
    }
  }

  /** A child is smaller than its parent. */
  lemma SizeOfChild(n: Node, i: int)
    requires 0 <= i < |n.children|
    ensures Size(n.children[i]) < Size(n)
  {
    SizeOfElement(n.children, i);
  }

  /** `x` is `n` or a subtree of `n`. */
  predicate Occurs(x: Node, n: Node)
  {
    x == n || exists i :: 0 <= i < |n.children| && Occurs(x, n.children[i])
  }

  /**
   * `replace(n, changes)`: every top-most subtree of `n` that is a key of
   * `changes` is replaced by its image; replacements are not rewritten again.
   */
  function Replace(n: Node, changes: map<Node, Node>): Node
  {
    if n in changes then changes[n]
    else Node(n.value, ReplaceAll(n.children, changes))
  }

  function ReplaceAll(s: seq<Node>, changes: map<Node, Node>): (r: seq<Node>)
    ensures |r| == |s|
    ensures forall i :: 0 <= i < |s| ==> r[i] == Replace(s[i], changes)
  {
    if s == [] then [] else [Replace(s[0], changes)] + ReplaceAll(s[1..], changes)
  }

  /** A tree none of whose subtrees is a key is left as it is. */
  lemma {:induction false} ReplaceUntouched(n: Node, changes: map<Node, Node>)
    requires forall k :: k in changes ==> !Occurs(k, n)
    ensures Replace(n, changes) == n
  {
    var cs := ReplaceAll(n.children, changes);
    forall i | 0 <= i < |n.children|
      ensures cs[i] == n.children[i]
    {
      forall k | k in changes ensures !Occurs(k, n.children[i]) {
        assert !Occurs(k, n);
      }
      ReplaceUntouched(n.children[i], changes);
    }
    assert cs == n.children;
  }

  /** Replacing with no changes is the identity. */
  lemma ReplaceNothing(n: Node)
    ensures Replace(n, map[]) == n
  {
    ReplaceUntouched(n, map[]);
  }

  /** The image of a key that occurs in the tree occurs in the result. */
  lemma {:induction false} ReplaceSingle(n: Node, k: Node, v: Node)
    requires Occurs(k, n)
    ensures Occurs(v, Replace(n, map[k := v]))
  {
    var m := map[k := v];
    if n != k {
      var i :| 0 <= i < |n.children| && Occurs(k, n.children[i]);
      ReplaceSingle(n.children[i], k, v);
      assert Replace(n, m).children[i] == Replace(n.children[i], m);
    }
  }

  /** `select_all(n, p)`: the subtrees of `n` that satisfy `p`, in pre-order, the root first. */
  function SelectAll(n: Node, p: Node -> bool): (r: seq<Node>)
  {
    (if p(n) then [n] else []) + SelectAllIn(n.children, p)
  }

  function SelectAllIn(s: seq<Node>, p: Node -> bool): (r: seq<Node>)
  {
    if s == [] then [] else SelectAll(s[0], p) + SelectAllIn(s[1..], p)
  }

  /** `select_all` keeps exactly the subtrees that satisfy `p`. */
  lemma {:induction false} SelectAllMembers(n: Node, p: Node -> bool)
    ensures forall x :: x in SelectAll(n, p) <==> Occurs(x, n) && p(x)
  {
    SelectAllInMembers(n.children, p);
  }

  lemma {:induction false} SelectAllInMembers(s: seq<Node>, p: Node -> bool)
    ensures forall x :: x in SelectAllIn(s, p) <==> p(x) && exists i :: 0 <= i < |s| && Occurs(x, s[i])
  {
    if s != [] {
      SelectAllMembers(s[0], p);
      SelectAllInMembers(s[1..], p);
      assert forall i :: 1 <= i < |s| ==> s[i] == s[1..][i - 1];
    }
  }

  /** `find_top(n, p)`: the first subtree of `n` in pre-order that satisfies `p`. */
  function FindTop(n: Node, p: Node -> bool): (r: Option<Node>)
    ensures r.Some? ==> p(r.value) && Occurs(r.value, n)
    ensures r.None? ==> forall x :: Occurs(x, n) ==> !p(x)
  {
    if p(n) then Some(n) else FindTopIn(n.children, p)
  }

  function FindTopIn(s: seq<Node>, p: Node -> bool): (r: Option<Node>)
    ensures r.Some? ==> p(r.value) && exists i :: 0 <= i < |s| && Occurs(r.value, s[i])
    ensures r.None? ==> forall x, i :: 0 <= i < |s| && Occurs(x, s[i]) ==> !p(x)
  {
    if s == [] then None
    else
      var h := FindTop(s[0], p);
      assert forall i :: 1 <= i < |s| ==> s[i] == s[1..][i - 1];
      if h.Some? then h else FindTopIn(s[1..], p)
  }

  /** `find_top` returns the head of `select_all`. */
  lemma {:induction false} FindTopIsFirstSelected(n: Node, p: Node -> bool)
    ensures FindTop(n, p) == if SelectAll(n, p) == [] then None else Some(SelectAll(n, p)[0])
  {
    if !p(n) {
      FindTopInIsFirstSelected(n.children, p);
    }
  }

  lemma {:induction false} FindTopInIsFirstSelected(s: seq<Node>, p: Node -> bool)
    ensures FindTopIn(s, p) == if SelectAllIn(s, p) == [] then None else Some(SelectAllIn(s, p)[0])
  {
    if s != [] {
      FindTopIsFirstSelected(s[0], p);
      FindTopInIsFirstSelected(s[1..], p);
    }
  }
}
