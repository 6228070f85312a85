/**
 * Binding of named constants (src/nso_rr.h:612-673): `name_binder` turns a
 * `binding` node whose name is in the bindings map into a leaf holding the
 * bound algebra element, and `bind_transformer`, run bottom-up over a tree,
 * applies it to every binding node while memoising the nodes it changed.
 */
module Binding {
  import opened Wrappers
  import opened TauTree

  /** `bindings`: names to algebra elements. */
  type Bindings = map<string, Elem>

  // ---------------------------------------------------------------------------
  // name_binder

  /**
   * The terminal characters of `n` in post-order, skipping whitespace subtrees
   * (`make_string_with_skip` with `not_whitespace_predicate`).
   */
  function Text(n: Node): string
  {
    if IsWhitespace(n) then []
    else TextAll(n.children) + (if TerminalOf(n).Some? then [TerminalOf(n).value] else [])
  }

  function TextAll(s: seq<Node>): string
  {
    if s == [] then [] else Text(s[0]) + TextAll(s[1..])
  }

  /** `name_binder::bind`: a leaf with the bound element if the name is bound, otherwise `n` itself. */
  function NameBind(bindings: Bindings, n: Node): Node
  {
    var name := Text(n);
    if name in bindings then BaLeaf(bindings[name]) else n
  }

  /** One terminal leaf per character. */
  function Chars(s: string): (r: seq<Node>)
    ensures |r| == |s|
  {
    if s == [] then [] else [Node(Source(Terminal(s[0])), [])] + Chars(s[1..])
  }

  lemma {:induction false} TextAllAppend(a: seq<Node>, b: seq<Node>)
    ensures TextAll(a + b) == TextAll(a) + TextAll(b)
  {
    if a == [] {
      assert a + b == b;
    } else {
      assert (a + b)[0] == a[0] && (a + b)[1..] == a[1..] + b;
      TextAllAppend(a[1..], b);
    }
  }

  lemma {:induction false} TextOfChars(s: string)
    ensures TextAll(Chars(s)) == s
  {
    if s != [] {
      TextOfChars(s[1..]);
      assert Text(Node(Source(Terminal(s[0])), [])) == [s[0]];
    }
  }

  /**
   * The name of a binding node is the concatenation of its characters with the
   * whitespace left out; a bound name becomes the bound element.
   */
  lemma NameBindSpelledOut(bindings: Bindings, a: string, b: string, ws: Node)
    requires IsWhitespace(ws)
    requires a + b in bindings
    ensures Text(Make(binding, Chars(a) + [ws] + Chars(b))) == a + b
    ensures NameBind(bindings, Make(binding, Chars(a) + [ws] + Chars(b))) == BaLeaf(bindings[a + b])
  {
    var cs := Chars(a) + [ws] + Chars(b);
    var m := Make(binding, cs);
    assert Text(m) == TextAll(cs) by {
      assert !IsWhitespace(m) && TerminalOf(m).None?;
    }
    SpelledText(a, b, ws);
  }

  /** The characters of `a`, a whitespace subtree and the characters of `b` read as `a + b`. */
  lemma SpelledText(a: string, b: string, ws: Node)
    requires IsWhitespace(ws)
    ensures TextAll(Chars(a) + [ws] + Chars(b)) == a + b
  {
    assert TextAll([ws]) == [] by {
      assert Text(ws) == [] && [ws][1..] == [];
    }
    TextAllAppend(Chars(a) + [ws], Chars(b));
    TextAllAppend(Chars(a), [ws]);
    TextOfChars(a);
    TextOfChars(b);
  }

  /** `name_binder` as the binder a transformer is instantiated with. */
  function NameBinder(bindings: Bindings): Node -> Node
  {
    x => NameBind(bindings, x)
  }

  // ---------------------------------------------------------------------------
  // bind_transformer, as a function of the tree

  /**
   * The tree with every binding node replaced by what `binder` makes of it
   * (the transformer is generic in its binder, src/nso_rr.h:612-613).
   */
  function Bind(binder: Node -> Node, n: Node): Node
  {
    if IsNonTerminal(binding, n) then binder(n)
    else Node(n.value, BindAll(binder, n.children))
  }

  function BindAll(binder: Node -> Node, s: seq<Node>): (r: seq<Node>)
    ensures |r| == |s|
  {
    if s == [] then [] else [Bind(binder, s[0])] + BindAll(binder, s[1..])
  }

  /** `BindAll` binds each node of the sequence on its own. */
  lemma {:induction false} BindAllEach(binder: Node -> Node, s: seq<Node>)
    ensures forall i :: 0 <= i < |s| ==> BindAll(binder, s)[i] == Bind(binder, s[i])
  {
    if s != [] {
      BindAllEach(binder, s[1..]);
    }
  }

  /** A tree without binding nodes is left as it is, whatever the binder. */
  lemma {:induction false} BindWithoutBindings(binder: Node -> Node, n: Node)
    requires forall x :: Occurs(x, n) ==> !IsNonTerminal(binding, x)
    ensures Bind(binder, n) == n
  {
    forall i | 0 <= i < |n.children|
      ensures Bind(binder, n.children[i]) == n.children[i]
    {
      forall x | Occurs(x, n.children[i]) ensures !IsNonTerminal(binding, x) {
        assert Occurs(x, n);
      }
      BindWithoutBindings(binder, n.children[i]);
    }
    BindAllEach(binder, n.children);
    assert BindAll(binder, n.children) == n.children;
  }

  /** Binding a tree by name twice is binding it once. */
  lemma {:induction false} BindIdempotent(bindings: Bindings, n: Node)
    ensures Bind(NameBinder(bindings), Bind(NameBinder(bindings), n)) == Bind(NameBinder(bindings), n)
  {
    var b := NameBinder(bindings);
    if !IsNonTerminal(binding, n) {
      var cs := BindAll(b, n.children);
      BindAllEach(b, n.children);
      forall i | 0 <= i < |n.children|
        ensures Bind(b, cs[i]) == cs[i]
      {
        BindIdempotent(bindings, n.children[i]);
      }
      BindAllEach(b, cs);
      assert BindAll(b, cs) == cs;
    } else {
      assert b(n) == NameBind(bindings, n);
    }
  }

  // ---------------------------------------------------------------------------
  // bind_transformer, as the source runs it

  ghost predicate Settled(binder: Node -> Node, changes: map<Node, Node>, c: Node)
  {
    c in changes || Bind(binder, c) == c
  }

  /** Memoising more nodes keeps every settled node settled. */
  lemma SettledGrows(binder: Node -> Node, before: map<Node, Node>, after: map<Node, Node>, cs: seq<Node>, i: nat)
    requires i < |cs| && before.Keys <= after.Keys
    requires forall j :: 0 <= j < i ==> Settled(binder, before, cs[j])
    requires Settled(binder, after, cs[i])
    ensures forall j :: 0 <= j < i + 1 ==> Settled(binder, after, cs[j])
  {
    forall j | 0 <= j < i + 1
      ensures Settled(binder, after, cs[j])
    {
      if j < i {
        assert Settled(binder, before, cs[j]);
      }
    }
  }

  /**
   * `bind_transformer`: the memo table `changes` maps every node it has
   * changed to its bound form; `Apply` is `operator()` and `Run` the
   * bottom-up traversal that drives it.
   */
  class BindTransformer {
    var changes: map<Node, Node>
    const binder: Node -> Node

    /** Every memoised node maps to its bound form. */
    ghost predicate Valid()
      reads this
    {
      forall k :: k in changes ==> changes[k] == Bind(binder, k)
    }

    /** A node is done when it is memoised or binding leaves it as it is. */
    ghost predicate Done(c: Node)
      reads this
    {
      Settled(binder, changes, c)
    }

    constructor (binder: Node -> Node)
      ensures Valid() && this.binder == binder && changes == map[]
    {
      this.binder := binder;
      changes := map[];
    }

    /** `operator()`: expects the children of `n` to have been visited. */
    method Apply(n: Node) returns (r: Node)
      requires Valid()
      requires forall i :: 0 <= i < |n.children| ==> Settled(binder, changes, n.children[i])
      modifies this
      ensures Valid() && Done(n)
      ensures r == Bind(binder, n)
      ensures changes.Keys >= old(changes).Keys
    {
      if n in changes {
        return changes[n];
      }
      if IsNonTerminal(binding, n) {
        r := binder(n);
        changes := changes[n := r];
        return;
      }
      var child, changed := BoundChildren(n);
      r := Node(n.value, child);
      if changed {
        changes := changes[n := r];
      }
    }

    /**
     * The children of `n` with every memoised one replaced by its bound form,
     * and whether any was replaced.
     */
    method BoundChildren(n: Node) returns (child: seq<Node>, changed: bool)
      requires Valid()
      requires forall i :: 0 <= i < |n.children| ==> Settled(binder, changes, n.children[i])
      ensures child == BindAll(binder, n.children)
      ensures !changed ==> child == n.children
    {
      changed := false;
      child := [];
      var i := 0;
      while i < |n.children|
        invariant 0 <= i <= |n.children|
        invariant |child| == i
        invariant forall j :: 0 <= j < i ==> child[j] == Bind(binder, n.children[j])
        invariant !changed ==> child == n.children[..i]
      {
        var c := n.children[i];
        if c in changes {
          changed := true;
          child := child + [changes[c]];
        } else {
          assert Settled(binder, changes, c);
          child := child + [c];
        }
        i := i + 1;
      }
      BindAllEach(binder, n.children);
      assert n.children[..i] == n.children;
    }

    /** The bottom-up traversal: children first, then the node itself. */
    method Run(n: Node) returns (r: Node)
      requires Valid()
      modifies this
      ensures Valid() && Done(n)
      ensures r == Bind(binder, n)
      ensures changes.Keys >= old(changes).Keys
      decreases n
    {
      var i := 0;
      while i < |n.children|
        invariant 0 <= i <= |n.children|
        invariant Valid()
        invariant forall j :: 0 <= j < i ==> Settled(binder, changes, n.children[j])
        invariant changes.Keys >= old(changes).Keys
      {
        ghost var before := changes;
        var _ := Run(n.children[i]);
        assert Done(n.children[i]);
        SettledGrows(binder, before, changes, n.children, i);
        i := i + 1;
      }
      r := Apply(n);
    }
  }

  /** `bind_tau_code_using_bindings`: a fresh name-binding transformer run over the whole tree. */
  method BindConstants(bindings: Bindings, n: Node) returns (r: Node)
    ensures r == Bind(NameBinder(bindings), n)
  {
    var bt := new BindTransformer(NameBinder(bindings));
    r := bt.Run(n);
  }
}
