/**
 * The step combinators of src/normalizer2.h (260-416): `step`, `steps`,
 * `repeat_each`, `repeat_all`, `repeat_once` and the `operator|`
 * compositions.
 *
 * A `step` holds a library of rules and applies it with `tau_apply`;
 * formula.h, where `tau_apply` lives, is not part of this model, so it is
 * the parameter `Engine.tauApply`, and `SinglePass` is the reading of it as
 * one pass of `nso_rr_apply` over the library's rules. The `repeat_*`
 * loops stop when an output has been seen before; nothing bounds the number
 * of rounds, so the functions below carry a fuel bound and return
 * `None` when it runs out.
 */
module Combinators {
  import opened Wrappers
  import opened TauTree
  import opened Builders
  import opened Drivers

  /** What a step runs on: `tau_apply(lib, n)`. */
  datatype Engine = Engine(tauApply: (seq<Rule>, Node) -> Node)

  /** `tau_apply` as one pass of `nso_rr_apply` over the library, each rule once, in order. */
  function SinglePass(apply: Node -> Node, matcher: Matcher): Engine
  {
    Engine((lib, n) => ApplyAll(apply, matcher, lib, n))
  }

  /** `step(lib)`: one library of rules. */
  datatype Step = Step(lib: seq<Rule>)

  /** `steps<step_t>`: an ordered list of steps. */
  datatype Steps<S> = Steps(libraries: seq<S>)

  /** `step::operator()`: `tau_apply(lib, n)`, one pass over the library. */
  function RunStep(e: Engine, st: Step, n: Node): Node
  {
    e.tauApply(st.lib, n)
  }

  /** `steps::operator()` and `repeat_once::operator()`: each step in turn, each seeing the previous output. */
  function RunSteps(e: Engine, libs: seq<Step>, n: Node): Node
  {
    if libs == [] then n else RunSteps(e, libs[1..], RunStep(e, libs[0], n))
  }

  /** Running `a + b` runs `a`, then `b` on its result. */
  lemma {:induction false} RunStepsAppend(e: Engine, a: seq<Step>, b: seq<Step>, n: Node)
    ensures RunSteps(e, a + b, n) == RunSteps(e, b, RunSteps(e, a, n))
  {
    if a == [] {
      assert a + b == b;
    } else {
      assert (a + b)[1..] == a[1..] + b;
      RunStepsAppend(e, a[1..], b, RunStep(e, a[0], n));
    }
  }

  /** The rules of the libraries, in order. */
  function Flatten(libs: seq<Step>): seq<Rule>
  {
    if libs == [] then [] else libs[0].lib + Flatten(libs[1..])
  }

  /**
   * With single-pass steps, a sequence of libraries runs like the single
   * library holding all their rules in order.
   */
  lemma {:induction false} RunStepsFlatten(apply: Node -> Node, matcher: Matcher, libs: seq<Step>, n: Node)
    ensures RunSteps(SinglePass(apply, matcher), libs, n) == ApplyAll(apply, matcher, Flatten(libs), n)
  {
    if libs != [] {
      var e := SinglePass(apply, matcher);
      ApplyAllOrder(apply, matcher, libs[0].lib, Flatten(libs[1..]), n);
      RunStepsFlatten(apply, matcher, libs[1..], RunStep(e, libs[0], n));
    }
  }

  /** `steps::operator()`: an empty `steps` returns its input; otherwise `nn = lib(nn)` for each library. */
  method StepsApply(e: Engine, s: Steps<Step>, n: Node) returns (nn: Node)
    ensures nn == RunSteps(e, s.libraries, n)
  {
    if s.libraries == [] {
      return n;
    }
    nn := RepeatOnceApply(e, s, n);
  }

  /** `repeat_once::operator()`: each library of the steps exactly once, in order. */
  method RepeatOnceApply(e: Engine, s: Steps<Step>, n: Node) returns (nn: Node)
    ensures nn == RunSteps(e, s.libraries, n)
  {
    var libs := s.libraries;
    nn := n;
    for i := 0 to |libs|
      invariant RunSteps(e, libs, n) == RunSteps(e, libs[i..], nn)
    {
      assert libs[i..][1..] == libs[i + 1..];
      nn := ApplyStep(e, libs[i], nn);
    }
  }

  /** `step::operator()`. */
  method ApplyStep(e: Engine, st: Step, n: Node) returns (nn: Node)
    ensures nn == RunStep(e, st, n)
  {
    nn := e.tauApply(st.lib, n);
  }

  // ---------------------------------------------------------------------------
  // The fixed-point loop shared by repeat_all and repeat_each

  /** `f` applied `k` times to `n`. */
  function Iterate(f: Node -> Node, n: Node, k: nat): Node
  {
    if k == 0 then n else f(Iterate(f, n, k - 1))
  }

  /** The outputs of the first `k` rounds. */
  function Outputs(f: Node -> Node, n: Node, k: nat): set<Node>
  {
    if k == 0 then {} else Outputs(f, n, k - 1) + {Iterate(f, n, k)}
  }

  /**
   * The `while (true)` loop of `repeat_all` and `repeat_each`: `nn = f(nn)`,
   * stop when `nn` is in `visited`, else insert it. `fuel` bounds the
   * number of insertions.
   */
  function Cycle(f: Node -> Node, n: Node, visited: set<Node>, fuel: nat): Option<Node>
    decreases fuel
  {
    var nn := f(n);
    if nn in visited then Some(nn)
    else if fuel == 0 then None
    else Cycle(f, nn, visited + {nn}, fuel - 1)
  }

  lemma {:induction false} IterateShift(f: Node -> Node, n: Node, k: nat)
    ensures Iterate(f, f(n), k) == Iterate(f, n, k + 1)
  {
    if k > 0 {
      IterateShift(f, n, k - 1);
    }
  }

  lemma {:induction false} OutputsShift(f: Node -> Node, n: Node, k: nat)
    ensures {f(n)} + Outputs(f, f(n), k) == Outputs(f, n, k + 1)
  {
    assert Iterate(f, n, 1) == f(n);
    if k > 0 {
      OutputsShift(f, n, k - 1);
      IterateShift(f, n, k);
    }
  }

  /**
   * The loop returns an output it has seen before: the `j`-th output, which
   * is in `visited` or equals one of the `j - 1` outputs before it.
   */
  lemma {:induction false} CycleSeen(f: Node -> Node, n: Node, visited: set<Node>, fuel: nat)
    requires Cycle(f, n, visited, fuel).Some?
    ensures exists j :: 1 <= j && Cycle(f, n, visited, fuel).value == Iterate(f, n, j) &&
                        Iterate(f, n, j) in visited + Outputs(f, n, j - 1)
    decreases fuel
  {
    var nn := f(n);
    var r := Cycle(f, n, visited, fuel).value;
    if nn in visited {
      assert Iterate(f, n, 1) == nn;
      assert r == Iterate(f, n, 1) && Iterate(f, n, 1) in visited + Outputs(f, n, 0);
    } else {
      CycleSeen(f, nn, visited + {nn}, fuel - 1);
      var j :| 1 <= j && r == Iterate(f, nn, j) && Iterate(f, nn, j) in visited + {nn} + Outputs(f, nn, j - 1);
      IterateShift(f, n, j);
      OutputsShift(f, n, j - 1);
      assert r == Iterate(f, n, j + 1) && Iterate(f, n, j + 1) in visited + Outputs(f, n, j);
    }
  }

  /** A tree the step leaves alone is returned after two rounds. */
  lemma CycleOfFixed(f: Node -> Node, n: Node, fuel: nat)
    requires f(n) == n && fuel >= 1
    ensures Cycle(f, n, {}, fuel) == Some(n)
  {
    assert Cycle(f, n, {n}, fuel - 1) == Some(n);
  }

  /** When a second application changes nothing, the loop returns the first output. */
  lemma CycleOfIdempotent(f: Node -> Node, n: Node, fuel: nat)
    requires f(f(n)) == f(n) && fuel >= 1
    ensures Cycle(f, n, {}, fuel) == Some(f(n))
  {
    assert Cycle(f, f(n), {f(n)}, fuel - 1) == Some(f(n));
  }

  // ---------------------------------------------------------------------------
  // repeat_all and repeat_each

  /** The steps as one step function. */
  function StepsFn(e: Engine, libs: seq<Step>): Node -> Node
  {
    x => RunSteps(e, libs, x)
  }

  /** One library as a step function. */
  function StepFn(e: Engine, st: Step): Node -> Node
  {
    x => RunStep(e, st, x)
  }

  /** `repeat_all::operator()`: the whole sequence, over and over, with one `visited` set. */
  function RepeatAll(e: Engine, libs: seq<Step>, n: Node, fuel: nat): (r: Option<Node>)
    ensures r.Some? ==> exists j :: 1 <= j && r.value == Iterate(StepsFn(e, libs), n, j) &&
                                    Iterate(StepsFn(e, libs), n, j) in Outputs(StepsFn(e, libs), n, j - 1)
  {
    var f := StepsFn(e, libs);
    var c := Cycle(f, n, {}, fuel);
    if c.Some? then
      CycleSeen(f, n, {}, fuel);
      assert forall j: nat :: {} + Outputs(f, n, j) == Outputs(f, n, j);
      c
    else c
  }

  /** `repeat_each::operator()`: each library to its own repetition, with a fresh `visited` set, in order. */
  function RepeatEach(e: Engine, libs: seq<Step>, n: Node, fuel: nat): (r: Option<Node>)
    ensures libs == [] ==> r == Some(n)
    ensures libs != [] && Cycle(StepFn(e, libs[0]), n, {}, fuel).None? ==> r.None?
  {
    if libs == [] then Some(n)
    else match Cycle(StepFn(e, libs[0]), n, {}, fuel)
      case None => None
      case Some(m) => RepeatEach(e, libs[1..], m, fuel)
  }

  /** `repeat_all` returns an output of the whole sequence that it had produced before. */
  lemma RepeatAllSeen(e: Engine, libs: seq<Step>, n: Node, fuel: nat)
    requires RepeatAll(e, libs, n, fuel).Some?
    ensures exists i, j :: 1 <= i < j && RepeatAll(e, libs, n, fuel).value == Iterate(StepsFn(e, libs), n, j) &&
                           Iterate(StepsFn(e, libs), n, i) == Iterate(StepsFn(e, libs), n, j)
  {
    var f := StepsFn(e, libs);
    CycleSeen(f, n, {}, fuel);
    var j :| 1 <= j && RepeatAll(e, libs, n, fuel).value == Iterate(f, n, j) && Iterate(f, n, j) in Outputs(f, n, j - 1);
    var i := OutputIndex(f, n, j - 1, Iterate(f, n, j));
  }

  /** An element of `Outputs(f, n, k)` is one of the first `k` outputs. */
  lemma {:induction false} OutputIndex(f: Node -> Node, n: Node, k: nat, x: Node) returns (i: nat)
    requires x in Outputs(f, n, k)
    ensures 1 <= i <= k && Iterate(f, n, i) == x
  {
    if x == Iterate(f, n, k) {
      i := k;
    } else {
      i := OutputIndex(f, n, k - 1, x);
    }
  }

  /** The loop depends only on the values of the step function. */
  lemma {:induction false} CycleSameSteps(f: Node -> Node, g: Node -> Node, n: Node, visited: set<Node>, fuel: nat)
    requires forall x :: f(x) == g(x)
    ensures Cycle(f, n, visited, fuel) == Cycle(g, n, visited, fuel)
    decreases fuel
  {
    if f(n) !in visited && fuel > 0 {
      CycleSameSteps(f, g, f(n), visited + {f(n)}, fuel - 1);
    }
  }

  /** With a single library, `repeat_each` and `repeat_all` agree. */
  lemma RepeatEachSingle(e: Engine, st: Step, n: Node, fuel: nat)
    ensures RepeatEach(e, [st], n, fuel) == RepeatAll(e, [st], n, fuel)
  {
    forall x
      ensures StepsFn(e, [st])(x) == StepFn(e, st)(x)
    {
      assert [st][1..] == [];
      assert RunSteps(e, [st], x) == RunSteps(e, [], RunStep(e, st, x));
    }
    CycleSameSteps(StepsFn(e, [st]), StepFn(e, st), n, {}, fuel);
    assert [st][1..] == [];
  }

  /** `repeat_each` over `a + b` repeats the libraries of `a`, then those of `b`. */
  lemma {:induction false} RepeatEachAppend(e: Engine, a: seq<Step>, b: seq<Step>, n: Node, fuel: nat)
    ensures RepeatEach(e, a + b, n, fuel) ==
            match RepeatEach(e, a, n, fuel)
            case None => None
            case Some(m) => RepeatEach(e, b, m, fuel)
  {
    if a == [] {
      assert a + b == b;
    } else {
      assert (a + b)[0] == a[0];
      assert (a + b)[1..] == a[1..] + b;
      match Cycle(StepFn(e, a[0]), n, {}, fuel)
      case None =>
      case Some(m) => RepeatEachAppend(e, a[1..], b, m, fuel);
    }
  }

  /** `repeat_all::operator()`: `while (true) { nn = s(nn); if (visited.contains(nn)) break; visited.insert(nn); }`. */
  method RepeatAllApply(e: Engine, s: Steps<Step>, n: Node, fuel: nat) returns (res: Option<Node>)
    ensures res == RepeatAll(e, s.libraries, n, fuel)
  {
    var f := StepsFn(e, s.libraries);
    var nn := n;
    var visited: set<Node> := {};
    var left := fuel;
    while true
      invariant Cycle(f, n, {}, fuel) == Cycle(f, nn, visited, left)
      decreases left
    {
      var next := StepsApply(e, s, nn);
      if next in visited {
        return Some(next);
      }
      if left == 0 {
        return None;
      }
      visited := visited + {next};
      nn := next;
      left := left - 1;
    }
  }

  /** `repeat_each::operator()`: for each library, a fresh `visited` set and the same loop. */
  method RepeatEachApply(e: Engine, s: Steps<Step>, n: Node, fuel: nat) returns (res: Option<Node>)
    ensures res == RepeatEach(e, s.libraries, n, fuel)
  {
    var libs := s.libraries;
    var nn := n;
    for i := 0 to |libs|
      invariant RepeatEach(e, libs, n, fuel) == RepeatEach(e, libs[i..], nn, fuel)
    {
      assert libs[i..][1..] == libs[i + 1..];
      var m := RepeatStep(e, libs[i], nn, fuel);
      if m.None? {
        return None;
      }
      nn := m.value;
    }
    return Some(nn);
  }

  /** The inner loop of `repeat_each` for one library. */
  method RepeatStep(e: Engine, st: Step, n: Node, fuel: nat) returns (res: Option<Node>)
    ensures res == Cycle(StepFn(e, st), n, {}, fuel)
  {
    var f := StepFn(e, st);
    var nn := n;
    var visited: set<Node> := {};
    var left := fuel;
    while true
      invariant Cycle(f, n, {}, fuel) == Cycle(f, nn, visited, left)
      decreases left
    {
      var next := ApplyStep(e, st, nn);
      if next in visited {
        return Some(next);
      }
      if left == 0 {
        return None;
      }
      visited := visited + {next};
      nn := next;
      left := left - 1;
    }
  }

  // ---------------------------------------------------------------------------
  // operator|

  /** `l | r` on two libraries, two `repeat_each` or two `repeat_all`: a two-element `steps`, `l` first. */
  method Pair<S>(l: S, r: S) returns (s: Steps<S>)
    ensures s.libraries == [l, r]
  {
    s := Steps([l]);
    s := s.(libraries := s.libraries + [r]);
  }

  /** `s | l`: a copy of `s` with `l` pushed at the end. */
  method Append<S>(s: Steps<S>, l: S) returns (ns: Steps<S>)
    ensures ns.libraries == s.libraries + [l]
  {
    ns := s;
    ns := ns.(libraries := ns.libraries + [l]);
  }

  /** What the compositions mean: `(s | l)(n)` is `l(s(n))`, and `(l | r)(n)` is `r(l(n))`. */
  lemma PipeMeaning(e: Engine, libs: seq<Step>, l: Step, r: Step, n: Node)
    ensures RunSteps(e, libs + [l], n) == RunStep(e, l, RunSteps(e, libs, n))
    ensures RunSteps(e, [l, r], n) == RunStep(e, r, RunStep(e, l, n))
  {
    RunStepsAppend(e, libs, [l], n);
    assert [l][1..] == [];
    assert [l, r][1..] == [r];
    assert [r][1..] == [];
    assert RunSteps(e, [r], RunStep(e, l, n)) == RunSteps(e, [], RunStep(e, r, RunStep(e, l, n)));
  }
}
