/**
 * The combinatorial iterators of src/iterators.h.
 *
 * `grey_code_const_iterator` (29-58) yields the deltas of the Gray binary
 * code of a given size: the index of the bit to flip to reach the next code.
 * Its body is not part of this model, so the iterator is Algorithm L
 * (loopless Gray binary generation) of Knuth, The Art of Computer
 * Programming, Volume 4A, section 7.2.1.1, which its documentation names:
 *
 *   L1. f_j := j for 0 <= j <= n.
 *   L3. j := f_0, f_0 := 0; if j = n stop; otherwise f_j := f_(j+1) and
 *       f_(j+1) := j + 1.  (L4 then flips bit j; the iterator yields j.)
 *
 * `power_set_const_iterator` (64-141) toggles the delta index in a set of
 * indices, and `partitions_const_iterator` (173-242) moves it between two
 * sets. `powerset_range` and `partition_range` (146-167, 247-268) wrap a
 * vector.
 */
module Iterators {

  // ---------------------------------------------------------------------------
  // Algorithm L on values

  /** The state of the Gray-code iterator: the focus pointers, the last delta, and whether it is at `end`. */
  datatype LState = LState(focus: seq<nat>, delta: nat, done: bool)

  /** A state for size `n`: `n + 1` focus pointers, each at most `n`, and a delta below `n` while not at `end`. */
  predicate WellFormed(n: nat, s: LState)
  {
    |s.focus| == n + 1 &&
    (forall i :: 0 <= i <= n ==> s.focus[i] <= n) &&
    (!s.done ==> s.delta < n)
  }

  /** Step L1: `f_j = j`. An iterator of size 0 is at `end` from the start. */
  function Init(n: nat): (s: LState)
    ensures WellFormed(n, s)
  {
    LState(seq(n + 1, j => j), 0, n == 0)
  }

  /** Step L3. At `end` the state stays as it is. */
  function Next(n: nat, s: LState): (r: LState)
    requires WellFormed(n, s)
    ensures WellFormed(n, r)
    ensures !r.done ==> r.delta == s.focus[0] && r.delta < n
    ensures s.done ==> r == s
  {
    if s.done then s
    else
      var j := s.focus[0];
      var f := s.focus[0 := 0];
      if j == n then LState(f, s.delta, true)
      else LState(f[j := f[j + 1]][j + 1 := j + 1], j, false)
  }

  /** The state after `k` increments. */
  function Run(n: nat, k: nat): (s: LState)
    ensures WellFormed(n, s)
  {
    if k == 0 then Init(n) else Next(n, Run(n, k - 1))
  }

  /** Once at `end`, the iterator stays there. */
  lemma {:induction false} RunStaysDone(n: nat, k: nat, m: nat)
    requires Run(n, k).done && k <= m
    ensures Run(n, m) == Run(n, k)
    decreases m - k
  {
    if k < m {
      RunStaysDone(n, k, m - 1);
    }
  }

  /** Flipping bit `i`, as the test harness does with each delta. */
  function Flip(code: seq<nat>, i: nat): seq<nat>
    requires i < |code|
  {
    code[i := if code[i] == 0 then 1 else 0]
  }

  /** The code after `k` increments, starting from all zeros and flipping each delta while not at `end`. */
  function Code(n: nat, k: nat): (c: seq<nat>)
    ensures |c| == n
  {
    if k == 0 then seq(n, _ => 0)
    else
      var s := Run(n, k);
      if s.done then Code(n, k - 1) else Flip(Code(n, k - 1), s.delta)
  }

  /** While not at `end`, consecutive codes differ in exactly the bit the delta names. */
  lemma CodeStep(n: nat, k: nat)
    requires k >= 1 && !Run(n, k).done
    ensures Run(n, k).delta < n
    ensures forall i :: 0 <= i < n ==> (Code(n, k)[i] != Code(n, k - 1)[i] <==> i == Run(n, k).delta)
  {
  }

  // ---------------------------------------------------------------------------
  // grey_code_const_iterator

  /** `grey_code_const_iterator`: the focus pointers live in an array of `size + 1` entries. */
  class GreyCodeIterator {
    var focusPointers: array<nat>
    const size: nat
    var delta: nat
    var done: bool

    ghost predicate Valid()
      reads this, focusPointers
    {
      WellFormed(size, State())
    }

    /** The state as a value. */
    function State(): LState
      reads this, focusPointers
    {
      LState(focusPointers[..], delta, done)
    }

    /** `grey_code_const_iterator(size)`. */
    constructor(n: nat)
      ensures Valid() && size == n && State() == Init(n)
      ensures fresh(focusPointers)
    {
      size := n;
      delta := 0;
      done := n == 0;
      var f := new nat[n + 1](j => j);
      focusPointers := f;
      assert f[..] == seq(n + 1, j => j);
    }

    /** `grey_code_const_iterator()`: the iterator of size 0, which is at `end`. */
    constructor Empty()
      ensures Valid() && size == 0 && State() == Init(0) && done
      ensures fresh(focusPointers)
    {
      size := 0;
      delta := 0;
      done := true;
      var f := new nat[1](j => j);
      focusPointers := f;
      assert f[..] == [0];
    }

    /** `operator++()`: one step of Algorithm L. */
    method Increment()
      requires Valid()
      modifies this, focusPointers
      ensures Valid() && focusPointers == old(focusPointers)
      ensures State() == Next(size, old(State()))
    {
      if done {
        return;
      }
      var j := focusPointers[0];
      focusPointers[0] := 0;
      if j == size {
        done := true;
        return;
      }
      focusPointers[j] := focusPointers[j + 1];
      focusPointers[j + 1] := j + 1;
      delta := j;
    }

    /** `operator++(int)`: the state before the step, then one step. */
    method PostIncrement() returns (previous: LState)
      requires Valid()
      modifies this, focusPointers
      ensures Valid() && focusPointers == old(focusPointers)
      ensures previous == old(State()) && State() == Next(size, previous)
    {
      previous := State();
      Increment();
    }

    /** `operator*`: the last delta, an index below `size` while not at `end`. */
    function Current(): (d: nat)
      requires Valid()
      reads this, focusPointers
      ensures !done ==> d < size
    {
      delta
    }

    /**
     * `== end`: at `end` a further step changes nothing; before it the
     * current delta is an index below `size`.
     */
    predicate AtEnd(): (b: bool)
      requires Valid()
      reads this, focusPointers
      ensures b ==> Next(size, State()) == State()
      ensures !b ==> Current() < size
    {
      done
    }
  }

  // ---------------------------------------------------------------------------
  // power_set_const_iterator

  /** The indices of `sub` below `n`, in ascending order (the order of `std::set`). */
  function Ascending(sub: set<nat>, n: nat): (r: seq<nat>)
  {
    if n == 0 then [] else Ascending(sub, n - 1) + (if n - 1 in sub then [n - 1] else [])
  }

  /** `Ascending` lists exactly the members below `n`, strictly increasing. */
  lemma {:induction false} AscendingIs(sub: set<nat>, n: nat)
    ensures forall i :: i in Ascending(sub, n) <==> i in sub && i < n
    ensures forall a, b :: 0 <= a < b < |Ascending(sub, n)| ==> Ascending(sub, n)[a] < Ascending(sub, n)[b]
  {
    if n > 0 {
      AscendingIs(sub, n - 1);
      var p := Ascending(sub, n - 1);
      forall a | 0 <= a < |p|
        ensures p[a] < n - 1
      {
        assert p[a] in p;
      }
    }
  }

  /** The elements of `elems` at the indices of `sub`, in ascending index order. */
  function Pick<T>(elems: seq<T>, sub: set<nat>): (r: seq<T>)
  {
    var idx := Ascending(sub, |elems|);
    seq(|idx|, k requires 0 <= k < |idx| => AscendingBelow(sub, |elems|, k); elems[idx[k]])
  }

  lemma AscendingBelow(sub: set<nat>, n: nat, k: nat)
    requires k < |Ascending(sub, n)|
    ensures Ascending(sub, n)[k] < n
  {
    AscendingIs(sub, n);
    assert Ascending(sub, n)[k] in Ascending(sub, n);
  }

  /** `operator++` of the power set: remove the delta if present, insert it otherwise. */
  function Toggle(sub: set<nat>, d: nat): (r: set<nat>)
    ensures forall i :: i in r <==> (if i == d then i !in sub else i in sub)
  {
    if d in sub then sub - {d} else sub + {d}
  }

  /** Toggling twice with the same delta gives the set back. */
  lemma ToggleInvolution(sub: set<nat>, d: nat)
    ensures Toggle(Toggle(sub, d), d) == sub
  {
  }

  /** `power_set_const_iterator<T>`: a Gray-code iterator over the indices and the current subset of them. */
  class PowerSetIterator<T(==)> {
    var greyCode: GreyCodeIterator
    const elems: seq<T>
    var subset: set<nat>

    ghost predicate Valid()
      reads this, greyCode, greyCode.focusPointers
    {
      greyCode.Valid() && greyCode.size == |elems|
    }

    /** `power_set_const_iterator(set)`: the empty subset. */
    constructor(s: seq<T>)
      ensures Valid() && elems == s && subset == {} && greyCode.State() == Init(|s|)
      ensures fresh(greyCode) && fresh(greyCode.focusPointers)
    {
      elems := s;
      subset := {};
      greyCode := new GreyCodeIterator(|s|);
    }

    /** `operator++()`: advance the Gray code and toggle the index it yields. */
    method Increment()
      requires Valid()
      modifies this, greyCode, greyCode.focusPointers
      ensures Valid() && greyCode == old(greyCode) && greyCode.focusPointers == old(greyCode.focusPointers)
      ensures greyCode.State() == Next(|elems|, old(greyCode.State()))
      ensures subset == Toggle(old(subset), greyCode.delta)
    {
      greyCode.Increment();
      var delta := greyCode.delta;
      if delta in subset {
        subset := subset - {delta};
      } else {
        subset := subset + {delta};
      }
    }

    /** `operator++(int)`: the subset before the step, then the same step as `operator++()`. */
    method PostIncrement() returns (previous: set<nat>)
      requires Valid()
      modifies this, greyCode, greyCode.focusPointers
      ensures Valid() && greyCode == old(greyCode) && greyCode.focusPointers == old(greyCode.focusPointers)
      ensures greyCode.State() == Next(|elems|, old(greyCode.State()))
      ensures previous == old(subset)
      ensures subset == Toggle(previous, greyCode.delta)
    {
      previous := subset;
      greyCode.Increment();
      var delta := greyCode.delta;
      if delta in subset {
        subset := subset - {delta};
      } else {
        subset := subset + {delta};
      }
    }

    /** `operator*`: the chosen elements, in ascending index order. */
    method Current() returns (v: seq<T>)
      requires Valid()
      ensures v == Pick(elems, subset)
    {
      v := [];
      ghost var idx: seq<nat> := [];
      for i := 0 to |elems|
        invariant idx == Ascending(subset, i)
        invariant |v| == |idx| && forall k :: 0 <= k < |v| ==> idx[k] < |elems| && v[k] == elems[idx[k]]
      {
        AscendingIs(subset, i);
        if i in subset {
          v := v + [elems[i]];
          idx := idx + [i];
        }
      }
      AscendingIs(subset, |elems|);
    }

    /**
     * `operator==`: the same vector and the same subset. Every iterator
     * equals itself, and equal iterators dereference to the same vector.
     */
    predicate Equals(that: PowerSetIterator<T>): (b: bool)
      reads this, that
      ensures this == that ==> b
      ensures b ==> Pick(elems, subset) == Pick(that.elems, that.subset)
    {
      elems == that.elems && subset == that.subset
    }

    /** `== end`: the Gray code is at `end`, where a further step changes nothing. */
    predicate AtEnd(): (b: bool)
      requires Valid()
      reads this, greyCode, greyCode.focusPointers
      ensures b ==> Next(|elems|, greyCode.State()) == greyCode.State()
      ensures !b ==> greyCode.Current() < |elems|
    {
      greyCode.done
    }
  }

  /** The subset after `k` increments of the power-set iterator over `n` elements. */
  function Subset(n: nat, k: nat): set<nat>
  {
    if k == 0 then {} else Toggle(Subset(n, k - 1), Run(n, k).delta)
  }

  // ---------------------------------------------------------------------------
  // partitions_const_iterator

  /** A value copy of a partitions iterator's two index sets. */
  datatype Halves = Halves(first: set<nat>, second: set<nat>)

  /**
   * `operator++()` of the partitions: move the delta from `first` to
   * `second`, or back. The delta ends up in exactly one half, on the other
   * side of `first` from where it was; every other index stays put.
   */
  function Move(h: Halves, d: nat): (r: Halves)
    ensures d in r.first <==> d !in h.first
    ensures d in r.first <==> d !in r.second
    ensures forall i :: i != d ==> (i in r.first <==> i in h.first) && (i in r.second <==> i in h.second)
  {
    if d in h.first then Halves(h.first - {d}, h.second + {d})
    else Halves(h.first + {d}, h.second - {d})
  }

  /** Moving keeps the halves disjoint and their union, up to the delta, the same. */
  lemma MoveKeepsDisjoint(h: Halves, d: nat)
    requires h.first !! h.second
    ensures Move(h, d).first !! Move(h, d).second
    ensures Move(h, d).first + Move(h, d).second == h.first + h.second + {d}
    ensures d in Move(h, d).first <==> d !in h.first
  {
  }

  /**
   * `operator++(int)` of the partitions, as written: only `first` is
   * toggled, so an index in `second` can end up in both halves.
   */
  function PostMove(h: Halves, d: nat): (r: Halves)
    ensures r.second == h.second
    ensures forall i :: i in r.first <==> (if i == d then i !in h.first else i in h.first)
  {
    Halves(Toggle(h.first, d), h.second)
  }

  /** The post-increment as written breaks disjointness when the delta is in `second`. */
  lemma PostMoveOverlaps(h: Halves, d: nat)
    requires d in h.second && h.first !! h.second
    ensures d in PostMove(h, d).first && d in PostMove(h, d).second
    ensures PostMove(h, d) != Move(h, d)
  {
  }

  /** `partitions_const_iterator<T>`: a Gray-code iterator over the indices and the two halves. */
  class PartitionsIterator<T(==)> {
    var greyCode: GreyCodeIterator
    const elems: seq<T>
    var first: set<nat>
    var second: set<nat>

    ghost predicate Valid()
      reads this, greyCode, greyCode.focusPointers
    {
      greyCode.Valid() && greyCode.size == |elems|
    }

    /** `partitions_const_iterator(set)`: both halves empty. */
    constructor(s: seq<T>)
      ensures Valid() && elems == s && first == {} && second == {} && greyCode.State() == Init(|s|)
      ensures fresh(greyCode) && fresh(greyCode.focusPointers)
    {
      elems := s;
      first := {};
      second := {};
      greyCode := new GreyCodeIterator(|s|);
    }

    /** `operator++()`: advance the Gray code and move the index it yields to the other half. */
    method Increment()
      requires Valid()
      modifies this, greyCode, greyCode.focusPointers
      ensures Valid() && greyCode == old(greyCode) && greyCode.focusPointers == old(greyCode.focusPointers)
      ensures greyCode.State() == Next(|elems|, old(greyCode.State()))
      ensures Halves(first, second) == Move(old(Halves(first, second)), greyCode.delta)
    {
      greyCode.Increment();
      var delta := greyCode.delta;
      if delta in first {
        first := first - {delta};
        second := second + {delta};
      } else {
        first := first + {delta};
        second := second - {delta};
      }
    }

    /** `operator++(int)`, as written: returns the halves before the step and toggles `first` only. */
    method PostIncrement() returns (previous: Halves)
      requires Valid()
      modifies this, greyCode, greyCode.focusPointers
      ensures Valid() && greyCode == old(greyCode) && greyCode.focusPointers == old(greyCode.focusPointers)
      ensures greyCode.State() == Next(|elems|, old(greyCode.State()))
      ensures previous == old(Halves(first, second))
      ensures Halves(first, second) == PostMove(previous, greyCode.delta)
    {
      previous := Halves(first, second);
      greyCode.Increment();
      var delta := greyCode.delta;
      if delta in first {
        first := first - {delta};
      } else {
        first := first + {delta};
      }
    }

    /**
     * `operator*`, as written: both vectors are built from `first`, and they
     * hold the indices themselves rather than the elements at them.
     */
    method Current() returns (f: seq<nat>, s: seq<nat>)
      requires Valid()
      ensures f == Ascending(first, |elems|) && s == f
    {
      f := [];
      for i := 0 to |elems|
        invariant f == Ascending(first, i)
      {
        if i in first {
          f := f + [i];
        }
      }
      s := [];
      for i := 0 to |elems|
        invariant s == Ascending(first, i)
      {
        if i in first {
          s := s + [i];
        }
      }
    }

    /**
     * `operator==`: the same vector and the same halves. Every iterator
     * equals itself, and equal iterators dereference to the same pair.
     */
    predicate Equals(that: PartitionsIterator<T>): (b: bool)
      reads this, that
      ensures this == that ==> b
      ensures b ==> Ascending(first, |elems|) == Ascending(that.first, |that.elems|)
    {
      elems == that.elems && first == that.first && second == that.second
    }

    /** At `end`: the Gray code is at `end`, where a further step changes nothing. */
    predicate AtEnd(): (b: bool)
      requires Valid()
      reads this, greyCode, greyCode.focusPointers
      ensures b ==> Next(|elems|, greyCode.State()) == greyCode.State()
      ensures !b ==> greyCode.Current() < |elems|
    {
      greyCode.done
    }
  }

  // ---------------------------------------------------------------------------
  // powerset_range and partition_range

  /** `powerset_range<T>`. */
  class PowersetRange<T(==)> {
    const elems: seq<T>

    constructor(s: seq<T>)
      ensures elems == s
    {
      elems := s;
    }

    /** `empty()`: the vector has no elements, which is exactly when `begin()` is already at `end`. */
    function Empty(): (b: bool)
      reads this
      ensures b <==> Init(|elems|).done
    {
      |elems| == 0
    }

    /** `begin()`: a fresh power-set iterator over the vector. */
    method Begin() returns (it: PowerSetIterator<T>)
      ensures fresh(it) && fresh(it.greyCode) && fresh(it.greyCode.focusPointers)
      ensures it.Valid() && it.elems == elems && it.subset == {} && it.greyCode.State() == Init(|elems|)
    {
      it := new PowerSetIterator(elems);
    }
  }

  /** `partition_range<T>`. */
  class PartitionRange<T(==)> {
    const elems: seq<T>

    constructor(s: seq<T>)
      ensures elems == s
    {
      elems := s;
    }

    /** `empty()`: the vector has no elements, which is exactly when `begin()` is already at `end`. */
    function Empty(): (b: bool)
      reads this
      ensures b <==> Init(|elems|).done
    {
      |elems| == 0
    }

    /** `begin()`: a fresh partitions iterator over the vector. */
    method Begin() returns (it: PartitionsIterator<T>)
      ensures fresh(it) && fresh(it.greyCode) && fresh(it.greyCode.focusPointers)
      ensures it.Valid() && it.elems == elems && it.first == {} && it.second == {} && it.greyCode.State() == Init(|elems|)
    {
      it := new PartitionsIterator(elems);
    }
  }

  // ---------------------------------------------------------------------------
  // The runs of the unit tests (tests/unit/test_iterators.cpp)

  /** `ss` starts at `Init` and each state is followed by its successor under `Next`. */
  ghost predicate Trace(n: nat, ss: seq<LState>)
  {
    0 < |ss| && ss[0] == Init(n) &&
    forall i :: 0 <= i < |ss| - 1 ==> WellFormed(n, ss[i]) && Next(n, ss[i]) == ss[i + 1]
  }

  /** A trace is what `Run` computes. */
  lemma {:induction false} RunIsTrace(n: nat, ss: seq<LState>, k: nat)
    requires Trace(n, ss) && k < |ss|
    ensures Run(n, k) == ss[k]
  {
    if k > 0 {
      RunIsTrace(n, ss, k - 1);
    }
  }

  /** `cs` starts at zero and each code flips the delta of the matching state of `ss`, unless at `end`. */
  ghost predicate CodeTrace(n: nat, ss: seq<LState>, cs: seq<seq<nat>>)
  {
    0 < |cs| <= |ss| && cs[0] == seq(n, _ => 0) &&
    forall i :: 0 < i < |cs| ==>
      if ss[i].done then cs[i] == cs[i - 1]
      else ss[i].delta < |cs[i - 1]| && cs[i] == Flip(cs[i - 1], ss[i].delta)
  }

  /** Codes that flip along a trace are what `Code` computes. */
  lemma {:induction false} CodeIsTrace(n: nat, ss: seq<LState>, cs: seq<seq<nat>>, k: nat)
    requires Trace(n, ss) && CodeTrace(n, ss, cs) && k < |cs|
    ensures Code(n, k) == cs[k]
  {
    if k > 0 {
      CodeIsTrace(n, ss, cs, k - 1);
      RunIsTrace(n, ss, k);
    }
  }

  /** `subs` starts empty and each index set toggles the delta of the matching state of `ss`. */
  ghost predicate SubsetTrace(ss: seq<LState>, subs: seq<set<nat>>)
  {
    0 < |subs| <= |ss| && subs[0] == {} &&
    forall i :: 0 < i < |subs| ==> subs[i] == Toggle(subs[i - 1], ss[i].delta)
  }

  /** Index sets that toggle along a trace are what `Subset` computes. */
  lemma {:induction false} SubsetIsTrace(n: nat, ss: seq<LState>, subs: seq<set<nat>>, k: nat)
    requires Trace(n, ss) && SubsetTrace(ss, subs) && k < |subs|
    ensures Subset(n, k) == subs[k]
  {
    if k > 0 {
      SubsetIsTrace(n, ss, subs, k - 1);
      RunIsTrace(n, ss, k);
    }
  }

  /** The states of Algorithm L for size 4. */
  const StatesFour: seq<LState> := [
    LState([0, 1, 2, 3, 4], 0, false),
    LState([1, 1, 2, 3, 4], 0, false),
    LState([0, 2, 2, 3, 4], 1, false),
    LState([2, 1, 2, 3, 4], 0, false),
    LState([0, 1, 3, 3, 4], 2, false),
    LState([1, 1, 3, 3, 4], 0, false),
    LState([0, 3, 2, 3, 4], 1, false),
    LState([3, 1, 2, 3, 4], 0, false),
    LState([0, 1, 2, 4, 4], 3, false),
    LState([1, 1, 2, 4, 4], 0, false),
    LState([0, 2, 2, 4, 4], 1, false),
    LState([2, 1, 2, 4, 4], 0, false),
    LState([0, 1, 4, 3, 4], 2, false),
    LState([1, 1, 4, 3, 4], 0, false),
    LState([0, 4, 2, 3, 4], 1, false),
    LState([4, 1, 2, 3, 4], 0, false),
    LState([0, 1, 2, 3, 4], 0, true)]

  /** The codes of size 4, bit 0 first, in the order the tests list them. */
  const GrayFour: seq<seq<nat>> := [
    [0, 0, 0, 0],
    [1, 0, 0, 0],
    [1, 1, 0, 0],
    [0, 1, 0, 0],
    [0, 1, 1, 0],
    [1, 1, 1, 0],
    [1, 0, 1, 0],
    [0, 0, 1, 0],
    [0, 0, 1, 1],
    [1, 0, 1, 1],
    [1, 1, 1, 1],
    [0, 1, 1, 1],
    [0, 1, 0, 1],
    [1, 1, 0, 1],
    [1, 0, 0, 1],
    [0, 0, 0, 1]]

  /** The index sets of the power set of four elements, in the order of the codes. */
  const IndexSetsFour: seq<set<nat>> := [
    {},
    {0},
    {0, 1},
    {1},
    {1, 2},
    {0, 1, 2},
    {0, 2},
    {2},
    {2, 3},
    {0, 2, 3},
    {0, 1, 2, 3},
    {1, 2, 3},
    {1, 3},
    {0, 1, 3},
    {0, 3},
    {3}]

  /** The subsets of `{1, 2, 3, 4}`, in the order the tests list them. */
  const PowerSetFour: seq<seq<int>> := [
    [],
    [1],
    [1, 2],
    [2],
    [2, 3],
    [1, 2, 3],
    [1, 3],
    [3],
    [3, 4],
    [1, 3, 4],
    [1, 2, 3, 4],
    [2, 3, 4],
    [2, 4],
    [1, 2, 4],
    [1, 4],
    [4]]

  // The size-4 tables are checked a few entries at a time.
  lemma StepFour0(i: nat)
    requires 0 <= i < 2
    ensures WellFormed(4, StatesFour[i]) && Next(4, StatesFour[i]) == StatesFour[i + 1]
  {
    if i == 0 {
    } else if i == 1 {
    }
  }

  lemma StepFour1(i: nat)
    requires 2 <= i < 4
    ensures WellFormed(4, StatesFour[i]) && Next(4, StatesFour[i]) == StatesFour[i + 1]
  {
    if i == 2 {
    } else if i == 3 {
    }
  }

  lemma StepFour2(i: nat)
    requires 4 <= i < 6
    ensures WellFormed(4, StatesFour[i]) && Next(4, StatesFour[i]) == StatesFour[i + 1]
  {
    if i == 4 {
    } else if i == 5 {
    }
  }

  lemma StepFour3(i: nat)
    requires 6 <= i < 8
    ensures WellFormed(4, StatesFour[i]) && Next(4, StatesFour[i]) == StatesFour[i + 1]
  {
    if i == 6 {
    } else if i == 7 {
    }
  }

  lemma StepFour4(i: nat)
    requires 8 <= i < 10
    ensures WellFormed(4, StatesFour[i]) && Next(4, StatesFour[i]) == StatesFour[i + 1]
  {
    if i == 8 {
    } else if i == 9 {
    }
  }

  lemma StepFour5(i: nat)
    requires 10 <= i < 12
    ensures WellFormed(4, StatesFour[i]) && Next(4, StatesFour[i]) == StatesFour[i + 1]
  {
    if i == 10 {
    } else if i == 11 {
    }
  }

  lemma StepFour6(i: nat)
    requires 12 <= i < 14
    ensures WellFormed(4, StatesFour[i]) && Next(4, StatesFour[i]) == StatesFour[i + 1]
  {
    if i == 12 {
    } else if i == 13 {
    }
  }

  lemma StepFour7(i: nat)
    requires 14 <= i < 16
    ensures WellFormed(4, StatesFour[i]) && Next(4, StatesFour[i]) == StatesFour[i + 1]
  {
    if i == 14 {
    } else if i == 15 {
    }
  }

  lemma FlipFour0(i: nat)
    requires 1 <= i < 6
    ensures if StatesFour[i].done then GrayFour[i] == GrayFour[i - 1]
            else StatesFour[i].delta < |GrayFour[i - 1]| && GrayFour[i] == Flip(GrayFour[i - 1], StatesFour[i].delta)
  {
    if i == 1 {
    } else if i == 2 {
    } else if i == 3 {
    } else if i == 4 {
    } else if i == 5 {
    }
  }

  lemma FlipFour1(i: nat)
    requires 6 <= i < 11
    ensures if StatesFour[i].done then GrayFour[i] == GrayFour[i - 1]
            else StatesFour[i].delta < |GrayFour[i - 1]| && GrayFour[i] == Flip(GrayFour[i - 1], StatesFour[i].delta)
  {
    if i == 6 {
    } else if i == 7 {
    } else if i == 8 {
    } else if i == 9 {
    } else if i == 10 {
    }
  }

  lemma FlipFour2(i: nat)
    requires 11 <= i < 16
    ensures if StatesFour[i].done then GrayFour[i] == GrayFour[i - 1]
            else StatesFour[i].delta < |GrayFour[i - 1]| && GrayFour[i] == Flip(GrayFour[i - 1], StatesFour[i].delta)
  {
    if i == 11 {
    } else if i == 12 {
    } else if i == 13 {
    } else if i == 14 {
    } else if i == 15 {
    }
  }

  lemma ToggleFour0(i: nat)
    requires 1 <= i < 6
    ensures IndexSetsFour[i] == Toggle(IndexSetsFour[i - 1], StatesFour[i].delta)
  {
    if i == 1 {
    } else if i == 2 {
    } else if i == 3 {
    } else if i == 4 {
    } else if i == 5 {
    }
  }

  lemma ToggleFour1(i: nat)
    requires 6 <= i < 11
    ensures IndexSetsFour[i] == Toggle(IndexSetsFour[i - 1], StatesFour[i].delta)
  {
    if i == 6 {
    } else if i == 7 {
    } else if i == 8 {
    } else if i == 9 {
    } else if i == 10 {
    }
  }

  lemma ToggleFour2(i: nat)
    requires 11 <= i < 16
    ensures IndexSetsFour[i] == Toggle(IndexSetsFour[i - 1], StatesFour[i].delta)
  {
    if i == 11 {
    } else if i == 12 {
    } else if i == 13 {
    } else if i == 14 {
    } else if i == 15 {
    }
  }

  lemma PickFour0(i: nat)
    requires 0 <= i < 4
    ensures Pick([1, 2, 3, 4], IndexSetsFour[i]) == PowerSetFour[i]
  {
    if i == 0 {
    } else if i == 1 {
    } else if i == 2 {
    } else if i == 3 {
    }
  }

  lemma PickFour1(i: nat)
    requires 4 <= i < 8
    ensures Pick([1, 2, 3, 4], IndexSetsFour[i]) == PowerSetFour[i]
  {
    if i == 4 {
    } else if i == 5 {
    } else if i == 6 {
    } else if i == 7 {
    }
  }

  lemma PickFour2(i: nat)
    requires 8 <= i < 12
    ensures Pick([1, 2, 3, 4], IndexSetsFour[i]) == PowerSetFour[i]
  {
    if i == 8 {
    } else if i == 9 {
    } else if i == 10 {
    } else if i == 11 {
    }
  }

  lemma PickFour3(i: nat)
    requires 12 <= i < 16
    ensures Pick([1, 2, 3, 4], IndexSetsFour[i]) == PowerSetFour[i]
  {
    if i == 12 {
    } else if i == 13 {
    } else if i == 14 {
    } else if i == 15 {
    }
  }

  /** For size 4 the iterator passes the states of `StatesFour`: fifteen increments and then `end`. */
  lemma RunFour()
    ensures Trace(4, StatesFour)
    ensures forall k :: 0 <= k < |StatesFour| ==> Run(4, k) == StatesFour[k]
    ensures !Run(4, 15).done && Run(4, 16).done
  {
    forall i | 0 <= i < |StatesFour| - 1
      ensures WellFormed(4, StatesFour[i]) && Next(4, StatesFour[i]) == StatesFour[i + 1]
    {
      if i < 2 { StepFour0(i); } else if i < 4 { StepFour1(i); } else if i < 6 { StepFour2(i); } else if i < 8 { StepFour3(i); } else if i < 10 { StepFour4(i); } else if i < 12 { StepFour5(i); } else if i < 14 { StepFour6(i); } else { StepFour7(i); }
    }
    forall k | 0 <= k < |StatesFour|
      ensures Run(4, k) == StatesFour[k]
    {
      RunIsTrace(4, StatesFour, k);
    }
  }

  lemma CodeTraceFour()
    ensures CodeTrace(4, StatesFour, GrayFour)
  {
    forall i | 0 < i < |GrayFour|
      ensures if StatesFour[i].done then GrayFour[i] == GrayFour[i - 1]
              else StatesFour[i].delta < |GrayFour[i - 1]| && GrayFour[i] == Flip(GrayFour[i - 1], StatesFour[i].delta)
    {
      if i < 6 { FlipFour0(i); } else if i < 11 { FlipFour1(i); } else { FlipFour2(i); }
    }
  }

  lemma SubsetTraceFour()
    ensures SubsetTrace(StatesFour, IndexSetsFour)
  {
    forall i | 0 < i < |IndexSetsFour|
      ensures IndexSetsFour[i] == Toggle(IndexSetsFour[i - 1], StatesFour[i].delta)
    {
      if i < 6 { ToggleFour0(i); } else if i < 11 { ToggleFour1(i); } else { ToggleFour2(i); }
    }
  }

  /** The 16 codes of size 4 are those of the test, in that order. */
  lemma GreyCodeFour()
    ensures forall k :: 0 <= k < 16 ==> Code(4, k) == GrayFour[k]
  {
    RunFour();
    CodeTraceFour();
    forall k | 0 <= k < 16
      ensures Code(4, k) == GrayFour[k]
    {
      CodeIsTrace(4, StatesFour, GrayFour, k);
    }
  }

  /** The power set of `{1, 2, 3, 4}` is listed in the test's order. */
  lemma PowerSetFourOrder()
    ensures forall k :: 0 <= k < 16 ==> Pick([1, 2, 3, 4], Subset(4, k)) == PowerSetFour[k]
  {
    RunFour();
    SubsetTraceFour();
    forall k | 0 <= k < 16
      ensures Pick([1, 2, 3, 4], Subset(4, k)) == PowerSetFour[k]
    {
      SubsetIsTrace(4, StatesFour, IndexSetsFour, k);
      if k < 4 { PickFour0(k); } else if k < 8 { PickFour1(k); } else if k < 12 { PickFour2(k); } else { PickFour3(k); }
    }
  }

  /** The empty vector has no codes: its range is empty from the start. */
  lemma EmptyAtEnd()
    ensures Init(0).done && Next(0, Init(0)) == Init(0)
  {
  }
}
