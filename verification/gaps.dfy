/**
 Runs of unpaid months. `TrailingMisses` is the loop's `gap` after a prefix
 of the window and `MaxMissRun` its `max_gap`; both are defined on the
 prefix without its last element, in the order the loop visits months.
 */
module Gaps {

  function Max(a: int, b: int): int {
    if a >= b then a else b
  }

  /** `w[i..i + n]` lies inside `w` and none of its elements is in `paid`. */
  ghost predicate MissRunAt<T>(w: seq<T>, paid: set<T>, i: int, n: int) {
    0 <= i && 0 <= n && i + n <= |w| && forall k :: i <= k < i + n ==> w[k] !in paid
  }

  /** Some three consecutive elements of `w` are all missing from `paid`. */
  ghost predicate ThreeConsecutiveMisses<T>(w: seq<T>, paid: set<T>) {
    exists i :: 0 <= i && i + 3 <= |w| && w[i] !in paid && w[i + 1] !in paid && w[i + 2] !in paid
  }

  /** Length of the run of unpaid elements that ends `w`. */
  function TrailingMisses<T(==)>(w: seq<T>, paid: set<T>): (n: nat)
    ensures n <= |w|
    ensures forall k :: |w| - n <= k < |w| ==> w[k] !in paid
    ensures n < |w| ==> w[|w| - n - 1] in paid
  {
    if |w| == 0 then 0
    else if w[|w| - 1] in paid then 0
    else TrailingMisses(w[..|w| - 1], paid) + 1
  }

  /** Length of the longest run of consecutive unpaid elements of `w`. */
  function MaxMissRun<T(==)>(w: seq<T>, paid: set<T>): (n: nat)
    ensures n <= |w|
    ensures TrailingMisses(w, paid) <= n
  {
    if |w| == 0 then 0
    else Max(MaxMissRun(w[..|w| - 1], paid), TrailingMisses(w, paid))
  }

  /** Appending one element either extends the trailing run or resets it to 0. */
  lemma TrailingMissesSnoc<T>(w: seq<T>, paid: set<T>, x: T)
    ensures TrailingMisses(w + [x], paid) == if x in paid then 0 else TrailingMisses(w, paid) + 1
  {
    assert (w + [x])[..|w|] == w;
  }

  /** Appending one element can only raise the longest run, up to the new trailing run. */
  lemma MaxMissRunSnoc<T>(w: seq<T>, paid: set<T>, x: T)
    ensures MaxMissRun(w + [x], paid) == Max(MaxMissRun(w, paid), TrailingMisses(w + [x], paid))
  {
    assert (w + [x])[..|w|] == w;
  }

  /** A run of misses that reaches the end of `w` is no longer than the trailing run. */
  lemma RunToEndBounded<T>(w: seq<T>, paid: set<T>, i: int)
    requires MissRunAt(w, paid, i, |w| - i)
    ensures |w| - i <= TrailingMisses(w, paid)
  {
  }

  /** Every run of consecutive misses is at most `MaxMissRun` long. */
  lemma {:induction false} MissRunBounded<T>(w: seq<T>, paid: set<T>, i: int, n: int)
    requires MissRunAt(w, paid, i, n)
    ensures n <= MaxMissRun(w, paid)
  {
    if i + n == |w| {
      RunToEndBounded(w, paid, i);
    } else {
      var w' := w[..|w| - 1];
      assert MissRunAt(w', paid, i, n);
      MissRunBounded(w', paid, i, n);
    }
  }

  /** Some run of consecutive misses is exactly `MaxMissRun` long. */
  lemma {:induction false} MissRunAttained<T>(w: seq<T>, paid: set<T>)
    ensures exists i :: MissRunAt(w, paid, i, MaxMissRun(w, paid))
  {
    var n := MaxMissRun(w, paid);
    if |w| == 0 {
      assert MissRunAt(w, paid, 0, 0);
    } else {
      var w' := w[..|w| - 1];
      var t := TrailingMisses(w, paid);
      if n == t {
        assert MissRunAt(w, paid, |w| - t, t);
      } else {
        MissRunAttained(w', paid);
        var i :| MissRunAt(w', paid, i, MaxMissRun(w', paid));
        assert MissRunAt(w, paid, i, n);
      }
    }
  }

  /** The longest run reaches 3 exactly when three consecutive elements are unpaid. */
  lemma ThreeMissesIff<T>(w: seq<T>, paid: set<T>)
    ensures MaxMissRun(w, paid) >= 3 <==> ThreeConsecutiveMisses(w, paid)
  {
    var n := MaxMissRun(w, paid);
    if n >= 3 {
      MissRunAttained(w, paid);
      var i :| MissRunAt(w, paid, i, n);
      assert w[i] !in paid && w[i + 1] !in paid && w[i + 2] !in paid;
    }
    if ThreeConsecutiveMisses(w, paid) {
      var i :| 0 <= i && i + 3 <= |w| && w[i] !in paid && w[i + 1] !in paid && w[i + 2] !in paid;
      assert MissRunAt(w, paid, i, 3);
      MissRunBounded(w, paid, i, 3);
    }
  }

  /** The running maximum never decreases as the loop visits more of the window. */
  lemma MaxMissRunMonotone<T>(w: seq<T>, paid: set<T>, i: int, j: int)
    requires 0 <= i <= j <= |w|
    ensures MaxMissRun(w[..i], paid) <= MaxMissRun(w[..j], paid)
  {
    var n := MaxMissRun(w[..i], paid);
    MissRunAttained(w[..i], paid);
    var k :| MissRunAt(w[..i], paid, k, n);
    assert MissRunAt(w[..j], paid, k, n);
    MissRunBounded(w[..j], paid, k, n);
  }
}
