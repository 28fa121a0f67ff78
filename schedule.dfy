/** The step-and-save loop shared by `CApplication::run` (src/application.cpp)
    and the demo's `main` (demo/gcc/main.cpp): iterations `i` from a start
    up to an exclusive end; each runs one layout step, stops the loop when
    the step reports convergence, and otherwise saves a snapshot when the
    interval divides `i`.  The layout is abstracted to `converged(k)`, the
    answer of its `k`-th step. */
module Schedule {

  /** Steps `k` up to `m` (exclusive) all report no convergence. */
  predicate RunsThrough(converged: nat -> bool, k: nat, m: nat) {
    forall t | k <= t < m :: !converged(t)
  }

  /** The iterations saved from iteration `i` on, when `k` steps ran before. */
  function Snapshots(i: int, end: int, interval: nat, converged: nat -> bool, k: nat): seq<int>
    decreases end - i
  {
    if i >= end || converged(k) then []
    else (if interval > 0 && i % interval == 0 then [i] else []) + Snapshots(i + 1, end, interval, converged, k + 1)
  }

  /** The loop itself: `for (i = start; i < end; ++i)`, leaving it when the
      step converges and saving when `interval > 0 && i % interval == 0`.
      Iterations are never negative in `run`; in the demo's `int` loop a
      remainder of 0 means the same under C++'s truncating `%`. */
  method StepAndSave(start: int, end: int, interval: nat, converged: nat -> bool) returns (snapshots: seq<int>)
    ensures snapshots == Snapshots(start, end, interval, converged, 0)
  {
    var i := start;
    var k: nat := 0;
    snapshots := [];
    while i < end
      invariant i == start + k
      invariant Snapshots(start, end, interval, converged, 0) == snapshots + Snapshots(i, end, interval, converged, k)
      decreases end - i
    {
      var completed := converged(k);
      if completed {
        break;
      }
      ghost var rest := Snapshots(i + 1, end, interval, converged, k + 1);
      var save := interval > 0 && i % interval == 0;
      assert Snapshots(i, end, interval, converged, k) == (if save then [i] else []) + rest;
      if save {
        assert snapshots + ([i] + rest) == (snapshots + [i]) + rest;
        snapshots := snapshots + [i];
      } else {
        assert [] + rest == rest;
      }
      i := i + 1;
      k := k + 1;
    }
  }

  /** A saved iteration lies in the range, is a multiple of a positive
      interval, and neither its own step nor any earlier one converged. */
  lemma {:induction false} SnapshotsSound(i: int, end: int, interval: nat, converged: nat -> bool, k: nat, x: int)
    requires x in Snapshots(i, end, interval, converged, k)
    ensures i <= x < end && interval > 0 && x % interval == 0
    ensures RunsThrough(converged, k, k + (x - i) + 1)
    decreases end - i
  {
    var rest := Snapshots(i + 1, end, interval, converged, k + 1);
    if x != i || !(interval > 0 && i % interval == 0) {
      assert x in rest;
      SnapshotsSound(i + 1, end, interval, converged, k + 1, x);
    }
  }

  /** Conversely, every multiple of a positive interval within the range is
      saved when no step up to and including its own converged. */
  lemma {:induction false} SnapshotsComplete(i: int, end: int, interval: nat, converged: nat -> bool, k: nat, x: int)
    requires i <= x < end && interval > 0 && x % interval == 0
    requires RunsThrough(converged, k, k + (x - i) + 1)
    ensures x in Snapshots(i, end, interval, converged, k)
    decreases end - i
  {
    assert !converged(k);
    if x != i {
      SnapshotsComplete(i + 1, end, interval, converged, k + 1, x);
    }
  }

  predicate Increasing(s: seq<int>) {
    forall a, b | 0 <= a < b < |s| :: s[a] < s[b]
  }

  /** Snapshots are taken in strictly increasing order of iteration. */
  lemma {:induction false} SnapshotsIncreasing(i: int, end: int, interval: nat, converged: nat -> bool, k: nat)
    ensures Increasing(Snapshots(i, end, interval, converged, k))
    decreases end - i
  {
    if !(i >= end || converged(k)) {
      var rest := Snapshots(i + 1, end, interval, converged, k + 1);
      SnapshotsIncreasing(i + 1, end, interval, converged, k + 1);
      forall y | y in rest
        ensures i < y
      {
        SnapshotsSound(i + 1, end, interval, converged, k + 1, y);
      }
      var s := Snapshots(i, end, interval, converged, k);
      forall a, b | 0 <= a < b < |s|
        ensures s[a] < s[b]
      {
        if |s| > |rest| {
          assert s == [i] + rest;
          assert s[b] == rest[b - 1] && s[b] in rest;
          if a > 0 {
            assert s[a] == rest[a - 1];
          }
        } else {
          assert s == rest;
        }
      }
    }
  }

  /** A snapshot is saved at iteration `x` exactly when the
      interval is positive and divides `x`, `x` lies between the start and
      the maximum, and no step up to `x` reported convergence. */
  lemma SavedExactly(start: int, max: int, interval: nat, converged: nat -> bool, x: int)
    ensures x in Snapshots(start, max, interval, converged, 0) <==>
      start <= x < max && interval > 0 && x % interval == 0 && RunsThrough(converged, 0, x - start + 1)
  {
    if x in Snapshots(start, max, interval, converged, 0) {
      SnapshotsSound(start, max, interval, converged, 0, x);
    } else if start <= x < max && interval > 0 && x % interval == 0 && RunsThrough(converged, 0, x - start + 1) {
      SnapshotsComplete(start, max, interval, converged, 0, x);
    }
  }
}
