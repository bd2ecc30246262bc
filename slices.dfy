/** How `sync_in_multi_threads` cuts the synchronization plan into one slice
    per worker: at most `threads_num` workers, each handed the slice
    `[(target_num + 1) * i, (target_num + 1) * (i + 1))` of the plan, clipped
    to its length, where `target_num` is the plan length divided by the
    number of workers, rounded up. */
module Slices {
  import opened Common

  /** The half-open range `[lo, hi)` of plan positions one worker handles. */
  datatype Slice = Slice(lo: nat, hi: nat)

  /** The number of workers: the plan length when it is below `threadsNum`. */
  function WorkerCount(n: nat, threadsNum: nat): nat
  {
    if n < threadsNum then n else threadsNum
  }

  /** `n // w`, plus one when `w` does not divide `n`. */
  function TargetNum(n: nat, w: nat): nat
    requires w > 0
  {
    n / w + (if n % w != 0 then 1 else 0)
  }

  /** A Python slice bound past the end of the list stops at its end. */
  function Clip(x: nat, n: nat): nat
  {
    if x < n then x else n
  }

  function SliceOf(n: nat, stride: nat, i: nat): Slice
  {
    Slice(Clip(stride * i, n), Clip(stride * (i + 1), n))
  }

  /** The distance between the starts of two consecutive slices. */
  function Stride(n: nat, threadsNum: nat): (s: nat)
    requires n > 0 && threadsNum > 0
    ensures s > 0
  {
    TargetNum(n, WorkerCount(n, threadsNum)) + 1
  }

  /** The slices of a plan of length `n > 0`, one per worker, in order. */
  function Slices(n: nat, threadsNum: nat): seq<Slice>
    requires n > 0 && threadsNum > 0
  {
    var w := WorkerCount(n, threadsNum);
    seq(w, i requires 0 <= i < w => SliceOf(n, Stride(n, threadsNum), i))
  }

  /** The slicing of `sync_in_multi_threads` for a plan of length `n`; an
      empty plan gives no workers and the division by zero fails the pass. */
  method PlanSlices(n: nat, threadsNum: nat) returns (r: Option<seq<Slice>>)
    requires threadsNum > 0
    ensures r.None? <==> n == 0
    ensures r.Some? ==> r.value == Slices(n, threadsNum)
  {
    var workers := if n < threadsNum then n else threadsNum;
    if workers == 0 {
      return None;
    }
    var targetNum := n / workers + (if n % workers != 0 then 1 else 0);
    var slices: seq<Slice> := [];
    for i := 0 to workers
      invariant |slices| == i
      invariant forall k :: 0 <= k < i ==> slices[k] == SliceOf(n, targetNum + 1, k)
    {
      slices := slices + [Slice(Clip((targetNum + 1) * i, n), Clip((targetNum + 1) * (i + 1), n))];
    }
    r := Some(slices);
  }

  // ---------------------------------------------------------------------------
  // Arithmetic the partition rests on
  // ---------------------------------------------------------------------------

  lemma MulMono(s: nat, a: nat, b: nat)
    requires a <= b
    ensures s * a <= s * b
  {
    assert s * b == s * a + s * (b - a);
  }

  /** `TargetNum(n, w)` is the ceiling of `n / w`: the least `t` with `t * w >= n`. */
  lemma TargetNumIsCeiling(n: nat, w: nat)
    requires w > 0
    ensures TargetNum(n, w) * w >= n
    ensures TargetNum(n, w) == 0 || (TargetNum(n, w) - 1) * w < n
  {
    var q := n / w;
    var r := n % w;
    assert n == q * w + r && 0 <= r < w;
    if r != 0 {
      assert TargetNum(n, w) * w == q * w + w;
    } else {
      assert TargetNum(n, w) == q;
      if q > 0 {
        assert (q - 1) * w == q * w - w;
      }
    }
  }

  /** The stride times the worker count reaches past the end of the plan. */
  lemma StrideCoversPlan(n: nat, threadsNum: nat)
    requires n > 0 && threadsNum > 0
    ensures Stride(n, threadsNum) * WorkerCount(n, threadsNum) >= n + WorkerCount(n, threadsNum)
  {
    var w := WorkerCount(n, threadsNum);
    TargetNumIsCeiling(n, w);
    assert (TargetNum(n, w) + 1) * w == TargetNum(n, w) * w + w;
  }

  // ---------------------------------------------------------------------------
  // Properties of the partition
  // ---------------------------------------------------------------------------

  /** At most `threadsNum` workers, and never more workers than plan entries. */
  lemma WorkerBounds(n: nat, threadsNum: nat)
    requires n > 0 && threadsNum > 0
    ensures 0 < |Slices(n, threadsNum)| <= threadsNum
    ensures |Slices(n, threadsNum)| <= n
    ensures n >= threadsNum ==> |Slices(n, threadsNum)| == threadsNum
  {
  }

  /** `sl` tiles `[0, n)`: the first slice starts at 0, each one starts where
      the previous one ends, none runs backwards, and the last ends at `n`. */
  predicate Tiles(sl: seq<Slice>, n: nat)
  {
    && |sl| > 0
    && sl[0].lo == 0
    && (forall i :: 0 <= i < |sl| ==> sl[i].lo <= sl[i].hi <= n)
    && (forall i :: 0 < i < |sl| ==> sl[i].lo == sl[i - 1].hi)
    && sl[|sl| - 1].hi == n
  }

  /** The slices of a non-empty plan tile it. */
  lemma SlicesTile(n: nat, threadsNum: nat)
    requires n > 0 && threadsNum > 0
    ensures Tiles(Slices(n, threadsNum), n)
  {
    var w := WorkerCount(n, threadsNum);
    var s := Stride(n, threadsNum);
    var sl := Slices(n, threadsNum);
    forall i | 0 <= i < w
      ensures sl[i].lo <= sl[i].hi <= n
    {
      MulMono(s, i, i + 1);
    }
    StrideCoversPlan(n, threadsNum);
    assert s * ((w - 1) + 1) == s * w;
  }

  /** With stride `s`, position `j` falls in the slice numbered `j / s`. */
  lemma InStrideSlice(n: nat, s: nat, j: nat)
    requires s > 0 && j < n
    ensures var sl := SliceOf(n, s, j / s); sl.lo <= j < sl.hi
  {
    var i := j / s;
    assert j == s * i + j % s && j % s < s;
    assert s * (i + 1) == s * i + s;
  }

  /** ... and in no other. */
  lemma OnlyStrideSlice(n: nat, s: nat, j: nat, k: nat)
    requires s > 0
    requires SliceOf(n, s, k).lo <= j < SliceOf(n, s, k).hi
    ensures k == j / s
  {
    var i := j / s;
    assert j == s * i + j % s && j % s < s;
    assert s * (i + 1) == s * i + s;
    if k < i {
      MulMono(s, k + 1, i);
    } else if k > i {
      MulMono(s, i + 1, k);
    }
  }

  /** Every plan position `j` lies in exactly one slice, the one of worker
      `j / stride`; so every entry is handled, and by one worker only. */
  lemma SliceOfPosition(n: nat, threadsNum: nat, j: nat)
    requires n > 0 && threadsNum > 0 && j < n
    ensures var sl := Slices(n, threadsNum);
      var i := j / Stride(n, threadsNum);
      && i < |sl| && sl[i].lo <= j < sl[i].hi
      && forall k :: 0 <= k < |sl| && sl[k].lo <= j < sl[k].hi ==> k == i
  {
    var w := WorkerCount(n, threadsNum);
    var s := Stride(n, threadsNum);
    var sl := Slices(n, threadsNum);
    var i := j / s;
    StrideCoversPlan(n, threadsNum);
    if i >= w {
      MulMono(s, w, i);
      assert false;
    }
    InStrideSlice(n, s, j);
    forall k | 0 <= k < w && sl[k].lo <= j < sl[k].hi
      ensures k == i
    {
      OnlyStrideSlice(n, s, j, k);
    }
  }

  /** The extra one in the stride leaves workers idle: four entries and four
      workers give two slices of two entries and two empty slices. */
  lemma IdleWorkers()
    ensures Slices(4, 4) == [Slice(0, 2), Slice(2, 4), Slice(4, 4), Slice(4, 4)]
  {
    assert TargetNum(4, 4) == 1;
  }
}
