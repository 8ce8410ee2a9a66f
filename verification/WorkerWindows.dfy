/**
 Per-worker scratch windows in one flat arena. Each kind of scratch has its own arena; they all follow this
 arithmetic.
 */
module WorkerWindows {
  import opened Values
  import opened Numbers

  /** What one frame needs: workers, the length one batch needs, and the flat length for all workers. */
  datatype Need = Need(workers: nat, batch: nat, flat: nat)

  function CheckedMul(a: int, b: int): Option<int> {
    if a < 0 || b < 0 || (a != 0 && b > MAX_INT / a) then None else Some(a * b)
  }

  lemma CheckedMulExact(a: int, b: int)
    ensures CheckedMul(a, b).Some? <==> a >= 0 && b >= 0 && a * b <= MAX_INT
    ensures CheckedMul(a, b).Some? ==> CheckedMul(a, b).value == a * b
  {
    if a > 0 && b >= 0 {
      DivideFits(a, b, MAX_INT);
    } else if a < 0 || b < 0 {
      assert CheckedMul(a, b).None?;
    } else {
      assert a * b == 0;
    }
  }

  lemma DivideFits(a: int, b: int, m: int)
    requires a > 0 && b >= 0 && m >= 0
    ensures b <= m / a <==> a * b <= m
  {
    var q, r := m / a, m % a;
    assert m == a * q + r;
    if b <= q {
      Scales(a, b, q);
    } else {
      Scales(a, q + 1, b);
      assert a * (q + 1) == a * q + a;
    }
  }

  /** Flat length is workers times batch length. */
  predicate Exact(n: Need) {
    n.workers > 0 && n.flat == n.workers * n.batch
  }

  function Max(a: Need, b: Need): Need {
    Need(Larger(a.workers, b.workers), Larger(a.batch, b.batch), Larger(a.flat, b.flat))
  }

  function Fold(ns: seq<Need>): Need
    requires ns != []
  {
    if |ns| == 1 then ns[0] else Max(Fold(ns[..|ns| - 1]), ns[|ns| - 1])
  }

  /** One need is at least the other in both respects. */
  predicate Comparable(a: Need, b: Need) {
    (a.workers >= b.workers && a.batch >= b.batch) || (b.workers >= a.workers && b.batch >= a.batch)
  }

  /** Taking maxima keeps the flat length exact exactly when one need dominates the other. With one worker
      count that is always so. */
  lemma MaxExactIff(a: Need, b: Need)
    requires Exact(a) && Exact(b)
    ensures Exact(Max(a, b)) <==> Comparable(a, b)
    ensures !Comparable(a, b) ==> Max(a, b).flat < Max(a, b).workers * Max(a, b).batch
  {
    var w, n := Larger(a.workers, b.workers), Larger(a.batch, b.batch);
    Scales(w, a.batch, n);
    Scales(w, b.batch, n);
    Scales(n, a.workers, w);
    Scales(n, b.workers, w);
    Scales(a.batch, a.workers, w);
    Scales(b.batch, b.workers, w);
  }

  /** Through any fold of maxima with one worker count the flat length stays exact. */
  lemma {:induction false} FoldExact(ns: seq<Need>, workers: nat)
    requires ns != [] && forall i | 0 <= i < |ns| :: Exact(ns[i]) && ns[i].workers == workers
    ensures Exact(Fold(ns)) && Fold(ns).workers == workers
    ensures forall i | 0 <= i < |ns| :: ns[i].batch <= Fold(ns).batch
  {
    if |ns| > 1 {
      var front := ns[..|ns| - 1];
      FoldExact(front, workers);
      MaxExactIff(Fold(front), ns[|ns| - 1]);
      assert forall i | 0 <= i < |ns| - 1 :: ns[i] == front[i];
    }
  }

  /** The part of the arena that a worker binds: from its offset, as long as one batch needs. */
  function Window(n: Need, length: nat, worker: nat): Option<(nat, nat)> {
    var offset := CheckedMul(worker, n.batch);
    if offset.None? || offset.value > length || length - offset.value < n.batch then None
    else Some((offset.value, offset.value + n.batch))
  }

  /** Every worker's bind succeeds in an arena of the flat length, and within it. */
  lemma WindowFits(n: Need, length: nat, worker: nat)
    requires Exact(n) && n.flat <= length <= MAX_INT && worker < n.workers
    ensures Window(n, length, worker) == Some((worker * n.batch, worker * n.batch + n.batch))
    ensures worker * n.batch + n.batch <= n.flat
  {
    CheckedMulExact(worker, n.batch);
    assert (worker + 1) * n.batch == worker * n.batch + n.batch;
    Scales(n.batch, worker + 1, n.workers);
  }

  /** The windows of different workers do not meet. */
  lemma WindowsDisjoint(n: Need, length: nat, v: nat, w: nat)
    requires Exact(n) && n.flat <= length <= MAX_INT && v < w < n.workers
    ensures Window(n, length, v).Some? && Window(n, length, w).Some?
    ensures Window(n, length, v).value.1 <= Window(n, length, w).value.0
  {
    WindowFits(n, length, v);
    WindowFits(n, length, w);
    assert (v + 1) * n.batch == v * n.batch + n.batch;
    Scales(n.batch, v + 1, w);
  }

  /** Without the same worker count it can fail: after four workers with small batches and one worker with a
      large one, the second worker has no room. */
  lemma MixedWorkersFail(a: Need, b: Need)
    requires a == Need(4, 1, 4) && b == Need(1, 3, 3)
    ensures Exact(a) && Exact(b) && Window(Max(a, b), Max(a, b).flat, 1).None?
  {
    CheckedMulExact(1, 3);
  }
}
