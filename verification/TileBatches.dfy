/**
 Tile decoding in batches: however a frame's tiles are divided among workers, and however the workers
 interleave, the frame is the same.
 */
module TileBatches {
  import opened Values
  import opened Numbers

  /** What decoding one tile gives; a tile that fails may have written pixels. count stands for any one of the
      statistics counters. */
  datatype Tile = Tile(ok: bool, context: Data, pixels: Data, count: int)

  /** decode starts from an entropy context; settle is applied to a context before it is retained; update is
      the tile whose context the frame retains, if it retains one. */
  datatype Coder = Coder(initial: Data, decode: (nat, Data) -> Tile, settle: Data -> Data, update: Option<nat>)

  /** A tile decoded from the frame's initial context. */
  function Fresh(c: Coder, t: nat): Tile {
    c.decode(t, c.initial)
  }

  /** What all workers write: each tile's pixels, and the retained context. */
  datatype Frame = Frame(pixels: map<nat, Data>, retained: Option<Data>)

  const EMPTY: Frame := Frame(map[], None)

  // ----- one tile ---------------------------------------------------------------------------

  /** A worker has begun next tiles of its batch; the last of them failed if it has failed. Its one storage holds
      the context a tile starts from and then the one it ends with. */
  datatype Worker = Worker(next: nat, storage: Data, count: int, failed: bool)

  datatype Turn = Turn(worker: Worker, frame: Frame)

  /** The context the next tile starts from: the storage is initialized again before every tile but the first. */
  function StartsFrom(c: Coder, k: Worker): Data {
    if k.next > 0 then c.initial else k.storage
  }

  /** A worker decodes a tile into the frame. */
  function Advance(c: Coder, t: nat, k: Worker, f: Frame): Turn {
    var r := c.decode(t, StartsFrom(c, k));
    var retains := r.ok && c.update == Some(t);
    var storage := if retains then c.settle(r.context) else r.context;
    Turn(Worker(k.next + 1, storage, k.count + r.count, !r.ok),
         Frame(f.pixels[t := r.pixels], if retains then Some(storage) else f.retained))
  }

  /** A worker before its batch, its storage initialized for the first tile. */
  function Ready(c: Coder): Worker {
    Worker(0, c.initial, 0, false)
  }

  // ----- one batch --------------------------------------------------------------------------

  datatype BatchResult = BatchResult(frame: Frame, count: int, ok: bool)

  /** The frame with one more tile, decoded from the initial context. */
  function With(c: Coder, f: Frame, t: nat): Frame {
    Frame(f.pixels[t := Fresh(c, t).pixels],
          if Fresh(c, t).ok && c.update == Some(t) then Some(c.settle(Fresh(c, t).context)) else f.retained)
  }

  /** The rest of a batch as it should be: every tile from the initial context, up to the first that fails. */
  function BatchOf(c: Coder, jobs: seq<nat>, i: nat, f: Frame): BatchResult
    requires i <= |jobs|
    decreases |jobs| - i
  {
    if i == |jobs| then BatchResult(f, 0, true)
    else
      var r := Fresh(c, jobs[i]);
      if !r.ok then BatchResult(With(c, f, jobs[i]), r.count, false)
      else
        var rest := BatchOf(c, jobs, i + 1, With(c, f, jobs[i]));
        rest.(count := rest.count + r.count)
  }

  /** The batch loop, with one storage for all its tiles. */
  method RunBatch(c: Coder, jobs: seq<nat>, f: Frame) returns (res: BatchResult)
    ensures res == BatchOf(c, jobs, 0, f)
  {
    var storage := c.initial;
    var frame, total := f, 0;
    for i := 0 to |jobs|
      invariant i == 0 ==> storage == c.initial
      invariant var rest := BatchOf(c, jobs, i, frame);
                BatchOf(c, jobs, 0, f) == rest.(count := rest.count + total)
    {
      if i > 0 {
        storage := c.initial;
      }
      var r := c.decode(jobs[i], storage);
      storage := r.context;
      frame := frame.(pixels := frame.pixels[jobs[i] := r.pixels]);
      total := total + r.count;
      if !r.ok {
        return BatchResult(frame, total, false);
      }
      if c.update == Some(jobs[i]) {
        storage := c.settle(storage);
        frame := frame.(retained := Some(storage));
      }
    }
    return BatchResult(frame, total, true);
  }

  // ----- workers side by side ---------------------------------------------------------------

  datatype State = State(workers: seq<Worker>, frame: Frame)

  predicate CanStep(batches: seq<seq<nat>>, s: State, w: nat) {
    && |s.workers| == |batches| && w < |batches|
    && !s.workers[w].failed && s.workers[w].next < |batches[w]|
  }

  /** A worker decodes its next tile. A failure ends its batch. */
  function Step(c: Coder, batches: seq<seq<nat>>, s: State, w: nat): State
    requires CanStep(batches, s, w)
  {
    var turn := Advance(c, batches[w][s.workers[w].next], s.workers[w], s.frame);
    State(s.workers[w := turn.worker], turn.frame)
  }

  function Start(c: Coder, batches: seq<seq<nat>>): State {
    State(seq(|batches|, i => Ready(c)), EMPTY)
  }

  predicate CanRun(c: Coder, batches: seq<seq<nat>>, s: State, ws: seq<nat>)
    decreases |ws|
  {
    ws == [] || (CanStep(batches, s, ws[0]) && CanRun(c, batches, Step(c, batches, s, ws[0]), ws[1..]))
  }

  function Run(c: Coder, batches: seq<seq<nat>>, s: State, ws: seq<nat>): State
    requires CanRun(c, batches, s, ws)
    decreases |ws|
  {
    if ws == [] then s else Run(c, batches, Step(c, batches, s, ws[0]), ws[1..])
  }

  function Counts(c: Coder, jobs: seq<nat>): (r: seq<int>)
    ensures |r| == |jobs| && forall i | 0 <= i < |jobs| :: r[i] == Fresh(c, jobs[i]).count
  {
    seq(|jobs|, i requires 0 <= i < |jobs| => Fresh(c, jobs[i]).count)
  }

  /** A worker that has not failed is about to decode from the initial context, and its counter is the sum over
      the tiles it has begun, all of them so decoded. */
  ghost predicate WorkerOk(c: Coder, jobs: seq<nat>, k: Worker) {
    && k.next <= |jobs|
    && StartsFrom(c, k) == c.initial
    && (k.failed ==> k.next > 0 && !Fresh(c, jobs[k.next - 1]).ok)
    && (forall i | 0 <= i < (if k.failed then k.next - 1 else k.next) :: Fresh(c, jobs[i]).ok)
    && k.count == Sum(Counts(c, jobs[..k.next]))
  }

  /** Tile t has been begun. */
  ghost predicate Begun(batches: seq<seq<nat>>, s: State, t: nat)
    requires |s.workers| == |batches|
  {
    exists w, i :: 0 <= w < |batches| && 0 <= i < |batches[w]| && i < s.workers[w].next && batches[w][i] == t
  }

  /** The context that the frame retains once these tiles have been decoded. */
  function Retained(c: Coder, tiles: set<nat>): Option<Data> {
    if c.update.Some? && c.update.value in tiles && Fresh(c, c.update.value).ok
    then Some(c.settle(Fresh(c, c.update.value).context)) else None
  }

  /** The frame once these tiles have been decoded, each from the initial context. It does not mention batches,
      workers or order. */
  ghost predicate Whole(c: Coder, tiles: set<nat>, f: Frame) {
    && f.pixels.Keys == tiles
    && (forall t | t in tiles :: f.pixels[t] == Fresh(c, t).pixels)
    && f.retained == Retained(c, tiles)
  }

  lemma WholeIsOne(c: Coder, tiles: set<nat>, f: Frame, g: Frame)
    requires Whole(c, tiles, f) && Whole(c, tiles, g)
    ensures f == g
  {
    assert f.pixels == g.pixels;
  }

  ghost predicate Inv(c: Coder, batches: seq<seq<nat>>, s: State) {
    && |s.workers| == |batches|
    && (forall w | 0 <= w < |batches| :: WorkerOk(c, batches[w], s.workers[w]))
    && (forall t :: t in s.frame.pixels <==> Begun(batches, s, t))
    && Whole(c, s.frame.pixels.Keys, s.frame)
  }

  lemma SumSnoc(c: Coder, jobs: seq<nat>, k: nat)
    requires k < |jobs|
    ensures Sum(Counts(c, jobs[..k + 1])) == Sum(Counts(c, jobs[..k])) + Fresh(c, jobs[k]).count
  {
    var counts := Counts(c, jobs[..k + 1]);
    assert counts[..k] == Counts(c, jobs[..k]);
  }

  lemma BegunGrows(c: Coder, batches: seq<seq<nat>>, s: State, w: nat)
    requires CanStep(batches, s, w)
    ensures forall t :: Begun(batches, Step(c, batches, s, w), t)
                        <==> Begun(batches, s, t) || t == batches[w][s.workers[w].next]
  {
    var s' := Step(c, batches, s, w);
    forall t
      ensures Begun(batches, s', t) <==> Begun(batches, s, t) || t == batches[w][s.workers[w].next]
    {
      if Begun(batches, s, t) {
        var v, i :| 0 <= v < |batches| && 0 <= i < |batches[v]| && i < s.workers[v].next && batches[v][i] == t;
        assert i < s'.workers[v].next;
      }
      if t == batches[w][s.workers[w].next] {
        assert s.workers[w].next < s'.workers[w].next;
      }
      if Begun(batches, s', t) {
        var v, i :| 0 <= v < |batches| && 0 <= i < |batches[v]| && i < s'.workers[v].next && batches[v][i] == t;
        assert i < s.workers[v].next || (v == w && i == s.workers[w].next);
      }
    }
  }

  lemma WorkerKeeps(c: Coder, batches: seq<seq<nat>>, s: State, w: nat)
    requires CanStep(batches, s, w) && WorkerOk(c, batches[w], s.workers[w])
    ensures WorkerOk(c, batches[w], Step(c, batches, s, w).workers[w])
  {
    SumSnoc(c, batches[w], s.workers[w].next);
  }

  lemma FrameKeeps(c: Coder, t: nat, k: Worker, f: Frame)
    requires StartsFrom(c, k) == c.initial && Whole(c, f.pixels.Keys, f)
    ensures var g := Advance(c, t, k, f).frame;
            g.pixels.Keys == f.pixels.Keys + {t} && Whole(c, g.pixels.Keys, g)
  {
  }

  lemma StepKeeps(c: Coder, batches: seq<seq<nat>>, s: State, w: nat)
    requires Inv(c, batches, s) && CanStep(batches, s, w)
    ensures Inv(c, batches, Step(c, batches, s, w))
  {
    assert WorkerOk(c, batches[w], s.workers[w]);
    WorkerKeeps(c, batches, s, w);
    var t := batches[w][s.workers[w].next];
    FrameKeeps(c, t, s.workers[w], s.frame);
    var s' := Step(c, batches, s, w);
    BegunGrows(c, batches, s, w);
    forall v | 0 <= v < |batches|
      ensures WorkerOk(c, batches[v], s'.workers[v])
    {
      assert v != w ==> s'.workers[v] == s.workers[v];
    }
    forall u
      ensures u in s'.frame.pixels <==> Begun(batches, s', u)
    {
      assert u in s'.frame.pixels.Keys <==> u in s.frame.pixels.Keys || u == t;
    }
  }

  lemma StartOk(c: Coder, batches: seq<seq<nat>>)
    ensures Inv(c, batches, Start(c, batches))
  {
  }

  lemma {:induction false} RunKeeps(c: Coder, batches: seq<seq<nat>>, s: State, ws: seq<nat>)
    requires Inv(c, batches, s) && CanRun(c, batches, s, ws)
    ensures Inv(c, batches, Run(c, batches, s, ws))
    decreases |ws|
  {
    if ws != [] {
      StepKeeps(c, batches, s, ws[0]);
      RunKeeps(c, batches, Step(c, batches, s, ws[0]), ws[1..]);
    }
  }

  /** Whatever the other workers do, a tile is decoded from the frame's initial context, never from what an
      earlier tile left in its worker's storage. */
  lemma EveryTileStartsFresh(c: Coder, batches: seq<seq<nat>>, ws: seq<nat>, w: nat)
    requires CanRun(c, batches, Start(c, batches), ws)
    requires CanStep(batches, Run(c, batches, Start(c, batches), ws), w)
    ensures StartsFrom(c, Run(c, batches, Start(c, batches), ws).workers[w]) == c.initial
  {
    StartOk(c, batches);
    RunKeeps(c, batches, Start(c, batches), ws);
    assert WorkerOk(c, batches[w], Run(c, batches, Start(c, batches), ws).workers[w]);
  }

  /** A worker left alone with its batch does what the batch loop does. */
  lemma {:induction false} AloneIsBatch(c: Coder, batches: seq<seq<nat>>, s: State, w: nat) returns (ws: seq<nat>)
    requires |s.workers| == |batches| && w < |batches| && !s.workers[w].failed
    requires s.workers[w].next <= |batches[w]| && StartsFrom(c, s.workers[w]) == c.initial
    ensures CanRun(c, batches, s, ws) && !CanStep(batches, Run(c, batches, s, ws), w)
    ensures var end, res := Run(c, batches, s, ws), BatchOf(c, batches[w], s.workers[w].next, s.frame);
            && |end.workers| == |batches|
            && end.frame == res.frame && end.workers[w].failed == !res.ok
            && end.workers[w].count == s.workers[w].count + res.count
            && forall v | 0 <= v < |batches| && v != w :: end.workers[v] == s.workers[v]
    decreases |batches[w]| - s.workers[w].next
  {
    ws := [];
    if CanStep(batches, s, w) {
      var s' := Step(c, batches, s, w);
      if s'.workers[w].failed {
        ws := [w];
        assert CanRun(c, batches, s', ws[1..]) && Run(c, batches, s', ws[1..]) == s';
      } else {
        var rest := AloneIsBatch(c, batches, s', w);
        ws := [w] + rest;
        assert ws[1..] == rest;
      }
    }
  }

  // ----- the frame does not depend on the batches -------------------------------------------

  /** All jobs, batch by batch. */
  function Flatten(bs: seq<seq<nat>>): seq<nat> {
    if bs == [] then [] else Flatten(bs[..|bs| - 1]) + bs[|bs| - 1]
  }

  function Tiles(bs: seq<seq<nat>>): set<nat> {
    set t | t in Flatten(bs)
  }

  predicate Failed(s: State) {
    exists w :: 0 <= w < |s.workers| && s.workers[w].failed
  }

  /** A run that has ended: no worker can go on. */
  ghost predicate Ended(batches: seq<seq<nat>>, s: State) {
    forall w | 0 <= w < |batches| :: !CanStep(batches, s, w)
  }

  lemma {:induction false} FlattenHolds(bs: seq<seq<nat>>, t: nat)
    ensures t in Flatten(bs) <==> exists w, i :: 0 <= w < |bs| && 0 <= i < |bs[w]| && bs[w][i] == t
  {
    if bs != [] {
      var last := |bs| - 1;
      FlattenHolds(bs[..last], t);
      if t in Flatten(bs[..last]) {
        var w, i :| 0 <= w < last && 0 <= i < |bs[..last][w]| && bs[..last][w][i] == t;
        assert bs[w][i] == t;
      }
      if t in bs[last] {
        var i :| 0 <= i < |bs[last]| && bs[last][i] == t;
      }
      if w, i :| 0 <= w < |bs| && 0 <= i < |bs[w]| && bs[w][i] == t {
        assert w < last ==> bs[..last][w][i] == t;
      }
    }
  }

  /** The run fails exactly if some tile fails, whichever worker has it. */
  lemma FailureIsShared(c: Coder, batches: seq<seq<nat>>, ws: seq<nat>)
    requires CanRun(c, batches, Start(c, batches), ws) && Ended(batches, Run(c, batches, Start(c, batches), ws))
    ensures Failed(Run(c, batches, Start(c, batches), ws)) <==> exists t :: t in Flatten(batches) && !Fresh(c, t).ok
  {
    StartOk(c, batches);
    RunKeeps(c, batches, Start(c, batches), ws);
    var s := Run(c, batches, Start(c, batches), ws);
    if w :| 0 <= w < |s.workers| && s.workers[w].failed {
      assert WorkerOk(c, batches[w], s.workers[w]);
      FlattenHolds(batches, batches[w][s.workers[w].next - 1]);
    }
    if t :| t in Flatten(batches) && !Fresh(c, t).ok {
      FlattenHolds(batches, t);
      var w, i :| 0 <= w < |batches| && 0 <= i < |batches[w]| && batches[w][i] == t;
      assert WorkerOk(c, batches[w], s.workers[w]) && !CanStep(batches, s, w);
      assert s.workers[w].failed;
    }
  }

  /** A run that ends without failure gives the whole frame, and the counters add up to the sum over the tiles. */
  lemma EndsWhole(c: Coder, batches: seq<seq<nat>>, ws: seq<nat>)
    requires CanRun(c, batches, Start(c, batches), ws) && Ended(batches, Run(c, batches, Start(c, batches), ws))
    requires !Failed(Run(c, batches, Start(c, batches), ws))
    ensures var s := Run(c, batches, Start(c, batches), ws);
            && Whole(c, Tiles(batches), s.frame)
            && TotalCount(s.workers) == Sum(Counts(c, Flatten(batches)))
  {
    StartOk(c, batches);
    RunKeeps(c, batches, Start(c, batches), ws);
    AllBegun(c, batches, Run(c, batches, Start(c, batches), ws));
    TotalIs(c, batches, Run(c, batches, Start(c, batches), ws).workers);
  }

  lemma AllBegun(c: Coder, batches: seq<seq<nat>>, s: State)
    requires Inv(c, batches, s) && Ended(batches, s) && !Failed(s)
    ensures s.frame.pixels.Keys == Tiles(batches)
    ensures forall w | 0 <= w < |batches| :: s.workers[w].count == Sum(Counts(c, batches[w]))
  {
    forall w | 0 <= w < |batches|
      ensures s.workers[w].next == |batches[w]| && s.workers[w].count == Sum(Counts(c, batches[w]))
    {
      assert WorkerOk(c, batches[w], s.workers[w]) && !CanStep(batches, s, w);
      assert batches[w][..|batches[w]|] == batches[w];
    }
    forall t: nat
      ensures t in s.frame.pixels <==> t in Flatten(batches)
    {
      FlattenHolds(batches, t);
      assert t in s.frame.pixels <==> Begun(batches, s, t);
    }
  }

  /** Two divisions of the same tiles, with any two interleavings of their workers: both runs fail or neither
      does, and if neither does the frames, with their retained contexts, and the totals are equal. */
  lemma BatchingIsIrrelevant(c: Coder, a: seq<seq<nat>>, b: seq<seq<nat>>, ws: seq<nat>, vs: seq<nat>)
    requires multiset(Flatten(a)) == multiset(Flatten(b))
    requires CanRun(c, a, Start(c, a), ws) && Ended(a, Run(c, a, Start(c, a), ws))
    requires CanRun(c, b, Start(c, b), vs) && Ended(b, Run(c, b, Start(c, b), vs))
    ensures var s, s' := Run(c, a, Start(c, a), ws), Run(c, b, Start(c, b), vs);
            && (Failed(s) <==> Failed(s'))
            && (!Failed(s) ==> s.frame == s'.frame && TotalCount(s.workers) == TotalCount(s'.workers))
  {
    forall t: nat
      ensures t in Flatten(a) <==> t in Flatten(b)
    {
      assert t in Flatten(a) <==> t in multiset(Flatten(a));
      assert t in Flatten(b) <==> t in multiset(Flatten(b));
    }
    FailureIsShared(c, a, ws);
    FailureIsShared(c, b, vs);
    if !Failed(Run(c, a, Start(c, a), ws)) {
      EndsWhole(c, a, ws);
      EndsWhole(c, b, vs);
      assert Tiles(a) == Tiles(b);
      WholeIsOne(c, Tiles(a), Run(c, a, Start(c, a), ws).frame, Run(c, b, Start(c, b), vs).frame);
      TotalPermutes(c, Flatten(a), Flatten(b));
    }
  }

  // ----- totals -----------------------------------------------------------------------------

  function TotalCount(ws: seq<Worker>): int {
    if ws == [] then 0 else TotalCount(ws[..|ws| - 1]) + ws[|ws| - 1].count
  }

  lemma {:induction false} TotalIs(c: Coder, batches: seq<seq<nat>>, ws: seq<Worker>)
    requires |ws| == |batches| && forall w | 0 <= w < |batches| :: ws[w].count == Sum(Counts(c, batches[w]))
    ensures TotalCount(ws) == Sum(Counts(c, Flatten(batches)))
  {
    if batches != [] {
      var last := |batches| - 1;
      TotalIs(c, batches[..last], ws[..last]);
      var a, b := Flatten(batches[..last]), batches[last];
      assert Counts(c, a + b) == Counts(c, a) + Counts(c, b);
      SumConcat(Counts(c, a), Counts(c, b));
    }
  }

  /** The total does not depend on how the tiles are divided: only on which they are. */
  lemma {:induction false} TotalPermutes(c: Coder, a: seq<nat>, b: seq<nat>)
    requires multiset(a) == multiset(b)
    ensures Sum(Counts(c, a)) == Sum(Counts(c, b))
    decreases |a|
  {
    if a == [] {
      assert |multiset(b)| == 0;
    } else {
      var x := a[|a| - 1];
      assert x in multiset(b);
      var j :| 0 <= j < |b| && b[j] == x;
      Without(a, |a| - 1);
      Without(b, j);
      assert a[..|a| - 1] + a[|a|..] == a[..|a| - 1];
      TotalPermutes(c, a[..|a| - 1], b[..j] + b[j + 1..]);
      SumRemove(c, b, j);
      SumRemove(c, a, |a| - 1);
    }
  }

  lemma Without(s: seq<nat>, j: nat)
    requires j < |s|
    ensures multiset(s[..j] + s[j + 1..]) == multiset(s) - multiset{s[j]}
  {
    assert s == s[..j] + [s[j]] + s[j + 1..];
  }

  lemma SumRemove(c: Coder, b: seq<nat>, j: nat)
    requires j < |b|
    ensures Sum(Counts(c, b)) == Sum(Counts(c, b[..j] + b[j + 1..])) + Fresh(c, b[j]).count
  {
    var x, y := Counts(c, b[..j]), Counts(c, b[j + 1..]);
    assert Counts(c, b) == Counts(c, b[..j + 1]) + y;
    assert Counts(c, b[..j] + b[j + 1..]) == x + y;
    SumConcat(Counts(c, b[..j + 1]), y);
    SumConcat(x, y);
    SumSnoc(c, b, j);
  }
}
