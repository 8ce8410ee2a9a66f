/**
 What holds of every run of the frame-threaded decoder.
 */
module FrameThreadTheorems {
  import opened Values
  import opened Handles
  import opened Progress
  import opened Surfaces
  import opened SerialDecode
  import opened Lanes
  import opened FrameThread
  import opened Ownership
  import opened Refinement
  import opened SubmitStep
  import opened FrameSteps

  // ----- runs -------------------------------------------------------------------------------

  lemma SoundStep(codec: Codec, st: State, g: Shadow, l: Label)
    requires Sound(codec, st, g) && Enabled(codec, st, l)
    ensures Sound(codec, Next(codec, st, l), ShadowNext(codec, st, g, l))
  {
    Unseal(codec, st, g);
    StepKeeps(codec, st, g, l);
  }

  /** Every run keeps the invariant. */
  lemma {:induction false} RunKeeps(codec: Codec, st: State, g: Shadow, ls: seq<Label>)
    requires Sound(codec, st, g) && CanRun(codec, st, ls)
    ensures Sound(codec, Run(codec, st, ls), ShadowRun(codec, st, g, ls))
    decreases |ls|
  {
    if ls != [] {
      SoundStep(codec, st, g, ls[0]);
      RunKeeps(codec, Next(codec, st, ls[0]), ShadowNext(codec, st, g, ls[0]), ls[1..]);
    }
  }

  lemma {:induction false} RunConcat(codec: Codec, st: State, g: Shadow, a: seq<Label>, b: seq<Label>)
    requires CanRun(codec, st, a) && CanRun(codec, Run(codec, st, a), b)
    ensures CanRun(codec, st, a + b)
    ensures Run(codec, st, a + b) == Run(codec, Run(codec, st, a), b)
    ensures ShadowRun(codec, st, g, a + b) == ShadowRun(codec, Run(codec, st, a), ShadowRun(codec, st, g, a), b)
    decreases |a|
  {
    if a == [] {
      assert a + b == b;
    } else {
      assert (a + b)[1..] == a[1..] + b;
      RunConcat(codec, Next(codec, st, a[0]), ShadowNext(codec, st, g, a[0]), a[1..], b);
    }
  }

  lemma {:induction false} RunSplit(codec: Codec, st: State, a: seq<Label>, b: seq<Label>)
    requires CanRun(codec, st, a + b)
    ensures CanRun(codec, st, a) && CanRun(codec, Run(codec, st, a), b)
    decreases |a|
  {
    if a == [] {
      assert a + b == b;
    } else {
      assert (a + b)[0] == a[0] && (a + b)[1..] == a[1..] + b;
      RunSplit(codec, Next(codec, st, a[0]), a[1..], b);
    }
  }

  lemma RunOne(codec: Codec, st: State, g: Shadow, l: Label)
    requires Enabled(codec, st, l)
    ensures CanRun(codec, st, [l])
    ensures Run(codec, st, [l]) == Next(codec, st, l)
    ensures ShadowRun(codec, st, g, [l]) == ShadowNext(codec, st, g, l)
  {
    var st', g' := Next(codec, st, l), ShadowNext(codec, st, g, l);
    assert [l][1..] == [];
    assert CanRun(codec, st', []) && Run(codec, st', []) == st' && ShadowRun(codec, st', g', []) == g';
  }

  lemma {:induction false} RunSameContexts(codec: Codec, st: State, ls: seq<Label>)
    requires CanRun(codec, st, ls)
    ensures Run(codec, st, ls).n == st.n
    decreases |ls|
  {
    if ls != [] {
      RunSameContexts(codec, Next(codec, st, ls[0]), ls[1..]);
    }
  }

  /** A state that some run of a decoder with n contexts reaches. */
  ghost predicate Reachable(codec: Codec, n: nat, st: State) {
    n <= MAX_CONTEXTS && exists ls :: CanRun(codec, Init(n), ls) && Run(codec, Init(n), ls) == st
  }

  lemma ReachableInv(codec: Codec, n: nat, st: State) returns (g: Shadow)
    requires Reachable(codec, n, st)
    ensures Inv(codec, st, g) && st.n == n
  {
    var ls :| CanRun(codec, Init(n), ls) && Run(codec, Init(n), ls) == st;
    InitInv(codec, n);
    RunKeeps(codec, Init(n), ShadowInit(n), ls);
    RunSameContexts(codec, Init(n), ls);
    g := ShadowRun(codec, Init(n), ShadowInit(n), ls);
    Unseal(codec, st, g);
  }

  // ----- surfaces ---------------------------------------------------------------------------

  /** Nothing uses surface s: no slot names it, no frame in flight writes, reads, shows or is going to
      release it, and this call does not return it. */
  ghost predicate Unused(st: State, s: int) {
    && s !in st.slots
    && (forall j | 0 <= j < |st.flight| ::
          st.flight[j].surface != s && st.flight[j].pix.makes != s
          && s !in st.flight[j].pix.needs && s !in st.flight[j].releases)
    && (forall i | 0 <= i < |st.ready| :: st.ready[i].surface != s)
  }

  /** In every reachable state a free surface is an unused one. */
  lemma FreeIsUnused(codec: Codec, n: nat, st: State, s: nat)
    requires Reachable(codec, n, st)
    requires s in st.pool.free
    ensures Unused(st, s)
  {
    var g := ReachableInv(codec, n, st);
    assert s !in Used(st.pool);
    FreeUnused(st, s);
  }

  /** A surface is returned to the pool only by the retirement of the frame that dropped it, or by the
      start of the call after the one that returned it. */
  lemma ReleasedByDropper(codec: Codec, n: nat, st: State, l: Label, s: int)
    requires Reachable(codec, n, st) && Enabled(codec, st, l)
    requires s in Used(st.pool) && s !in Used(Next(codec, st, l).pool)
    ensures (l.Retire? && s in st.flight[0].releases) || (l.BeginCall? && s in st.shown)
    ensures Unused(Next(codec, st, l), s)
  {
    var g := ReachableInv(codec, n, st);
    if l.Retire? {
      RetireOwnedState(st);
    } else if l.BeginCall? {
      BeginOwnedState(st);
    } else if l.Submit? {
      SubmitOwnedState(codec, st, l.e);
    }
    StepKeeps(codec, st, g, l);
    var st' := Next(codec, st, l);
    FreeUnused(st', s);
  }

  lemma FreeUnused(st: State, s: nat)
    requires OwnedState(st) && s !in Used(st.pool)
    ensures Unused(st, s)
  {
    FreeIsFresh(Used(st.pool), st.slots, st.flight, st.ready, st.shown, s);
    forall j | 0 <= j < |st.flight|
      ensures s !in st.flight[j].releases
    {
      assert Within(st.flight[j].releases, Used(st.pool));
    }
  }

  /** No surface is released twice: everything a retirement or the start of a call tries to release is
      in use at that moment, and a surface waits on at most one release list. */
  lemma NoDoubleRelease(codec: Codec, n: nat, st: State)
    requires Reachable(codec, n, st)
    ensures forall j | 0 <= j < |st.flight| :: Within(st.flight[j].releases, Used(st.pool)) && Distinct(st.flight[j].releases)
    ensures forall j, k, s | 0 <= j < k < |st.flight| && s in st.flight[j].releases :: s !in st.flight[k].releases
    ensures Within(st.shown, Used(st.pool)) && Distinct(st.shown)
  {
    var g := ReachableInv(codec, n, st);
  }

  // ----- progress ---------------------------------------------------------------------------

  function Left(p: Phase): nat {
    match p
    case Submitted => 2
    case Parsed(_) => 1
    case Finished(_) => 0
  }

  /** Steps that the frame goroutines still have to take. */
  function Remaining(fs: seq<Flight>): nat {
    if fs == [] then 0 else Left(fs[0].phase) + Remaining(fs[1..])
  }

  predicate AllFinished(fs: seq<Flight>) {
    forall j | 0 <= j < |fs| :: fs[j].phase.Finished?
  }

  lemma {:induction false} RemainingUpdate(fs: seq<Flight>, j: nat, f: Flight)
    requires j < |fs|
    ensures Remaining(fs[j := f]) == Remaining(fs) - Left(fs[j].phase) + Left(f.phase)
  {
    if j == 0 {
      assert fs[j := f][1..] == fs[1..];
    } else {
      RemainingUpdate(fs[1..], j - 1, f);
      assert fs[j := f][1..] == fs[1..][j - 1 := f];
    }
  }

  lemma {:induction false} RemainingZero(fs: seq<Flight>)
    ensures Remaining(fs) == 0 <==> AllFinished(fs)
  {
    if fs != [] {
      RemainingZero(fs[1..]);
      assert forall j | 0 <= j < |fs[1..]| :: fs[1..][j] == fs[j + 1];
      assert AllFinished(fs) ==> fs[0].phase.Finished?;
    }
  }

  predicate IsTail(l: Label) {
    l.Parse? || l.Finish?
  }

  /** Every step of a frame goroutine uses up one of the remaining steps. */
  lemma TailDecreases(codec: Codec, st: State, l: Label)
    requires IsTail(l) && Enabled(codec, st, l)
    ensures Remaining(Next(codec, st, l).flight) == Remaining(st.flight) - 1
  {
    RemainingUpdate(st.flight, l.j, Next(codec, st, l).flight[l.j]);
  }

  /** Deadlock freedom: while some frame in flight is unfinished, the oldest unfinished one can step. */
  lemma OldestCanStep(codec: Codec, st: State, g: Shadow, j: nat)
    requires Inv(codec, st, g) && j < |st.flight| && !st.flight[j].phase.Finished?
    requires forall k | 0 <= k < j :: st.flight[k].phase.Finished?
    ensures if st.flight[j].phase.Submitted? then Enabled(codec, st, Parse(j)) else Enabled(codec, st, Finish(j))
  {
    assert FrameOk(codec, st.flight[j], g);
    forall k | 0 <= k < j
      ensures st.flight[k].ctx.done && st.flight[k].mv.done && st.flight[k].seg.done && st.flight[k].pix.done
    {
      assert FrameOk(codec, st.flight[k], g);
    }
    OldestReads(st.ctx, g.ctx, CtxOf(st.flight), j);
    OldestReads(st.mv, g.mv, MvOf(st.flight), j);
    OldestReads(st.seg, g.seg, SegOf(st.flight), j);
    OldestReads(st.pix, g.pix, PixOf(st.flight), j);
  }

  /** Whenever no frame goroutine can step, every frame in flight has finished, so a blocked retirement
      always returns: after at most Remaining steps of the frame goroutines, in any order. */
  lemma NoDeadlock(codec: Codec, n: nat, st: State)
    requires Reachable(codec, n, st)
    requires forall l | IsTail(l) :: !Enabled(codec, st, l)
    ensures AllFinished(st.flight)
  {
    var g := ReachableInv(codec, n, st);
    if !AllFinished(st.flight) {
      var j := FirstUnfinished(st.flight, 0);
      assert !Enabled(codec, st, Parse(j)) && !Enabled(codec, st, Finish(j));
      OldestCanStep(codec, st, g, j);
    }
  }

  lemma FirstUnfinished(fs: seq<Flight>, from: nat) returns (j: nat)
    requires from <= |fs| && (forall k | 0 <= k < from :: fs[k].phase.Finished?) && !AllFinished(fs)
    ensures j < |fs| && !fs[j].phase.Finished? && forall k | 0 <= k < j :: fs[k].phase.Finished?
    decreases |fs| - from
  {
    if from < |fs| && fs[from].phase.Finished? {
      j := FirstUnfinished(fs, from + 1);
    } else {
      j := from;
    }
  }

  // ----- order and delay --------------------------------------------------------------------

  /** In every interleaving at most n frames are in flight, they are the last submissions in order, and one of
      them is at most n submissions old. The ring keeps a frame exactly that long: see FrameRing.Pipeline.Waits. */
  lemma DelayBound(codec: Codec, n: nat, st: State, j: nat)
    requires Reachable(codec, n, st) && j < |st.flight|
    ensures |st.flight| <= n
    ensures st.flight[j].id == st.count - |st.flight| + j
    ensures st.count - st.flight[j].id <= n
  {
    var g := ReachableInv(codec, n, st);
  }
}
