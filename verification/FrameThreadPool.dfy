/**
 The pool never runs dry, and nothing leaks.

 These hold of runs in which no frame fails, every coded frame is shown or refreshes a slot, and a call
 makes at most n + 1 submissions. Under them every surface in use has an owner, so that retiring the
 frames in flight always leaves a surface for the next submission.
 */
module FrameThreadPool {
  import opened Values
  import opened Handles
  import opened Progress
  import opened Surfaces
  import opened SerialDecode
  import opened Lanes
  import opened FrameThread
  import opened Ownership
  import opened Refinement
  import opened SubmitStep
  import opened FrameSteps
  import opened FrameThreadTheorems

  /** A step of a well-behaved run. */
  predicate Modest(st: State, l: Label) {
    match l
    case Submit(e) => e.show || (exists i :: 0 <= i < |e.refresh| && e.refresh[i])
    case Retire => st.flight != [] && st.flight[0].phase == Finished(true)
    case EndCall => st.err.None? && st.submissions <= st.n + 1
    case _ => true
  }

  /** The surfaces whose pictures the caller has, or is about to get. */
  function Returned(st: State): set<int> {
    if st.inCall then ReadySurfaces(st.ready) else Elements(st.shown)
  }

  ghost predicate Written(flight: seq<Flight>, s: int) {
    exists j :: 0 <= j < |flight| && Coded(flight[j]) && flight[j].surface == s
  }

  /** Somebody owns s. */
  ghost predicate HasOwner(slots: seq<int>, flight: seq<Flight>, returned: set<int>, s: int) {
    s in slots || s in Deferred(flight) || Written(flight, s) || s in returned
  }

  /** Every surface in use has an owner. */
  ghost predicate NoLeak(u: set<int>, slots: seq<int>, flight: seq<Flight>, returned: set<int>) {
    forall s | s in u :: HasOwner(slots, flight, returned, s)
  }

  /** A frame that will not be output is already kept by a slot or a release list. */
  ghost predicate HiddenKept(slots: seq<int>, flight: seq<Flight>) {
    forall j | 0 <= j < |flight| && Coded(flight[j]) && !Shows(flight[j]) ::
      flight[j].surface in slots || flight[j].surface in Deferred(flight)
  }

  ghost predicate Exact(st: State) {
    && NoLeak(Used(st.pool), st.slots, st.flight, Returned(st))
    && HiddenKept(st.slots, st.flight)
    && (st.inCall ==> |st.ready| + |st.flight| <= st.n + st.submissions)
  }

  // ----- steps ------------------------------------------------------------------------------

  lemma DeferredAppend(flight: seq<Flight>, f: Flight)
    ensures Deferred(flight + [f]) == Deferred(flight) + Elements(f.releases)
  {
    var all := flight + [f];
    forall s | s in Deferred(flight) + Elements(f.releases)
      ensures s in Deferred(all)
    {
      if s in Deferred(flight) {
        var j :| 0 <= j < |flight| && s in flight[j].releases;
        assert s in all[j].releases;
      } else {
        assert s in all[|flight|].releases;
      }
    }
  }

  lemma JoinExact(u: set<int>, slots: seq<int>, flight: seq<Flight>, returned: set<int>, f: Flight, refresh: seq<bool>)
    requires NoLeak(u, slots, flight, returned) && HiddenKept(slots, flight) && |slots| == |refresh|
    requires f.releases == Dropped(slots, refresh, f.surface)
    requires Coded(f) || f.surface in u
    requires Coded(f) && !Shows(f) ==> exists i :: 0 <= i < |refresh| && refresh[i]
    requires forall s | s in u :: s >= 0
    ensures NoLeak(u + {f.surface}, RefreshedSlots(slots, refresh, f.surface), flight + [f], returned)
    ensures HiddenKept(RefreshedSlots(slots, refresh, f.surface), flight + [f])
  {
    DroppedExactly(slots, refresh, f.surface);
    DeferredAppend(flight, f);
    var slots', flight' := RefreshedSlots(slots, refresh, f.surface), flight + [f];
    assert flight'[|flight|] == f;
    forall s | s in u + {f.surface}
      ensures HasOwner(slots', flight', returned, s)
    {
      if s in u && Written(flight, s) {
        var j :| 0 <= j < |flight| && Coded(flight[j]) && flight[j].surface == s;
        assert flight'[j] == flight[j];
      }
    }
    forall j | 0 <= j < |flight'| && Coded(flight'[j]) && !Shows(flight'[j])
      ensures flight'[j].surface in slots' || flight'[j].surface in Deferred(flight')
    {
      if j == |flight| {
        var i :| 0 <= i < |refresh| && refresh[i];
        assert slots'[i] == f.surface;
      } else {
        assert flight'[j] == flight[j];
      }
    }
  }

  lemma SubmitExact(codec: Codec, st: State, e: Event)
    requires OwnedState(st) && CanSubmit(codec, st, e) && Exact(st) && Modest(st, Submit(e)) && st.inCall
    ensures Exact(SubmittedState(codec, st, e))
  {
    SubmitOwnedState(codec, st, e);
    JoinExact(Used(st.pool), st.slots, st.flight, Returned(st), NewFlight(codec, st, e), e.refresh);
  }

  lemma ShowExact(st: State, shown: nat, key: bool)
    requires OwnedState(st) && CanShow(st, shown) && Exact(st) && st.inCall
    ensures Exact(ShownState(st, shown, key))
  {
    var f := ShownFlight(st, shown, key);
    var refresh := seq(REF_FRAMES, i => key);
    var u := Used(st.pool);
    assert st.slots[shown] in u;
    assert RefreshedSlots(st.slots, refresh, f.surface) == ShownState(st, shown, key).slots;
    if !key {
      NothingOverwritten(st.slots, refresh, f.surface, REF_FRAMES);
    } else {
      assert refresh == seq(REF_FRAMES, i => true);
    }
    JoinExact(u, st.slots, st.flight, Returned(st), f, refresh);
    assert u + {f.surface} == u;
    assert ShownState(st, shown, key).flight == st.flight + [f];
  }

  lemma TailExact(st: State, st': State)
    requires Exact(st)
    requires st' == st.(flight := st'.flight, ctx := st'.ctx, mv := st'.mv, seg := st'.seg, pix := st'.pix)
    requires |st'.flight| == |st.flight| && forall k | 0 <= k < |st.flight| :: SameEntry(st.flight[k], st'.flight[k])
    ensures Exact(st')
  {
    DeferredSame(st.flight, st'.flight);
    forall s | s in Used(st'.pool)
      ensures HasOwner(st'.slots, st'.flight, Returned(st'), s)
    {
      assert HasOwner(st.slots, st.flight, Returned(st), s);
      if Written(st.flight, s) {
        var j :| 0 <= j < |st.flight| && Coded(st.flight[j]) && st.flight[j].surface == s;
        assert st'.flight[j].surface == s;
      }
    }
  }

  lemma DeferredSame(flight: seq<Flight>, flight': seq<Flight>)
    requires |flight'| == |flight| && forall k | 0 <= k < |flight| :: flight'[k].releases == flight[k].releases
    ensures Deferred(flight') == Deferred(flight)
  {
  }

  lemma DeferredDrop(flight: seq<Flight>)
    requires flight != []
    ensures Deferred(flight) == Elements(flight[0].releases) + Deferred(flight[1..])
  {
    forall s | s in flight[0].releases
      ensures s in Deferred(flight)
    {
    }
    forall s | s in Deferred(flight)
      ensures s in Elements(flight[0].releases) + Deferred(flight[1..])
    {
      var j :| 0 <= j < |flight| && s in flight[j].releases;
      assert j > 0 ==> flight[1..][j - 1] == flight[j];
    }
    forall s | s in Deferred(flight[1..])
      ensures s in Deferred(flight)
    {
      var j :| 0 <= j < |flight[1..]| && s in flight[1..][j].releases;
      assert s in flight[j + 1].releases;
    }
  }

  lemma RetireExact(st: State)
    requires OwnedState(st) && CanRetire(st) && Exact(st) && Modest(st, Retire) && st.inCall && st.shown == []
    ensures Exact(RetiredState(st))
  {
    var st' := RetiredState(st);
    var f := st.flight[0];
    RetireOwnedState(st);
    DeferredDrop(st.flight);
    assert forall j | 0 <= j < |st'.flight| :: st'.flight[j] == st.flight[j + 1];
    assert forall i | 0 <= i < |st.ready| :: st'.ready[i] == st.ready[i];
    assert ReadySurfaces(st.ready) <= ReadySurfaces(st'.ready);
    assert Shows(f) ==> st'.ready[|st.ready|].surface == f.surface && f.surface in ReadySurfaces(st'.ready);
    forall s | s in Used(st'.pool)
      ensures HasOwner(st'.slots, st'.flight, Returned(st'), s)
    {
      assert HasOwner(st.slots, st.flight, Returned(st), s);
      if Written(st.flight, s) {
        var j :| 0 <= j < |st.flight| && Coded(st.flight[j]) && st.flight[j].surface == s;
        assert j > 0 ==> st'.flight[j - 1].surface == s;
        assert j == 0 ==> s !in f.releases;
      }
    }
    forall j | 0 <= j < |st'.flight| && Coded(st'.flight[j]) && !Shows(st'.flight[j])
      ensures st'.flight[j].surface in st'.slots || st'.flight[j].surface in Deferred(st'.flight)
    {
      assert st.flight[j + 1].surface !in f.releases;
    }
  }

  lemma BeginExact(st: State)
    requires OwnedState(st) && Exact(st) && !st.inCall && |st.flight| <= st.n
    ensures Exact(Begun(st))
  {
    BeginOwnedState(st);
    forall s | s in Used(Begun(st).pool)
      ensures HasOwner(st.slots, st.flight, {}, s)
    {
      assert HasOwner(st.slots, st.flight, Returned(st), s);
    }
  }

  lemma EndExact(st: State)
    requires Exact(st) && st.inCall && Modest(st, EndCall) && st.n <= MAX_CONTEXTS
    ensures Exact(Ended(st))
  {
    TrackedExactly(st.ready);
    assert Returned(Ended(st)) == Returned(st);
  }

  /** Every well-behaved step keeps every surface in use accounted for. */
  lemma StepExact(codec: Codec, st: State, g: Shadow, l: Label)
    requires Sound(codec, st, g) && Enabled(codec, st, l) && Exact(st) && Modest(st, l)
    ensures Exact(Next(codec, st, l))
  {
    SoundPool(codec, st, g);
    match l
    case BeginCall => BeginExact(st);
    case Submit(e) => SubmitExact(codec, st, e);
    case ShowExisting(shown, key) => ShowExact(st, shown, key);
    case Parse(j) => TailExact(st, ParsedState(codec, st, j));
    case Finish(j) => TailExact(st, FinishedState(codec, st, j));
    case Retire => RetireExact(st);
    case EndCall => EndExact(st);
  }

  lemma SoundPool(codec: Codec, st: State, g: Shadow)
    requires Sound(codec, st, g)
    ensures OwnedState(st) && |st.flight| <= st.n <= MAX_CONTEXTS && (st.inCall ==> st.shown == [])
    ensures |st.pool.used| == SurfaceCount(st.n) && |st.slots| == REF_FRAMES
  {
    Unseal(codec, st, g);
  }

  // ----- runs -------------------------------------------------------------------------------

  predicate ModestRun(codec: Codec, st: State, ls: seq<Label>)
    requires CanRun(codec, st, ls)
    decreases |ls|
  {
    ls == [] || (Modest(st, ls[0]) && ModestRun(codec, Next(codec, st, ls[0]), ls[1..]))
  }

  lemma {:induction false} RunExact(codec: Codec, st: State, g: Shadow, ls: seq<Label>)
    requires Sound(codec, st, g) && CanRun(codec, st, ls) && ModestRun(codec, st, ls) && Exact(st)
    ensures Exact(Run(codec, st, ls))
    decreases |ls|
  {
    if ls != [] {
      StepExact(codec, st, g, ls[0]);
      SoundStep(codec, st, g, ls[0]);
      RunExact(codec, Next(codec, st, ls[0]), ShadowNext(codec, st, g, ls[0]), ls[1..]);
    }
  }

  // ----- availability -----------------------------------------------------------------------

  function Named(slots: seq<int>): set<int> {
    set s | s in slots && s >= 0
  }

  lemma ReadySize(ready: seq<Out>)
    ensures |ReadySurfaces(ready)| <= |ready|
    decreases |ready|
  {
    if ready == [] {
      assert ReadySurfaces(ready) == {};
    } else {
      var last := |ready| - 1;
      ReadySize(ready[..last]);
      assert ReadySurfaces(ready) == ReadySurfaces(ready[..last]) + {ready[last].surface as int};
    }
  }

  lemma NamedSize(slots: seq<int>)
    ensures |Named(slots)| <= |slots|
  {
    ElementsBound(slots);
    SubsetSize(Named(slots), Elements(slots));
  }

  /** With nothing in flight, the surfaces in use are those the slots name and this call returns. */
  lemma IdleUse(st: State)
    requires OwnedState(st) && Exact(st) && st.inCall && st.flight == []
    ensures Used(st.pool) == Named(st.slots) + ReadySurfaces(st.ready)
  {
    forall s | s in Used(st.pool)
      ensures s in Named(st.slots) + ReadySurfaces(st.ready)
    {
      assert HasOwner(st.slots, st.flight, Returned(st), s);
    }
  }

  /** Once the frames in flight have been retired, the pool is empty exactly when the slots and the
      pictures of this call name every surface; and that cannot happen to the first n + 1 submissions
      of a call. */
  lemma SurfaceAvailable(st: State)
    requires OwnedState(st) && Exact(st) && st.inCall && st.flight == []
    requires |st.pool.used| == SurfaceCount(st.n) && |st.slots| == REF_FRAMES
    ensures st.pool.free == [] <==> |Named(st.slots) + ReadySurfaces(st.ready)| == SurfaceCount(st.n)
    ensures st.submissions <= st.n ==> st.pool.free != []
  {
    IdleUse(st);
    FreeFits(st.pool);
    ReadySize(st.ready);
    NamedSize(st.slots);
    var named, ready := Named(st.slots), ReadySurfaces(st.ready);
    assert |named + ready| <= |named| + |ready|;
  }

  lemma ModestExact(codec: Codec, n: nat, ls: seq<Label>)
    requires n <= MAX_CONTEXTS && CanRun(codec, Init(n), ls) && ModestRun(codec, Init(n), ls)
    ensures var st := Run(codec, Init(n), ls);
            && Exact(st) && OwnedState(st) && |st.pool.used| == SurfaceCount(st.n) && |st.slots| == REF_FRAMES
  {
    InitInv(codec, n);
    NewPoolValid(SurfaceCount(n));
    RunExact(codec, Init(n), ShadowInit(n), ls);
    RunKeeps(codec, Init(n), ShadowInit(n), ls);
    SoundPool(codec, Run(codec, Init(n), ls), ShadowRun(codec, Init(n), ShadowInit(n), ls));
  }

  /** In every well-behaved run. */
  lemma NeverDry(codec: Codec, n: nat, ls: seq<Label>)
    requires n <= MAX_CONTEXTS && CanRun(codec, Init(n), ls) && ModestRun(codec, Init(n), ls)
    ensures var st := Run(codec, Init(n), ls);
            && NoLeak(Used(st.pool), st.slots, st.flight, Returned(st))
            && (st.inCall && st.flight == [] && st.submissions <= st.n ==> st.pool.free != [])
  {
    ModestExact(codec, n, ls);
    RunSameContexts(codec, Init(n), ls);
    var st := Run(codec, Init(n), ls);
    if st.inCall && st.flight == [] {
      SurfaceAvailable(st);
    }
  }
}
