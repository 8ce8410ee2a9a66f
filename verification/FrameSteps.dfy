/** Every step other than a submission keeps the threaded decoder on the serial decoder's course. */
module FrameSteps {
  import opened Values
  import opened Handles
  import opened Progress
  import opened Surfaces
  import opened SerialDecode
  import opened Lanes
  import opened FrameThread
  import opened Ownership
  import opened Refinement
  import opened SubmitStep

  // ----- the entropy pass -------------------------------------------------------------------

  lemma ReadAllIsWanted(b: Bank, want: seq<Result<Data>>, bs: seq<Bind>, hs: seq<int>)
    requires Coupled(b, want, bs) && InRange(hs, |b.cell|) && Final(b, hs)
    ensures ReadAll(b, hs) == WantedAll(want, hs)
  {
    forall i | 0 <= i < |hs|
      ensures Read(b, hs[i]) == Wanted(want, hs[i])
    {
      ReadIsWanted(b, want, bs, hs[i]);
    }
  }

  /** An entropy pass computes what the serial decoder computed, whenever it runs. */
  lemma ParseIsWanted(codec: Codec, st: State, g: Shadow, j: nat)
    requires CanParse(st, j) && FrameOk(codec, st.flight[j], g)
    requires Coupled(st.ctx, g.ctx, CtxOf(st.flight))
    requires Coupled(st.mv, g.mv, MvOf(st.flight))
    requires Coupled(st.seg, g.seg, SegOf(st.flight))
    ensures ParseOf(codec, st, j) == WantedEntropy(codec, st.flight[j].job.value, st.flight[j], g)
  {
    var f := st.flight[j];
    ReadAllIsWanted(st.mv, g.mv, MvOf(st.flight), f.mv.needs);
    ReadIsWanted(st.ctx, g.ctx, CtxOf(st.flight), f.ctx.needs[0]);
    ReadIsWanted(st.seg, g.seg, SegOf(st.flight), f.seg.needs[0]);
  }

  lemma BindsUpdate(fs: seq<Flight>, j: nat, f: Flight)
    requires j < |fs|
    ensures CtxOf(fs[j := f]) == CtxOf(fs)[j := f.ctx]
    ensures MvOf(fs[j := f]) == MvOf(fs)[j := f.mv]
    ensures SegOf(fs[j := f]) == SegOf(fs)[j := f.seg]
    ensures PixOf(fs[j := f]) == PixOf(fs)[j := f.pix]
  {
  }

  lemma SameBind(bs: seq<Bind>, j: nat)
    requires j < |bs|
    ensures bs[j := bs[j]] == bs
  {
  }

  lemma ParseLanes(codec: Codec, st: State, g: Shadow, j: nat)
    requires CanParse(st, j) && LanesOk(st, g) && FrameOk(codec, st.flight[j], g)
    ensures LanesOk(ParsedState(codec, st, j), g)
  {
    var f := st.flight[j];
    var ent := ParseOf(codec, st, j);
    ParseIsWanted(codec, st, g, j);
    PostKept(st.ctxStore, st.ctx, g.ctx, CtxOf(st.flight), j, ContextsOf(ent));
    PostKept(st.mvStore, st.mv, g.mv, MvOf(st.flight), j, GridOf(ent));
    PostKept(st.segStore, st.seg, g.seg, SegOf(st.flight), j, SegmentsOf(ent));
    BindsUpdate(st.flight, j, ParsedState(codec, st, j).flight[j]);
    SameBind(PixOf(st.flight), j);
  }

  lemma ParseFrames(codec: Codec, st: State, g: Shadow, j: nat)
    requires CanParse(st, j) && FramesOk(codec, st, g)
    requires ParseOf(codec, st, j) == WantedEntropy(codec, st.flight[j].job.value, st.flight[j], g)
    ensures FramesOk(codec, ParsedState(codec, st, j), g)
  {
    var st' := ParsedState(codec, st, j);
    forall k | 0 <= k < |st'.flight|
      ensures FrameOk(codec, st'.flight[k], g)
    {
      assert FrameOk(codec, st.flight[k], g);
      if k == j {
        assert WantedEntropy(codec, st.flight[j].job.value, st'.flight[j], g)
            == WantedEntropy(codec, st.flight[j].job.value, st.flight[j], g);
      }
    }
  }

  /** The conditions that depend only on what a frame goroutine cannot change. */
  lemma TailRest(codec: Codec, st: State, g: Shadow, st': State, j: nat)
    requires Inv(codec, st, g) && j < |st.flight|
    requires st' == st.(flight := st'.flight, ctx := st'.ctx, mv := st'.mv, seg := st'.seg, pix := st'.pix)
    requires |st'.flight| == |st.flight|
    requires |st'.pix.cell| == |st.pix.cell|
    requires forall k | 0 <= k < |st.flight| ::
               SameEntry(st.flight[k], st'.flight[k])
    requires LanesOk(st', g) && FramesOk(codec, st', g)
    ensures Inv(codec, st', g)
  {
    SameOwned(Used(st.pool), st.slots, st.flight, st.ready, st.shown, st'.flight);
    SizedAfter(codec, st', g);
  }

  ghost predicate SameEntry(f: Flight, f': Flight) {
    && f'.id == f.id && f'.job == f.job && f'.surface == f.surface && f'.releases == f.releases
    && f'.pix.needs == f.pix.needs && f'.pix.makes == f.pix.makes
    && f'.ctx.holds == f.ctx.holds && f'.mv.holds == f.mv.holds && f'.seg.holds == f.seg.holds
  }

  lemma ParseKeeps(codec: Codec, st: State, g: Shadow, j: nat)
    requires Inv(codec, st, g) && CanParse(st, j)
    ensures Inv(codec, ParsedState(codec, st, j), g)
  {
    ParseLanes(codec, st, g, j);
    ParseIsWanted(codec, st, g, j);
    ParseFrames(codec, st, g, j);
    TailRest(codec, st, g, ParsedState(codec, st, j), j);
  }

  // ----- reconstruction ---------------------------------------------------------------------

  /** Reconstruction computes what the serial decoder computed, whenever it runs. */
  lemma FinishIsWanted(codec: Codec, st: State, g: Shadow, j: nat)
    requires CanFinish(st, j) && FrameOk(codec, st.flight[j], g)
    requires Coupled(st.pix, g.pix, PixOf(st.flight))
    ensures FinishOf(codec, st, j) == g.pix[st.flight[j].surface]
  {
    ReadAllIsWanted(st.pix, g.pix, PixOf(st.flight), st.flight[j].pix.needs);
  }

  lemma FinishLanes(codec: Codec, st: State, g: Shadow, j: nat)
    requires CanFinish(st, j) && LanesOk(st, g) && FrameOk(codec, st.flight[j], g)
    requires st.flight[j].pix.makes == st.flight[j].surface
    ensures LanesOk(FinishedState(codec, st, j), g)
  {
    FinishIsWanted(codec, st, g, j);
    PostCoupled(st.pix, g.pix, PixOf(st.flight), j, FinishOf(codec, st, j));
    BindsUpdate(st.flight, j, FinishedState(codec, st, j).flight[j]);
    SameBind(CtxOf(st.flight), j);
    SameBind(MvOf(st.flight), j);
    SameBind(SegOf(st.flight), j);
  }

  lemma FinishFrames(codec: Codec, st: State, g: Shadow, j: nat)
    requires CanFinish(st, j) && FramesOk(codec, st, g)
    requires st.flight[j].surface < |g.pix| && FinishOf(codec, st, j) == g.pix[st.flight[j].surface]
    ensures FramesOk(codec, FinishedState(codec, st, j), g)
  {
    var st' := FinishedState(codec, st, j);
    forall k | 0 <= k < |st'.flight|
      ensures FrameOk(codec, st'.flight[k], g)
    {
      assert FrameOk(codec, st.flight[k], g);
      if k == j {
        assert WantedEntropy(codec, st.flight[j].job.value, st'.flight[j], g)
            == WantedEntropy(codec, st.flight[j].job.value, st.flight[j], g);
      }
    }
  }

  lemma FinishKeeps(codec: Codec, st: State, g: Shadow, j: nat)
    requires Inv(codec, st, g) && CanFinish(st, j)
    ensures Inv(codec, FinishedState(codec, st, j), g)
  {
    FinishIsWanted(codec, st, g, j);
    FinishLanes(codec, st, g, j);
    FinishFrames(codec, st, g, j);
    TailRest(codec, st, g, FinishedState(codec, st, j), j);
  }

  // ----- retiring ---------------------------------------------------------------------------

  lemma BindsDrop(fs: seq<Flight>)
    requires fs != []
    ensures CtxOf(fs[1..]) == CtxOf(fs)[1..]
    ensures MvOf(fs[1..]) == MvOf(fs)[1..]
    ensures SegOf(fs[1..]) == SegOf(fs)[1..]
    ensures PixOf(fs[1..]) == PixOf(fs)[1..]
  {
  }

  lemma RetireLanes(codec: Codec, st: State, g: Shadow)
    requires CanRetire(st) && LanesOk(st, g) && FrameOk(codec, st.flight[0], g) && WellFormed(st.flight)
    ensures LanesOk(RetiredState(st), g)
  {
    BindsDrop(st.flight);
    RetireKept(st.ctxStore, st.ctx, g.ctx, CtxOf(st.flight));
    RetireKept(st.mvStore, st.mv, g.mv, MvOf(st.flight));
    RetireKept(st.segStore, st.seg, g.seg, SegOf(st.flight));
    RetireCoupled(st.pix, g.pix, PixOf(st.flight));
  }

  /** Retiring returns to the pool exactly the surfaces the entry dropped and this call does not
      return, all of which were in use. */
  lemma RetireOwnedState(st: State)
    requires CanRetire(st) && OwnedState(st) && st.shown == []
    ensures OwnedState(RetiredState(st))
    ensures Within(st.flight[0].releases, Used(st.pool))
    ensures Used(RetiredState(st).pool) == Used(st.pool) - (Elements(st.flight[0].releases) - ReadySurfaces(st.ready))
    ensures |RetiredState(st).pool.used| == |st.pool.used|
  {
    ReleasedExceptValid(st.pool, st.flight[0].releases, ReadySurfaces(st.ready));
    RetireOwned(Used(st.pool), st.slots, st.flight, st.ready, st.shown, RetiredState(st).ready);
  }

  lemma RetireQueue(codec: Codec, st: State, g: Shadow)
    requires CanRetire(st) && FramesOk(codec, st, g) && QueueOk(st, g) && ReadyOk(st, g) && Capacity(st)
    requires |RetiredState(st).pool.used| == |st.pool.used|
    ensures FramesOk(codec, RetiredState(st), g)
    ensures QueueOk(RetiredState(st), g)
    ensures ReadyOk(RetiredState(st), g)
    ensures Capacity(RetiredState(st))
  {
    assert FrameOk(codec, st.flight[0], g);
    var st' := RetiredState(st);
    assert forall k | 0 <= k < |st'.flight| :: st'.flight[k] == st.flight[k + 1];
  }

  lemma RetireKeeps(codec: Codec, st: State, g: Shadow)
    requires Inv(codec, st, g) && st.inCall && CanRetire(st)
    ensures Inv(codec, RetiredState(st), g)
  {
    RetireLanes(codec, st, g);
    RetireOwnedState(st);
    RetireQueue(codec, st, g);
    SizedAfter(codec, RetiredState(st), g);
  }

  // ----- the start and the end of a call ----------------------------------------------------

  /** The start of a call returns to the pool exactly the surfaces of the last batch that no slot
      names and no frame in flight will return, all of which were in use. */
  lemma BeginOwnedState(st: State)
    requires OwnedState(st)
    ensures OwnedState(Begun(st))
    ensures Within(st.shown, Used(st.pool))
    ensures Used(Begun(st).pool) == Used(st.pool) - (Elements(st.shown) - (Elements(st.slots) + Deferred(st.flight)))
    ensures |Begun(st).pool.used| == |st.pool.used|
  {
    ReleasedExceptValid(st.pool, st.shown, Elements(st.slots) + Deferred(st.flight));
    BeginOwned(Used(st.pool), st.slots, st.flight, st.ready, st.shown);
  }

  lemma BeginKeeps(codec: Codec, st: State, g: Shadow)
    requires Inv(codec, st, g)
    ensures Inv(codec, Begun(st), g)
  {
    BeginOwnedState(st);
    SizedAfter(codec, Begun(st), g);
  }

  lemma EndKeeps(codec: Codec, st: State, g: Shadow)
    requires Inv(codec, st, g)
    ensures Inv(codec, Ended(st), g)
  {
    EndOwned(Used(st.pool), st.slots, st.flight, st.ready, st.shown, Ended(st).shown);
    SizedAfter(codec, Ended(st), g);
  }

  // ----- showing an existing frame ----------------------------------------------------------

  function ShownFlight(st: State, shown: nat, key: bool): Flight
    requires CanShow(st, shown)
  {
    ShownState(st, shown, key).flight[|st.flight|]
  }

  lemma ShowLane(s: Store, b: Bank, want: seq<Result<Data>>, bs: seq<Bind>, saved: seq<Option<Result<Data>>>,
                 shown: nat, h: int, key: bool)
    requires LaneInv(s, b, want, bs) && SlotsMatch(s, want, saved) && shown < REF_FRAMES && NONE <= h < |s.refs|
    ensures var s' := if key then PublishOthers(s, shown, h) else s;
            && LaneInv(s', b, want, bs + [IDLE])
            && SlotsMatch(s', want,
                 if key then Refreshed(saved, seq(REF_FRAMES, i => i != shown), Wanted(want, h)) else saved)
  {
    if key {
      ShowKeyKept(s, b, want, bs, saved, shown, h);
      IdleKept(PublishOthers(s, shown, h), b, want, bs, IDLE);
    } else {
      IdleKept(s, b, want, bs, IDLE);
    }
  }

  lemma ShowDims(s: Store, dims: seq<int>, shown: nat)
    requires DimsMatch(s, dims) && shown < REF_FRAMES
    ensures DimsMatch(PublishOthers(s, shown, s.slot[shown]),
              Refreshed(dims, seq(REF_FRAMES, i => i != shown), dims[shown]))
  {
  }

  lemma ShowPixels(slots: seq<int>, b: Bank, want: seq<Result<Data>>, bs: seq<Bind>, saved: seq<Option<Result<Data>>>,
                   shown: nat, key: bool)
    requires Coupled(b, want, bs) && PixelsMatch(slots, want, saved) && shown < REF_FRAMES && slots[shown] >= 0
    ensures Coupled(b, want, bs + [Bind([slots[shown]], NONE, [], true)])
    ensures PixelsMatch(if key then RefreshedSlots(slots, seq(REF_FRAMES, i => true), slots[shown]) else slots, want,
              if key then Refreshed(saved, seq(REF_FRAMES, i => i != shown), saved[shown]) else saved)
  {
    StartCoupled(b, want, bs, Bind([slots[shown]], NONE, [], true), Err);
  }

  lemma ShowParts(st: State, g: Shadow, shown: nat, key: bool, codec: Codec)
    requires CanShow(st, shown) && ValidSlots(g.slots)
    ensures var st', g' := ShownState(st, shown, key), ShadowShow(codec, g, shown, key);
            var others := seq(REF_FRAMES, i => i != shown);
            && st'.flight == st.flight + [ShownFlight(st, shown, key)]
            && g'.slots.pixels == (if key then Refreshed(g.slots.pixels, others, g.slots.pixels[shown]) else g.slots.pixels)
            && g'.slots.contexts == (if key then Refreshed(g.slots.contexts, others, g.slots.contexts[shown]) else g.slots.contexts)
            && g'.slots.grids == (if key then Refreshed(g.slots.grids, others, None) else g.slots.grids)
            && g'.slots.segments == (if key then Refreshed(g.slots.segments, others, g.slots.segments[shown]) else g.slots.segments)
            && g'.slots.dims == (if key then Refreshed(g.slots.dims, others, g.slots.dims[shown]) else g.slots.dims)
  {
  }

  lemma ShowLanes(codec: Codec, st: State, g: Shadow, shown: nat, key: bool)
    requires ShadowSized(st, g) && CanShow(st, shown) && LanesOk(st, g) && SlotsOk(st, g)
    ensures var st', g' := ShownState(st, shown, key), ShadowShow(codec, g, shown, key);
            && LanesOk(st', g')
            && SlotsMatch(st'.ctxStore, g'.ctx, g'.slots.contexts)
            && SlotsMatch(st'.mvStore, g'.mv, g'.slots.grids)
            && SlotsMatch(st'.segStore, g'.seg, g'.slots.segments)
            && DimsMatch(st'.segStore, g'.slots.dims)
            && PixelsMatch(st'.slots, g'.pix, g'.slots.pixels)
  {
    ShowParts(st, g, shown, key, codec);
    BindsAppend(st.flight, ShownFlight(st, shown, key));
    ShowLane(st.ctxStore, st.ctx, g.ctx, CtxOf(st.flight), g.slots.contexts, shown, st.ctxStore.slot[shown], key);
    ShowLane(st.mvStore, st.mv, g.mv, MvOf(st.flight), g.slots.grids, shown, NONE, key);
    ShowLane(st.segStore, st.seg, g.seg, SegOf(st.flight), g.slots.segments, shown, st.segStore.slot[shown], key);
    ShowDims(st.segStore, g.slots.dims, shown);
    ShowPixels(st.slots, st.pix, g.pix, PixOf(st.flight), g.slots.pixels, shown, key);
  }

  lemma ShowOwnedState(st: State, shown: nat, key: bool)
    requires CanShow(st, shown) && OwnedState(st)
    ensures OwnedState(ShownState(st, shown, key))
  {
    var f := ShownFlight(st, shown, key);
    var refresh := seq(REF_FRAMES, i => key);
    var u := Used(st.pool);
    assert st.slots[shown] in u;
    assert RefreshedSlots(st.slots, refresh, f.surface) == ShownState(st, shown, key).slots;
    if !key {
      NothingOverwritten(st.slots, refresh, f.surface, REF_FRAMES);
    } else {
      assert refresh == seq(REF_FRAMES, i => true);
    }
    DroppedExactly(st.slots, refresh, f.surface);
    assert RefreshedSlots(st.slots, refresh, f.surface)[shown] == f.surface;
    JoinOwned(u, st.slots, st.flight, st.ready, st.shown, f, refresh);
    assert u + {f.surface} == u;
  }

  lemma {:induction false} NothingOverwritten(slots: seq<int>, refresh: seq<bool>, surface: int, i: nat)
    requires i <= |slots| == |refresh| && forall k | 0 <= k < |refresh| :: !refresh[k]
    ensures Overwritten(slots, refresh, surface, i) == []
  {
    if i > 0 {
      NothingOverwritten(slots, refresh, surface, i - 1);
    }
  }

  lemma ShowFrames(codec: Codec, st: State, g: Shadow, shown: nat, key: bool)
    requires ShadowSized(st, g) && CanShow(st, shown) && FramesOk(codec, st, g) && QueueOk(st, g) && ReadyOk(st, g)
    requires PixelsMatch(st.slots, g.pix, g.slots.pixels) && Capacity(st)
    ensures var st', g' := ShownState(st, shown, key), ShadowShow(codec, g, shown, key);
            FramesOk(codec, st', g') && QueueOk(st', g') && ReadyOk(st', g') && Capacity(st')
  {
    var st', g' := ShownState(st, shown, key), ShadowShow(codec, g, shown, key);
    forall j | 0 <= j < |st'.flight|
      ensures FrameOk(codec, st'.flight[j], g')
    {
      if j < |st.flight| {
        assert st'.flight[j] == st.flight[j];
        FrameStable(codec, st.flight[j], g, g');
      }
    }
  }

  lemma ShowKeeps(codec: Codec, st: State, g: Shadow, shown: nat, key: bool)
    requires Inv(codec, st, g) && CanShow(st, shown)
    ensures Inv(codec, ShownState(st, shown, key), ShadowShow(codec, g, shown, key))
  {
    ShowLanes(codec, st, g, shown, key);
    ShowOwnedState(st, shown, key);
    ShowFrames(codec, st, g, shown, key);
    SizedAfter(codec, ShownState(st, shown, key), ShadowShow(codec, g, shown, key));
  }

  // ----- every step -------------------------------------------------------------------------

  /** Every step of every interleaving keeps the invariant. */
  lemma StepKeeps(codec: Codec, st: State, g: Shadow, l: Label)
    requires Inv(codec, st, g) && Enabled(codec, st, l)
    ensures Inv(codec, Next(codec, st, l), ShadowNext(codec, st, g, l))
  {
    match l
    case BeginCall => BeginKeeps(codec, st, g);
    case Submit(e) => SubmitKeeps(codec, st, g, e);
    case ShowExisting(shown, key) => ShowKeeps(codec, st, g, shown, key);
    case Parse(j) => ParseKeeps(codec, st, g, j);
    case Finish(j) => FinishKeeps(codec, st, g, j);
    case Retire => RetireKeeps(codec, st, g);
    case EndCall => EndKeeps(codec, st, g);
  }
}
