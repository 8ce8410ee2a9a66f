/** A submission keeps the threaded decoder on the serial decoder's course. */
module SubmitStep {
  import opened Values
  import opened Handles
  import opened Progress
  import opened Surfaces
  import opened SerialDecode
  import opened Lanes
  import opened FrameThread
  import opened Ownership
  import opened Refinement

  // ----- frames already in flight -----------------------------------------------------------

  /** Two shadows agree on everything that a frame in flight depends on. */
  ghost predicate Agree(f: Flight, g: Shadow, g': Shadow) {
    && InBounds(f, g) && InBounds(f, g')
    && WantedAll(g'.ctx, f.ctx.needs) == WantedAll(g.ctx, f.ctx.needs)
    && WantedAll(g'.mv, f.mv.needs) == WantedAll(g.mv, f.mv.needs)
    && WantedAll(g'.seg, f.seg.needs) == WantedAll(g.seg, f.seg.needs)
    && WantedAll(g'.pix, f.pix.needs) == WantedAll(g.pix, f.pix.needs)
    && Wanted(g'.ctx, f.ctx.makes) == Wanted(g.ctx, f.ctx.makes)
    && Wanted(g'.mv, f.mv.makes) == Wanted(g.mv, f.mv.makes)
    && Wanted(g'.seg, f.seg.makes) == Wanted(g.seg, f.seg.makes)
    && g'.pix[f.surface] == g.pix[f.surface]
    && g'.pictures[f.id] == g.pictures[f.id]
  }

  lemma FrameStable(codec: Codec, f: Flight, g: Shadow, g': Shadow)
    requires FrameOk(codec, f, g) && Agree(f, g, g')
    ensures FrameOk(codec, f, g')
  {
    if f.job.Some? {
      assert WantedAll(g'.ctx, f.ctx.needs)[0] == WantedAll(g.ctx, f.ctx.needs)[0];
      assert WantedAll(g'.seg, f.seg.needs)[0] == WantedAll(g.seg, f.seg.needs)[0];
      assert WantedEntropy(codec, f.job.value, f, g') == WantedEntropy(codec, f.job.value, f, g);
    }
  }

  /** The promises to everything held by the frames of a lane are unchanged. */
  ghost predicate LaneAgree(bs: seq<Bind>, want: seq<Result<Data>>, want': seq<Result<Data>>) {
    && |want'| == |want|
    && forall h | 0 <= h < |want| && h in Flat(bs) :: want'[h] == want[h]
  }

  lemma HeldAgree(bs: seq<Bind>, want: seq<Result<Data>>, want': seq<Result<Data>>, j: nat)
    requires LaneAgree(bs, want, want') && AllWellHeld(bs) && j < |bs|
    requires InRange(bs[j].needs, |want|) && bs[j].makes < |want|
    ensures WantedAll(want', bs[j].needs) == WantedAll(want, bs[j].needs)
    ensures Wanted(want', bs[j].makes) == Wanted(want, bs[j].makes)
  {
    forall i | 0 <= i < |bs[j].needs|
      ensures Wanted(want', bs[j].needs[i]) == Wanted(want, bs[j].needs[i])
    {
      if bs[j].needs[i] >= 0 {
        FlatMember(bs, j, bs[j].needs[i]);
      }
    }
    if bs[j].makes >= 0 {
      FlatMember(bs, j, bs[j].makes);
    }
  }

  lemma OlderAgree(flight: seq<Flight>, j: nat, g: Shadow, g': Shadow, s: nat)
    requires j < |flight| && InBounds(flight[j], g)
    requires AllWellHeld(CtxOf(flight)) && LaneAgree(CtxOf(flight), g.ctx, g'.ctx)
    requires AllWellHeld(MvOf(flight)) && LaneAgree(MvOf(flight), g.mv, g'.mv)
    requires AllWellHeld(SegOf(flight)) && LaneAgree(SegOf(flight), g.seg, g'.seg)
    requires |g'.pix| == |g.pix| && forall h | 0 <= h < |g.pix| && h != s :: g'.pix[h] == g.pix[h]
    requires flight[j].surface != s && s !in flight[j].pix.needs
    requires |g'.pictures| == |g.pictures| + 1 && g'.pictures[..|g.pictures|] == g.pictures
    ensures Agree(flight[j], g, g')
  {
    HeldAgree(CtxOf(flight), g.ctx, g'.ctx, j);
    HeldAgree(MvOf(flight), g.mv, g'.mv, j);
    HeldAgree(SegOf(flight), g.seg, g'.seg, j);
    var needs := flight[j].pix.needs;
    assert forall i | 0 <= i < |needs| :: needs[i] in needs;
  }

  // ----- the lanes --------------------------------------------------------------------------

  lemma SubmitContexts(codec: Codec, s: Store, b: Bank, want: seq<Result<Data>>, bs: seq<Bind>, slots: Slots, e: Event,
                       v: Result<Data>)
    requires LaneInv(s, b, want, bs) && CanBindContexts(codec, s, b, e)
    requires ValidSlots(slots) && SlotsMatch(s, want, slots.contexts)
    ensures var r := BindContexts(codec, s, b, e);
            var init := InitialContexts(slots, e, StartContexts(codec, s, b, e));
            var want' := Promise(PromiseStart(codec, s, b, e, want), r.2.makes, v);
            && LaneInv(r.0, r.1, want', bs + [r.2])
            && SlotsMatch(r.0, want', Refreshed(slots.contexts, e.refresh, if e.retain then Some(v) else init))
            && Wanted(want', r.2.needs[0]) == init
            && (r.2.makes >= 0 ==> want'[r.2.makes] == v)
            && LaneAgree(bs, want, want')
  {
    BindContextsKept(codec, s, b, want, bs, e, slots.contexts, v);
    InitClaimed(codec, s, b, Flat(bs), e);
    ContextsBalanced(codec, s, b, Flat(bs), e);
    BindContextsValues(codec, s, b, want, Flat(bs), e, slots.contexts, v);
  }

  lemma SubmitMotion(s: Store, b: Bank, want: seq<Result<Data>>, bs: seq<Bind>, slots: Slots, e: Event, v: Result<Data>)
    requires LaneInv(s, b, want, bs) && CanBindMotion(s, b, e)
    requires ValidSlots(slots) && SlotsMatch(s, want, slots.grids)
    ensures var r := BindMotion(s, b, e);
            var want' := Promise(want, r.2.makes, v);
            && LaneInv(r.0, r.1, want', bs + [r.2])
            && SlotsMatch(r.0, want', Refreshed(slots.grids, e.refresh, if e.motion.NoGrid? then None else Some(v)))
            && WantedAll(want', r.2.needs) == ReferenceGrids(slots, e)
            && (r.2.makes >= 0 ==> want'[r.2.makes] == v)
            && LaneAgree(bs, want, want')
  {
    BindMotionKept(s, b, want, bs, e, slots.grids, v);
    GridClaimed(s, b, Flat(bs), e);
    BindMotionValues(s, b, want, Flat(bs), e, slots.grids, v);
  }

  /** The segmentation map a frame saves. */
  function SavedMap(slots: Slots, e: Event, v: Result<Data>): Option<Result<Data>>
    requires ValidSlots(slots) && ValidEvent(e)
  {
    if e.segments.NoSegments? then None else if e.segments.update then Some(v) else PreviousSegments(slots, e)
  }

  lemma SubmitSegments(s: Store, b: Bank, want: seq<Result<Data>>, bs: seq<Bind>, slots: Slots, e: Event, v: Result<Data>)
    requires LaneInv(s, b, want, bs) && CanBindSegments(s, b, e)
    requires ValidSlots(slots) && SlotsMatch(s, want, slots.segments) && DimsMatch(s, slots.dims)
    ensures var r := BindSegments(s, b, e);
            var want' := Promise(want, r.2.makes, v);
            && LaneInv(r.0, r.1, want', bs + [r.2])
            && SlotsMatch(r.0, want', Refreshed(slots.segments, e.refresh, SavedMap(slots, e, v)))
            && DimsMatch(r.0, Refreshed(slots.dims, e.refresh, if SavedMap(slots, e, v).Some? then e.segments.dim else 0))
            && Wanted(want', r.2.needs[0]) == PreviousSegments(slots, e)
            && (r.2.makes >= 0 ==> want'[r.2.makes] == v)
            && LaneAgree(bs, want, want')
  {
    BindSegmentsKept(s, b, want, bs, e, slots.segments, v);
    MapsBalanced(s, b, Flat(bs), e);
    BindSegmentsValues(s, b, want, Flat(bs), e, slots.segments, slots.dims, v);
    BindSegmentsDims(s, b, Flat(bs), e, slots.dims);
  }

  // ----- surfaces ---------------------------------------------------------------------------

  lemma SubmitPixels(slots: seq<int>, b: Bank, want: seq<Result<Data>>, bs: seq<Bind>, saved: seq<Option<Result<Data>>>,
                     e: Event, s: nat, px: Result<Data>)
    requires Coupled(b, want, bs) && PixelsMatch(slots, want, saved) && ValidEvent(e)
    requires s < |b.cell| && s !in slots && Fresh(bs, s)
    ensures var nb := Bind(ReferenceSurfaces(slots, e), s, [], false);
            && Coupled(Reset(b, s), Promise(want, s, px), bs + [nb])
            && PixelsMatch(RefreshedSlots(slots, e.refresh, s), Promise(want, s, px),
                 Refreshed(saved, e.refresh, Some(px)))
            && InRange(nb.needs, |want|)
            && WantedAll(Promise(want, s, px), nb.needs) ==
               (if e.inter then seq(INTER_REFS, i requires 0 <= i < INTER_REFS => saved[e.refIdx[i]]) else [])
  {
    var nb := Bind(ReferenceSurfaces(slots, e), s, [], false);
    forall i | 0 <= i < |nb.needs|
      ensures nb.needs[i] in slots && -1 <= nb.needs[i] < |want|
    {
      assert nb.needs[i] == slots[e.refIdx[i]];
    }
    assert forall i | 0 <= i < REF_FRAMES :: slots[i] in slots;
    StartCoupled(b, want, bs, nb, px);
  }

  lemma SubmitOwned(pool: Pool, slots: seq<int>, flight: seq<Flight>, ready: seq<Out>, shown: seq<int>, f: Flight, e: Event)
    requires ValidPool(pool) && Owned(Used(pool), slots, flight, ready, shown) && pool.free != []
    requires |slots| == REF_FRAMES && ValidEvent(e) && f.job == Some(e)
    requires e.inter ==> forall i | 0 <= i < INTER_REFS :: slots[e.refIdx[i]] >= 0
    requires f.surface == Acquired(pool).1 && f.releases == Dropped(slots, e.refresh, f.surface)
    requires f.pix == Bind(ReferenceSurfaces(slots, e), f.surface, [], false)
    ensures var pool' := Acquired(pool).0;
            && ValidPool(pool') && |pool'.used| == |pool.used|
            && Used(pool') == Used(pool) + {f.surface} && f.surface !in Used(pool) && f.surface < |pool.used|
            && Owned(Used(pool'), RefreshedSlots(slots, e.refresh, f.surface), flight + [f], ready, shown)
  {
    AcquiredValid(pool);
    forall s | s in f.pix.needs
      ensures s >= 0 && s in slots
    {
      var i :| 0 <= i < |f.pix.needs| && f.pix.needs[i] == s;
      assert s == slots[e.refIdx[i]];
    }
    JoinOwned(Used(pool), slots, flight, ready, shown, f, e.refresh);
  }

  // ----- together ---------------------------------------------------------------------------

  lemma BindsAppend(fs: seq<Flight>, f: Flight)
    ensures CtxOf(fs + [f]) == CtxOf(fs) + [f.ctx]
    ensures MvOf(fs + [f]) == MvOf(fs) + [f.mv]
    ensures SegOf(fs + [f]) == SegOf(fs) + [f.seg]
    ensures PixOf(fs + [f]) == PixOf(fs) + [f.pix]
  {
  }

  /** The parts of a submission, named. */
  lemma SubmitParts(codec: Codec, st: State, g: Shadow, e: Event)
    requires CanSubmit(codec, st, e) && ShadowSized(st, g)
    ensures var st', g' := SubmittedState(codec, st, e), ShadowSubmit(codec, st, g, e);
            var start := StartContexts(codec, st.ctxStore, st.ctx, e);
            var ent := EntropyOf(codec, g.slots, e, start);
            && st'.flight == st.flight + [NewFlight(codec, st, e)]
            && st'.slots == RefreshedSlots(st.slots, e.refresh, Acquired(st.pool).1)
            && g'.slots.pixels == Refreshed(g.slots.pixels, e.refresh, Some(PixelsOf(codec, g.slots, e, start)))
            && g'.slots.contexts == Refreshed(g.slots.contexts, e.refresh,
                 if e.retain then Some(ContextsOf(ent)) else InitialContexts(g.slots, e, start))
            && g'.slots.grids == Refreshed(g.slots.grids, e.refresh,
                 if e.motion.NoGrid? then None else Some(GridOf(ent)))
            && g'.slots.segments == Refreshed(g.slots.segments, e.refresh, SavedMap(g.slots, e, SegmentsOf(ent)))
            && g'.slots.dims == Refreshed(g.slots.dims, e.refresh,
                 if SavedMap(g.slots, e, SegmentsOf(ent)).Some? then e.segments.dim else 0)
  {
  }

  lemma SubmitLanes(codec: Codec, st: State, g: Shadow, e: Event)
    requires ShadowSized(st, g) && CanSubmit(codec, st, e)
    requires LanesOk(st, g) && SlotsOk(st, g) && OwnedState(st)
    ensures var st', g' := SubmittedState(codec, st, e), ShadowSubmit(codec, st, g, e);
            && LaneInv(st'.ctxStore, st'.ctx, g'.ctx, CtxOf(st'.flight))
            && SlotsMatch(st'.ctxStore, g'.ctx, g'.slots.contexts)
            && LaneAgree(CtxOf(st.flight), g.ctx, g'.ctx)
            && LaneInv(st'.mvStore, st'.mv, g'.mv, MvOf(st'.flight))
            && SlotsMatch(st'.mvStore, g'.mv, g'.slots.grids)
            && LaneAgree(MvOf(st.flight), g.mv, g'.mv)
            && LaneInv(st'.segStore, st'.seg, g'.seg, SegOf(st'.flight))
            && SlotsMatch(st'.segStore, g'.seg, g'.slots.segments)
            && DimsMatch(st'.segStore, g'.slots.dims)
            && LaneAgree(SegOf(st.flight), g.seg, g'.seg)
            && Coupled(st'.pix, g'.pix, PixOf(st'.flight))
            && PixelsMatch(st'.slots, g'.pix, g'.slots.pixels)
  {
    var start := StartContexts(codec, st.ctxStore, st.ctx, e);
    var ent := EntropyOf(codec, g.slots, e, start);
    SubmitParts(codec, st, g, e);
    BindsAppend(st.flight, NewFlight(codec, st, e));
    SubmitContexts(codec, st.ctxStore, st.ctx, g.ctx, CtxOf(st.flight), g.slots, e, ContextsOf(ent));
    SubmitMotion(st.mvStore, st.mv, g.mv, MvOf(st.flight), g.slots, e, GridOf(ent));
    SubmitSegments(st.segStore, st.seg, g.seg, SegOf(st.flight), g.slots, e, SegmentsOf(ent));
    FreshSurface(st);
    SubmitPixels(st.slots, st.pix, g.pix, PixOf(st.flight), g.slots.pixels, e, Acquired(st.pool).1,
      PixelsOf(codec, g.slots, e, start));
  }

  lemma FreshSurface(st: State)
    requires OwnedState(st) && Sized(st) && st.pool.free != []
    ensures var s := Acquired(st.pool).1;
            && s < |st.pool.used| && s !in st.slots && Fresh(PixOf(st.flight), s)
            && (forall j | 0 <= j < |st.flight| :: st.flight[j].surface != s && s !in st.flight[j].pix.needs)
            && (forall i | 0 <= i < |st.ready| :: st.ready[i].surface != s)
  {
    AcquiredValid(st.pool);
    FreeIsFresh(Used(st.pool), st.slots, st.flight, st.ready, st.shown, Acquired(st.pool).1);
  }

  /** The values behind the new frame's handles. */
  ghost predicate NewEntropyValues(codec: Codec, slots: Slots, e: Event, start: Result<Data>, f: Flight, g': Shadow)
    requires ValidSlots(slots) && ValidEvent(e) && InBounds(f, g')
  {
    && |f.ctx.needs| == |f.seg.needs| == 1
    && Wanted(g'.ctx, f.ctx.needs[0]) == InitialContexts(slots, e, start)
    && Wanted(g'.seg, f.seg.needs[0]) == PreviousSegments(slots, e)
    && WantedAll(g'.mv, f.mv.needs) == ReferenceGrids(slots, e)
    && (f.ctx.makes >= 0 ==> g'.ctx[f.ctx.makes] == ContextsOf(EntropyOf(codec, slots, e, start)))
    && (f.mv.makes >= 0 ==> g'.mv[f.mv.makes] == GridOf(EntropyOf(codec, slots, e, start)))
    && (f.seg.makes >= 0 ==> g'.seg[f.seg.makes] == SegmentsOf(EntropyOf(codec, slots, e, start)))
  }

  ghost predicate NewPictureValues(codec: Codec, slots: Slots, e: Event, start: Result<Data>, f: Flight, g': Shadow)
    requires ValidSlots(slots) && ValidEvent(e) && InBounds(f, g')
  {
    && WantedAll(g'.pix, f.pix.needs) == ReferencePixels(slots, e)
    && g'.pix[f.surface] == PixelsOf(codec, slots, e, start)
    && g'.pictures[f.id] == PictureOf(codec, slots, Frame(e), start)
  }

  lemma NewContexts(codec: Codec, st: State, g: Shadow, e: Event)
    requires ShadowSized(st, g) && CanSubmit(codec, st, e)
    requires LaneInv(st.ctxStore, st.ctx, g.ctx, CtxOf(st.flight)) && SlotsMatch(st.ctxStore, g.ctx, g.slots.contexts)
    ensures var f, g' := NewFlight(codec, st, e), ShadowSubmit(codec, st, g, e);
            var start := StartContexts(codec, st.ctxStore, st.ctx, e);
            && |g'.ctx| == |g.ctx| && InRange(f.ctx.needs, |g'.ctx|) && f.ctx.makes < |g'.ctx| && |f.ctx.needs| == 1
            && Wanted(g'.ctx, f.ctx.needs[0]) == InitialContexts(g.slots, e, start)
            && (f.ctx.makes >= 0 ==> g'.ctx[f.ctx.makes] == ContextsOf(EntropyOf(codec, g.slots, e, start)))
  {
    var start := StartContexts(codec, st.ctxStore, st.ctx, e);
    SubmitContexts(codec, st.ctxStore, st.ctx, g.ctx, CtxOf(st.flight), g.slots, e,
      ContextsOf(EntropyOf(codec, g.slots, e, start)));
  }

  lemma NewMotion(codec: Codec, st: State, g: Shadow, e: Event)
    requires ShadowSized(st, g) && CanSubmit(codec, st, e)
    requires LaneInv(st.mvStore, st.mv, g.mv, MvOf(st.flight)) && SlotsMatch(st.mvStore, g.mv, g.slots.grids)
    ensures var f, g' := NewFlight(codec, st, e), ShadowSubmit(codec, st, g, e);
            var start := StartContexts(codec, st.ctxStore, st.ctx, e);
            && |g'.mv| == |g.mv| && InRange(f.mv.needs, |g'.mv|) && f.mv.makes < |g'.mv|
            && WantedAll(g'.mv, f.mv.needs) == ReferenceGrids(g.slots, e)
            && (f.mv.makes >= 0 ==> g'.mv[f.mv.makes] == GridOf(EntropyOf(codec, g.slots, e, start)))
  {
    var start := StartContexts(codec, st.ctxStore, st.ctx, e);
    SubmitMotion(st.mvStore, st.mv, g.mv, MvOf(st.flight), g.slots, e,
      GridOf(EntropyOf(codec, g.slots, e, start)));
  }

  lemma NewSegments(codec: Codec, st: State, g: Shadow, e: Event)
    requires ShadowSized(st, g) && CanSubmit(codec, st, e)
    requires LaneInv(st.segStore, st.seg, g.seg, SegOf(st.flight)) && SlotsMatch(st.segStore, g.seg, g.slots.segments)
    requires DimsMatch(st.segStore, g.slots.dims)
    ensures var f, g' := NewFlight(codec, st, e), ShadowSubmit(codec, st, g, e);
            var start := StartContexts(codec, st.ctxStore, st.ctx, e);
            && |g'.seg| == |g.seg| && InRange(f.seg.needs, |g'.seg|) && f.seg.makes < |g'.seg| && |f.seg.needs| == 1
            && Wanted(g'.seg, f.seg.needs[0]) == PreviousSegments(g.slots, e)
            && (f.seg.makes >= 0 ==> g'.seg[f.seg.makes] == SegmentsOf(EntropyOf(codec, g.slots, e, start)))
  {
    var start := StartContexts(codec, st.ctxStore, st.ctx, e);
    SubmitSegments(st.segStore, st.seg, g.seg, SegOf(st.flight), g.slots, e,
      SegmentsOf(EntropyOf(codec, g.slots, e, start)));
  }

  lemma NewPicture(codec: Codec, st: State, g: Shadow, e: Event)
    requires ShadowSized(st, g) && CanSubmit(codec, st, e) && OwnedState(st)
    requires Coupled(st.pix, g.pix, PixOf(st.flight)) && PixelsMatch(st.slots, g.pix, g.slots.pixels)
    requires st.count == |g.pictures|
    ensures var f, g' := NewFlight(codec, st, e), ShadowSubmit(codec, st, g, e);
            var start := StartContexts(codec, st.ctxStore, st.ctx, e);
            && f.surface < |g'.pix| && f.id < |g'.pictures| && InRange(f.pix.needs, |g'.pix|)
            && WantedAll(g'.pix, f.pix.needs) == ReferencePixels(g.slots, e)
            && g'.pix[f.surface] == PixelsOf(codec, g.slots, e, start)
            && g'.pictures[f.id] == PictureOf(codec, g.slots, Frame(e), start)
  {
    FreshSurface(st);
    SubmitPixels(st.slots, st.pix, g.pix, PixOf(st.flight), g.slots.pixels, e, Acquired(st.pool).1,
      PixelsOf(codec, g.slots, e, StartContexts(codec, st.ctxStore, st.ctx, e)));
  }

  lemma SubmitNewFrame(codec: Codec, st: State, g: Shadow, e: Event)
    requires ShadowSized(st, g) && CanSubmit(codec, st, e)
    requires LanesOk(st, g) && SlotsOk(st, g) && OwnedState(st) && st.count == |g.pictures|
    ensures FrameOk(codec, NewFlight(codec, st, e), ShadowSubmit(codec, st, g, e))
  {
    NewContexts(codec, st, g, e);
    NewMotion(codec, st, g, e);
    NewSegments(codec, st, g, e);
    NewPicture(codec, st, g, e);
    NewFrameOk(codec, g.slots, e, StartContexts(codec, st.ctxStore, st.ctx, e), NewFlight(codec, st, e),
      ShadowSubmit(codec, st, g, e));
  }

  /** The new frame reads the serial decoder's inputs and is to write its outputs. */
  lemma NewFrameOk(codec: Codec, slots: Slots, e: Event, start: Result<Data>, f: Flight, g': Shadow)
    requires ValidSlots(slots) && ValidEvent(e)
    requires f.job == Some(e) && f.phase == Submitted
    requires !f.ctx.done && !f.mv.done && !f.seg.done && !f.pix.done
    requires InBounds(f, g')
    requires NewEntropyValues(codec, slots, e, start, f, g')
    requires NewPictureValues(codec, slots, e, start, f, g')
    ensures FrameOk(codec, f, g')
  {
    assert WantedEntropy(codec, e, f, g') == EntropyOf(codec, slots, e, start);
  }

  lemma FramesAfter(codec: Codec, flight: seq<Flight>, f: Flight, g: Shadow, g': Shadow, s: nat)
    requires forall j | 0 <= j < |flight| :: FrameOk(codec, flight[j], g)
    requires FrameOk(codec, f, g')
    requires AllWellHeld(CtxOf(flight)) && LaneAgree(CtxOf(flight), g.ctx, g'.ctx)
    requires AllWellHeld(MvOf(flight)) && LaneAgree(MvOf(flight), g.mv, g'.mv)
    requires AllWellHeld(SegOf(flight)) && LaneAgree(SegOf(flight), g.seg, g'.seg)
    requires |g'.pix| == |g.pix| && forall h | 0 <= h < |g.pix| && h != s :: g'.pix[h] == g.pix[h]
    requires forall j | 0 <= j < |flight| :: flight[j].surface != s && s !in flight[j].pix.needs
    requires |g'.pictures| == |g.pictures| + 1 && g'.pictures[..|g.pictures|] == g.pictures
    ensures forall j | 0 <= j < |flight| + 1 :: FrameOk(codec, (flight + [f])[j], g')
  {
    forall j | 0 <= j < |flight|
      ensures FrameOk(codec, flight[j], g')
    {
      OlderAgree(flight, j, g, g', s);
      FrameStable(codec, flight[j], g, g');
    }
  }

  lemma SubmitFrames(codec: Codec, st: State, g: Shadow, e: Event)
    requires ShadowSized(st, g) && CanSubmit(codec, st, e) && FramesOk(codec, st, g)
    requires AllWellHeld(CtxOf(st.flight)) && AllWellHeld(MvOf(st.flight)) && AllWellHeld(SegOf(st.flight))
    requires var g' := ShadowSubmit(codec, st, g, e);
             && LaneAgree(CtxOf(st.flight), g.ctx, g'.ctx)
             && LaneAgree(MvOf(st.flight), g.mv, g'.mv)
             && LaneAgree(SegOf(st.flight), g.seg, g'.seg)
    requires FrameOk(codec, NewFlight(codec, st, e), ShadowSubmit(codec, st, g, e))
    requires forall j | 0 <= j < |st.flight| ::
               st.flight[j].surface != Acquired(st.pool).1 && Acquired(st.pool).1 !in st.flight[j].pix.needs
    ensures FramesOk(codec, SubmittedState(codec, st, e), ShadowSubmit(codec, st, g, e))
  {
    var g' := ShadowSubmit(codec, st, g, e);
    assert g'.pictures[..|g.pictures|] == g.pictures;
    FramesAfter(codec, st.flight, NewFlight(codec, st, e), g, g', Acquired(st.pool).1);
  }

  lemma FlatHandles(s: Store, bs: seq<Bind>, j: nat)
    requires Balanced(s, Flat(bs)) && j < |bs|
    ensures AllHandles(bs[j].holds, |s.refs|)
  {
    forall i | 0 <= i < |bs[j].holds|
      ensures NONE <= bs[j].holds[i] < |s.refs|
    {
      FlatMember(bs, j, bs[j].holds[i]);
    }
  }

  /** What the lanes say about the sizes of the frames in flight. */
  lemma LanesSize(st: State, g: Shadow, j: nat)
    requires LanesOk(st, g) && j < |st.flight| && |st.pix.cell| == |st.pool.used|
    requires st.flight[j].surface < |st.pool.used|
    requires st.flight[j].job.Some? ==> |st.flight[j].ctx.needs| == |st.flight[j].seg.needs| == 1
    ensures SizedFlight(st, st.flight[j])
  {
    var f := st.flight[j];
    FlatHandles(st.ctxStore, CtxOf(st.flight), j);
    FlatHandles(st.mvStore, MvOf(st.flight), j);
    FlatHandles(st.segStore, SegOf(st.flight), j);
    assert CtxOf(st.flight)[j] == f.ctx && MvOf(st.flight)[j] == f.mv && SegOf(st.flight)[j] == f.seg && PixOf(st.flight)[j] == f.pix;
  }

  /** Sizes follow from the lanes, the owners and the frames. */
  lemma SizedAfter(codec: Codec, st: State, g: Shadow)
    requires LanesOk(st, g) && OwnedState(st) && FramesOk(codec, st, g)
    requires |st.slots| == REF_FRAMES && ValidSlots(g.slots)
    requires |st.pix.cell| == |st.pool.used|
    ensures ShadowSized(st, g)
  {
    forall j | 0 <= j < |st.flight|
      ensures SizedFlight(st, st.flight[j])
    {
      assert FrameOk(codec, st.flight[j], g);
      LanesSize(st, g, j);
    }
  }

  lemma HoldsBounded(codec: Codec, st: State, e: Event)
    requires CanSubmit(codec, st, e)
    ensures var f := NewFlight(codec, st, e);
            |f.ctx.holds| <= 2 && |f.seg.holds| <= 2 && |f.mv.holds| <= 1 + INTER_REFS
  {
  }

  lemma CapacityJoin(st: State, st': State, f: Flight)
    requires Capacity(st) && |st.flight| < st.n && st'.n == st.n && st'.flight == st.flight + [f]
    requires |st'.ctxStore.refs| == |st.ctxStore.refs| && |st'.mvStore.refs| == |st.mvStore.refs|
    requires |st'.segStore.refs| == |st.segStore.refs| && |st'.pool.used| == |st.pool.used|
    requires |f.ctx.holds| <= 2 && |f.seg.holds| <= 2 && |f.mv.holds| <= 1 + INTER_REFS
    ensures Capacity(st')
  {
  }

  lemma SubmitCapacity(codec: Codec, st: State, e: Event)
    requires CanSubmit(codec, st, e) && Capacity(st)
    ensures Capacity(SubmittedState(codec, st, e))
  {
    HoldsBounded(codec, st, e);
    CapacityJoin(st, SubmittedState(codec, st, e), NewFlight(codec, st, e));
  }

  lemma SubmitOwnedState(codec: Codec, st: State, e: Event)
    requires CanSubmit(codec, st, e) && OwnedState(st)
    ensures OwnedState(SubmittedState(codec, st, e))
    ensures Used(SubmittedState(codec, st, e).pool) == Used(st.pool) + {Acquired(st.pool).1}
    ensures Acquired(st.pool).1 !in Used(st.pool)
  {
    SubmitOwned(st.pool, st.slots, st.flight, st.ready, st.shown, NewFlight(codec, st, e), e);
  }

  lemma QueueJoin(st: State, st': State, g: Shadow, g': Shadow, f: Flight, p: Picture)
    requires QueueOk(st, g) && st'.flight == st.flight + [f] && f.id == st.count && st'.count == st.count + 1
    requires st'.inCall == st.inCall && st'.shown == st.shown && g'.pictures == g.pictures + [p]
    ensures QueueOk(st', g')
  {
  }

  lemma ReadyJoin(st: State, st': State, g: Shadow, g': Shadow, p: Picture, surface: nat, v: Result<Data>)
    requires ReadyOk(st, g) && st'.ready == st.ready && g'.pictures == g.pictures + [p]
    requires surface < |g.pix| && g'.pix == g.pix[surface := v]
    requires forall i | 0 <= i < |st.ready| :: st.ready[i].surface != surface
    ensures ReadyOk(st', g')
  {
  }

  lemma SubmitQueue(codec: Codec, st: State, g: Shadow, e: Event)
    requires ShadowSized(st, g) && CanSubmit(codec, st, e)
    requires QueueOk(st, g) && ReadyOk(st, g)
    requires forall i | 0 <= i < |st.ready| :: st.ready[i].surface != Acquired(st.pool).1
    ensures QueueOk(SubmittedState(codec, st, e), ShadowSubmit(codec, st, g, e))
    ensures ReadyOk(SubmittedState(codec, st, e), ShadowSubmit(codec, st, g, e))
  {
    var st', g' := SubmittedState(codec, st, e), ShadowSubmit(codec, st, g, e);
    var start := StartContexts(codec, st.ctxStore, st.ctx, e);
    var p := PictureOf(codec, g.slots, Frame(e), start);
    QueueJoin(st, st', g, g', NewFlight(codec, st, e), p);
    ReadyJoin(st, st', g, g', p, Acquired(st.pool).1, PixelsOf(codec, g.slots, e, start));
  }

  lemma SubmitKeeps(codec: Codec, st: State, g: Shadow, e: Event)
    requires Inv(codec, st, g) && CanSubmit(codec, st, e)
    ensures Inv(codec, SubmittedState(codec, st, e), ShadowSubmit(codec, st, g, e))
  {
    var st', g' := SubmittedState(codec, st, e), ShadowSubmit(codec, st, g, e);
    SubmitLanes(codec, st, g, e);
    FreshSurface(st);
    SubmitNewFrame(codec, st, g, e);
    SubmitFrames(codec, st, g, e);
    SubmitCapacity(codec, st, e);
    SubmitOwnedState(codec, st, e);
    SubmitQueue(codec, st, g, e);
    SizedAfter(codec, st', g');
  }
}
