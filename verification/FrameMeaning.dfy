/**
 What decoding one frame is, spelled out: which slots it reads, what it computes from them and which slots take what,
 for the serial decoder and for a frame in flight.
 */
module FrameMeaning {
  import opened Values
  import opened Handles
  import opened Progress
  import opened Surfaces
  import opened SerialDecode
  import opened Lanes
  import opened FrameThread
  import opened Ownership
  import opened Refinement

  // ----- what a frame reads -----------------------------------------------------------------

  /** The slot of its primary reference: the one that this reference selects. */
  ghost predicate Primary(e: Event, slot: nat)
    requires ValidEvent(e)
  {
    exists p :: e.primary == Some(p) && p < 7 && e.refIdx[p] == slot
  }

  /** The frame reads a previous segmentation map of shape dim. */
  ghost predicate ReadsMap(e: Event, dim: int) {
    exists temporal, update :: e.segments == Segments(temporal, update, dim) && (temporal || !update)
  }

  /** It starts from the contexts saved with its primary reference, if there are any, and from fresh ones if not. */
  lemma StartsFrom(s: Slots, e: Event, fresh_: Result<Data>)
    requires ValidSlots(s) && ValidEvent(e)
    ensures forall slot: nat | Primary(e, slot) && s.contexts[slot].Some? :: InitialContexts(s, e, fresh_) == s.contexts[slot]
    ensures (forall slot: nat | Primary(e, slot) :: s.contexts[slot].None?) ==> InitialContexts(s, e, fresh_) == Some(fresh_)
  {
    if e.primary.Some? {
      assert Primary(e, e.refIdx[e.primary.value]);
    }
  }

  /** It reads the map saved with its primary reference if it needs one and the shapes agree, and otherwise none. */
  lemma ReadsFrom(s: Slots, e: Event)
    requires ValidSlots(s) && ValidEvent(e)
    ensures forall slot: nat, dim | Primary(e, slot) && ReadsMap(e, dim) ::
              PreviousSegments(s, e) == if s.dims[slot] == dim then s.segments[slot] else None
    ensures (forall dim :: !ReadsMap(e, dim)) ==> PreviousSegments(s, e) == None
  {
    if NeedsPrevious(e) {
      assert ReadsMap(e, e.segments.dim);
    }
  }

  /** It reads the motion grids of its seven references if it projects motion, and their pixels if it is inter coded. */
  lemma ReadsReferences(s: Slots, e: Event)
    requires ValidSlots(s) && ValidEvent(e)
    ensures if e.motion == Grid(true) then
              |ReferenceGrids(s, e)| == 7 && forall i | 0 <= i < 7 :: ReferenceGrids(s, e)[i] == s.grids[e.refIdx[i]]
            else ReferenceGrids(s, e) == []
    ensures if e.inter then
              |ReferencePixels(s, e)| == 7 && forall i | 0 <= i < 7 :: ReferencePixels(s, e)[i] == s.pixels[e.refIdx[i]]
            else ReferencePixels(s, e) == []
  {
  }

  // ----- what it computes -------------------------------------------------------------------

  /** The entropy pass runs exactly on contexts that did not fail, with a previous map that did not fail, if any. */
  lemma PassComputes(codec: Codec, e: Event, c: Data, p: Data, grids: seq<Option<Result<Data>>>)
    ensures EntropyPass(codec, e, Some(Ok(c)), None, grids) == codec.entropy(e, c, None, grids)
    ensures EntropyPass(codec, e, Some(Ok(c)), Some(Ok(p)), grids) == codec.entropy(e, c, Some(p), grids)
    ensures forall init, prev | init == None || init == Some(Err) || prev == Some(Err) :: EntropyPass(codec, e, init, prev, grids) == Err
  {
  }

  /** Reconstruction takes the coefficients of the pass and the references; a failed pass fails it, and each of the
      three things that the pass saves. */
  lemma PixelsCompute(codec: Codec, e: Event, contexts: Data, grid: Data, segments: Data, coefficients: Data, refs: seq<Option<Result<Data>>>)
    ensures var out := Ok(Symbols(contexts, grid, segments, coefficients));
            && Reconstruct(codec, e, out, refs) == codec.reconstruct(e, out.value, refs)
            && ContextsOf(out) == Ok(contexts) && GridOf(out) == Ok(grid) && SegmentsOf(out) == Ok(segments)
    ensures Reconstruct(codec, e, Err, refs) == Err && ContextsOf(Err) == Err && GridOf(Err) == Err && SegmentsOf(Err) == Err
  {
  }

  // ----- what the slots take ----------------------------------------------------------------

  /** What the serial decoder saves: a refreshed slot takes the pixels; the new contexts if they are retained and
      otherwise those the frame started from; its motion grid if it has one; and the new segmentation map if it updates
      it, otherwise the one it read, and none without segmentation. Other slots stay. */
  lemma SlotsTake(codec: Codec, s: Slots, e: Event, fresh_: Result<Data>, i: nat)
    requires ValidSlots(s) && ValidEvent(e) && i < REF_FRAMES
    ensures var r, ent := DecodeFrame(codec, s, e, fresh_), EntropyOf(codec, s, e, fresh_);
            if !e.refresh[i] then
              && r.pixels[i] == s.pixels[i] && r.contexts[i] == s.contexts[i] && r.grids[i] == s.grids[i]
              && r.segments[i] == s.segments[i] && r.dims[i] == s.dims[i]
            else
              && r.pixels[i] == Some(if ent.Ok? then codec.reconstruct(e, ent.value, ReferencePixels(s, e)) else Err)
              && r.contexts[i] == (if e.retain then Some(if ent.Ok? then Ok(ent.value.contexts) else Err) else InitialContexts(s, e, fresh_))
              && r.grids[i] == (if e.motion.NoGrid? then None else Some(if ent.Ok? then Ok(ent.value.grid) else Err))
              && r.segments[i] == (if e.segments == NoSegments then None
                                   else if e.segments.update then Some(if ent.Ok? then Ok(ent.value.segments) else Err)
                                   else PreviousSegments(s, e))
              && r.dims[i] == (if e.segments == NoSegments || r.segments[i].None? then 0 else e.segments.dim)
  {
  }

  /** The symbols come from what the frame reads, in this order. */
  lemma PassReads(codec: Codec, s: Slots, e: Event, fresh_: Result<Data>, c: Data)
    requires ValidSlots(s) && ValidEvent(e) && InitialContexts(s, e, fresh_) == Some(Ok(c))
    ensures match PreviousSegments(s, e)
            case None => EntropyOf(codec, s, e, fresh_) == codec.entropy(e, c, None, ReferenceGrids(s, e))
            case Some(Ok(p)) => EntropyOf(codec, s, e, fresh_) == codec.entropy(e, c, Some(p), ReferenceGrids(s, e))
            case Some(Err) => EntropyOf(codec, s, e, fresh_) == Err
  {
  }

  /** A key frame shown again is saved in the other slots too, without a motion grid; other frames change nothing. */
  lemma ShowTakes(s: Slots, shown: nat, key: bool, i: nat)
    requires ValidSlots(s) && shown < REF_FRAMES && i < REF_FRAMES
    ensures var r := ShowAgain(s, shown, key);
            if !key || i == shown then
              && r.pixels[i] == s.pixels[i] && r.contexts[i] == s.contexts[i] && r.grids[i] == s.grids[i]
              && r.segments[i] == s.segments[i] && r.dims[i] == s.dims[i]
            else
              && r.pixels[i] == s.pixels[shown] && r.contexts[i] == s.contexts[shown] && r.grids[i] == None
              && r.segments[i] == s.segments[shown] && r.dims[i] == s.dims[shown]
  {
  }

  /** Serial decoding starts from empty slots, and goes from unit to unit. */
  lemma {:induction false} SerialFrom(codec: Codec, s: Slots, us: seq<Unit>, u: Unit)
    requires ValidSlots(s) && ValidUnits(us) && ValidUnit(u)
    ensures forall i | 0 <= i < 8 :: var none := EmptySlots();
              none.pixels[i] == none.contexts[i] == none.grids[i] == none.segments[i] == None && none.dims[i] == 0
    ensures ValidUnits(us + [u]) && SlotsAfter(codec, s, []) == s && PicturesFrom(codec, s, []) == []
    ensures var before := SlotsAfter(codec, s, us);
            match u
            case Frame(e) =>
              && SlotsAfter(codec, s, us + [u]) == DecodeFrame(codec, before, e, Ok(codec.defaults(e)))
              && var ent := EntropyOf(codec, before, e, Ok(codec.defaults(e)));
                 var pixels := if ent.Ok? then codec.reconstruct(e, ent.value, ReferencePixels(before, e)) else Err;
                 PicturesFrom(codec, s, us + [u]) == PicturesFrom(codec, s, us) + [Picture(Some(pixels), e.show, true)]
            case Existing(shown, key) =>
              && SlotsAfter(codec, s, us + [u]) == ShowAgain(before, shown, key)
              && PicturesFrom(codec, s, us + [u]) == PicturesFrom(codec, s, us) + [Picture(before.pixels[shown], true, false)]
    decreases |us|
  {
    if us == [] {
      assert us + [u] == [u] && [u][1..] == [];
      assert [] + PicturesFrom(codec, s, us + [u]) == PicturesFrom(codec, s, us + [u]);
    } else {
      assert (us + [u])[0] == us[0] && (us + [u])[1..] == us[1..] + [u];
      SerialFrom(codec, After(codec, s, us[0], FreshContexts(codec, us[0])), us[1..], u);
    }
  }

  // ----- a frame in flight ------------------------------------------------------------------

  /** A submitted frame starts from its primary reference's context entry, if there is one. */
  lemma BoundToPrimary(codec: Codec, s: Store, b: Bank, e: Event, slot: nat)
    requires CanBindContexts(codec, s, b, e) && Primary(e, slot) && s.slot[slot] >= 0
    ensures BindContexts(codec, s, b, e).2.needs == [s.slot[slot]] && BindContexts(codec, s, b, e).1.data == b.data
  {
  }

  /** Otherwise it starts from an entry that nothing refers to, filled with default contexts. */
  lemma BoundToDefaults(codec: Codec, s: Store, b: Bank, e: Event)
    requires CanBindContexts(codec, s, b, e) && forall slot: nat | Primary(e, slot) :: s.slot[slot] < 0
    ensures var h := BindContexts(codec, s, b, e).2.needs[0];
            s.refs[h] == 0 && BindContexts(codec, s, b, e).1.data == b.data[h := codec.defaults(e)]
  {
    if e.primary.Some? {
      assert Primary(e, e.refIdx[e.primary.value]);
    }
  }

  /** The segmentation map it reads is its primary reference's, if it needs one and the shapes agree. */
  lemma BoundMap(s: Store, b: Bank, e: Event, slot: nat, dim: int)
    requires CanBindSegments(s, b, e) && Primary(e, slot) && ReadsMap(e, dim)
    ensures BindSegments(s, b, e).2.needs == if s.slot[slot] >= 0 && s.tag[s.slot[slot]] == dim then [s.slot[slot]] else [-1]
  {
  }

  lemma BoundNoMap(s: Store, b: Bank, e: Event)
    requires CanBindSegments(s, b, e) && forall dim :: !ReadsMap(e, dim)
    ensures BindSegments(s, b, e).2.needs == [-1]
  {
    if NeedsPrevious(e) {
      assert ReadsMap(e, e.segments.dim);
    }
  }

  /** It reads the motion grids and the surfaces of its seven references. */
  lemma BoundGrids(s: Store, b: Bank, e: Event)
    requires CanBindMotion(s, b, e)
    ensures var needs := BindMotion(s, b, e).2.needs;
            if e.motion == Grid(true) then |needs| == 7 && forall i | 0 <= i < 7 :: needs[i] == s.slot[e.refIdx[i]] else needs == []
  {
  }

  lemma BoundSurfaces(slots: seq<int>, e: Event)
    requires |slots| == REF_FRAMES && ValidEvent(e)
    ensures var needs := ReferenceSurfaces(slots, e);
            if e.inter then |needs| == 7 && forall i | 0 <= i < 7 :: needs[i] == slots[e.refIdx[i]] else needs == []
  {
  }

  /** Its entry in the queue reads these, and nothing else. */
  lemma FlightReads(codec: Codec, st: State, e: Event)
    requires CanSubmit(codec, st, e)
    ensures var f := NewFlight(codec, st, e);
            && f.ctx == BindContexts(codec, st.ctxStore, st.ctx, e).2 && f.seg == BindSegments(st.segStore, st.seg, e).2
            && f.mv == BindMotion(st.mvStore, st.mv, e).2 && f.pix.needs == ReferenceSurfaces(st.slots, e)
            && f.job == Some(e) && f.id == st.count
  {
  }

  /** What its entropy pass reads and publishes. */
  lemma PassPublishes(codec: Codec, st: State, j: nat, c: Data)
    requires CanParse(st, j) && Read(st.ctx, st.flight[j].ctx.needs[0]) == Some(Ok(c))
    requires st.flight[j].ctx.makes >= 0 && st.flight[j].mv.makes >= 0 && st.flight[j].seg.makes >= 0
    ensures var f, st' := st.flight[j], ParsedState(codec, st, j);
            var grids := ReadAll(st.mv, f.mv.needs);
            && |grids| == |f.mv.needs| && (forall i | 0 <= i < |grids| :: grids[i] == Read(st.mv, f.mv.needs[i]))
            && var prev := Read(st.seg, f.seg.needs[0]);
               var out := if prev == Some(Err) then Err
                          else codec.entropy(f.job.value, c, if prev.None? then None else Some(prev.value.value), grids);
               && st'.flight[j].phase == Parsed(out)
               && Read(st'.ctx, f.ctx.makes) == Some(if out.Ok? then Ok(out.value.contexts) else Err)
               && Read(st'.mv, f.mv.makes) == Some(if out.Ok? then Ok(out.value.grid) else Err)
               && Read(st'.seg, f.seg.makes) == Some(if out.Ok? then Ok(out.value.segments) else Err)
  {
  }

  /** What its reconstruction reads and publishes. */
  lemma PixelsPublish(codec: Codec, st: State, j: nat)
    requires CanFinish(st, j) && st.flight[j].pix.makes >= 0
    ensures var f, st' := st.flight[j], FinishedState(codec, st, j);
            var refs := ReadAll(st.pix, f.pix.needs);
            && |refs| == |f.pix.needs| && (forall i | 0 <= i < |refs| :: refs[i] == Read(st.pix, f.pix.needs[i]))
            && var px := if f.phase.out.Ok? then codec.reconstruct(f.job.value, f.phase.out.value, refs) else Err;
               st'.flight[j].phase == Finished(px.Ok?) && Read(st'.pix, f.pix.makes) == Some(px)
  {
  }

  /** How many handles and surfaces a decoder with n contexts starts with, all free. */
  lemma StartsEmpty(n: nat)
    ensures var st := Init(n);
            && |st.pool.free| == |st.pool.used| == |st.pix.cell| == 9 + 2 * n && (forall s | 0 <= s < 9 + 2 * n :: !st.pool.used[s])
            && |st.ctxStore.refs| == 26 && |st.mvStore.refs| == 73 && |st.segStore.refs| == 25 && |st.slots| == 8
            && (forall h | 0 <= h < 26 :: st.ctxStore.refs[h] == 0) && (forall h | 0 <= h < 73 :: st.mvStore.refs[h] == 0)
            && (forall h | 0 <= h < 25 :: st.segStore.refs[h] == 0) && (forall i | 0 <= i < 8 :: st.slots[i] < 0)
            && st.flight == [] && st.ready == [] && st.shown == [] && st.err == None
  {
  }

  // ----- what is accepted -------------------------------------------------------------------

  /** A frame can be submitted exactly if it is well formed, a context and a surface are free, and all its references
      have surfaces, if it is inter coded. */
  lemma Accepts(codec: Codec, st: State, g: Shadow, e: Event)
    requires Sound(codec, st, g)
    ensures |st.slots| == 8
    ensures CanSubmit(codec, st, e) <==>
              && ValidEvent(e) && |st.flight| < st.n && st.pool.free != []
              && (e.inter ==> forall i | 0 <= i < 7 :: st.slots[e.refIdx[i]] >= 0)
  {
    Unseal(codec, st, g);
    if MaySubmit(st, e) {
      HandlesSuffice(codec, st, g, e);
    }
  }

  /** A reference picture can be shown again exactly if a context is free and its slot has a surface. */
  lemma AcceptsShow(codec: Codec, st: State, g: Shadow, shown: nat)
    requires Sound(codec, st, g)
    ensures |st.slots| == 8
    ensures CanShow(st, shown) <==> shown < 8 && |st.flight| < st.n && st.slots[shown] >= 0
  {
    Unseal(codec, st, g);
    if shown < 8 && st.slots[shown] >= 0 {
      assert st.slots[shown] in st.slots;
    }
  }
}
