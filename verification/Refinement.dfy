/**
 The frame-threaded decoder refines the serial one.

 A shadow runs the serial decoder beside the threaded one: it decodes a frame completely at the
 moment the frame is submitted and remembers, for every handle and surface, the value that will be
 there once its frame has finished. The invariant says that the threaded decoder, whatever the
 interleaving, is on its way to exactly those values.
 */
module Refinement {
  import opened Values
  import opened Handles
  import opened Progress
  import opened Surfaces
  import opened SerialDecode
  import opened Lanes
  import opened FrameThread
  import opened Ownership

  datatype Shadow = Shadow(
    slots: Slots,
    ctx: seq<Result<Data>>,
    mv: seq<Result<Data>>,
    seg: seq<Result<Data>>,
    pix: seq<Result<Data>>,
    pictures: seq<Picture>)

  function ShadowInit(n: nat): Shadow {
    Shadow(EmptySlots(),
           seq(CONTEXT_ENTRIES, i => Ok([])), seq(MOTION_GRIDS, i => Ok([])), seq(SEGMENT_MAPS, i => Ok([])),
           seq(SurfaceCount(n), i => Ok([])), [])
  }

  ghost predicate ShadowSized(st: State, g: Shadow) {
    && Sized(st)
    && ValidSlots(g.slots)
    && |g.ctx| == |st.ctx.cell| && |g.mv| == |st.mv.cell| && |g.seg| == |st.seg.cell| && |g.pix| == |st.pix.cell|
  }

  /** The serial decoder's step for a submitted unit. Default contexts come from the entry that the
      submission claims. */
  ghost function ShadowSubmit(codec: Codec, st: State, g: Shadow, e: Event): Shadow
    requires ShadowSized(st, g) && CanSubmit(codec, st, e)
  {
    var start := StartContexts(codec, st.ctxStore, st.ctx, e);
    var ent := EntropyOf(codec, g.slots, e, start);
    Shadow(
      DecodeFrame(codec, g.slots, e, start),
      Promise(PromiseStart(codec, st.ctxStore, st.ctx, e, g.ctx),
              BindContexts(codec, st.ctxStore, st.ctx, e).2.makes, ContextsOf(ent)),
      Promise(g.mv, BindMotion(st.mvStore, st.mv, e).2.makes, GridOf(ent)),
      Promise(g.seg, BindSegments(st.segStore, st.seg, e).2.makes, SegmentsOf(ent)),
      Promise(g.pix, Acquired(st.pool).1, PixelsOf(codec, g.slots, e, start)),
      g.pictures + [PictureOf(codec, g.slots, Frame(e), start)])
  }

  ghost function ShadowShow(codec: Codec, g: Shadow, shown: nat, key: bool): Shadow
    requires ValidSlots(g.slots) && shown < REF_FRAMES
  {
    g.(slots := ShowAgain(g.slots, shown, key),
       pictures := g.pictures + [PictureOf(codec, g.slots, Existing(shown, key), Err)])
  }

  ghost function ShadowNext(codec: Codec, st: State, g: Shadow, l: Label): Shadow
    requires Enabled(codec, st, l)
  {
    if !ShadowSized(st, g) then g
    else
      match l
      case Submit(e) => ShadowSubmit(codec, st, g, e)
      case ShowExisting(shown, key) => ShadowShow(codec, g, shown, key)
      case _ => g
  }

  /** The serial decoder beside a run. */
  ghost function ShadowRun(codec: Codec, st: State, g: Shadow, ls: seq<Label>): Shadow
    requires CanRun(codec, st, ls)
    decreases |ls|
  {
    if ls == [] then g
    else ShadowRun(codec, Next(codec, st, ls[0]), ShadowNext(codec, st, g, ls[0]), ls[1..])
  }

  // ----- the invariant ----------------------------------------------------------------------

  function CtxOf(fs: seq<Flight>): seq<Bind> {
    seq(|fs|, j requires 0 <= j < |fs| => fs[j].ctx)
  }

  function MvOf(fs: seq<Flight>): seq<Bind> {
    seq(|fs|, j requires 0 <= j < |fs| => fs[j].mv)
  }

  function SegOf(fs: seq<Flight>): seq<Bind> {
    seq(|fs|, j requires 0 <= j < |fs| => fs[j].seg)
  }

  function PixOf(fs: seq<Flight>): seq<Bind> {
    seq(|fs|, j requires 0 <= j < |fs| => fs[j].pix)
  }

  /** Table sizes, and how many references one frame can hold. */
  ghost predicate Capacity(st: State) {
    && |st.ctxStore.refs| == CONTEXT_ENTRIES
    && |st.mvStore.refs| == MOTION_GRIDS
    && |st.segStore.refs| == SEGMENT_MAPS
    && |st.pool.used| == SurfaceCount(st.n)
    && st.n <= MAX_CONTEXTS
    && |st.flight| <= st.n
    && forall j | 0 <= j < |st.flight| ::
         |st.flight[j].ctx.holds| <= 2 && |st.flight[j].seg.holds| <= 2 && |st.flight[j].mv.holds| <= 1 + INTER_REFS
  }

  ghost predicate LanesOk(st: State, g: Shadow) {
    && LaneInv(st.ctxStore, st.ctx, g.ctx, CtxOf(st.flight))
    && LaneInv(st.mvStore, st.mv, g.mv, MvOf(st.flight))
    && LaneInv(st.segStore, st.seg, g.seg, SegOf(st.flight))
    && Coupled(st.pix, g.pix, PixOf(st.flight))
  }

  /** Every reference slot leads to what the serial decoder has saved there. */
  ghost predicate SlotsOk(st: State, g: Shadow)
    requires ShadowSized(st, g)
  {
    && SlotsMatch(st.ctxStore, g.ctx, g.slots.contexts)
    && SlotsMatch(st.mvStore, g.mv, g.slots.grids)
    && SlotsMatch(st.segStore, g.seg, g.slots.segments)
    && DimsMatch(st.segStore, g.slots.dims)
    && PixelsMatch(st.slots, g.pix, g.slots.pixels)
  }

  ghost predicate PixelsMatch(slots: seq<int>, want: seq<Result<Data>>, saved: seq<Option<Result<Data>>>) {
    && |slots| == |saved| == REF_FRAMES
    && forall i | 0 <= i < REF_FRAMES :: -1 <= slots[i] < |want| && saved[i] == Wanted(want, slots[i])
  }

  ghost predicate InBounds(f: Flight, g: Shadow) {
    && f.surface < |g.pix| && f.id < |g.pictures|
    && InRange(f.ctx.needs, |g.ctx|) && f.ctx.makes < |g.ctx|
    && InRange(f.mv.needs, |g.mv|) && f.mv.makes < |g.mv|
    && InRange(f.seg.needs, |g.seg|) && f.seg.makes < |g.seg|
    && InRange(f.pix.needs, |g.pix|)
  }

  ghost function WantedEntropy(codec: Codec, e: Event, f: Flight, g: Shadow): Result<Symbols>
    requires InBounds(f, g) && |f.ctx.needs| == |f.seg.needs| == 1
  {
    EntropyPass(codec, e, Wanted(g.ctx, f.ctx.needs[0]), Wanted(g.seg, f.seg.needs[0]), WantedAll(g.mv, f.mv.needs))
  }

  /** What a coded frame writes is what the serial decoder computed from the values it reads. */
  ghost predicate CodedOk(codec: Codec, e: Event, f: Flight, g: Shadow)
    requires InBounds(f, g)
  {
    && |f.ctx.needs| == |f.seg.needs| == 1
    && var ent := WantedEntropy(codec, e, f, g);
    && (f.ctx.makes >= 0 ==> g.ctx[f.ctx.makes] == ContextsOf(ent))
    && (f.mv.makes >= 0 ==> g.mv[f.mv.makes] == GridOf(ent))
    && (f.seg.makes >= 0 ==> g.seg[f.seg.makes] == SegmentsOf(ent))
    && g.pix[f.surface] == Reconstruct(codec, e, ent, WantedAll(g.pix, f.pix.needs))
    && (f.phase.Parsed? ==> f.phase.out == ent)
    && g.pictures[f.id] == Picture(Some(g.pix[f.surface]), e.show, true)
  }

  ghost predicate PhaseOk(f: Flight, g: Shadow)
    requires f.surface < |g.pix|
  {
    if f.job.Some? then
      && f.ctx.done == f.mv.done == f.seg.done == !f.phase.Submitted?
      && f.pix.done == f.phase.Finished?
      && (f.phase.Finished? ==> f.phase.ok == g.pix[f.surface].Ok?)
    else
      && f.pix == Bind([f.surface], NONE, [], true)
      && f.ctx == f.mv == f.seg == IDLE
      && f.phase == Finished(true)
  }

  ghost predicate FrameOk(codec: Codec, f: Flight, g: Shadow) {
    && InBounds(f, g)
    && PhaseOk(f, g)
    && match f.job
       case Some(e) => CodedOk(codec, e, f, g)
       case None => g.pictures[f.id] == Picture(Some(g.pix[f.surface]), true, false)
  }

  ghost predicate FramesOk(codec: Codec, st: State, g: Shadow) {
    forall j | 0 <= j < |st.flight| :: FrameOk(codec, st.flight[j], g)
  }

  /** Submissions are numbered, and the queue holds the last of them in order. */
  ghost predicate QueueOk(st: State, g: Shadow) {
    && st.count == |g.pictures|
    && |st.flight| <= st.count
    && (forall j | 0 <= j < |st.flight| :: st.flight[j].id == st.count - |st.flight| + j)
    && (st.inCall ==> st.shown == [])
  }

  /** The pictures of this call are those the serial decoder outputs. */
  ghost predicate ReadyOk(st: State, g: Shadow) {
    forall i | 0 <= i < |st.ready| ::
      && st.ready[i].id < |g.pictures| && st.ready[i].surface < |g.pix|
      && g.pictures[st.ready[i].id].pixels == Some(g.pix[st.ready[i].surface])
      && g.pictures[st.ready[i].id].show
  }

  ghost predicate Inv(codec: Codec, st: State, g: Shadow) {
    && ShadowSized(st, g)
    && Capacity(st)
    && LanesOk(st, g)
    && SlotsOk(st, g)
    && FramesOk(codec, st, g)
    && QueueOk(st, g)
    && OwnedState(st)
    && ReadyOk(st, g)
  }

  predicate Open(k: int) {
    true
  }

  /** The invariant behind a seal: proofs about whole runs carry it along without looking inside. */
  ghost predicate Sound(codec: Codec, st: State, g: Shadow) {
    forall k: int {:trigger Open(k)} :: Open(k) ==> Inv(codec, st, g)
  }

  lemma Unseal(codec: Codec, st: State, g: Shadow)
    requires Sound(codec, st, g)
    ensures Inv(codec, st, g)
  {
    assert Open(0);
  }

  lemma InitInv(codec: Codec, n: nat)
    requires n <= MAX_CONTEXTS
    ensures Inv(codec, Init(n), ShadowInit(n))
  {
    NewPoolValid(SurfaceCount(n));
    NewStoreBalanced(CONTEXT_ENTRIES);
    NewStoreBalanced(MOTION_GRIDS);
    NewStoreBalanced(SEGMENT_MAPS);
    NewBankCoupled(CONTEXT_ENTRIES);
    NewBankCoupled(MOTION_GRIDS);
    NewBankCoupled(SEGMENT_MAPS);
    NewBankCoupled(SurfaceCount(n));
    assert CtxOf([]) == MvOf([]) == SegOf([]) == PixOf([]) == [];
  }

  // ----- submissions always find handles ----------------------------------------------------

  /** The tables are large enough: a submission with a free context never fails to claim a handle. */
  lemma HandlesSuffice(codec: Codec, st: State, g: Shadow, e: Event)
    requires Inv(codec, st, g) && MaySubmit(st, e)
    ensures CanSubmit(codec, st, e)
  {
    ContextsSuffice(codec, st.ctxStore, st.ctx, g.ctx, CtxOf(st.flight), e);
    GridsSuffice(st.mvStore, st.mv, g.mv, MvOf(st.flight));
    MapsSuffice(st.segStore, st.seg, g.seg, SegOf(st.flight), e);
  }

  lemma ContextsSuffice(codec: Codec, s: Store, b: Bank, want: seq<Result<Data>>, bs: seq<Bind>, e: Event)
    requires LaneInv(s, b, want, bs) && ValidEvent(e) && |bs| < MAX_CONTEXTS && |s.refs| == CONTEXT_ENTRIES
    requires forall j | 0 <= j < |bs| :: |bs[j].holds| <= 2
    ensures CanBindContexts(codec, s, b, e)
  {
    FlatLength(bs, 2);
    AlwaysFree(s, Flat(bs));
    InitClaimed(codec, s, b, Flat(bs), e);
    var r := InitContexts(codec, s, b, e);
    AlwaysFree(r.0, Flat(bs) + [r.2]);
  }

  lemma GridsSuffice(s: Store, b: Bank, want: seq<Result<Data>>, bs: seq<Bind>)
    requires LaneInv(s, b, want, bs) && |bs| < MAX_CONTEXTS && |s.refs| == MOTION_GRIDS
    requires forall j | 0 <= j < |bs| :: |bs[j].holds| <= 1 + INTER_REFS
    ensures HasFree(s)
  {
    FlatLength(bs, 1 + INTER_REFS);
    AlwaysFree(s, Flat(bs));
  }

  lemma MapsSuffice(s: Store, b: Bank, want: seq<Result<Data>>, bs: seq<Bind>, e: Event)
    requires LaneInv(s, b, want, bs) && ValidEvent(e) && |bs| < MAX_CONTEXTS && |s.refs| == SEGMENT_MAPS
    requires forall j | 0 <= j < |bs| :: |bs[j].holds| <= 2
    ensures CanBindSegments(s, b, e)
  {
    FlatLength(bs, 2);
    RetainBalanced(s, Flat(bs), PreviousMap(s, e));
    AlwaysFree(Retain(s, PreviousMap(s, e)), Flat(bs) + [PreviousMap(s, e)]);
  }
}
