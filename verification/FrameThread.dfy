/**
 The frame-threaded decoder as a step relation.

 One goroutine submits frames in order; every submitted frame is finished by its own goroutine, which
 first runs the entropy pass and then reconstructs. The steps of the submitting goroutine and of all
 the frame goroutines interleave freely. The frames in flight form a queue: a ring of n contexts that
 always retires its oldest entry (see the module FrameRing for the ring itself).
 */
module FrameThread {
  import opened Values
  import opened Handles
  import opened Progress
  import opened Surfaces
  import opened SerialDecode
  import opened Lanes

  // ----- capacities -------------------------------------------------------------------------

  const CONTEXT_ENTRIES: nat := REF_FRAMES + 2 + 2 * MAX_CONTEXTS
  const MOTION_GRIDS: nat := REF_FRAMES + 1 + (1 + INTER_REFS) * MAX_CONTEXTS
  const SEGMENT_MAPS: nat := REF_FRAMES + 1 + 2 * MAX_CONTEXTS

  /** Most surfaces that one returned batch can be tracked with. */
  const SHOWN_CAPACITY: nat := 2 * (REF_FRAMES + 1)

  function SurfaceCount(n: nat): nat {
    REF_FRAMES + 1 + 2 * n
  }

  // ----- state ------------------------------------------------------------------------------

  /** Where the goroutine of a frame in flight stands. A finished one blocks until it is retired. */
  datatype Phase = Submitted | Parsed(out: Result<Symbols>) | Finished(ok: bool)

  /** A frame in flight, or (without a job) a reference picture queued to be shown again. releases
      are the surfaces its reference refresh dropped. */
  datatype Flight = Flight(
    id: nat,
    job: Option<Event>,
    surface: nat,
    pix: Bind,
    ctx: Bind,
    mv: Bind,
    seg: Bind,
    releases: seq<int>,
    phase: Phase)

  /** A picture that left the queue during the current call. */
  datatype Out = Out(id: nat, surface: nat)

  datatype State = State(
    n: nat,
    pool: Pool,
    slots: seq<int>,
    pix: Bank,
    ctxStore: Store, ctx: Bank,
    mvStore: Store, mv: Bank,
    segStore: Store, seg: Bank,
    flight: seq<Flight>,
    ready: seq<Out>,
    shown: seq<int>,
    err: Option<nat>,
    submissions: nat,
    count: nat,
    inCall: bool)

  function Init(n: nat): State {
    State(n, NewPool(SurfaceCount(n)), seq(REF_FRAMES, i => NONE),
          NewBank(SurfaceCount(n)),
          NewStore(CONTEXT_ENTRIES), NewBank(CONTEXT_ENTRIES),
          NewStore(MOTION_GRIDS), NewBank(MOTION_GRIDS),
          NewStore(SEGMENT_MAPS), NewBank(SEGMENT_MAPS),
          [], [], [], None, 0, 0, false)
  }

  const IDLE: Bind := Bind([], NONE, [], true)

  function ReadySurfaces(ready: seq<Out>): set<int> {
    set i | 0 <= i < |ready| :: ready[i].surface as int
  }

  /** The surfaces that frames in flight will return to the pool when they retire. */
  function Deferred(flight: seq<Flight>): set<int> {
    set j, s | 0 <= j < |flight| && s in flight[j].releases :: s
  }

  // ----- steps ------------------------------------------------------------------------------

  datatype Label =
    | BeginCall
    | Submit(e: Event)
    | ShowExisting(shown: nat, key: bool)
    | Parse(j: nat)
    | Finish(j: nat)
    | Retire
    | EndCall

  /** The shapes every operation below relies on. */
  predicate Sized(st: State) {
    && |st.slots| == REF_FRAMES
    && |st.pix.cell| == |st.pix.data| == |st.pool.used|
    && (forall i | 0 <= i < |st.pool.free| :: st.pool.free[i] < |st.pool.used|)
    && Shaped(st.ctxStore) && |st.ctxStore.refs| == |st.ctx.cell| == |st.ctx.data|
    && Shaped(st.mvStore) && |st.mvStore.refs| == |st.mv.cell| == |st.mv.data|
    && Shaped(st.segStore) && |st.segStore.refs| == |st.seg.cell| == |st.seg.data|
    && (forall j | 0 <= j < |st.flight| :: SizedFlight(st, st.flight[j]))
  }

  predicate SizedFlight(st: State, f: Flight) {
    && f.surface < |st.pool.used|
    && InRange(f.pix.needs, |st.pool.used|) && f.pix.makes < |st.pool.used|
    && InRange(f.ctx.needs, |st.ctx.cell|) && f.ctx.makes < |st.ctx.cell| && AllHandles(f.ctx.holds, |st.ctx.cell|)
    && InRange(f.mv.needs, |st.mv.cell|) && f.mv.makes < |st.mv.cell| && AllHandles(f.mv.holds, |st.mv.cell|)
    && InRange(f.seg.needs, |st.seg.cell|) && f.seg.makes < |st.seg.cell| && AllHandles(f.seg.holds, |st.seg.cell|)
    && (f.job.Some? ==> |f.ctx.needs| == |f.seg.needs| == 1)
  }

  /** Start of a call: the surfaces returned by the last call go back to the pool, unless a slot
      names them or a frame in flight will return them. */
  function Begun(st: State): State {
    var held := Elements(st.slots) + Deferred(st.flight);
    st.(pool := ReleasedExcept(st.pool, st.shown, held), shown := [], ready := [], err := None,
        submissions := 0, inCall := true)
  }

  /** What a threaded submission needs: a free context, a free surface, and references to read. */
  predicate MaySubmit(st: State, e: Event) {
    && Sized(st) && ValidEvent(e)
    && |st.flight| < st.n
    && st.pool.free != []
    && (e.inter ==> forall i | 0 <= i < INTER_REFS :: st.slots[e.refIdx[i]] >= 0)
  }

  predicate CanSubmit(codec: Codec, st: State, e: Event) {
    && MaySubmit(st, e)
    && CanBindContexts(codec, st.ctxStore, st.ctx, e)
    && CanBindMotion(st.mvStore, st.mv, e)
    && CanBindSegments(st.segStore, st.seg, e)
  }

  function ReferenceSurfaces(slots: seq<int>, e: Event): seq<int>
    requires |slots| == REF_FRAMES && ValidEvent(e)
  {
    if e.inter then seq(INTER_REFS, i requires 0 <= i < INTER_REFS => slots[e.refIdx[i]]) else []
  }

  /** The entry of a submitted frame: it takes a surface and the handles it writes, and keeps what it
      reads. */
  function NewFlight(codec: Codec, st: State, e: Event): Flight
    requires CanSubmit(codec, st, e)
  {
    var surface := Acquired(st.pool).1;
    Flight(st.count, Some(e), surface,
           Bind(ReferenceSurfaces(st.slots, e), surface, [], false),
           BindContexts(codec, st.ctxStore, st.ctx, e).2,
           BindMotion(st.mvStore, st.mv, e).2,
           BindSegments(st.segStore, st.seg, e).2,
           Dropped(st.slots, e.refresh, surface), Submitted)
  }

  /** Submits a frame: the reference slots name it at once, before anything of it is decoded. */
  function SubmittedState(codec: Codec, st: State, e: Event): State
    requires CanSubmit(codec, st, e)
  {
    var (pool, surface) := Acquired(st.pool);
    st.(pool := pool,
        slots := RefreshedSlots(st.slots, e.refresh, surface),
        pix := Reset(st.pix, surface),
        ctxStore := BindContexts(codec, st.ctxStore, st.ctx, e).0,
        ctx := BindContexts(codec, st.ctxStore, st.ctx, e).1,
        mvStore := BindMotion(st.mvStore, st.mv, e).0,
        mv := BindMotion(st.mvStore, st.mv, e).1,
        segStore := BindSegments(st.segStore, st.seg, e).0,
        seg := BindSegments(st.segStore, st.seg, e).1,
        flight := st.flight + [NewFlight(codec, st, e)],
        submissions := st.submissions + 1,
        count := st.count + 1)
  }

  predicate CanShow(st: State, shown: nat) {
    && Sized(st) && shown < REF_FRAMES && |st.flight| < st.n
    && 0 <= st.slots[shown] < |st.pool.used|
  }

  /** Queues a reference picture to be shown again. A key frame also takes over every slot. */
  function ShownState(st: State, shown: nat, key: bool): State
    requires CanShow(st, shown)
  {
    var surface := st.slots[shown];
    var all := seq(REF_FRAMES, i => true);
    var releases := if key then Dropped(st.slots, all, surface) else [];
    var f := Flight(st.count, None, surface, Bind([surface], NONE, [], true), IDLE, IDLE, IDLE,
                    releases, Finished(true));
    st.(slots := if key then RefreshedSlots(st.slots, all, surface) else st.slots,
        ctxStore := if key then PublishOthers(st.ctxStore, shown, st.ctxStore.slot[shown]) else st.ctxStore,
        mvStore := if key then PublishOthers(st.mvStore, shown, NONE) else st.mvStore,
        segStore := if key then PublishOthers(st.segStore, shown, st.segStore.slot[shown]) else st.segStore,
        flight := st.flight + [f],
        submissions := st.submissions + 1,
        count := st.count + 1)
  }

  /** The entropy pass of a frame may run once the contexts, the segmentation map and the motion
      grids it reads are final. It never waits for pixels. */
  predicate CanParse(st: State, j: nat) {
    && Sized(st) && j < |st.flight|
    && st.flight[j].job.Some? && st.flight[j].phase == Submitted
    && Final(st.ctx, st.flight[j].ctx.needs)
    && Final(st.seg, st.flight[j].seg.needs)
    && Final(st.mv, st.flight[j].mv.needs)
  }

  function ReadAll(b: Bank, hs: seq<int>): seq<Option<Result<Data>>>
    requires |b.cell| == |b.data| && InRange(hs, |b.cell|)
  {
    seq(|hs|, i requires 0 <= i < |hs| => Read(b, hs[i]))
  }

  function ParseOf(codec: Codec, st: State, j: nat): Result<Symbols>
    requires CanParse(st, j)
  {
    var f := st.flight[j];
    EntropyPass(codec, f.job.value, Read(st.ctx, f.ctx.needs[0]), Read(st.seg, f.seg.needs[0]), ReadAll(st.mv, f.mv.needs))
  }

  /** Runs the entropy pass and publishes its outcome in the three lanes. */
  function ParsedState(codec: Codec, st: State, j: nat): State
    requires CanParse(st, j)
  {
    var f := st.flight[j];
    var ent := ParseOf(codec, st, j);
    st.(ctx := Post(st.ctx, f.ctx.makes, ContextsOf(ent)),
        mv := Post(st.mv, f.mv.makes, GridOf(ent)),
        seg := Post(st.seg, f.seg.makes, SegmentsOf(ent)),
        flight := st.flight[j := f.(ctx := f.ctx.(done := true), mv := f.mv.(done := true),
                                    seg := f.seg.(done := true), phase := Parsed(ent))])
  }

  /** Reconstruction waits for the reference pixels; a failed entropy pass is not reconstructed. */
  predicate CanFinish(st: State, j: nat) {
    && Sized(st) && j < |st.flight|
    && st.flight[j].job.Some? && st.flight[j].phase.Parsed?
    && Final(st.pix, st.flight[j].pix.needs)
  }

  function FinishOf(codec: Codec, st: State, j: nat): Result<Data>
    requires CanFinish(st, j)
  {
    var f := st.flight[j];
    Reconstruct(codec, f.job.value, f.phase.out, ReadAll(st.pix, f.pix.needs))
  }

  function FinishedState(codec: Codec, st: State, j: nat): State
    requires CanFinish(st, j)
  {
    var f := st.flight[j];
    var px := FinishOf(codec, st, j);
    st.(pix := Post(st.pix, f.pix.makes, px),
        flight := st.flight[j := f.(pix := f.pix.(done := true), phase := Finished(px.Ok?))])
  }

  predicate CanRetire(st: State) {
    && Sized(st) && st.flight != [] && st.flight[0].phase.Finished?
  }

  predicate Shows(f: Flight) {
    f.job.Some? ==> f.job.value.show
  }

  /** Retires the oldest entry: its references are dropped, the surfaces it dropped go back to the
      pool unless this call returns them, and its picture is queued or its failure recorded. */
  function RetiredState(st: State): State
    requires CanRetire(st)
  {
    var f := st.flight[0];
    var st1 := st.(
      ctxStore := ReleaseAll(st.ctxStore, f.ctx.holds),
      mvStore := ReleaseAll(st.mvStore, f.mv.holds),
      segStore := ReleaseAll(st.segStore, f.seg.holds),
      pool := ReleasedExcept(st.pool, f.releases, ReadySurfaces(st.ready)),
      flight := st.flight[1..]);
    if !f.phase.ok then st1.(err := if st.err.None? then Some(f.id) else st.err)
    else if Shows(f) then st1.(ready := st.ready + [Out(f.id, f.surface)])
    else st1
  }

  /** The distinct surfaces behind a returned batch, as many as can be tracked. */
  function Tracked(ready: seq<Out>): seq<int> {
    if ready == [] then []
    else
      var before := Tracked(ready[..|ready| - 1]);
      var s := ready[|ready| - 1].surface;
      if s in before || |before| >= SHOWN_CAPACITY then before else before + [s]
  }

  /** End of a call: the pictures are returned, unless a failure is reported instead. */
  function Ended(st: State): State {
    st.(shown := if st.err.None? then Tracked(st.ready) else [], inCall := false)
  }

  predicate Enabled(codec: Codec, st: State, l: Label) {
    match l
    case BeginCall => !st.inCall
    case Submit(e) => st.inCall && CanSubmit(codec, st, e)
    case ShowExisting(shown, _) => st.inCall && CanShow(st, shown)
    case Parse(j) => CanParse(st, j)
    case Finish(j) => CanFinish(st, j)
    case Retire => st.inCall && CanRetire(st)
    case EndCall => st.inCall
  }

  function Next(codec: Codec, st: State, l: Label): State
    requires Enabled(codec, st, l)
  {
    match l
    case BeginCall => Begun(st)
    case Submit(e) => SubmittedState(codec, st, e)
    case ShowExisting(shown, key) => ShownState(st, shown, key)
    case Parse(j) => ParsedState(codec, st, j)
    case Finish(j) => FinishedState(codec, st, j)
    case Retire => RetiredState(st)
    case EndCall => Ended(st)
  }

  // ----- runs -------------------------------------------------------------------------------

  predicate CanRun(codec: Codec, st: State, ls: seq<Label>)
    decreases |ls|
  {
    ls == [] || (Enabled(codec, st, ls[0]) && CanRun(codec, Next(codec, st, ls[0]), ls[1..]))
  }

  function Run(codec: Codec, st: State, ls: seq<Label>): State
    requires CanRun(codec, st, ls)
    decreases |ls|
  {
    if ls == [] then st else Run(codec, Next(codec, st, ls[0]), ls[1..])
  }

  /** The stream a run submits. */
  function Units(ls: seq<Label>): seq<Unit> {
    if ls == [] then []
    else if ls[0].Submit? then [Frame(ls[0].e)] + Units(ls[1..])
    else if ls[0].ShowExisting? then [Existing(ls[0].shown, ls[0].key)] + Units(ls[1..])
    else Units(ls[1..])
  }
}
