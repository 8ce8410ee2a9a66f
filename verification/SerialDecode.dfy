/**
 The serial decoder: one frame after the other, every reference slot holding plain values.

 Entropy decoding and reconstruction are arbitrary functions of what they read. The reference frame
 update follows section 7.20 of the AV1 bitstream specification.
 */
module SerialDecode {
  import opened Values

  datatype Motion = NoGrid | Grid(temporal: bool)

  datatype Segments = NoSegments | Segments(temporal: bool, update: bool, dim: int)

  /** A coded frame that carries all its tiles. refIdx are the slots of its seven references and
      primary selects the reference whose saved contexts it starts from. */
  datatype Event = Event(
    payload: Data,
    inter: bool,
    refIdx: seq<nat>,
    primary: Option<nat>,
    refresh: seq<bool>,
    show: bool,
    retain: bool,
    motion: Motion,
    segments: Segments)

  predicate NeedsPrevious(e: Event) {
    e.segments.Segments? && (e.segments.temporal || !e.segments.update)
  }

  predicate ValidEvent(e: Event) {
    && |e.refIdx| == INTER_REFS
    && (forall i | 0 <= i < |e.refIdx| :: e.refIdx[i] < REF_FRAMES)
    && |e.refresh| == REF_FRAMES
    && (e.primary.Some? ==> e.primary.value < INTER_REFS)
    && (NeedsPrevious(e) ==> e.primary.Some?)
  }

  /** What one entropy pass produces. */
  datatype Symbols = Symbols(contexts: Data, grid: Data, segments: Data, coefficients: Data)

  datatype Codec = Codec(
    defaults: Event -> Data,
    entropy: (Event, Data, Option<Data>, seq<Option<Result<Data>>>) -> Result<Symbols>,
    reconstruct: (Event, Symbols, seq<Option<Result<Data>>>) -> Result<Data>)

  /** The entropy pass fails when its initial contexts or its previous segmentation map failed. */
  function EntropyPass(codec: Codec, e: Event, init: Option<Result<Data>>, prev: Option<Result<Data>>,
                       grids: seq<Option<Result<Data>>>): Result<Symbols>
  {
    match (init, prev)
    case (Some(Ok(c)), None) => codec.entropy(e, c, None, grids)
    case (Some(Ok(c)), Some(Ok(p))) => codec.entropy(e, c, Some(p), grids)
    case _ => Err
  }

  function Reconstruct(codec: Codec, e: Event, ent: Result<Symbols>, refs: seq<Option<Result<Data>>>): Result<Data> {
    if ent.Ok? then codec.reconstruct(e, ent.value, refs) else Err
  }

  function ContextsOf(ent: Result<Symbols>): Result<Data> {
    if ent.Ok? then Ok(ent.value.contexts) else Err
  }

  function GridOf(ent: Result<Symbols>): Result<Data> {
    if ent.Ok? then Ok(ent.value.grid) else Err
  }

  function SegmentsOf(ent: Result<Symbols>): Result<Data> {
    if ent.Ok? then Ok(ent.value.segments) else Err
  }

  /** The reference slots: saved pixels, contexts, motion grid and segmentation map with its shape. */
  datatype Slots = Slots(
    pixels: seq<Option<Result<Data>>>,
    contexts: seq<Option<Result<Data>>>,
    grids: seq<Option<Result<Data>>>,
    segments: seq<Option<Result<Data>>>,
    dims: seq<int>)

  predicate ValidSlots(s: Slots) {
    |s.pixels| == |s.contexts| == |s.grids| == |s.segments| == |s.dims| == REF_FRAMES
  }

  function EmptySlots(): Slots {
    var none := seq(REF_FRAMES, i => None);
    Slots(none, none, none, none, seq(REF_FRAMES, i => 0))
  }

  /** Section 7.20: the slots that refresh selects save v. */
  function Refreshed<T>(old_: seq<T>, refresh: seq<bool>, v: T): (r: seq<T>)
    requires |old_| == |refresh| == REF_FRAMES
    ensures |r| == REF_FRAMES
  {
    seq(REF_FRAMES, i requires 0 <= i < REF_FRAMES => if refresh[i] then v else old_[i])
  }

  function PrimarySlot(e: Event): nat
    requires ValidEvent(e) && e.primary.Some?
  {
    e.refIdx[e.primary.value]
  }

  /** Initial contexts: those saved with the primary reference, or fresh ones. */
  function InitialContexts(s: Slots, e: Event, fresh_: Result<Data>): Option<Result<Data>>
    requires ValidSlots(s) && ValidEvent(e)
  {
    if e.primary.Some? && s.contexts[PrimarySlot(e)].Some? then s.contexts[PrimarySlot(e)] else Some(fresh_)
  }

  function PreviousSegments(s: Slots, e: Event): Option<Result<Data>>
    requires ValidSlots(s) && ValidEvent(e)
  {
    if NeedsPrevious(e) && s.dims[PrimarySlot(e)] == e.segments.dim then s.segments[PrimarySlot(e)] else None
  }

  function ReferenceGrids(s: Slots, e: Event): seq<Option<Result<Data>>>
    requires ValidSlots(s) && ValidEvent(e)
  {
    if e.motion == Grid(true) then seq(INTER_REFS, i requires 0 <= i < INTER_REFS => s.grids[e.refIdx[i]]) else []
  }

  function ReferencePixels(s: Slots, e: Event): seq<Option<Result<Data>>>
    requires ValidSlots(s) && ValidEvent(e)
  {
    if e.inter then seq(INTER_REFS, i requires 0 <= i < INTER_REFS => s.pixels[e.refIdx[i]]) else []
  }

  function EntropyOf(codec: Codec, s: Slots, e: Event, fresh_: Result<Data>): Result<Symbols>
    requires ValidSlots(s) && ValidEvent(e)
  {
    EntropyPass(codec, e, InitialContexts(s, e, fresh_), PreviousSegments(s, e), ReferenceGrids(s, e))
  }

  function PixelsOf(codec: Codec, s: Slots, e: Event, fresh_: Result<Data>): Result<Data>
    requires ValidSlots(s) && ValidEvent(e)
  {
    Reconstruct(codec, e, EntropyOf(codec, s, e, fresh_), ReferencePixels(s, e))
  }

  /** Decodes one frame and saves it in the slots it refreshes. fresh_ are the contexts a frame
      without a primary reference starts from. */
  function DecodeFrame(codec: Codec, s: Slots, e: Event, fresh_: Result<Data>): (r: Slots)
    requires ValidSlots(s) && ValidEvent(e)
    ensures ValidSlots(r)
  {
    var init := InitialContexts(s, e, fresh_);
    var prev := PreviousSegments(s, e);
    var ent := EntropyOf(codec, s, e, fresh_);
    var map_ := if e.segments.NoSegments? then None
                else if e.segments.update then Some(SegmentsOf(ent))
                else prev;
    Slots(
      Refreshed(s.pixels, e.refresh, Some(PixelsOf(codec, s, e, fresh_))),
      Refreshed(s.contexts, e.refresh, if e.retain then Some(ContextsOf(ent)) else init),
      Refreshed(s.grids, e.refresh, if e.motion.NoGrid? then None else Some(GridOf(ent))),
      Refreshed(s.segments, e.refresh, map_),
      Refreshed(s.dims, e.refresh, if map_.Some? then e.segments.dim else 0))
  }

  /** A shown existing frame. A key frame is saved again in every slot; its motion grid is not,
      because a key frame projects no motion. */
  function ShowAgain(s: Slots, shown: nat, key: bool): (r: Slots)
    requires ValidSlots(s) && shown < REF_FRAMES
    ensures ValidSlots(r)
  {
    if !key then s
    else
      var others := seq(REF_FRAMES, i => i != shown);
      Slots(
        Refreshed(s.pixels, others, s.pixels[shown]),
        Refreshed(s.contexts, others, s.contexts[shown]),
        Refreshed(s.grids, others, None),
        Refreshed(s.segments, others, s.segments[shown]),
        Refreshed(s.dims, others, s.dims[shown]))
  }

  /** One unit of a stream as the submitting goroutine sees it. */
  datatype Unit = Frame(e: Event) | Existing(shown: nat, key: bool)

  predicate ValidUnit(u: Unit) {
    match u
    case Frame(e) => ValidEvent(e)
    case Existing(shown, _) => shown < REF_FRAMES
  }

  /** The outcome of one unit: the picture behind it and whether it is output. */
  datatype Picture = Picture(pixels: Option<Result<Data>>, show: bool, coded: bool)

  function After(codec: Codec, s: Slots, u: Unit, fresh_: Result<Data>): (r: Slots)
    requires ValidSlots(s) && ValidUnit(u)
    ensures ValidSlots(r)
  {
    match u
    case Frame(e) => DecodeFrame(codec, s, e, fresh_)
    case Existing(shown, key) => ShowAgain(s, shown, key)
  }

  function PictureOf(codec: Codec, s: Slots, u: Unit, fresh_: Result<Data>): Picture
    requires ValidSlots(s) && ValidUnit(u)
  {
    match u
    case Frame(e) => Picture(Some(PixelsOf(codec, s, e, fresh_)), e.show, true)
    case Existing(shown, _) => Picture(s.pixels[shown], true, false)
  }

  function FreshContexts(codec: Codec, u: Unit): Result<Data> {
    if u.Frame? then Ok(codec.defaults(u.e)) else Err
  }

  predicate ValidUnits(us: seq<Unit>) {
    forall i | 0 <= i < |us| :: ValidUnit(us[i])
  }

  /** The slots after decoding a stream serially, starting from slots s. */
  function SlotsAfter(codec: Codec, s: Slots, us: seq<Unit>): (r: Slots)
    requires ValidSlots(s) && ValidUnits(us)
    ensures ValidSlots(r)
    decreases |us|
  {
    if us == [] then s
    else SlotsAfter(codec, After(codec, s, us[0], FreshContexts(codec, us[0])), us[1..])
  }

  /** The pictures of a stream decoded serially, in order. */
  function PicturesFrom(codec: Codec, s: Slots, us: seq<Unit>): (r: seq<Picture>)
    requires ValidSlots(s) && ValidUnits(us)
    ensures |r| == |us|
    decreases |us|
  {
    if us == [] then []
    else
      var fresh_ := FreshContexts(codec, us[0]);
      [PictureOf(codec, s, us[0], fresh_)] + PicturesFrom(codec, After(codec, s, us[0], fresh_), us[1..])
  }

  function SerialPictures(codec: Codec, us: seq<Unit>): seq<Picture>
    requires ValidUnits(us)
  {
    PicturesFrom(codec, EmptySlots(), us)
  }

  predicate Succeeds(p: Picture) {
    p.pixels.Some? && p.pixels.value.Ok?
  }

  /** Serial decoding of the stream succeeds throughout. */
  predicate Clean(codec: Codec, s: Slots, us: seq<Unit>)
    requires ValidSlots(s) && ValidUnits(us)
  {
    var ps := PicturesFrom(codec, s, us);
    forall i | 0 <= i < |ps| :: Succeeds(ps[i])
  }

  /** The pictures that a stream shows, in order. */
  function ShownData(ps: seq<Picture>): seq<Data> {
    if ps == [] then []
    else (if ps[0].show && Succeeds(ps[0]) then [ps[0].pixels.value.value] else []) + ShownData(ps[1..])
  }

  lemma {:induction false} ShownDataAppend(ps: seq<Picture>, qs: seq<Picture>)
    ensures ShownData(ps + qs) == ShownData(ps) + ShownData(qs)
  {
    if ps == [] {
      assert ps + qs == qs;
    } else {
      ShownDataAppend(ps[1..], qs);
      assert (ps + qs)[1..] == ps[1..] + qs;
    }
  }
}
