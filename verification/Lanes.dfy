/**
 What a submission does to the saved contexts, the motion grids and the segmentation maps.

 Each of the three is a lane: a reference-counted store, and a bank of progress cells and bytes. A
 submitted frame claims the handles it will write, keeps references to the handles it will read,
 marks what it writes as pending and points the slots it refreshes at the result, all before its
 entropy pass has run.
 */
module Lanes {
  import opened Values
  import opened Handles
  import opened Progress
  import opened SerialDecode

  /** All references that the frames in flight hold in one lane. */
  function Flat(bs: seq<Bind>): seq<int> {
    if bs == [] then [] else bs[0].holds + Flat(bs[1..])
  }

  /** A frame holds every handle it reads or writes. */
  ghost predicate WellHeld(b: Bind) {
    && (b.makes >= 0 ==> b.makes in b.holds)
    && (forall i | 0 <= i < |b.needs| :: b.needs[i] >= 0 ==> b.needs[i] in b.holds)
  }

  ghost predicate AllWellHeld(bs: seq<Bind>) {
    forall j | 0 <= j < |bs| :: WellHeld(bs[j])
  }

  ghost predicate LaneInv(s: Store, b: Bank, want: seq<Result<Data>>, bs: seq<Bind>) {
    && |s.refs| == |b.cell|
    && Balanced(s, Flat(bs))
    && AllWellHeld(bs)
    && Coupled(b, want, bs)
  }

  /** The serial decoder's value for each reference slot. */
  ghost predicate SlotsMatch(s: Store, want: seq<Result<Data>>, saved: seq<Option<Result<Data>>>) {
    && Shaped(s) && |want| == |s.refs| && |saved| == REF_FRAMES
    && forall i | 0 <= i < REF_FRAMES :: saved[i] == Wanted(want, s.slot[i])
  }

  /** The serial decoder's values for a list of handles. */
  function WantedAll(want: seq<Result<Data>>, hs: seq<int>): seq<Option<Result<Data>>>
    requires InRange(hs, |want|)
  {
    seq(|hs|, i requires 0 <= i < |hs| => Wanted(want, hs[i]))
  }

  // ----- flattening -------------------------------------------------------------------------

  lemma {:induction false} FlatAppend(bs: seq<Bind>, b: Bind)
    ensures Flat(bs + [b]) == Flat(bs) + b.holds
  {
    if bs == [] {
      assert bs + [b] == [b];
    } else {
      FlatAppend(bs[1..], b);
      assert (bs + [b])[1..] == bs[1..] + [b];
    }
  }

  lemma {:induction false} FlatMember(bs: seq<Bind>, j: nat, h: int)
    requires j < |bs| && h in bs[j].holds
    ensures h in Flat(bs)
  {
    if j > 0 {
      FlatMember(bs[1..], j - 1, h);
    }
  }

  lemma {:induction false} FlatUpdate(bs: seq<Bind>, j: nat, b: Bind)
    requires j < |bs| && b.holds == bs[j].holds
    ensures Flat(bs[j := b]) == Flat(bs)
  {
    if j == 0 {
      assert bs[j := b][1..] == bs[1..];
    } else {
      FlatUpdate(bs[1..], j - 1, b);
      assert bs[j := b][1..] == bs[1..][j - 1 := b];
    }
  }

  lemma {:induction false} FlatLength(bs: seq<Bind>, most: nat)
    requires forall j | 0 <= j < |bs| :: |bs[j].holds| <= most
    ensures |Flat(bs)| <= most * |bs|
  {
    if bs != [] {
      FlatLength(bs[1..], most);
    }
  }

  /** A handle that no frame holds is one that no frame reads or writes. */
  lemma UnheldIsFresh(bs: seq<Bind>, h: nat)
    requires AllWellHeld(bs) && h !in Flat(bs)
    ensures Fresh(bs, h)
  {
    forall j | 0 <= j < |bs|
      ensures bs[j].makes != h && h !in bs[j].needs
    {
      if h in bs[j].holds {
        FlatMember(bs, j, h);
      }
    }
  }

  /** Nothing refers to h: no slot names it and no frame holds it. */
  ghost predicate Unclaimed(s: Store, holds: seq<int>, h: int) {
    h >= 0 ==> h !in holds && h !in s.slot
  }

  // ----- joining the queue ------------------------------------------------------------------

  /** A frame may join a lane: it holds what it reads and writes, and what it writes is its own. */
  ghost predicate MayJoin(s: Store, b: Bank, bs: seq<Bind>, nb: Bind) {
    && |s.refs| == |b.cell|
    && Balanced(s, Flat(bs) + nb.holds)
    && AllWellHeld(bs) && WellHeld(nb)
    && InRange(nb.needs, |b.cell|) && -1 <= nb.makes < |b.cell|
    && (nb.makes >= 0 ==> !nb.done && nb.makes !in Flat(bs) && nb.makes !in nb.needs && nb.makes !in s.slot)
  }

  lemma JoinKept(s: Store, b: Bank, want: seq<Result<Data>>, bs: seq<Bind>, nb: Bind,
                 refresh: seq<bool>, h: int, v: Result<Data>)
    requires MayJoin(s, b, bs, nb) && Coupled(b, want, bs)
    requires IsHandle(s, h) && |refresh| == REF_FRAMES
    ensures LaneInv(Publish(s, refresh, h), Reset(b, nb.makes), Promise(want, nb.makes, v), bs + [nb])
  {
    if nb.makes >= 0 {
      UnheldIsFresh(bs, nb.makes);
    }
    StartCoupled(b, want, bs, nb, v);
    PublishBalanced(s, Flat(bs) + nb.holds, refresh, h);
    FlatAppend(bs, nb);
  }

  lemma JoinSlots(s: Store, want: seq<Result<Data>>, makes: int, refresh: seq<bool>, h: int, v: Result<Data>,
                  saved: seq<Option<Result<Data>>>)
    requires SlotsMatch(s, want, saved) && IsHandle(s, h) && |refresh| == REF_FRAMES
    requires makes < |want| && (makes >= 0 ==> makes !in s.slot)
    ensures SlotsMatch(Publish(s, refresh, h), Promise(want, makes, v),
              Refreshed(saved, refresh, Wanted(Promise(want, makes, v), h)))
  {
    var want' := Promise(want, makes, v);
    forall i | 0 <= i < REF_FRAMES
      ensures Wanted(want', s.slot[i]) == Wanted(want, s.slot[i])
    {
      assert s.slot[i] in s.slot;
    }
  }

  // ----- saved entropy contexts -------------------------------------------------------------

  predicate FromSlot(s: Store, e: Event)
    requires Shaped(s) && ValidEvent(e)
  {
    e.primary.Some? && s.slot[PrimarySlot(e)] != NONE
  }

  /** The initial contexts: the primary reference's entry, or a fresh entry with default contexts. */
  function InitContexts(codec: Codec, s: Store, b: Bank, e: Event): (r: (Store, Bank, int))
    requires Shaped(s) && ValidEvent(e) && HasFree(s) && |s.refs| == |b.data|
    ensures Shaped(r.0) && |r.0.refs| == |s.refs| && r.0.slot == s.slot && 0 <= r.2 < |s.refs|
    ensures r.1.cell == b.cell && |r.1.data| == |b.data|
  {
    if FromSlot(s, e) then
      var h := s.slot[PrimarySlot(e)];
      (Retain(s, h), b, h)
    else
      var (s1, h) := Acquire(s, 0);
      (s1, Fill(b, h, codec.defaults(e)), h)
  }

  predicate CanBindContexts(codec: Codec, s: Store, b: Bank, e: Event) {
    && Shaped(s) && ValidEvent(e) && HasFree(s) && |s.refs| == |b.data| == |b.cell|
    && HasFree(InitContexts(codec, s, b, e).0)
  }

  function BindContexts(codec: Codec, s: Store, b: Bank, e: Event): (r: (Store, Bank, Bind))
    requires CanBindContexts(codec, s, b, e)
    ensures |r.0.refs| == |s.refs| && |r.1.cell| == |b.cell| && |r.1.data| == |b.data|
    ensures |r.2.needs| == 1 && 0 <= r.2.needs[0] < |s.refs| && !r.2.done && |r.2.holds| == 2
    ensures r.2.makes < |s.refs|
  {
    var (s1, b1, init) := InitContexts(codec, s, b, e);
    var (s2, kept) := Acquire(s1, 0);
    var makes := if e.retain then kept else NONE;
    (Publish(s2, e.refresh, if e.retain then kept else init),
     Reset(b1, makes),
     Bind([init], makes, [init, kept], false))
  }

  /** The contexts a frame without a usable primary reference really starts from: the entry it claims
      keeps the progress cell of the entry's last writer, and a failed cell fails the frame. */
  function StartContexts(codec: Codec, s: Store, b: Bank, e: Event): Result<Data>
    requires Shaped(s) && |s.refs| == |b.cell| && HasFree(s)
  {
    if b.cell[FirstFree(s.refs, 0)] == Failed then Err else Ok(codec.defaults(e))
  }

  function PromiseStart(codec: Codec, s: Store, b: Bank, e: Event, want: seq<Result<Data>>): (r: seq<Result<Data>>)
    requires Shaped(s) && ValidEvent(e) && |s.refs| == |b.cell| == |want| && HasFree(s)
    ensures |r| == |want|
  {
    if FromSlot(s, e) then want else want[FirstFree(s.refs, 0) := StartContexts(codec, s, b, e)]
  }

  lemma InitClaimed(codec: Codec, s: Store, b: Bank, holds: seq<int>, e: Event)
    requires Balanced(s, holds) && HasFree(s) && ValidEvent(e) && |s.refs| == |b.data|
    ensures var r := InitContexts(codec, s, b, e);
            Balanced(r.0, holds + [r.2])
    ensures !FromSlot(s, e) ==> Unclaimed(s, holds, FirstFree(s.refs, 0))
  {
    if FromSlot(s, e) {
      RetainBalanced(s, holds, s.slot[PrimarySlot(e)]);
    } else {
      AcquireBalanced(s, holds, 0);
    }
  }

  lemma InitContextsKept(codec: Codec, s: Store, b: Bank, want: seq<Result<Data>>, bs: seq<Bind>, e: Event,
                         saved: seq<Option<Result<Data>>>)
    requires LaneInv(s, b, want, bs) && ValidEvent(e) && HasFree(s) && SlotsMatch(s, want, saved)
    ensures var r := InitContexts(codec, s, b, e);
            var want1 := PromiseStart(codec, s, b, e, want);
            Coupled(r.1, want1, bs) && SlotsMatch(r.0, want1, saved)
  {
    if !FromSlot(s, e) {
      InitClaimed(codec, s, b, Flat(bs), e);
      var h := FirstFree(s.refs, 0);
      UnheldIsFresh(bs, h);
      FillCoupled(b, want, bs, h, codec.defaults(e));
    }
  }

  lemma ContextsBalanced(codec: Codec, s: Store, b: Bank, holds: seq<int>, e: Event)
    requires Balanced(s, holds) && CanBindContexts(codec, s, b, e)
    ensures var s2 := Acquire(InitContexts(codec, s, b, e).0, 0).0;
            var nb := BindContexts(codec, s, b, e).2;
            && Balanced(s2, holds + nb.holds) && s2.slot == s.slot
            && Unclaimed(s, holds, nb.holds[1]) && nb.holds[1] != nb.holds[0]
  {
    InitClaimed(codec, s, b, holds, e);
    var (s1, b1, init) := InitContexts(codec, s, b, e);
    AcquireBalanced(s1, holds + [init], 0);
    assert holds + [init] + [Acquire(s1, 0).1] == holds + BindContexts(codec, s, b, e).2.holds;
    assert (holds + [init])[|holds|] == init;
  }

  /** Before the refresh: the frame holds its two entries and may join. */
  lemma ContextsJoin(codec: Codec, s: Store, b: Bank, want: seq<Result<Data>>, bs: seq<Bind>, e: Event)
    requires LaneInv(s, b, want, bs) && CanBindContexts(codec, s, b, e)
    ensures var s2 := Acquire(InitContexts(codec, s, b, e).0, 0).0;
            MayJoin(s2, InitContexts(codec, s, b, e).1, bs, BindContexts(codec, s, b, e).2)
  {
    ContextsBalanced(codec, s, b, Flat(bs), e);
  }

  /** Submitting keeps the context lane consistent, whatever value v the frame is to save. */
  lemma BindContextsKept(codec: Codec, s: Store, b: Bank, want: seq<Result<Data>>, bs: seq<Bind>, e: Event,
                         saved: seq<Option<Result<Data>>>, v: Result<Data>)
    requires LaneInv(s, b, want, bs) && CanBindContexts(codec, s, b, e) && SlotsMatch(s, want, saved)
    ensures var r := BindContexts(codec, s, b, e);
            var want' := Promise(PromiseStart(codec, s, b, e, want), r.2.makes, v);
            && LaneInv(r.0, r.1, want', bs + [r.2])
            && SlotsMatch(r.0, want',
                 Refreshed(saved, e.refresh, if e.retain then Some(v) else Wanted(want', r.2.needs[0])))
  {
    ContextsJoin(codec, s, b, want, bs, e);
    InitContextsKept(codec, s, b, want, bs, e, saved);
    var (s1, b1, init) := InitContexts(codec, s, b, e);
    var (s2, kept) := Acquire(s1, 0);
    var nb := BindContexts(codec, s, b, e).2;
    var want1 := PromiseStart(codec, s, b, e, want);
    JoinKept(s2, b1, want1, bs, nb, e.refresh, if e.retain then kept else init, v);
    JoinSlots(s2, want1, nb.makes, e.refresh, if e.retain then kept else init, v, saved);
  }

  /** The frame starts from the serial decoder's initial contexts, and no value that a frame in
      flight depends on changes. */
  lemma BindContextsValues(codec: Codec, s: Store, b: Bank, want: seq<Result<Data>>, holds: seq<int>, e: Event,
                           saved: seq<Option<Result<Data>>>, v: Result<Data>)
    requires CanBindContexts(codec, s, b, e) && SlotsMatch(s, want, saved)
    requires !FromSlot(s, e) ==> Unclaimed(s, holds, FirstFree(s.refs, 0))
    requires var nb := BindContexts(codec, s, b, e).2;
             Unclaimed(s, holds, nb.holds[1]) && nb.holds[1] != nb.holds[0]
    ensures var nb := BindContexts(codec, s, b, e).2;
            var want' := Promise(PromiseStart(codec, s, b, e, want), nb.makes, v);
            && Wanted(want', nb.needs[0]) ==
               (if e.primary.Some? && saved[PrimarySlot(e)].Some? then saved[PrimarySlot(e)]
                else Some(StartContexts(codec, s, b, e)))
            && (nb.makes >= 0 ==> want'[nb.makes] == v)
            && (forall h | 0 <= h < |want| && h in holds :: want'[h] == want[h])
  {
    if FromSlot(s, e) {
      assert s.slot[PrimarySlot(e)] in s.slot;
    }
  }

  // ----- motion grids -----------------------------------------------------------------------

  predicate CanBindMotion(s: Store, b: Bank, e: Event) {
    && Shaped(s) && ValidEvent(e) && |s.refs| == |b.cell|
    && (e.motion.Grid? ==> HasFree(s))
  }

  function BindMotion(s: Store, b: Bank, e: Event): (r: (Store, Bank, Bind))
    requires CanBindMotion(s, b, e)
    ensures |r.0.refs| == |s.refs| && |r.1.cell| == |b.cell| && r.1.data == b.data
    ensures InRange(r.2.needs, |s.refs|) && !r.2.done && |r.2.holds| <= 1 + INTER_REFS && r.2.makes < |s.refs|
  {
    var refs := if e.motion == Grid(true)
                then seq(INTER_REFS, i requires 0 <= i < INTER_REFS => s.slot[e.refIdx[i]]) else [];
    var (s1, grid) := if e.motion.Grid? then Acquire(s, 0) else (s, NONE);
    (Publish(RetainAll(s1, refs), e.refresh, grid),
     Reset(b, grid),
     Bind(refs, grid, [grid] + refs, false))
  }

  function HeldGrids(s: Store, b: Bank, e: Event): (r: Store)
    requires CanBindMotion(s, b, e)
    ensures Shaped(r) && |r.refs| == |s.refs| && r.slot == s.slot
  {
    RetainAll(if e.motion.Grid? then Acquire(s, 0).0 else s, BindMotion(s, b, e).2.needs)
  }

  /** A motion grid claimed for a frame is nobody else's. */
  lemma GridClaimed(s: Store, b: Bank, holds: seq<int>, e: Event)
    requires Balanced(s, holds) && CanBindMotion(s, b, e)
    ensures var h := BindMotion(s, b, e).2.makes;
            && Balanced(if e.motion.Grid? then Acquire(s, 0).0 else s, holds + [h])
            && Unclaimed(s, holds, h)
  {
    if e.motion.Grid? {
      AcquireBalanced(s, holds, 0);
    } else {
      RetainBalanced(s, holds, NONE);
    }
  }

  lemma GridsBalanced(s: Store, b: Bank, holds: seq<int>, e: Event)
    requires Balanced(s, holds) && CanBindMotion(s, b, e)
    ensures Balanced(HeldGrids(s, b, e), holds + BindMotion(s, b, e).2.holds)
  {
    GridClaimed(s, b, holds, e);
    var nb := BindMotion(s, b, e).2;
    GridsRetained(if e.motion.Grid? then Acquire(s, 0).0 else s, holds, nb.makes, nb.needs);
  }

  lemma GridsRetained(s: Store, holds: seq<int>, makes: int, needs: seq<int>)
    requires Balanced(s, holds + [makes]) && AllHandles(needs, |s.refs|)
    ensures Balanced(RetainAll(s, needs), holds + ([makes] + needs))
  {
    RetainAllBalanced(s, holds + [makes], needs);
    assert holds + [makes] + needs == holds + ([makes] + needs);
  }

  lemma MotionJoin(s: Store, b: Bank, want: seq<Result<Data>>, bs: seq<Bind>, e: Event)
    requires LaneInv(s, b, want, bs) && CanBindMotion(s, b, e)
    ensures MayJoin(HeldGrids(s, b, e), b, bs, BindMotion(s, b, e).2)
  {
    GridsBalanced(s, b, Flat(bs), e);
    GridClaimed(s, b, Flat(bs), e);
    var nb := BindMotion(s, b, e).2;
    assert forall i | 0 <= i < |nb.needs| :: nb.needs[i] in s.slot && nb.holds[i + 1] == nb.needs[i];
  }

  lemma BindMotionKept(s: Store, b: Bank, want: seq<Result<Data>>, bs: seq<Bind>, e: Event,
                       saved: seq<Option<Result<Data>>>, v: Result<Data>)
    requires LaneInv(s, b, want, bs) && CanBindMotion(s, b, e) && SlotsMatch(s, want, saved)
    ensures var r := BindMotion(s, b, e);
            var want' := Promise(want, r.2.makes, v);
            && LaneInv(r.0, r.1, want', bs + [r.2])
            && SlotsMatch(r.0, want', Refreshed(saved, e.refresh, if e.motion.NoGrid? then None else Some(v)))
  {
    MotionJoin(s, b, want, bs, e);
    var nb := BindMotion(s, b, e).2;
    JoinKept(HeldGrids(s, b, e), b, want, bs, nb, e.refresh, nb.makes, v);
    JoinSlots(HeldGrids(s, b, e), want, nb.makes, e.refresh, nb.makes, v, saved);
  }

  lemma BindMotionValues(s: Store, b: Bank, want: seq<Result<Data>>, holds: seq<int>, e: Event,
                         saved: seq<Option<Result<Data>>>, v: Result<Data>)
    requires CanBindMotion(s, b, e) && SlotsMatch(s, want, saved) && Unclaimed(s, holds, BindMotion(s, b, e).2.makes)
    ensures var nb := BindMotion(s, b, e).2;
            var want' := Promise(want, nb.makes, v);
            && WantedAll(want', nb.needs) ==
               (if e.motion == Grid(true)
                then seq(INTER_REFS, i requires 0 <= i < INTER_REFS => saved[e.refIdx[i]]) else [])
            && (nb.makes >= 0 ==> want'[nb.makes] == v)
            && (forall h | 0 <= h < |want| && h in holds :: want'[h] == want[h])
  {
    var nb := BindMotion(s, b, e).2;
    forall i | 0 <= i < |nb.needs|
      ensures Wanted(Promise(want, nb.makes, v), nb.needs[i]) == saved[e.refIdx[i]]
    {
      assert nb.needs[i] == s.slot[e.refIdx[i]] && nb.needs[i] in s.slot;
    }
  }

  // ----- segmentation maps ------------------------------------------------------------------

  /** The primary reference's map, when the frame needs it and it has the frame's shape. */
  function PreviousMap(s: Store, e: Event): (h: int)
    requires Shaped(s) && ValidEvent(e)
    ensures NONE <= h < |s.refs| && (h != NONE ==> h in s.slot)
  {
    if NeedsPrevious(e) && s.slot[PrimarySlot(e)] != NONE
       && s.tag[s.slot[PrimarySlot(e)]] == e.segments.dim
    then s.slot[PrimarySlot(e)] else NONE
  }

  predicate CanBindSegments(s: Store, b: Bank, e: Event) {
    && Shaped(s) && ValidEvent(e) && |s.refs| == |b.cell|
    && (e.segments.Segments? && e.segments.update ==> HasFree(Retain(s, PreviousMap(s, e))))
  }

  function BindSegments(s: Store, b: Bank, e: Event): (r: (Store, Bank, Bind))
    requires CanBindSegments(s, b, e)
    ensures |r.0.refs| == |s.refs| && |r.1.cell| == |b.cell| && r.1.data == b.data
    ensures |r.2.needs| == 1 && InRange(r.2.needs, |s.refs|) && !r.2.done && |r.2.holds| == 2 && r.2.makes < |s.refs|
  {
    var prev := PreviousMap(s, e);
    var s1 := Retain(s, prev);
    if e.segments.Segments? && e.segments.update then
      var (s2, cur) := Acquire(s1, e.segments.dim);
      (Publish(s2, e.refresh, cur), Reset(b, cur), Bind([prev], cur, [prev, cur], false))
    else
      (Publish(Retain(s1, prev), e.refresh, prev), b, Bind([prev], NONE, [prev, prev], false))
  }

  /** The shapes the serial decoder has saved match the shapes of the handles. */
  ghost predicate DimsMatch(s: Store, dims: seq<int>) {
    && Shaped(s) && |dims| == REF_FRAMES
    && forall i | 0 <= i < REF_FRAMES :: s.slot[i] != NONE ==> dims[i] == s.tag[s.slot[i]]
  }

  /** The handle that the slots a frame refreshes take. */
  function NewMap(s: Store, b: Bank, e: Event): int
    requires CanBindSegments(s, b, e)
  {
    if e.segments.Segments? && e.segments.update then BindSegments(s, b, e).2.makes else PreviousMap(s, e)
  }

  function HeldMaps(s: Store, b: Bank, e: Event): (r: Store)
    requires CanBindSegments(s, b, e)
    ensures Shaped(r) && |r.refs| == |s.refs| && r.slot == s.slot
  {
    var s1 := Retain(s, PreviousMap(s, e));
    if e.segments.Segments? && e.segments.update then Acquire(s1, e.segments.dim).0
    else Retain(s1, PreviousMap(s, e))
  }

  lemma SegmentsPublish(s: Store, b: Bank, e: Event)
    requires CanBindSegments(s, b, e)
    ensures NONE <= NewMap(s, b, e) < |s.refs|
    ensures BindSegments(s, b, e).0 == Publish(HeldMaps(s, b, e), e.refresh, NewMap(s, b, e))
  {
  }

  lemma NewMapBalanced(s: Store, holds: seq<int>, prev: int, dim: int)
    requires Balanced(s, holds) && IsHandle(s, prev) && HasFree(Retain(s, prev))
    ensures var (s2, cur) := Acquire(Retain(s, prev), dim);
            Balanced(s2, holds + [prev, cur]) && Unclaimed(s, holds, cur)
  {
    RetainBalanced(s, holds, prev);
    AcquireBalanced(Retain(s, prev), holds + [prev], dim);
    var cur := Acquire(Retain(s, prev), dim).1;
    assert holds + [prev] + [cur] == holds + [prev, cur];
  }

  lemma SharedMapBalanced(s: Store, holds: seq<int>, prev: int)
    requires Balanced(s, holds) && IsHandle(s, prev)
    ensures Balanced(Retain(Retain(s, prev), prev), holds + [prev, prev])
  {
    RetainBalanced(s, holds, prev);
    RetainBalanced(Retain(s, prev), holds + [prev], prev);
    assert holds + [prev] + [prev] == holds + [prev, prev];
  }

  lemma MapsBalanced(s: Store, b: Bank, holds: seq<int>, e: Event)
    requires Balanced(s, holds) && CanBindSegments(s, b, e)
    ensures var nb := BindSegments(s, b, e).2;
            && Balanced(HeldMaps(s, b, e), holds + nb.holds)
            && Unclaimed(s, holds, nb.makes)
  {
    var prev := PreviousMap(s, e);
    if e.segments.Segments? && e.segments.update {
      NewMapBalanced(s, holds, prev, e.segments.dim);
    } else {
      SharedMapBalanced(s, holds, prev);
    }
  }

  lemma SegmentsJoin(s: Store, b: Bank, want: seq<Result<Data>>, bs: seq<Bind>, e: Event)
    requires LaneInv(s, b, want, bs) && CanBindSegments(s, b, e)
    ensures MayJoin(HeldMaps(s, b, e), b, bs, BindSegments(s, b, e).2)
  {
    MapsBalanced(s, b, Flat(bs), e);
    var prev := PreviousMap(s, e);
    assert prev != NONE ==> prev in s.slot;
  }

  lemma BindSegmentsKept(s: Store, b: Bank, want: seq<Result<Data>>, bs: seq<Bind>, e: Event,
                         saved: seq<Option<Result<Data>>>, v: Result<Data>)
    requires LaneInv(s, b, want, bs) && CanBindSegments(s, b, e) && SlotsMatch(s, want, saved)
    ensures NONE <= NewMap(s, b, e) < |s.refs|
    ensures var r := BindSegments(s, b, e);
            var want' := Promise(want, r.2.makes, v);
            && LaneInv(r.0, r.1, want', bs + [r.2])
            && SlotsMatch(r.0, want', Refreshed(saved, e.refresh, Wanted(want', NewMap(s, b, e))))
  {
    SegmentsJoin(s, b, want, bs, e);
    SegmentsPublish(s, b, e);
    var nb := BindSegments(s, b, e).2;
    JoinKept(HeldMaps(s, b, e), b, want, bs, nb, e.refresh, NewMap(s, b, e), v);
    JoinSlots(HeldMaps(s, b, e), want, nb.makes, e.refresh, NewMap(s, b, e), v, saved);
  }

  /** The frame reads the serial decoder's previous map and saves the map the serial decoder saves. */
  lemma BindSegmentsValues(s: Store, b: Bank, want: seq<Result<Data>>, holds: seq<int>, e: Event,
                           saved: seq<Option<Result<Data>>>, dims: seq<int>, v: Result<Data>)
    requires CanBindSegments(s, b, e) && SlotsMatch(s, want, saved) && DimsMatch(s, dims)
    requires Unclaimed(s, holds, BindSegments(s, b, e).2.makes)
    ensures NONE <= NewMap(s, b, e) < |s.refs|
    ensures var nb := BindSegments(s, b, e).2;
            var want' := Promise(want, nb.makes, v);
            var prev := if NeedsPrevious(e) && dims[PrimarySlot(e)] == e.segments.dim
                        then saved[PrimarySlot(e)] else None;
            && Wanted(want', nb.needs[0]) == prev
            && (nb.makes >= 0 ==> want'[nb.makes] == v)
            && Wanted(want', NewMap(s, b, e)) ==
               (if e.segments.NoSegments? then None else if e.segments.update then Some(v) else prev)
            && (forall h | 0 <= h < |want| && h in holds :: want'[h] == want[h])
  {
    SegmentsPublish(s, b, e);
  }

  lemma BindSegmentsDims(s: Store, b: Bank, holds: seq<int>, e: Event, dims: seq<int>)
    requires Balanced(s, holds) && CanBindSegments(s, b, e) && DimsMatch(s, dims)
    ensures DimsMatch(BindSegments(s, b, e).0,
              Refreshed(dims, e.refresh, if NewMap(s, b, e) >= 0 then e.segments.dim else 0))
  {
    MapsBalanced(s, b, holds, e);
    SegmentsPublish(s, b, e);
    var held := HeldMaps(s, b, e);
    forall i | 0 <= i < REF_FRAMES && s.slot[i] != NONE
      ensures held.tag[s.slot[i]] == dims[i]
    {
      assert s.slot[i] in s.slot;
    }
  }

  // ----- the other steps --------------------------------------------------------------------

  /** Publishing the outcome of frame j keeps a lane consistent. */
  lemma PostKept(s: Store, b: Bank, want: seq<Result<Data>>, bs: seq<Bind>, j: nat, r: Result<Data>)
    requires LaneInv(s, b, want, bs) && j < |bs|
    requires bs[j].makes >= 0 ==> r == want[bs[j].makes]
    ensures LaneInv(s, Post(b, bs[j].makes, r), want, bs[j := bs[j].(done := true)])
  {
    PostCoupled(b, want, bs, j, r);
    FlatUpdate(bs, j, bs[j].(done := true));
  }

  /** Retiring the oldest frame returns exactly its references. */
  lemma RetireKept(s: Store, b: Bank, want: seq<Result<Data>>, bs: seq<Bind>)
    requires LaneInv(s, b, want, bs) && bs != [] && (bs[0].done || bs[0].makes < 0)
    ensures AllHandles(bs[0].holds, |s.refs|)
    ensures LaneInv(ReleaseAll(s, bs[0].holds), b, want, bs[1..])
  {
    ReleaseAllBalanced(s, bs[0].holds, Flat(bs[1..]));
    RetireCoupled(b, want, bs);
  }

  /** A frame that joins the queue without touching the lane. */
  lemma IdleKept(s: Store, b: Bank, want: seq<Result<Data>>, bs: seq<Bind>, nb: Bind)
    requires LaneInv(s, b, want, bs) && nb == Bind([], NONE, [], true)
    ensures LaneInv(s, b, want, bs + [nb])
  {
    FlatAppend(bs, nb);
    assert Flat(bs) + [] == Flat(bs);
    StartCoupled(b, want, bs, nb, Err);
  }

  /** A key frame shown again points the other slots of a lane at one handle. */
  lemma ShowKeyKept(s: Store, b: Bank, want: seq<Result<Data>>, bs: seq<Bind>,
                    saved: seq<Option<Result<Data>>>, shown: nat, h: int)
    requires LaneInv(s, b, want, bs) && SlotsMatch(s, want, saved) && shown < REF_FRAMES && NONE <= h < |s.refs|
    ensures LaneInv(PublishOthers(s, shown, h), b, want, bs)
    ensures SlotsMatch(PublishOthers(s, shown, h), want,
              Refreshed(saved, seq(REF_FRAMES, i => i != shown), Wanted(want, h)))
  {
    PublishOthersBalanced(s, Flat(bs), shown, h);
  }
}
