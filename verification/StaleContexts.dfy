/**
 Where frame threading and serial decoding part ways.

 After a failure, a frame can fail that the serial decoder decodes. A frame without a primary reference
 claims a context entry, fills it with default contexts, and then waits on the entry's progress cell; but
 nobody resets that cell, so an entry whose last writer failed fails its new owner too.
 */
module StaleContexts {
  import opened Values
  import opened Handles
  import opened Progress
  import opened Surfaces
  import opened SerialDecode
  import opened Lanes
  import opened FrameThread
  import opened Ownership
  import opened Refinement
  import opened SubmitStep
  import opened FrameSteps
  import opened FrameThreadTheorems
  import opened FrameThreadOutput

  /** Submitting e in state st claims a context entry whose cell still says that its last writer failed. */
  predicate Stale(st: State, e: Event)
    requires Sized(st) && ValidEvent(e) && HasFree(st.ctxStore)
  {
    !FromSlot(st.ctxStore, e) && st.ctx.cell[FirstFree(st.ctxStore.refs, 0)] == Failed
  }

  predicate Refreshes(e: Event) {
    exists i :: 0 <= i < |e.refresh| && e.refresh[i]
  }

  /** Harmless after all: the serial decoder has no picture of e either, and saves nothing that differs. */
  predicate Harmless(codec: Codec, s: Slots, e: Event)
    requires ValidSlots(s) && ValidEvent(e)
  {
    && PixelsOf(codec, s, e, Ok(codec.defaults(e))).Err?
    && (Refreshes(e) ==> e.retain && EntropyOf(codec, s, e, Ok(codec.defaults(e))).Err?)
  }

  /** A frame that starts from failed contexts has the serial decoder's outcome if and only if that was
      harmless. */
  lemma StaleOutcome(codec: Codec, s: Slots, e: Event)
    requires ValidSlots(s) && ValidEvent(e) && !(e.primary.Some? && s.contexts[PrimarySlot(e)].Some?)
    ensures var fresh_ := Ok(codec.defaults(e));
            (&& DecodeFrame(codec, s, e, Err) == DecodeFrame(codec, s, e, fresh_)
             && PixelsOf(codec, s, e, Err) == PixelsOf(codec, s, e, fresh_))
            <==> Harmless(codec, s, e)
  {
    var fresh_ := Ok(codec.defaults(e));
    var a, b := DecodeFrame(codec, s, e, Err), DecodeFrame(codec, s, e, fresh_);
    assert EntropyOf(codec, s, e, Err).Err? && PixelsOf(codec, s, e, Err).Err?;
    if Refreshes(e) {
      var i :| 0 <= i < |e.refresh| && e.refresh[i];
      assert a.contexts[i] == Some(Err);
      assert b.contexts[i] == if e.retain then Some(ContextsOf(EntropyOf(codec, s, e, fresh_))) else Some(fresh_);
    } else {
      assert a == s == b by {
        assert forall x: seq<Option<Result<Data>>>, v | |x| == REF_FRAMES :: Refreshed(x, e.refresh, v) == x;
        assert forall x: seq<int>, v | |x| == REF_FRAMES :: Refreshed(x, e.refresh, v) == x;
      }
    }
  }

  lemma SlotContexts(st: State, g: Shadow, e: Event)
    requires ShadowSized(st, g) && ValidEvent(e) && SlotsMatch(st.ctxStore, g.ctx, g.slots.contexts)
    ensures FromSlot(st.ctxStore, e) <==> e.primary.Some? && g.slots.contexts[PrimarySlot(e)].Some?
  {
  }

  lemma PrimaryDecides(codec: Codec, s: Slots, e: Event, a: Result<Data>, b: Result<Data>)
    requires ValidSlots(s) && ValidEvent(e) && e.primary.Some? && s.contexts[PrimarySlot(e)].Some?
    ensures DecodeFrame(codec, s, e, a) == DecodeFrame(codec, s, e, b)
    ensures PixelsOf(codec, s, e, a) == PixelsOf(codec, s, e, b)
  {
  }

  /** The step follows the serial decoder unless it claims a stale entry to some effect. */
  predicate Straight(codec: Codec, st: State, s: Slots, l: Label)
    requires Enabled(codec, st, l)
  {
    l.Submit? && ValidSlots(s) ==> !Stale(st, l.e) || Harmless(codec, s, l.e)
  }

  ghost predicate SameOutcome(codec: Codec, s: Slots, e: Event, a: Result<Data>, b: Result<Data>)
    requires ValidSlots(s) && ValidEvent(e)
  {
    && DecodeFrame(codec, s, e, a) == DecodeFrame(codec, s, e, b)
    && PixelsOf(codec, s, e, a) == PixelsOf(codec, s, e, b)
  }

  lemma AppendInjective(ps: seq<Picture>, p: Picture, q: Picture)
    ensures ps + [p] == ps + [q] <==> p == q
  {
    assert (ps + [p])[|ps|] == p && (ps + [q])[|ps|] == q;
  }

  lemma SeriallyMeans(codec: Codec, g: Shadow, g': Shadow, e: Event, start: Result<Data>)
    requires ValidSlots(g.slots) && ValidEvent(e)
    requires g'.slots == DecodeFrame(codec, g.slots, e, start)
    requires g'.pictures == g.pictures + [PictureOf(codec, g.slots, Frame(e), start)]
    ensures Serially(codec, Submit(e), g, g') <==> SameOutcome(codec, g.slots, e, start, Ok(codec.defaults(e)))
  {
    AppendInjective(g.pictures, PictureOf(codec, g.slots, Frame(e), start),
      PictureOf(codec, g.slots, Frame(e), Ok(codec.defaults(e))));
  }

  lemma StartOutcome(codec: Codec, st: State, s: Slots, e: Event)
    requires Sized(st) && ValidSlots(s) && ValidEvent(e) && HasFree(st.ctxStore)
    requires FromSlot(st.ctxStore, e) <==> e.primary.Some? && s.contexts[PrimarySlot(e)].Some?
    ensures SameOutcome(codec, s, e, StartContexts(codec, st.ctxStore, st.ctx, e), Ok(codec.defaults(e)))
            <==> !Stale(st, e) || Harmless(codec, s, e)
  {
    if FromSlot(st.ctxStore, e) {
      PrimaryDecides(codec, s, e, StartContexts(codec, st.ctxStore, st.ctx, e), Ok(codec.defaults(e)));
    } else if Stale(st, e) {
      StaleOutcome(codec, s, e);
    }
  }

  lemma SubmitSerially(codec: Codec, st: State, g: Shadow, e: Event)
    requires ShadowSized(st, g) && CanSubmit(codec, st, e) && SlotsMatch(st.ctxStore, g.ctx, g.slots.contexts)
    ensures Serially(codec, Submit(e), g, ShadowSubmit(codec, st, g, e))
            <==> !Stale(st, e) || Harmless(codec, g.slots, e)
  {
    SlotContexts(st, g, e);
    StartOutcome(codec, st, g.slots, e);
    SeriallyMeans(codec, g, ShadowSubmit(codec, st, g, e), e, StartContexts(codec, st.ctxStore, st.ctx, e));
  }

  /** In every sound state, with failures or without, a step does exactly what the serial decoder does if
      and only if it does not claim a stale entry, or does so harmlessly. */
  lemma StepSerially(codec: Codec, st: State, g: Shadow, l: Label)
    requires Sound(codec, st, g) && Enabled(codec, st, l) && ValidSlots(g.slots)
    ensures Serially(codec, l, g, ShadowNext(codec, st, g, l)) <==> Straight(codec, st, g.slots, l)
  {
    SoundSlots(codec, st, g);
    if l.Submit? {
      SubmitSerially(codec, st, g, l.e);
    }
  }

  lemma SoundSlots(codec: Codec, st: State, g: Shadow)
    requires Sound(codec, st, g)
    ensures ShadowSized(st, g) && SlotsMatch(st.ctxStore, g.ctx, g.slots.contexts)
  {
    Unseal(codec, st, g);
  }

  /** The threaded decoder is the serial decoder after every step of a run. */
  ghost predicate SerialThroughout(codec: Codec, st: State, g: Shadow, ls: seq<Label>)
    requires CanRun(codec, st, ls)
    decreases |ls|
  {
    ls == [] ||
    (&& Serially(codec, ls[0], g, ShadowNext(codec, st, g, ls[0]))
     && SerialThroughout(codec, Next(codec, st, ls[0]), ShadowNext(codec, st, g, ls[0]), ls[1..]))
  }

  ghost predicate StraightThroughout(codec: Codec, st: State, g: Shadow, ls: seq<Label>)
    requires CanRun(codec, st, ls)
    decreases |ls|
  {
    ls == [] ||
    (&& Straight(codec, st, g.slots, ls[0])
     && StraightThroughout(codec, Next(codec, st, ls[0]), ShadowNext(codec, st, g, ls[0]), ls[1..]))
  }

  /** A run, with failures or without, decodes every frame as the serial decoder does if and only if no
      submission claims a stale entry to some effect. */
  lemma {:induction false} SerialIffStraight(codec: Codec, st: State, g: Shadow, ls: seq<Label>)
    requires Sound(codec, st, g) && CanRun(codec, st, ls)
    ensures SerialThroughout(codec, st, g, ls) <==> StraightThroughout(codec, st, g, ls)
    decreases |ls|
  {
    if ls != [] {
      SoundSlots(codec, st, g);
      StepSerially(codec, st, g, ls[0]);
      SoundStep(codec, st, g, ls[0]);
      SerialIffStraight(codec, Next(codec, st, ls[0]), ShadowNext(codec, st, g, ls[0]), ls[1..]);
    }
  }

  // ----- against the serial decoder over whole streams --------------------------------------

  /** Beside a run, the shadow has the slots and the pictures of the serial decoder of the submitted stream. */
  ghost predicate IsSerial(codec: Codec, st: State, g: Shadow, ls: seq<Label>) {
    && CanRun(codec, st, ls) && ValidSlots(g.slots) && ValidUnits(Units(ls))
    && ShadowRun(codec, st, g, ls).slots == SlotsAfter(codec, g.slots, Units(ls))
    && ShadowRun(codec, st, g, ls).pictures == g.pictures + PicturesFrom(codec, g.slots, Units(ls))
  }

  /** The serial decoder takes the first unit of a stream. */
  lemma {:induction false} SerialUnroll(codec: Codec, s: Slots, u: Unit, us: seq<Unit>)
    requires ValidSlots(s) && ValidUnit(u) && ValidUnits(us)
    ensures ValidUnits([u] + us)
    ensures var s' := After(codec, s, u, FreshContexts(codec, u));
            && SlotsAfter(codec, s, [u] + us) == SlotsAfter(codec, s', us)
            && PicturesFrom(codec, s, [u] + us) == [PictureOf(codec, s, u, FreshContexts(codec, u))] + PicturesFrom(codec, s', us)
  {
    assert ([u] + us)[0] == u && ([u] + us)[1..] == us;
  }

  lemma TailValid(u: Unit, us: seq<Unit>)
    requires ValidUnits([u] + us)
    ensures ValidUnit(u) && ValidUnits(us)
  {
    assert ([u] + us)[0] == u && forall i | 0 <= i < |us| :: ([u] + us)[i + 1] == us[i];
  }

  /** The serial decoder may take its first step beside the shadow. */
  lemma {:induction false} SerialCons(codec: Codec, g: Shadow, g': Shadow, ls: seq<Label>)
    requires ls != [] && Serially(codec, ls[0], g, g') && ValidUnits(Units(ls))
    ensures ValidSlots(g'.slots) && ValidUnits(Units(ls[1..]))
    ensures SlotsAfter(codec, g'.slots, Units(ls[1..])) == SlotsAfter(codec, g.slots, Units(ls))
    ensures g'.pictures + PicturesFrom(codec, g'.slots, Units(ls[1..]))
         == g.pictures + PicturesFrom(codec, g.slots, Units(ls))
  {
    UnitsStep(ls);
    if UnitOf(ls[0]).Some? {
      TailValid(UnitOf(ls[0]).value, Units(ls[1..]));
      SerialUnroll(codec, g.slots, UnitOf(ls[0]).value, Units(ls[1..]));
    } else {
      assert Units(ls) == Units(ls[1..]);
    }
  }

  lemma SerialTail(codec: Codec, st: State, g: Shadow, ls: seq<Label>)
    requires CanRun(codec, st, ls) && ls != [] && Serially(codec, ls[0], g, ShadowNext(codec, st, g, ls[0]))
    ensures IsSerial(codec, st, g, ls)
            <==> IsSerial(codec, Next(codec, st, ls[0]), ShadowNext(codec, st, g, ls[0]), ls[1..])
  {
    RunUnits(codec, st, ls);
    SerialCons(codec, g, ShadowNext(codec, st, g, ls[0]), ls);
  }

  lemma OneUnit(codec: Codec, s: Slots, l: Label)
    requires ValidSlots(s) && ValidUnits(Units([l]))
    ensures match UnitOf(l)
            case None => Units([l]) == []
            case Some(u) =>
              && Units([l]) == [u] && ValidUnit(u)
              && SlotsAfter(codec, s, [u]) == After(codec, s, u, FreshContexts(codec, u))
              && PicturesFrom(codec, s, [u]) == [PictureOf(codec, s, u, FreshContexts(codec, u))]
  {
    UnitsStep([l]);
    assert [l][1..] == [] && Units([]) == [];
    if UnitOf(l).Some? {
      var u := UnitOf(l).value;
      assert Units([l])[0] == u && [u][1..] == [];
      assert SlotsAfter(codec, After(codec, s, u, FreshContexts(codec, u)), []) == After(codec, s, u, FreshContexts(codec, u));
    }
  }

  lemma QuietStep(codec: Codec, st: State, g: Shadow, l: Label)
    requires Enabled(codec, st, l) && UnitOf(l).None?
    ensures ShadowNext(codec, st, g, l) == g
  {
  }

  /** The first step of a run beside the serial decoder. */
  lemma SerialHead(codec: Codec, st: State, g: Shadow, l: Label)
    requires Enabled(codec, st, l) && IsSerial(codec, st, g, [l])
    ensures Serially(codec, l, g, ShadowNext(codec, st, g, l))
  {
    RunOne(codec, st, g, l);
    OneUnit(codec, g.slots, l);
    if UnitOf(l).None? {
      QuietStep(codec, st, g, l);
    }
  }

  /** Step by step agreement is agreement with the serial decoder of the whole stream after every prefix. */
  lemma {:induction false} SerialPrefixes(codec: Codec, st: State, g: Shadow, ls: seq<Label>)
    requires CanRun(codec, st, ls) && ValidSlots(g.slots)
    ensures SerialThroughout(codec, st, g, ls) <==> forall k | 0 <= k <= |ls| :: IsSerial(codec, st, g, ls[..k])
    decreases |ls|
  {
    assert IsSerial(codec, st, g, []) by {
      assert g.pictures + [] == g.pictures;
    }
    if ls == [] {
      assert forall k | 0 <= k <= |ls| :: ls[..k] == [];
      return;
    }
    var st1, g1 := Next(codec, st, ls[0]), ShadowNext(codec, st, g, ls[0]);
    if Serially(codec, ls[0], g, g1) {
      SerialPrefixes(codec, st1, g1, ls[1..]);
      PrefixesShift(codec, st, g, ls);
    } else {
      assert ls[..1] == [ls[0]];
      if IsSerial(codec, st, g, ls[..1]) {
        SerialHead(codec, st, g, ls[0]);
      }
    }
  }

  lemma PrefixesShift(codec: Codec, st: State, g: Shadow, ls: seq<Label>)
    requires CanRun(codec, st, ls) && ls != [] && Serially(codec, ls[0], g, ShadowNext(codec, st, g, ls[0]))
    requires IsSerial(codec, st, g, [])
    ensures var st1, g1 := Next(codec, st, ls[0]), ShadowNext(codec, st, g, ls[0]);
            (forall k | 0 <= k <= |ls| :: IsSerial(codec, st, g, ls[..k]))
            <==> forall k | 0 <= k <= |ls[1..]| :: IsSerial(codec, st1, g1, ls[1..][..k])
  {
    var st1, g1 := Next(codec, st, ls[0]), ShadowNext(codec, st, g, ls[0]);
    forall k | 0 <= k <= |ls[1..]|
      ensures IsSerial(codec, st, g, ls[..k + 1]) <==> IsSerial(codec, st1, g1, ls[1..][..k])
    {
      assert ls == ls[..k + 1] + ls[k + 1..];
      RunSplit(codec, st, ls[..k + 1], ls[k + 1..]);
      assert ls[..k + 1][1..] == ls[1..][..k];
      SerialTail(codec, st, g, ls[..k + 1]);
    }
    if forall k | 0 <= k <= |ls[1..]| :: IsSerial(codec, st1, g1, ls[1..][..k]) {
      forall k | 0 <= k <= |ls|
        ensures IsSerial(codec, st, g, ls[..k])
      {
        if k == 0 {
          assert ls[..k] == [];
        } else {
          assert IsSerial(codec, st1, g1, ls[1..][..k - 1]);
        }
      }
    }
    if forall k | 0 <= k <= |ls| :: IsSerial(codec, st, g, ls[..k]) {
      forall k | 0 <= k <= |ls[1..]|
        ensures IsSerial(codec, st1, g1, ls[1..][..k])
      {
        assert IsSerial(codec, st, g, ls[..k + 1]);
      }
    }
  }

  /** A run, with failures or without, has the slots and the pictures of the serial decoder of its stream after every
      prefix if and only if no submission claims a stale entry to some effect. */
  lemma SerialPrefixesIffStraight(codec: Codec, st: State, g: Shadow, ls: seq<Label>)
    requires Sound(codec, st, g) && CanRun(codec, st, ls)
    ensures (forall k | 0 <= k <= |ls| :: IsSerial(codec, st, g, ls[..k])) <==> StraightThroughout(codec, st, g, ls)
  {
    SoundSlots(codec, st, g);
    SerialPrefixes(codec, st, g, ls);
    SerialIffStraight(codec, st, g, ls);
  }

  // ----- what the calls of such a run return ------------------------------------------------

  /** What a call has to show at state st, given the serial decoder's pictures: those of the submissions that left
      since its start, each once and in order, the earliest of their failures, and their very bytes. */
  ghost predicate AnswersSerially(start: State, st: State, ps: seq<Picture>) {
    && Adds(start, st, ps) && start.ready == [] && start.err == None
    && forall i | 0 <= i < |st.ready| ::
         && st.ready[i].id < |ps| && st.ready[i].surface < |st.pix.data|
         && (Succeeds(ps[st.ready[i].id]) ==> ps[st.ready[i].id].pixels == Some(Ok(st.pix.data[st.ready[i].surface])))
  }

  lemma CallAnswers(codec: Codec, st: State, g: Shadow, ls: seq<Label>)
    requires Sound(codec, st, g) && st.inCall && st.ready == [] && st.err == None && CanRun(codec, st, ls)
    requires forall i | 0 <= i < |ls| :: !ls[i].BeginCall?
    ensures AnswersSerially(st, Run(codec, st, ls), ShadowRun(codec, st, g, ls).pictures)
  {
    SoundCount(codec, st, g);
    CallOutput(codec, st, g, ls);
    RunKeeps(codec, st, g, ls);
    var st', g' := Run(codec, st, ls), ShadowRun(codec, st, g, ls);
    Unseal(codec, st', g');
    forall i | 0 <= i < |st'.ready|
      ensures st'.ready[i].id < |g'.pictures| && st'.ready[i].surface < |st'.pix.data|
      ensures Succeeds(g'.pictures[st'.ready[i].id]) ==>
                g'.pictures[st'.ready[i].id].pixels == Some(Ok(st'.pix.data[st'.ready[i].surface]))
    {
      ReadyPixels(codec, st', g', i);
    }
  }

  lemma StraightIsSerial(codec: Codec, n: nat, ls: seq<Label>)
    requires n <= MAX_CONTEXTS && CanRun(codec, Init(n), ls)
    requires StraightThroughout(codec, Init(n), ShadowInit(n), ls)
    ensures ValidUnits(Units(ls)) && ShadowRun(codec, Init(n), ShadowInit(n), ls).pictures == SerialPictures(codec, Units(ls))
  {
    InitSound(codec, n);
    SerialPrefixesIffStraight(codec, Init(n), ShadowInit(n), ls);
    assert ls[..|ls|] == ls;
    assert IsSerial(codec, Init(n), ShadowInit(n), ls[..|ls|]);
    assert [] + SerialPictures(codec, Units(ls)) == SerialPictures(codec, Units(ls));
  }

  /** Each call of a stream with failures: as long as no submission claims a stale entry to some effect, the call
      returns what the serial decoder makes of its submissions. */
  lemma StraightCall(codec: Codec, n: nat, before: seq<Label>, call: seq<Label>)
    requires n <= MAX_CONTEXTS && CanRun(codec, Init(n), before + call)
    requires call != [] && call[0].BeginCall? && forall i | 0 < i < |call| :: !call[i].BeginCall?
    requires StraightThroughout(codec, Init(n), ShadowInit(n), before + call)
    ensures CanRun(codec, Init(n), before) && ValidUnits(Units(before + call))
    ensures Enabled(codec, Run(codec, Init(n), before), BeginCall)
    ensures AnswersSerially(Begun(Run(codec, Init(n), before)), Run(codec, Init(n), before + call),
                            SerialPictures(codec, Units(before + call)))
  {
    var st0, g0, ls := Init(n), ShadowInit(n), before + call;
    InitSound(codec, n);
    StraightIsSerial(codec, n, ls);
    RunSplit(codec, st0, before, call);
    RunConcat(codec, st0, g0, before, call);
    RunKeeps(codec, st0, g0, before);
    var st, g := Run(codec, st0, before), ShadowRun(codec, st0, g0, before);
    SoundStep(codec, st, g, BeginCall);
    CallAnswers(codec, Begun(st), ShadowNext(codec, st, g, BeginCall), call[1..]);
  }
}
