/**
 A stream of four key frames of which only the first is broken. Serial decoding fails on the first frame
 alone; two frame contexts also fail the fourth.
 */
module StaleExample {
  import opened Values
  import opened Handles
  import opened Progress
  import opened Surfaces
  import opened SerialDecode
  import opened Lanes
  import opened FrameThread
  import opened Ownership
  import opened Refinement
  import opened SubmitStep
  import opened FrameSteps
  import opened FrameThreadTheorems
  import opened FrameThreadOutput
  import opened StaleContexts

  /** A codec that fails on the payload 0 and otherwise shows the payload. */
  const CODEC: Codec := Codec(
    (e: Event) => [],
    (e: Event, c: Data, p: Option<Data>, gs: seq<Option<Result<Data>>>) =>
      if e.payload == [0] then Err else Ok(Symbols([], [], [], [])),
    (e: Event, s: Symbols, refs: seq<Option<Result<Data>>>) => Ok(e.payload))

  /** A shown key frame; keep says whether slot 0 saves it. */
  function Key(id: int, keep: bool): (e: Event)
    ensures ValidEvent(e)
  {
    Event([id], false, seq(INTER_REFS, i => 0), None, seq(REF_FRAMES, i => keep && i == 0), true, true, NoGrid, NoSegments)
  }

  predicate IsKey(e: Event) {
    ValidEvent(e) && !e.inter && e.primary.None? && e.retain && forall i | 1 <= i < REF_FRAMES :: !e.refresh[i]
  }

  /** Only slot 0 has saved contexts, in entry x. */
  function SlotZero(x: int): seq<int> {
    seq(REF_FRAMES, i => if i == 0 then x else NONE)
  }

  /** The oldest free entry is the lowest one that neither slot 0 nor a frame holds. */
  lemma LowestFree(s: Store, holds: seq<int>, h: nat)
    requires Balanced(s, holds) && h < |s.refs| && h !in s.slot && h !in holds
    requires forall k | 0 <= k < h :: k in s.slot || k in holds
    ensures FirstFree(s.refs, 0) == h
  {
    var holders := multiset(s.slot) + multiset(holds);
    assert h !in multiset(s.slot) && h !in multiset(holds);
    assert s.refs[h] == holders[h] == 0;
    forall k | 0 <= k < h
      ensures s.refs[k] != 0
    {
      assert k in s.slot || k in holds;
      assert holders[k] > 0;
    }
  }

  /** The run so far, the context entries of the frames in flight, and what the story needs of the rest. */
  ghost predicate At(ls: seq<Label>, st: State, g: Shadow, x: int, entries: seq<(int, int)>) {
    && Reaches(ls, st, g)
    && Facts(st, x, entries)
  }

  ghost predicate Reaches(ls: seq<Label>, st: State, g: Shadow) {
    && CanRun(CODEC, Init(2), ls) && Run(CODEC, Init(2), ls) == st
    && ShadowRun(CODEC, Init(2), ShadowInit(2), ls) == g
    && Sound(CODEC, st, g)
  }

  ghost predicate Facts(st: State, x: int, entries: seq<(int, int)>) {
    && st.n == 2 && st.inCall && st.shown == []
    && st.ctxStore.slot == SlotZero(x)
    && |st.flight| == |entries|
    && (forall j | 0 <= j < |entries| ::
          st.flight[j].ctx.holds == [entries[j].0, entries[j].1] && st.flight[j].ctx.makes == entries[j].1 >= 0
          && st.flight[j].job.Some?)
    && |st.pool.free| + st.count >= 13
  }

  lemma StepTo(ls: seq<Label>, st: State, g: Shadow, l: Label)
    requires Reaches(ls, st, g) && Enabled(CODEC, st, l)
    ensures Reaches(ls + [l], Next(CODEC, st, l), ShadowNext(CODEC, st, g, l))
  {
    RunOne(CODEC, st, g, l);
    RunConcat(CODEC, Init(2), ShadowInit(2), ls, [l]);
    SoundStep(CODEC, st, g, l);
  }

  function HeldBy(entries: seq<(int, int)>): seq<int> {
    if entries == [] then [] else [entries[0].0, entries[0].1] + HeldBy(entries[1..])
  }

  lemma {:induction false} FlatIs(fs: seq<Flight>, entries: seq<(int, int)>)
    requires |fs| == |entries| && forall j | 0 <= j < |fs| :: fs[j].ctx.holds == [entries[j].0, entries[j].1]
    ensures Flat(CtxOf(fs)) == HeldBy(entries)
  {
    if fs != [] {
      FlatIs(fs[1..], entries[1..]);
      assert CtxOf(fs)[1..] == CtxOf(fs[1..]);
    }
  }

  lemma KeyReady(st: State, g: Shadow, e: Event)
    requires Sound(CODEC, st, g) && ValidEvent(e) && !e.inter && |st.flight| < st.n && st.pool.free != []
    ensures CanSubmit(CODEC, st, e)
    ensures Balanced(st.ctxStore, Flat(CtxOf(st.flight))) && |st.ctxStore.refs| == CONTEXT_ENTRIES
  {
    Unseal(CODEC, st, g);
    HandlesSuffice(CODEC, st, g, e);
  }

  /** What a submission leaves for the story. */
  ghost predicate AfterKey(st: State, st': State, e: Event, a: nat, b: nat) {
    && st'.n == st.n && st'.inCall == st.inCall && st'.shown == st.shown && st'.count == st.count + 1
    && |st'.pool.free| == |st.pool.free| - 1
    && b < |st.ctx.cell| && st'.ctx.cell == st.ctx.cell[b := Pending]
    && |st.ctxStore.slot| == |st'.ctxStore.slot| == |e.refresh| == REF_FRAMES
    && (forall i | 0 <= i < REF_FRAMES :: st'.ctxStore.slot[i] == if e.refresh[i] then b else st.ctxStore.slot[i])
    && |st'.flight| == |st.flight| + 1 && st'.flight[..|st.flight|] == st.flight
    && st'.flight[|st.flight|].ctx == Bind([a], b, [a, b], false)
    && st'.flight[|st.flight|].job == Some(e) && st'.flight[|st.flight|].phase == Submitted
  }

  lemma SubmittedKey(st: State, e: Event, a: nat, b: nat)
    requires CanSubmit(CODEC, st, e) && b < |st.ctx.cell|
    requires BindContexts(CODEC, st.ctxStore, st.ctx, e).2 == Bind([a], b, [a, b], false)
    requires BindContexts(CODEC, st.ctxStore, st.ctx, e).1.cell == st.ctx.cell[b := Pending]
    requires BindContexts(CODEC, st.ctxStore, st.ctx, e).0.slot
          == seq(REF_FRAMES, i requires 0 <= i < REF_FRAMES => if e.refresh[i] then b else st.ctxStore.slot[i])
    ensures AfterKey(st, SubmittedState(CODEC, st, e), e, a, b)
  {
  }

  /** A key frame takes the two lowest free entries. */
  lemma SubmitKey(ls: seq<Label>, st: State, g: Shadow, x: int, entries: seq<(int, int)>, e: Event, a: nat, b: nat)
    returns (st': State, g': Shadow)
    requires At(ls, st, g, x, entries) && |entries| < 2 && st.count < 13 && IsKey(e)
    requires a < b < CONTEXT_ENTRIES && a != x && b != x && a !in HeldBy(entries) && b !in HeldBy(entries)
    requires forall k | 0 <= k < b && k != a :: k == x || k in HeldBy(entries)
    ensures Enabled(CODEC, st, Submit(e)) && FirstFree(st.ctxStore.refs, 0) == a
    ensures At(ls + [Submit(e)], st', g', if e.refresh[0] then b else x, entries + [(a, b)])
    ensures AfterKey(st, st', e, a, b)
  {
    KeyReady(st, g, e);
    StepTo(ls, st, g, Submit(e));
    st', g' := SubmittedState(CODEC, st, e), ShadowNext(CODEC, st, g, Submit(e));
    FlatIs(st.flight, entries);
    KeyEntries(st.ctxStore, st.ctx, HeldBy(entries), x, e, a, b);
    SubmittedKey(st, e, a, b);
    KeyFacts(st, st', x, entries, e, a, b);
  }

  lemma KeyFacts(st: State, st': State, x: int, entries: seq<(int, int)>, e: Event, a: nat, b: nat)
    requires Facts(st, x, entries) && AfterKey(st, st', e, a, b) && IsKey(e)
    ensures Facts(st', if e.refresh[0] then b else x, entries + [(a, b)])
  {
    var slot', y := st'.ctxStore.slot, if e.refresh[0] then b else x;
    assert forall i | 0 <= i < REF_FRAMES :: slot'[i] == SlotZero(y)[i];
    assert forall j | 0 <= j < |entries| :: st'.flight[j] == st'.flight[..|st.flight|][j] == st.flight[j];
  }

  lemma KeyEntries(s: Store, c: Bank, holds: seq<int>, x: int, e: Event, a: nat, b: nat)
    requires Balanced(s, holds) && s.slot == SlotZero(x) && CanBindContexts(CODEC, s, c, e)
    requires e.primary == None && e.retain
    requires a < b < |s.refs| && a != x && b != x && a !in holds && b !in holds
    requires forall k | 0 <= k < b && k != a :: k == x || k in holds
    ensures FirstFree(s.refs, 0) == a
    ensures BindContexts(CODEC, s, c, e).2 == Bind([a], b, [a, b], false)
    ensures BindContexts(CODEC, s, c, e).1.cell == c.cell[b := Pending]
    ensures BindContexts(CODEC, s, c, e).0.slot == seq(REF_FRAMES, i requires 0 <= i < REF_FRAMES => if e.refresh[i] then b else s.slot[i])
  {
    assert s.slot[0] == x;
    LowestFree(s, holds, a);
    AcquireBalanced(s, holds, 0);
    var s1 := Acquire(s, 0).0;
    assert a in holds + [a] by { assert (holds + [a])[|holds|] == a; }
    LowestFree(s1, holds + [a], b);
  }

  lemma OldestParses(st: State, g: Shadow)
    requires Sound(CODEC, st, g) && st.flight != []
    ensures st.flight[0].phase == Submitted ==> CanParse(st, 0)
    ensures st.flight[0].phase.Parsed? ==> CanFinish(st, 0)
    ensures st.flight[0].phase.Finished? ==> CanRetire(st)
    ensures OwnedState(st)
  {
    Unseal(CODEC, st, g);
    if !st.flight[0].phase.Finished? {
      OldestCanStep(CODEC, st, g, 0);
    }
  }

  lemma ParseKey(st: State)
    requires CanParse(st, 0) && 0 <= st.flight[0].ctx.makes
    ensures var c, h := ParsedState(CODEC, st, 0).ctx.cell, st.flight[0].ctx.makes;
            && |c| == |st.ctx.cell|
            && (forall k | 0 <= k < |c| && k != h :: c[k] == st.ctx.cell[k])
            && (st.flight[0].job.value.payload == [0] ==> c[h] == Failed)
  {
    assert st.flight[0].job.value.payload == [0] ==> ParseOf(CODEC, st, 0) == Err;
  }

  /** The oldest frame runs its entropy pass, reconstructs and retires. */
  lemma RetireKey(ls: seq<Label>, st: State, g: Shadow, x: int, entries: seq<(int, int)>) returns (st': State)
    requires At(ls, st, g, x, entries) && entries != [] && st.flight[0].phase == Submitted
    ensures At(ls + [Parse(0)] + [Finish(0)] + [Retire], st', g, x, entries[1..])
    ensures st'.flight == st.flight[1..] && st'.count == st.count
    ensures 0 <= entries[0].1 < |st.ctx.cell| == |st'.ctx.cell|
    ensures forall h | 0 <= h < |st.ctx.cell| && h != entries[0].1 :: st'.ctx.cell[h] == st.ctx.cell[h]
    ensures st.flight[0].job.value.payload == [0] ==> st'.ctx.cell[entries[0].1] == Failed
  {
    OldestParses(st, g);
    ParseKey(st);
    StepTo(ls, st, g, Parse(0));
    var st1 := ParsedState(CODEC, st, 0);
    OldestParses(st1, g);
    StepTo(ls + [Parse(0)], st1, g, Finish(0));
    var st2 := FinishedState(CODEC, st1, 0);
    OldestParses(st2, g);
    StepTo(ls + [Parse(0)] + [Finish(0)], st2, g, Retire);
    st' := RetiredState(st2);
    RetireFree(st2);
    RetireFacts(st, st1, st2, x, entries);
  }

  lemma RetireFacts(st: State, st1: State, st2: State, x: int, entries: seq<(int, int)>)
    requires Facts(st, x, entries) && entries != []
    requires CanParse(st, 0) && st1 == ParsedState(CODEC, st, 0)
    requires CanFinish(st1, 0) && st2 == FinishedState(CODEC, st1, 0)
    requires CanRetire(st2) && |RetiredState(st2).pool.free| >= |st2.pool.free|
    ensures Facts(RetiredState(st2), x, entries[1..])
    ensures RetiredState(st2).flight == st.flight[1..] && RetiredState(st2).count == st.count
    ensures RetiredState(st2).ctx == st1.ctx
  {
    assert st2.flight[1..] == st.flight[1..];
    assert forall j | 0 <= j < |entries[1..]| :: entries[1..][j] == entries[j + 1] && st.flight[1..][j] == st.flight[j + 1];
  }

  /** Retiring never shrinks the free stack. */
  lemma RetireFree(st: State)
    requires CanRetire(st) && OwnedState(st) && st.shown == []
    ensures |RetiredState(st).pool.free| >= |st.pool.free|
  {
    RetireOwnedState(st);
    FreeFits(st.pool);
    FreeFits(RetiredState(st).pool);
    SubsetSize(Used(RetiredState(st).pool), Used(st.pool));
  }

  lemma StoryStart() returns (ls: seq<Label>, st: State, g: Shadow)
    ensures ls == [BeginCall] && At(ls, st, g, NONE, []) && st.count == 0
    ensures |st.ctx.cell| == CONTEXT_ENTRIES
  {
    InitSound(CODEC, 2);
    var st0 := Init(2);
    assert Reaches([], st0, ShadowInit(2));
    StepTo([], st0, ShadowInit(2), BeginCall);
    assert [] + [BeginCall] == [BeginCall];
    ls, st, g := [BeginCall], Begun(st0), ShadowInit(2);
  }

  /** The first frame fails; the second is in flight beside it. */
  lemma StoryMiddle() returns (ls: seq<Label>, st: State, g: Shadow)
    ensures ls == [BeginCall, Submit(Key(0, true)), Submit(Key(1, false)), Parse(0), Finish(0), Retire]
    ensures At(ls, st, g, 1, [(2, 3)]) && st.count == 2
    ensures |st.ctx.cell| == CONTEXT_ENTRIES && st.ctx.cell[1] == Failed && st.flight[0].phase == Submitted
  {
    var l1, st1, g1 := StoryStart();
    var st2, g2 := SubmitKey(l1, st1, g1, NONE, [], Key(0, true), 0, 1);
    var l2 := l1 + [Submit(Key(0, true))];
    assert [] + [(0, 1)] == [(0, 1)];
    assert HeldBy([(0, 1)]) == [0, 1];
    var st3, g3 := SubmitKey(l2, st2, g2, 1, [(0, 1)], Key(1, false), 2, 3);
    var l3 := l2 + [Submit(Key(1, false))];
    var e3 := [(0, 1)] + [(2, 3)];
    assert st3.flight[0] == st3.flight[..1][0] == st2.flight[0];
    var st4 := RetireKey(l3, st3, g3, 1, e3);
    assert e3[1..] == [(2, 3)];
    ls, st, g := l3 + [Parse(0)] + [Finish(0)] + [Retire], st4, g3;
  }

  /** Three of the four frames are submitted, as a ring of two contexts does it. */
  lemma StoryEnd() returns (ls: seq<Label>, st: State, g: Shadow)
    ensures ls == [BeginCall, Submit(Key(0, true)), Submit(Key(1, false)), Parse(0), Finish(0), Retire,
                   Submit(Key(2, true)), Parse(0), Finish(0), Retire]
    ensures At(ls, st, g, 4, [(0, 4)]) && st.count == 3
    ensures |st.ctx.cell| == CONTEXT_ENTRIES && st.ctx.cell[1] == Failed
  {
    var l4, st4, g4 := StoryMiddle();
    assert HeldBy([(2, 3)]) == [2, 3];
    var st5, g5 := SubmitKey(l4, st4, g4, 1, [(2, 3)], Key(2, true), 0, 4);
    var l5 := l4 + [Submit(Key(2, true))];
    var e5 := [(2, 3)] + [(0, 4)];
    assert st5.flight[0] == st5.flight[..1][0] == st4.flight[0];
    st := RetireKey(l5, st5, g5, 4, e5);
    assert e5[1..] == [(0, 4)];
    ls, g := l5 + [Parse(0)] + [Finish(0)] + [Retire], g5;
  }

  lemma FourthIsStale(ls: seq<Label>, st: State, g: Shadow)
    requires At(ls, st, g, 4, [(0, 4)]) && st.count == 3 && |st.ctx.cell| == CONTEXT_ENTRIES && st.ctx.cell[1] == Failed
    ensures Enabled(CODEC, st, Submit(Key(3, false))) && Stale(st, Key(3, false))
  {
    assert HeldBy([(0, 4)]) == [0, 4];
    var _, _ := SubmitKey(ls, st, g, 4, [(0, 4)], Key(3, false), 1, 2);
  }

  /** The run of the module comment: the submission of the fourth frame does not follow the serial decoder,
      which decodes that frame. */
  lemma FourthFrameFails() returns (ls: seq<Label>, st: State, g: Shadow, e: Event)
    ensures CanRun(CODEC, Init(2), ls) && Run(CODEC, Init(2), ls) == st
    ensures ShadowRun(CODEC, Init(2), ShadowInit(2), ls) == g && ValidSlots(g.slots)
    ensures Enabled(CODEC, st, Submit(e)) && !Serially(CODEC, Submit(e), g, ShadowNext(CODEC, st, g, Submit(e)))
    ensures Succeeds(PictureOf(CODEC, g.slots, Frame(e), FreshContexts(CODEC, Frame(e))))
  {
    ls, st, g := StoryEnd();
    e := Key(3, false);
    FourthIsStale(ls, st, g);
    SoundSlots(CODEC, st, g);
    StepSerially(CODEC, st, g, Submit(e));
    FourthDecodes(g.slots);
  }

  lemma FourthDecodes(s: Slots)
    requires ValidSlots(s)
    ensures PixelsOf(CODEC, s, Key(3, false), Ok(CODEC.defaults(Key(3, false)))) == Ok([3])
    ensures !Harmless(CODEC, s, Key(3, false))
  {
    var e := Key(3, false);
    assert EntropyOf(CODEC, s, e, Ok(CODEC.defaults(e))) == CODEC.entropy(e, CODEC.defaults(e), None, []);
  }
}
