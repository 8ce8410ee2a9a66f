/**
 A run that uses up the pool: hidden frames fill the reference slots, and then one call shows more frames than
 there are surfaces left.
 */
module DryExample {
  import opened Values
  import opened Handles
  import opened Progress
  import opened Surfaces
  import opened SerialDecode
  import opened Lanes
  import opened FrameThread
  import opened Ownership
  import opened Refinement
  import opened FrameSteps
  import opened FrameThreadTheorems
  import opened FrameThreadOutput
  import opened FrameThreadPool
  import opened FrameCalls

  /** A codec that decodes everything. */
  const CODEC: Codec := Codec(
    (e: Event) => [],
    (e: Event, c: Data, p: Option<Data>, gs: seq<Option<Result<Data>>>) => Ok(Symbols([], [], [], [])),
    (e: Event, s: Symbols, refs: seq<Option<Result<Data>>>) => Ok([]))

  /** A key frame: a hidden one that a slot saves, or a shown one that no slot saves. */
  function Key(slot: Option<nat>): (e: Event)
    ensures ValidEvent(e)
  {
    Event([], false, seq(INTER_REFS, i => 0), None, seq(REF_FRAMES, i => slot == Some(i)), slot.None?, true, NoGrid, NoSegments)
  }

  lemma KeyDecodes(s: Slots, slot: Option<nat>)
    requires ValidSlots(s)
    ensures Succeeds(PictureOf(CODEC, s, Frame(Key(slot)), FreshContexts(CODEC, Frame(Key(slot)))))
  {
    var e := Key(slot);
    assert EntropyOf(CODEC, s, e, Ok(CODEC.defaults(e))) == CODEC.entropy(e, CODEC.defaults(e), None, []);
  }

  // ----- steps ------------------------------------------------------------------------------

  /** The run so far: well behaved, and nothing has failed. */
  ghost predicate Reaches(n: nat, ls: seq<Label>, st: State, g: Shadow) {
    && At(CODEC, n, ls, st, g)
    && CanRun(CODEC, Init(n), ls) && ModestRun(CODEC, Init(n), ls)
    && AllOk(g) && AllSucceed(g.pictures) && ValidSlots(g.slots)
  }

  lemma {:induction false} ModestConcat(codec: Codec, st: State, a: seq<Label>, b: seq<Label>)
    requires CanRun(codec, st, a) && CanRun(codec, Run(codec, st, a), b) && CanRun(codec, st, a + b)
    requires ModestRun(codec, st, a) && ModestRun(codec, Run(codec, st, a), b)
    ensures ModestRun(codec, st, a + b)
    decreases |a|
  {
    if a == [] {
      assert a + b == b;
    } else {
      assert (a + b)[0] == a[0] && (a + b)[1..] == a[1..] + b;
      ModestConcat(codec, Next(codec, st, a[0]), a[1..], b);
    }
  }

  lemma ModestOne(codec: Codec, st: State, l: Label)
    requires Enabled(codec, st, l) && Modest(st, l)
    ensures CanRun(codec, st, [l]) && ModestRun(codec, st, [l])
  {
    assert [l][1..] == [];
    assert CanRun(codec, Next(codec, st, l), []) && ModestRun(codec, Next(codec, st, l), []);
  }

  ghost predicate KeyOnly(l: Label) {
    !l.ShowExisting? && (l.Submit? ==> exists slot :: l.e == Key(slot))
  }

  lemma StaysClean(g: Shadow, g': Shadow, l: Label)
    requires Serially(CODEC, l, g, g') && AllSucceed(g.pictures)
    requires UnitOf(l).Some? ==> Succeeds(PictureOf(CODEC, g.slots, UnitOf(l).value, FreshContexts(CODEC, UnitOf(l).value)))
    ensures AllSucceed(g'.pictures) && ValidSlots(g'.slots)
  {
  }

  lemma KeyUnit(s: Slots, l: Label)
    requires ValidSlots(s) && KeyOnly(l) && UnitOf(l).Some?
    ensures ValidUnit(UnitOf(l).value)
    ensures Succeeds(PictureOf(CODEC, s, UnitOf(l).value, FreshContexts(CODEC, UnitOf(l).value)))
  {
    var slot :| l.e == Key(slot);
    KeyDecodes(s, slot);
  }

  lemma CleanKey(st: State, g: Shadow, l: Label)
    requires Sound(CODEC, st, g) && Enabled(CODEC, st, l) && KeyOnly(l)
    requires AllOk(g) && AllSucceed(g.pictures) && ValidSlots(g.slots)
    ensures var g' := ShadowNext(CODEC, st, g, l);
            AllOk(g') && AllSucceed(g'.pictures) && ValidSlots(g'.slots)
  {
    Unseal(CODEC, st, g);
    if UnitOf(l).Some? {
      KeyUnit(g.slots, l);
    }
    CleanStep(CODEC, st, g, l);
    StaysClean(g, ShadowNext(CODEC, st, g, l), l);
  }

  lemma StepTo(n: nat, ls: seq<Label>, st: State, g: Shadow, l: Label)
    requires Reaches(n, ls, st, g) && Enabled(CODEC, st, l) && Modest(st, l) && KeyOnly(l)
    ensures Reaches(n, ls + [l], Next(CODEC, st, l), ShadowNext(CODEC, st, g, l))
  {
    AtCame(CODEC, n, ls, st, g);
    AtStep(CODEC, n, ls, st, g, l);
    AtCame(CODEC, n, ls + [l], Next(CODEC, st, l), ShadowNext(CODEC, st, g, l));
    ModestOne(CODEC, st, l);
    ModestConcat(CODEC, Init(n), ls, [l]);
    CleanKey(st, g, l);
  }

  lemma KeyReady(n: nat, ls: seq<Label>, st: State, g: Shadow, slot: Option<nat>)
    requires Reaches(n, ls, st, g) && st.flight == [] && n > 0 && st.pool.free != []
    ensures CanSubmit(CODEC, st, Key(slot))
  {
    AtCame(CODEC, n, ls, st, g);
    Unseal(CODEC, st, g);
    HandlesSuffice(CODEC, st, g, Key(slot));
  }

  /** The oldest frame can go on, and does not fail. */
  lemma OldestGoesOn(n: nat, ls: seq<Label>, st: State, g: Shadow)
    requires Reaches(n, ls, st, g) && st.flight != [] && st.flight[0].job.Some?
    ensures st.flight[0].phase == Submitted ==> CanParse(st, 0)
    ensures st.flight[0].phase.Parsed? ==> CanFinish(st, 0)
    ensures st.flight[0].phase.Finished? ==> CanRetire(st) && st.flight[0].phase.ok
  {
    AtCame(CODEC, n, ls, st, g);
    Unseal(CODEC, st, g);
    assert FrameOk(CODEC, st.flight[0], g);
    if !st.flight[0].phase.Finished? {
      OldestCanStep(CODEC, st, g, 0);
    }
  }

  // ----- one frame --------------------------------------------------------------------------

  /** Between frames: so many surfaces are free. */
  predicate Idle(st: State, free: nat) {
    && st.flight == [] && st.shown == [] && st.err == None && |st.pool.free| == free
    && |st.slots| == REF_FRAMES
  }

  /** A refresh of empty slots drops nothing. */
  lemma {:induction false} EmptyOverwritten(slots: seq<int>, refresh: seq<bool>, surface: int, i: nat)
    requires i <= |slots| == |refresh| && forall k | 0 <= k < |slots| && refresh[k] :: slots[k] == NONE
    ensures Overwritten(slots, refresh, surface, i) == []
  {
    if i > 0 {
      EmptyOverwritten(slots, refresh, surface, i - 1);
    }
  }

  /** What the submission of a frame that drops nothing leaves. */
  ghost predicate Added(st: State, st': State, e: Event) {
    && |st'.flight| == 1 && st'.flight[0].job == Some(e) && st'.flight[0].releases == []
    && st'.flight[0].phase == Submitted
    && |st'.pool.free| == |st.pool.free| - 1 && st'.ready == st.ready && st'.shown == st.shown && st'.err == st.err
    && st'.submissions == st.submissions + 1 && st'.inCall == st.inCall
    && |e.refresh| == |st.slots| == |st'.slots| == REF_FRAMES
    && forall i | 0 <= i < REF_FRAMES && !e.refresh[i] :: st'.slots[i] == st.slots[i]
  }

  lemma SubmitAdds(st: State, e: Event)
    requires CanSubmit(CODEC, st, e) && st.flight == [] && |st.slots| == REF_FRAMES
    requires Dropped(st.slots, e.refresh, Acquired(st.pool).1) == []
    ensures Added(st, SubmittedState(CODEC, st, e), e)
  {
  }

  /** What the submission of a key frame leaves. */
  ghost predicate KeyAdded(st: State, st': State, slot: Option<nat>) {
    && |st'.flight| == 1 && st'.flight[0].job.Some? && (Shows(st'.flight[0]) <==> slot.None?)
    && st'.flight[0].releases == [] && st'.flight[0].phase == Submitted
    && |st'.pool.free| == |st.pool.free| - 1 && st'.ready == st.ready && st'.shown == st.shown && st'.err == st.err
    && st'.submissions == st.submissions + 1 && st'.inCall == st.inCall
    && |st.slots| == |st'.slots| == REF_FRAMES
    && forall i | 0 <= i < REF_FRAMES && slot != Some(i) :: st'.slots[i] == st.slots[i]
  }

  lemma AddedKey(st: State, st': State, slot: Option<nat>)
    requires Added(st, st', Key(slot))
    ensures KeyAdded(st, st', slot)
  {
  }

  lemma SubmitKey(st: State, slot: Option<nat>)
    requires CanSubmit(CODEC, st, Key(slot)) && st.flight == [] && |st.slots| == REF_FRAMES
    requires slot.Some? && slot.value < REF_FRAMES ==> st.slots[slot.value] == NONE
    ensures KeyAdded(st, SubmittedState(CODEC, st, Key(slot)), slot)
  {
    EmptyOverwritten(st.slots, Key(slot).refresh, Acquired(st.pool).1, REF_FRAMES);
    SubmitAdds(st, Key(slot));
    AddedKey(st, SubmittedState(CODEC, st, Key(slot)), slot);
  }

  /** What the two passes keep. */
  predicate SameFrame(st: State, st': State) {
    && |st.flight| == |st'.flight| == 1 && st'.flight[0].job == st.flight[0].job && st'.flight[0].releases == st.flight[0].releases
    && st'.pool == st.pool && st'.ready == st.ready && st'.shown == st.shown && st'.err == st.err
    && st'.submissions == st.submissions && st'.inCall == st.inCall && st'.slots == st.slots
  }

  lemma PassesKeep(st: State)
    requires |st.flight| == 1
    ensures CanParse(st, 0) ==> SameFrame(st, ParsedState(CODEC, st, 0)) && ParsedState(CODEC, st, 0).flight[0].phase.Parsed?
    ensures CanFinish(st, 0) ==> SameFrame(st, FinishedState(CODEC, st, 0)) && FinishedState(CODEC, st, 0).flight[0].phase.Finished?
  {
  }

  lemma RetireAlone(st: State)
    requires CanRetire(st) && |st.flight| == 1 && st.flight[0].releases == [] && st.flight[0].phase.ok
    ensures var st' := RetiredState(st);
            && st'.flight == [] && st'.pool == st.pool && st'.shown == st.shown && st'.err == st.err
            && st'.submissions == st.submissions && st'.inCall == st.inCall && st'.slots == st.slots
            && |st'.ready| == |st.ready| + if Shows(st.flight[0]) then 1 else 0
  {
  }

  lemma KeySubmitted(n: nat, ls: seq<Label>, st: State, g: Shadow, slot: Option<nat>)
    returns (ls': seq<Label>, st': State, g': Shadow)
    requires Reaches(n, ls, st, g) && 0 < n && st.inCall && st.flight == [] && st.pool.free != [] && |st.slots| == REF_FRAMES
    requires slot.Some? ==> slot.value < REF_FRAMES && st.slots[slot.value] == NONE
    ensures Reaches(n, ls', st', g') && KeyAdded(st, st', slot)
  {
    var e := Key(slot);
    KeyReady(n, ls, st, g, slot);
    SubmitKey(st, slot);
    KeyModest(st, slot);
    StepTo(n, ls, st, g, Submit(e));
    ls', st', g' := ls + [Submit(e)], SubmittedState(CODEC, st, e), ShadowNext(CODEC, st, g, Submit(e));
  }

  /** A key frame goes through on its own. It takes a surface for good, for a slot or for the call to return. */
  lemma OneFrame(n: nat, ls: seq<Label>, st: State, g: Shadow, slot: Option<nat>, free: nat)
    returns (ls': seq<Label>, st': State, g': Shadow)
    requires Reaches(n, ls, st, g) && 0 < n && st.inCall && Idle(st, free + 1)
    requires slot.Some? ==> slot.value < REF_FRAMES && st.slots[slot.value] == NONE
    ensures Reaches(n, ls', st', g') && st'.inCall && Idle(st', free)
    ensures st'.submissions == st.submissions + 1 && |st'.ready| == |st.ready| + if slot.None? then 1 else 0
    ensures forall i | 0 <= i < REF_FRAMES && slot != Some(i) :: st'.slots[i] == st.slots[i]
  {
    var ls1, st1, g1 := KeySubmitted(n, ls, st, g, slot);
    st', g', ls' := LoneFrame(n, ls1, st1, g1);
  }

  lemma KeyModest(st: State, slot: Option<nat>)
    requires slot.Some? ==> slot.value < REF_FRAMES
    ensures Modest(st, Submit(Key(slot))) && KeyOnly(Submit(Key(slot)))
  {
    assert slot.Some? ==> Key(slot).refresh[slot.value];
  }

  lemma LoneFrame(n: nat, ls: seq<Label>, st: State, g: Shadow) returns (st': State, g': Shadow, ls': seq<Label>)
    requires Reaches(n, ls, st, g) && st.inCall && |st.flight| == 1
    requires st.flight[0].job.Some? && st.flight[0].releases == [] && st.flight[0].phase == Submitted
    ensures Reaches(n, ls', st', g') && st'.flight == [] && st'.pool == st.pool && st'.shown == st.shown && st'.err == st.err
    ensures st'.submissions == st.submissions && st'.inCall && st'.slots == st.slots
    ensures |st'.ready| == |st.ready| + if Shows(st.flight[0]) then 1 else 0
  {
    OldestGoesOn(n, ls, st, g);
    PassesKeep(st);
    StepTo(n, ls, st, g, Parse(0));
    var st1, g1, ls1 := ParsedState(CODEC, st, 0), ShadowNext(CODEC, st, g, Parse(0)), ls + [Parse(0)];
    OldestGoesOn(n, ls1, st1, g1);
    PassesKeep(st1);
    StepTo(n, ls1, st1, g1, Finish(0));
    var st2, g2, ls2 := FinishedState(CODEC, st1, 0), ShadowNext(CODEC, st1, g1, Finish(0)), ls1 + [Finish(0)];
    OldestGoesOn(n, ls2, st2, g2);
    RetireAlone(st2);
    StepTo(n, ls2, st2, g2, Retire);
    st', g', ls' := RetiredState(st2), ShadowNext(CODEC, st2, g2, Retire), ls2 + [Retire];
  }

  // ----- the calls --------------------------------------------------------------------------

  lemma BeginIdle(n: nat, ls: seq<Label>, st: State, g: Shadow, free: nat)
    requires Reaches(n, ls, st, g) && !st.inCall && Idle(st, free)
    ensures Reaches(n, ls + [BeginCall], Begun(st), g) && Idle(Begun(st), free) && Begun(st).slots == st.slots
  {
    StepTo(n, ls, st, g, BeginCall);
  }

  /** The first k slots are filled by k calls with one hidden frame each. */
  lemma {:induction false} HiddenCalls(n: nat, k: nat) returns (ls: seq<Label>, st: State, g: Shadow)
    requires 0 < n <= MAX_CONTEXTS && k <= REF_FRAMES
    ensures Reaches(n, ls, st, g) && !st.inCall && Idle(st, SurfaceCount(n) - k)
    ensures forall i | k <= i < REF_FRAMES :: st.slots[i] == NONE
  {
    if k == 0 {
      InitSound(CODEC, n);
      AtStart(CODEC, n);
      ls, st, g := [], Init(n), ShadowInit(n);
    } else {
      var ls0, st0, g0 := HiddenCalls(n, k - 1);
      var free := SurfaceCount(n) - k;
      BeginIdle(n, ls0, st0, g0, free + 1);
      var ls1, st1, g1 := OneFrame(n, ls0 + [BeginCall], Begun(st0), g0, Some(k - 1), free);
      StepTo(n, ls1, st1, g1, EndCall);
      ls, st, g := ls1 + [EndCall], Ended(st1), g1;
    }
  }

  /** In one more call, k frames are shown. */
  lemma {:induction false} ShownFrames(n: nat, k: nat) returns (ls: seq<Label>, st: State, g: Shadow)
    requires 0 < n <= MAX_CONTEXTS && k <= 2 * n + 1
    ensures Reaches(n, ls, st, g) && st.inCall && Idle(st, 2 * n + 1 - k) && st.submissions == |st.ready| == k
  {
    if k == 0 {
      var ls0, st0, g0 := HiddenCalls(n, REF_FRAMES);
      BeginIdle(n, ls0, st0, g0, 2 * n + 1);
      ls, st, g := ls0 + [BeginCall], Begun(st0), g0;
    } else {
      var ls0, st0, g0 := ShownFrames(n, k - 1);
      ls, st, g := OneFrame(n, ls0, st0, g0, None, 2 * n + 1 - k);
    }
  }

  /** For every number of contexts there is a well-behaved run of a stream that decodes after which nothing is in
      flight and yet no surface is free: the slots and the 2 n + 1 pictures of the call in progress name them all,
      and the call cannot submit anything. */
  lemma PoolRunsDry(n: nat) returns (ls: seq<Label>, st: State)
    requires 0 < n <= MAX_CONTEXTS
    ensures CanRun(CODEC, Init(n), ls) && Run(CODEC, Init(n), ls) == st && ModestRun(CODEC, Init(n), ls)
    ensures st.inCall && st.flight == [] && st.pool.free == [] && st.submissions == |st.ready| == 2 * n + 1
    ensures |Named(st.slots) + ReadySurfaces(st.ready)| == SurfaceCount(n)
    ensures forall e :: !MaySubmit(st, e)
  {
    var g;
    ls, st, g := ShownFrames(n, 2 * n + 1);
    AtCame(CODEC, n, ls, st, g);
    ModestExact(CODEC, n, ls);
    RunSameContexts(CODEC, Init(n), ls);
    SurfaceAvailable(st);
  }
}
