/**
 What the frame-threaded decoder returns: the serial decoder's pictures, each once, in order.
 */
module FrameThreadOutput {
  import opened Values
  import opened Handles
  import opened Progress
  import opened Surfaces
  import opened SerialDecode
  import opened Lanes
  import opened FrameThread
  import opened Ownership
  import opened Refinement
  import opened SubmitStep
  import opened FrameSteps
  import opened FrameThreadTheorems

  // ----- pixels of returned pictures --------------------------------------------------------

  /** A picture that the current call returns has exactly the serial decoder's pixels, and no frame in
      flight is writing it. */
  lemma ReadyPixels(codec: Codec, st: State, g: Shadow, i: nat)
    requires Inv(codec, st, g) && i < |st.ready|
    ensures st.ready[i].id < |g.pictures| && st.ready[i].surface < |st.pix.data|
    ensures Succeeds(g.pictures[st.ready[i].id]) ==>
              g.pictures[st.ready[i].id].pixels == Some(Ok(st.pix.data[st.ready[i].surface]))
  {
    var s := st.ready[i].surface;
    forall j | 0 <= j < |st.flight|
      ensures PixOf(st.flight)[j].makes != s
    {
      assert PixOf(st.flight)[j] == st.flight[j].pix;
    }
    assert !Writes(PixOf(st.flight), s);
  }

  /** The bytes behind the pictures of the current call. */
  function Batch(st: State): seq<Data>
    requires forall i | 0 <= i < |st.ready| :: st.ready[i].surface < |st.pix.data|
  {
    seq(|st.ready|, i requires 0 <= i < |st.ready| => st.pix.data[st.ready[i].surface])
  }

  // ----- streams that decode serially -------------------------------------------------------

  ghost predicate NoneFails(want: seq<Result<Data>>) {
    forall h | 0 <= h < |want| :: want[h].Ok?
  }

  ghost predicate AllOk(g: Shadow) {
    NoneFails(g.ctx) && NoneFails(g.mv) && NoneFails(g.seg) && NoneFails(g.pix)
  }

  function UnitOf(l: Label): Option<Unit> {
    match l
    case Submit(e) => Some(Frame(e))
    case ShowExisting(shown, key) => Some(Existing(shown, key))
    case _ => None
  }

  /** While nothing has failed, no claimed context entry has a failed cell. */
  lemma CleanStart(codec: Codec, st: State, g: Shadow, e: Event)
    requires Coupled(st.ctx, g.ctx, CtxOf(st.flight)) && NoneFails(g.ctx)
    requires Shaped(st.ctxStore) && |st.ctxStore.refs| == |st.ctx.cell| && HasFree(st.ctxStore)
    ensures StartContexts(codec, st.ctxStore, st.ctx, e) == Ok(codec.defaults(e))
  {
  }

  lemma PromiseOk(want: seq<Result<Data>>, h: int, v: Result<Data>)
    requires NoneFails(want) && v.Ok? && h < |want|
    ensures NoneFails(Promise(want, h, v))
  {
  }

  lemma CleanSubmit(codec: Codec, st: State, g: Shadow, e: Event)
    requires ShadowSized(st, g) && CanSubmit(codec, st, e)
    requires StartContexts(codec, st.ctxStore, st.ctx, e) == Ok(codec.defaults(e))
    requires AllOk(g) && PixelsOf(codec, g.slots, e, Ok(codec.defaults(e))).Ok?
    ensures AllOk(ShadowSubmit(codec, st, g, e))
  {
    var ent := EntropyOf(codec, g.slots, e, Ok(codec.defaults(e)));
    assert ent.Ok?;
    var start := PromiseStart(codec, st.ctxStore, st.ctx, e, g.ctx);
    assert NoneFails(start);
    PromiseOk(start, BindContexts(codec, st.ctxStore, st.ctx, e).2.makes, ContextsOf(ent));
    PromiseOk(g.mv, BindMotion(st.mvStore, st.mv, e).2.makes, GridOf(ent));
    PromiseOk(g.seg, BindSegments(st.segStore, st.seg, e).2.makes, SegmentsOf(ent));
    PromiseOk(g.pix, Acquired(st.pool).1, PixelsOf(codec, g.slots, e, Ok(codec.defaults(e))));
  }

  /** g' is the serial decoder after the unit that l submits, if any. */
  ghost predicate Serially(codec: Codec, l: Label, g: Shadow, g': Shadow) {
    && ValidSlots(g.slots)
    && match UnitOf(l)
       case None => g' == g
       case Some(u) =>
         && ValidUnit(u)
         && g'.slots == After(codec, g.slots, u, FreshContexts(codec, u))
         && g'.pictures == g.pictures + [PictureOf(codec, g.slots, u, FreshContexts(codec, u))]
  }

  /** One step beside the serial decoder of a stream that decodes. */
  lemma CleanStep(codec: Codec, st: State, g: Shadow, l: Label)
    requires Inv(codec, st, g) && Enabled(codec, st, l) && AllOk(g)
    requires UnitOf(l).Some? ==>
               && ValidUnit(UnitOf(l).value)
               && Succeeds(PictureOf(codec, g.slots, UnitOf(l).value, FreshContexts(codec, UnitOf(l).value)))
    ensures AllOk(ShadowNext(codec, st, g, l)) && Serially(codec, l, g, ShadowNext(codec, st, g, l))
  {
    if l.Submit? {
      CleanStart(codec, st, g, l.e);
      CleanSubmit(codec, st, g, l.e);
    }
  }

  lemma EnabledUnit(codec: Codec, st: State, l: Label)
    requires Enabled(codec, st, l)
    ensures UnitOf(l).Some? ==> ValidUnit(UnitOf(l).value)
  {
  }

  lemma {:induction false} RunUnits(codec: Codec, st: State, ls: seq<Label>)
    requires CanRun(codec, st, ls)
    ensures ValidUnits(Units(ls))
    decreases |ls|
  {
    if ls != [] {
      RunUnits(codec, Next(codec, st, ls[0]), ls[1..]);
      EnabledUnit(codec, st, ls[0]);
    }
  }

  lemma UnitsStep(ls: seq<Label>)
    requires ls != []
    ensures Units(ls) == (if UnitOf(ls[0]).Some? then [UnitOf(ls[0]).value] else []) + Units(ls[1..])
  {
  }

  lemma CleanTail(codec: Codec, s: Slots, us: seq<Unit>)
    requires ValidSlots(s) && ValidUnits(us) && us != [] && Clean(codec, s, us)
    ensures ValidUnits(us[1..])
    ensures Succeeds(PictureOf(codec, s, us[0], FreshContexts(codec, us[0])))
    ensures Clean(codec, After(codec, s, us[0], FreshContexts(codec, us[0])), us[1..])
  {
    var ps := PicturesFrom(codec, s, us);
    var qs := PicturesFrom(codec, After(codec, s, us[0], FreshContexts(codec, us[0])), us[1..]);
    assert ps[0] == PictureOf(codec, s, us[0], FreshContexts(codec, us[0]));
    assert forall i | 0 <= i < |qs| :: qs[i] == ps[i + 1];
  }

  lemma CleanCons(codec: Codec, g: Shadow, g': Shadow, ls: seq<Label>)
    requires ls != [] && Serially(codec, ls[0], g, g')
    requires ValidUnits(Units(ls)) && Clean(codec, g.slots, Units(ls))
    ensures ValidSlots(g'.slots) && ValidUnits(Units(ls[1..])) && Clean(codec, g'.slots, Units(ls[1..]))
    ensures SlotsAfter(codec, g'.slots, Units(ls[1..])) == SlotsAfter(codec, g.slots, Units(ls))
    ensures g'.pictures + PicturesFrom(codec, g'.slots, Units(ls[1..]))
         == g.pictures + PicturesFrom(codec, g.slots, Units(ls))
  {
    UnitsStep(ls);
    if UnitOf(ls[0]).Some? {
      CleanTail(codec, g.slots, Units(ls));
      assert Units(ls)[1..] == Units(ls[1..]);
    } else {
      assert Units(ls) == Units(ls[1..]);
    }
  }

  lemma CleanFirst(codec: Codec, s: Slots, ls: seq<Label>)
    requires ValidSlots(s) && ls != [] && ValidUnits(Units(ls)) && Clean(codec, s, Units(ls))
    ensures UnitOf(ls[0]).Some? ==>
              && ValidUnit(UnitOf(ls[0]).value)
              && Succeeds(PictureOf(codec, s, UnitOf(ls[0]).value, FreshContexts(codec, UnitOf(ls[0]).value)))
  {
    UnitsStep(ls);
    if UnitOf(ls[0]).Some? {
      CleanTail(codec, s, Units(ls));
    }
  }

  lemma CleanSoundStep(codec: Codec, st: State, g: Shadow, ls: seq<Label>)
    requires Sound(codec, st, g) && ls != [] && Enabled(codec, st, ls[0]) && AllOk(g) && ValidSlots(g.slots)
    requires ValidUnits(Units(ls)) && Clean(codec, g.slots, Units(ls))
    ensures AllOk(ShadowNext(codec, st, g, ls[0])) && Serially(codec, ls[0], g, ShadowNext(codec, st, g, ls[0]))
  {
    Unseal(codec, st, g);
    CleanFirst(codec, g.slots, ls);
    CleanStep(codec, st, g, ls[0]);
  }

  /** Beside a run whose stream decodes serially, the shadow is the serial decoder. */
  lemma {:induction false} CleanRun(codec: Codec, st: State, g: Shadow, ls: seq<Label>)
    requires Sound(codec, st, g) && CanRun(codec, st, ls) && AllOk(g) && ValidSlots(g.slots)
    requires ValidUnits(Units(ls)) && Clean(codec, g.slots, Units(ls))
    ensures ShadowRun(codec, st, g, ls).slots == SlotsAfter(codec, g.slots, Units(ls))
    ensures ShadowRun(codec, st, g, ls).pictures == g.pictures + PicturesFrom(codec, g.slots, Units(ls))
    ensures AllOk(ShadowRun(codec, st, g, ls))
    decreases |ls|
  {
    if ls != [] {
      CleanSoundStep(codec, st, g, ls);
      CleanCons(codec, g, ShadowNext(codec, st, g, ls[0]), ls);
      SoundStep(codec, st, g, ls[0]);
      CleanRun(codec, Next(codec, st, ls[0]), ShadowNext(codec, st, g, ls[0]), ls[1..]);
    }
  }

  // ----- order, for every run ---------------------------------------------------------------

  /** A coded frame that the decoder cannot output. */
  predicate Fails(p: Picture) {
    p.coded && !Succeeds(p)
  }

  predicate IsOutput(p: Picture) {
    p.show && !Fails(p)
  }

  /** The submissions from a to b that produce an output, in order. */
  function OutputIds(ps: seq<Picture>, a: nat, b: nat): seq<nat>
    requires b <= |ps|
  {
    if a >= b then [] else OutputIds(ps, a, b - 1) + (if IsOutput(ps[b - 1]) then [b - 1] else [])
  }

  /** The earliest submission from a to b that fails. */
  function FirstFailure(ps: seq<Picture>, a: nat, b: nat): Option<nat>
    requires b <= |ps|
  {
    if a >= b then None
    else if FirstFailure(ps, a, b - 1).Some? then FirstFailure(ps, a, b - 1)
    else if Fails(ps[b - 1]) then Some(b - 1) else None
  }

  lemma {:induction false} OutputIdsSplit(ps: seq<Picture>, qs: seq<Picture>, a: nat, b: nat, c: nat)
    requires a <= b <= c <= |qs| && b <= |ps| <= |qs| && qs[..|ps|] == ps
    ensures OutputIds(qs, a, c) == OutputIds(ps, a, b) + OutputIds(qs, b, c)
    ensures FirstFailure(qs, a, c) ==
              if FirstFailure(ps, a, b).Some? then FirstFailure(ps, a, b) else FirstFailure(qs, b, c)
    decreases c
  {
    if b < c {
      OutputIdsSplit(ps, qs, a, b, c - 1);
    } else if a < b {
      OutputIdsSplit(ps, qs, a, b - 1, b - 1);
      assert qs[b - 1] == ps[b - 1];
    }
  }

  function Ids(ready: seq<Out>): seq<nat> {
    seq(|ready|, i requires 0 <= i < |ready| => ready[i].id)
  }

  /** How many submissions have left the queue. */
  function Gone(st: State): nat
    requires |st.flight| <= st.count
  {
    st.count - |st.flight|
  }

  ghost predicate Extends(g: Shadow, g': Shadow) {
    |g.pictures| <= |g'.pictures| && g'.pictures[..|g.pictures|] == g.pictures
  }

  /** What one step adds to the pictures of the call, and to its reported failure. */
  ghost predicate Adds(st: State, st': State, ps: seq<Picture>) {
    && |st.flight| <= st.count && |st'.flight| <= st'.count && Gone(st) <= Gone(st') <= |ps|
    && Ids(st'.ready) == Ids(st.ready) + OutputIds(ps, Gone(st), Gone(st'))
    && st'.err == if st.err.Some? then st.err else FirstFailure(ps, Gone(st), Gone(st'))
  }

  lemma RetireAdds(codec: Codec, st: State, g: Shadow)
    requires CanRetire(st) && FrameOk(codec, st.flight[0], g) && QueueOk(st, g)
    ensures Adds(st, RetiredState(st), g.pictures)
  {
    var f := st.flight[0];
    var a := Gone(st);
    assert OutputIds(g.pictures, a, a + 1) == if IsOutput(g.pictures[a]) then [a] else [];
    assert IsOutput(g.pictures[a]) <==> f.phase.ok && Shows(f);
    assert Fails(g.pictures[a]) <==> !f.phase.ok;
    assert Ids(st.ready + [Out(f.id, f.surface)]) == Ids(st.ready) + [f.id];
  }

  /** A step that neither retires nor begins a call leaves the pictures of the call alone. */
  lemma OtherStep(codec: Codec, st: State, l: Label)
    requires Enabled(codec, st, l) && !l.BeginCall? && !l.Retire?
    ensures var st' := Next(codec, st, l);
            && st'.ready == st.ready && st'.err == st.err
            && st'.count - |st'.flight| == st.count - |st.flight|
  {
  }

  lemma SameAdds(st: State, st': State, ps: seq<Picture>)
    requires |st.flight| <= st.count && st'.count - |st'.flight| == st.count - |st.flight| <= |ps|
    requires st'.ready == st.ready && st'.err == st.err
    ensures Adds(st, st', ps)
  {
    assert Ids(st.ready) + [] == Ids(st.ready);
  }

  lemma StepExtends(codec: Codec, st: State, g: Shadow, l: Label)
    requires Enabled(codec, st, l)
    ensures Extends(g, ShadowNext(codec, st, g, l))
  {
  }

  lemma OldestOk(codec: Codec, st: State, g: Shadow)
    requires Sound(codec, st, g) && st.flight != []
    ensures FrameOk(codec, st.flight[0], g) && QueueOk(st, g)
  {
    Unseal(codec, st, g);
  }

  lemma StepAdds(codec: Codec, st: State, g: Shadow, l: Label)
    requires Sound(codec, st, g) && Enabled(codec, st, l) && !l.BeginCall?
    ensures Extends(g, ShadowNext(codec, st, g, l))
    ensures Adds(st, Next(codec, st, l), ShadowNext(codec, st, g, l).pictures)
  {
    StepExtends(codec, st, g, l);
    if l.Retire? {
      OldestOk(codec, st, g);
      RetireAdds(codec, st, g);
    } else {
      SoundCount(codec, st, g);
      OtherStep(codec, st, l);
      SameAdds(st, Next(codec, st, l), ShadowNext(codec, st, g, l).pictures);
    }
  }

  lemma SoundCount(codec: Codec, st: State, g: Shadow)
    requires Sound(codec, st, g)
    ensures |st.flight| <= st.count == |g.pictures|
  {
    Unseal(codec, st, g);
  }

  lemma AddsTrans(st: State, st1: State, st2: State, ps: seq<Picture>, qs: seq<Picture>)
    requires Adds(st, st1, ps) && Adds(st1, st2, qs) && |ps| <= |qs| && qs[..|ps|] == ps
    ensures Adds(st, st2, qs)
  {
    OutputIdsSplit(ps, qs, Gone(st), Gone(st1), Gone(st2));
  }

  /** Within one call, whatever the interleaving: the pictures that leave are exactly the outputs of the
      submissions that leave, each once and in submission order, and the reported failure is the
      earliest one among them. */
  lemma {:induction false} CallOutput(codec: Codec, st: State, g: Shadow, ls: seq<Label>)
    requires Sound(codec, st, g) && |st.flight| <= st.count == |g.pictures| && CanRun(codec, st, ls)
    requires forall i | 0 <= i < |ls| :: !ls[i].BeginCall?
    ensures Extends(g, ShadowRun(codec, st, g, ls))
    ensures Adds(st, Run(codec, st, ls), ShadowRun(codec, st, g, ls).pictures)
    decreases |ls|
  {
    if ls == [] {
      assert OutputIds(g.pictures, Gone(st), Gone(st)) == [];
    } else {
      SoundStep(codec, st, g, ls[0]);
      StepAdds(codec, st, g, ls[0]);
      SoundCount(codec, Next(codec, st, ls[0]), ShadowNext(codec, st, g, ls[0]));
      var st1, g1 := Next(codec, st, ls[0]), ShadowNext(codec, st, g, ls[0]);
      CallOutput(codec, st1, g1, ls[1..]);
      AddsTrans(st, st1, Run(codec, st, ls), g1.pictures, ShadowRun(codec, st, g, ls).pictures);
    }
  }

  // ----- the bytes returned over a whole run ------------------------------------------------

  predicate BatchInBounds(st: State) {
    forall i | 0 <= i < |st.ready| :: st.ready[i].surface < |st.pix.data|
  }

  /** The bytes returned by the calls that a run completes. */
  ghost function Delivered(codec: Codec, st: State, ls: seq<Label>): seq<Data>
    requires CanRun(codec, st, ls)
    decreases |ls|
  {
    if ls == [] then []
    else
      (if ls[0].EndCall? && st.err.None? && BatchInBounds(st) then Batch(st) else [])
      + Delivered(codec, Next(codec, st, ls[0]), ls[1..])
  }

  /** The bytes of the pictures that the call in progress has collected. */
  ghost function Collected(st: State): seq<Data> {
    if st.inCall && BatchInBounds(st) then Batch(st) else []
  }

  ghost function DeliveredBy(st: State, l: Label): seq<Data> {
    if l.EndCall? && st.err.None? && BatchInBounds(st) then Batch(st) else []
  }

  function PixelsAt(ps: seq<Picture>, k: nat): Data {
    if k < |ps| && Succeeds(ps[k]) then ps[k].pixels.value.value else []
  }

  lemma {:induction false} ShownIds(ps: seq<Picture>, a: nat, b: nat)
    requires a <= b <= |ps| && forall i | a <= i < b :: Succeeds(ps[i])
    ensures forall i | 0 <= i < |OutputIds(ps, a, b)| :: a <= OutputIds(ps, a, b)[i] < b
    ensures ShownData(ps[a..b]) == seq(|OutputIds(ps, a, b)|,
              i requires 0 <= i < |OutputIds(ps, a, b)| =>
                PixelsAt(ps, OutputIds(ps, a, b)[i]))
    decreases b
  {
    if a < b {
      ShownIds(ps, a, b - 1);
      assert ps[a..b] == ps[a..b - 1] + [ps[b - 1]];
      ShownDataAppend(ps[a..b - 1], [ps[b - 1]]);
      assert ShownData([ps[b - 1]]) == if ps[b - 1].show then [ps[b - 1].pixels.value.value] else [];
    }
  }

  /** While a stream decodes, the bytes collected by a call are those of the serial decoder's pictures. */
  lemma BatchIs(codec: Codec, st: State, g: Shadow, a: nat, b: nat)
    requires Inv(codec, st, g) && a <= b <= |g.pictures|
    requires forall i | 0 <= i < |g.pictures| :: Succeeds(g.pictures[i])
    requires Ids(st.ready) == OutputIds(g.pictures, a, b)
    ensures BatchInBounds(st) && Batch(st) == ShownData(g.pictures[a..b])
  {
    ShownIds(g.pictures, a, b);
    forall i | 0 <= i < |st.ready|
      ensures st.ready[i].surface < |st.pix.data|
      ensures st.pix.data[st.ready[i].surface] == g.pictures[Ids(st.ready)[i]].pixels.value.value
    {
      ReadyPixels(codec, st, g, i);
    }
  }

  /** No failure is reported while a stream decodes. */
  lemma CleanNoError(codec: Codec, st: State, g: Shadow, l: Label)
    requires Sound(codec, st, g) && Enabled(codec, st, l)
    requires st.err.None? && forall i | 0 <= i < |g.pictures| :: Succeeds(g.pictures[i])
    ensures Next(codec, st, l).err.None?
  {
    if l.Retire? {
      OldestOk(codec, st, g);
      RetireAdds(codec, st, g);
    } else if !l.BeginCall? {
      OtherStep(codec, st, l);
    }
  }

  ghost predicate AllSucceed(ps: seq<Picture>) {
    forall i | 0 <= i < |ps| :: Succeeds(ps[i])
  }

  /** The books of a run: the calls completed so far have returned the outputs of the first start
      submissions, and the call in progress has collected those that left since. */
  ghost predicate Ledger(st: State, g: Shadow, start: nat) {
    && |st.flight| <= st.count == |g.pictures|
    && start <= Gone(st)
    && (!st.inCall ==> start == Gone(st))
    && (st.inCall ==> Ids(st.ready) == OutputIds(g.pictures, start, Gone(st)))
    && st.err.None?
  }

  lemma LedgerEnds(codec: Codec, st: State, g: Shadow, start: nat)
    requires Sound(codec, st, g) && Ledger(st, g, start) && AllSucceed(g.pictures) && st.inCall
    ensures Ledger(Ended(st), g, Gone(st))
    ensures BatchInBounds(st) && Batch(st) == ShownData(g.pictures[start..Gone(st)])
  {
    Unseal(codec, st, g);
    BatchIs(codec, st, g, start, Gone(st));
  }

  lemma LedgerMoves(codec: Codec, st: State, g: Shadow, l: Label, start: nat)
    requires Sound(codec, st, g) && Enabled(codec, st, l) && Ledger(st, g, start) && AllSucceed(g.pictures)
    requires !l.EndCall? && !l.BeginCall?
    ensures Ledger(Next(codec, st, l), ShadowNext(codec, st, g, l), start)
  {
    var st', g' := Next(codec, st, l), ShadowNext(codec, st, g, l);
    StepAdds(codec, st, g, l);
    SoundStep(codec, st, g, l);
    SoundCount(codec, st', g');
    CleanNoError(codec, st, g, l);
    OutputIdsSplit(g.pictures, g'.pictures, start, Gone(st), Gone(st'));
    SameCall(codec, st, l);
  }

  lemma SameCall(codec: Codec, st: State, l: Label)
    requires Enabled(codec, st, l) && !l.EndCall? && !l.BeginCall?
    ensures Next(codec, st, l).inCall == st.inCall
    ensures !st.inCall ==> st.count - |st.flight| == Next(codec, st, l).count - |Next(codec, st, l).flight|
  {
  }

  lemma LedgerStep(codec: Codec, st: State, g: Shadow, l: Label, start: nat) returns (end: nat)
    requires Sound(codec, st, g) && Enabled(codec, st, l) && Ledger(st, g, start) && AllSucceed(g.pictures)
    ensures start <= end <= |g.pictures| && Ledger(Next(codec, st, l), ShadowNext(codec, st, g, l), end)
    ensures DeliveredBy(st, l) == ShownData(g.pictures[start..end])
  {
    assert g.pictures[start..start] == [];
    end := start;
    if l.EndCall? {
      LedgerEnds(codec, st, g, start);
      end := Gone(st);
    } else if !l.BeginCall? {
      LedgerMoves(codec, st, g, l, start);
    }
  }

  lemma SlicesJoin(ps: seq<Picture>, qs: seq<Picture>, a: nat, b: nat, c: nat)
    requires a <= b <= c <= |qs| && b <= |ps| <= |qs| && qs[..|ps|] == ps
    ensures ShownData(qs[a..c]) == ShownData(ps[a..b]) + ShownData(qs[b..c])
  {
    assert ps[a..b] == qs[a..b];
    assert qs[a..c] == qs[a..b] + qs[b..c];
    ShownDataAppend(qs[a..b], qs[b..c]);
  }

  /** The books balance over any run of a stream that decodes. */
  lemma {:induction false} LedgerRun(codec: Codec, st: State, g: Shadow, ls: seq<Label>, start: nat) returns (end: nat)
    requires Sound(codec, st, g) && CanRun(codec, st, ls) && Ledger(st, g, start)
    requires AllSucceed(ShadowRun(codec, st, g, ls).pictures)
    ensures Extends(g, ShadowRun(codec, st, g, ls))
    ensures start <= end && Ledger(Run(codec, st, ls), ShadowRun(codec, st, g, ls), end)
    ensures end <= |ShadowRun(codec, st, g, ls).pictures|
    ensures Delivered(codec, st, ls) == ShownData(ShadowRun(codec, st, g, ls).pictures[start..end])
    decreases |ls|
  {
    if ls == [] {
      assert g.pictures[start..start] == [];
      end := start;
    } else {
      var st1, g1 := Next(codec, st, ls[0]), ShadowNext(codec, st, g, ls[0]);
      var g2 := ShadowRun(codec, st, g, ls);
      RunExtends(codec, st1, g1, ls[1..]);
      StepExtends(codec, st, g, ls[0]);
      PrefixSucceeds(g.pictures, g2.pictures);
      var mid := LedgerStep(codec, st, g, ls[0], start);
      SoundStep(codec, st, g, ls[0]);
      end := LedgerRun(codec, st1, g1, ls[1..], mid);
      SlicesJoin(g.pictures, g2.pictures, start, mid, end);
    }
  }

  lemma PrefixSucceeds(ps: seq<Picture>, qs: seq<Picture>)
    requires |ps| <= |qs| && qs[..|ps|] == ps && AllSucceed(qs)
    ensures AllSucceed(ps)
  {
    assert forall i | 0 <= i < |ps| :: ps[i] == qs[i];
  }

  lemma {:induction false} RunExtends(codec: Codec, st: State, g: Shadow, ls: seq<Label>)
    requires CanRun(codec, st, ls)
    ensures Extends(g, ShadowRun(codec, st, g, ls))
    decreases |ls|
  {
    if ls != [] {
      StepExtends(codec, st, g, ls[0]);
      RunExtends(codec, Next(codec, st, ls[0]), ShadowNext(codec, st, g, ls[0]), ls[1..]);
    }
  }

  lemma InitSound(codec: Codec, n: nat)
    requires n <= MAX_CONTEXTS
    ensures Sound(codec, Init(n), ShadowInit(n)) && AllOk(ShadowInit(n)) && Ledger(Init(n), ShadowInit(n), 0)
    ensures ShadowInit(n).slots == EmptySlots() && ShadowInit(n).pictures == []
  {
    InitInv(codec, n);
  }

  lemma ShownJoin(ps: seq<Picture>, end: nat, gone: nat)
    requires end <= gone <= |ps|
    ensures ShownData(ps[0..end]) + ShownData(ps[end..gone]) == ShownData(ps[..gone])
  {
    assert ps[0..end] + ps[end..gone] == ps[..gone];
    ShownDataAppend(ps[0..end], ps[end..gone]);
  }

  lemma BooksClose(codec: Codec, st: State, g: Shadow, ls: seq<Label>)
    requires Sound(codec, st, g) && Ledger(st, g, 0) && CanRun(codec, st, ls)
    requires AllSucceed(ShadowRun(codec, st, g, ls).pictures)
    ensures var st', ps := Run(codec, st, ls), ShadowRun(codec, st, g, ls).pictures;
            && |st'.flight| <= st'.count == |ps|
            && Delivered(codec, st, ls) + Collected(st') == ShownData(ps[..Gone(st')])
  {
    RunKeeps(codec, st, g, ls);
    var end := LedgerRun(codec, st, g, ls, 0);
    var st', g' := Run(codec, st, ls), ShadowRun(codec, st, g, ls);
    ThreadedEnds(codec, st', g', end);
    ShownJoin(g'.pictures, end, Gone(st'));
  }

  lemma ThreadedFrom(codec: Codec, st: State, g: Shadow, ls: seq<Label>)
    requires Sound(codec, st, g) && AllOk(g) && Ledger(st, g, 0) && g.pictures == [] && ValidSlots(g.slots)
    requires CanRun(codec, st, ls) && ValidUnits(Units(ls)) && Clean(codec, g.slots, Units(ls))
    ensures var st' := Run(codec, st, ls);
            var ps := PicturesFrom(codec, g.slots, Units(ls));
            && |st'.flight| <= st'.count == |ps|
            && Delivered(codec, st, ls) + Collected(st') == ShownData(ps[..Gone(st')])
  {
    CleanRun(codec, st, g, ls);
    var ps := PicturesFrom(codec, g.slots, Units(ls));
    assert g.pictures + ps == ps;
    assert AllSucceed(ps);
    BooksClose(codec, st, g, ls);
  }

  /** Frame threading does not change the output. For every codec, every number of contexts and every
      interleaving of submissions, frame goroutines and retirements: if serial decoding of the submitted
      stream succeeds, the bytes returned so far, followed by those the current call has collected, are
      the bytes that serial decoding shows for the submissions that have left the queue, in order. */
  lemma ThreadedEqualsSerial(codec: Codec, n: nat, ls: seq<Label>)
    requires n <= MAX_CONTEXTS && CanRun(codec, Init(n), ls)
    ensures ValidUnits(Units(ls))
    ensures Clean(codec, EmptySlots(), Units(ls)) ==>
              var st := Run(codec, Init(n), ls);
              var ps := SerialPictures(codec, Units(ls));
              && |st.flight| <= st.count == |ps|
              && Delivered(codec, Init(n), ls) + Collected(st) == ShownData(ps[..Gone(st)])
  {
    RunUnits(codec, Init(n), ls);
    InitSound(codec, n);
    if Clean(codec, EmptySlots(), Units(ls)) {
      ThreadedFrom(codec, Init(n), ShadowInit(n), ls);
    }
  }

  lemma ThreadedEnds(codec: Codec, st: State, g: Shadow, end: nat)
    requires Sound(codec, st, g) && Ledger(st, g, end) && AllSucceed(g.pictures)
    ensures Collected(st) == ShownData(g.pictures[end..Gone(st)])
  {
    if st.inCall {
      LedgerEnds(codec, st, g, end);
    } else {
      assert g.pictures[end..end] == [];
    }
  }

  /** Once the queue is drained and the call has ended, everything has been returned. */
  lemma DrainedEqualsSerial(codec: Codec, n: nat, ls: seq<Label>)
    requires n <= MAX_CONTEXTS && CanRun(codec, Init(n), ls)
    requires ValidUnits(Units(ls)) && Clean(codec, EmptySlots(), Units(ls))
    requires Run(codec, Init(n), ls).flight == [] && !Run(codec, Init(n), ls).inCall
    ensures Delivered(codec, Init(n), ls) == ShownData(SerialPictures(codec, Units(ls)))
  {
    ThreadedEqualsSerial(codec, n, ls);
    var ps := SerialPictures(codec, Units(ls));
    assert ps[..|ps|] == ps;
  }
}
