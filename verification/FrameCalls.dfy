/**
 Calls of the frame-threaded decoder, as runs of the step relation.
 */
module FrameCalls {
  import opened Values
  import opened Surfaces
  import opened SerialDecode
  import opened FrameThread
  import opened Refinement
  import opened FrameThreadTheorems
  import opened FrameThreadOutput
  import opened FrameThreadPool

  // ----- traces -----------------------------------------------------------------------------

  /** Only frame goroutines step, and frames retire. */
  predicate OnlyRetires(ls: seq<Label>) {
    if ls == [] then true else (IsTail(ls[|ls| - 1]) || ls[|ls| - 1].Retire?) && OnlyRetires(ls[..|ls| - 1])
  }

  lemma {:induction false} OnlyRetiresConcat(a: seq<Label>, b: seq<Label>)
    requires OnlyRetires(a) && OnlyRetires(b)
    ensures OnlyRetires(a + b)
  {
    if b == [] {
      assert a + b == a;
    } else {
      assert (a + b)[..|a + b| - 1] == a + b[..|b| - 1];
      OnlyRetiresConcat(a, b[..|b| - 1]);
    }
  }

  lemma OnlyRetiresOne(ls: seq<Label>, l: Label)
    requires OnlyRetires(ls) && (IsTail(l) || l.Retire?)
    ensures OnlyRetires(ls + [l])
  {
    assert (ls + [l])[..|ls|] == ls;
  }

  /** The state st, shadow g that the run ls of a new decoder reaches; sealed like Sound. */
  ghost predicate At(codec: Codec, n: nat, ls: seq<Label>, st: State, g: Shadow) {
    && st.n == n
    && forall k: int {:trigger Open(k)} :: Open(k) ==> Came(codec, n, ls, st, g)
  }

  ghost predicate Came(codec: Codec, n: nat, ls: seq<Label>, st: State, g: Shadow) {
    && n <= MAX_CONTEXTS && Sound(codec, st, g) && CanRun(codec, Init(n), ls)
    && Run(codec, Init(n), ls) == st
    && ShadowRun(codec, Init(n), ShadowInit(n), ls) == g
  }

  lemma AtStart(codec: Codec, n: nat)
    requires n <= MAX_CONTEXTS
    ensures At(codec, n, [], Init(n), ShadowInit(n))
  {
    InitSound(codec, n);
  }

  lemma AtCame(codec: Codec, n: nat, ls: seq<Label>, st: State, g: Shadow)
    requires At(codec, n, ls, st, g)
    ensures Came(codec, n, ls, st, g)
  {
    assert Open(0);
  }

  lemma AtStep(codec: Codec, n: nat, ls: seq<Label>, st: State, g: Shadow, l: Label)
    requires At(codec, n, ls, st, g) && Enabled(codec, st, l)
    ensures At(codec, n, ls + [l], Next(codec, st, l), ShadowNext(codec, st, g, l))
  {
    AtCame(codec, n, ls, st, g);
    SoundStep(codec, st, g, l);
    RunOne(codec, st, g, l);
    RunConcat(codec, Init(n), ShadowInit(n), ls, [l]);
    RunSameContexts(codec, st, [l]);
  }

  // ----- waiting ----------------------------------------------------------------------------

  /** What the frame goroutines cannot change. */
  predicate Quiet(st: State, st': State) {
    && st'.n == st.n && |st'.flight| == |st.flight| && st'.count == st.count && st'.inCall == st.inCall
    && st'.pool == st.pool && st'.slots == st.slots && st'.ready == st.ready && st'.err == st.err
    && st'.submissions == st.submissions
  }

  lemma TailQuiet(codec: Codec, st: State, g: Shadow, l: Label)
    requires Enabled(codec, st, l) && IsTail(l)
    ensures Quiet(st, Next(codec, st, l)) && ShadowNext(codec, st, g, l) == g
  {
  }

  /** A step that the oldest entry can take. */
  lemma OldestSteps(codec: Codec, st: State, g: Shadow) returns (l: Label)
    requires Sound(codec, st, g) && st.flight != [] && !st.flight[0].phase.Finished?
    ensures IsTail(l) && Enabled(codec, st, l)
  {
    Unseal(codec, st, g);
    OldestCanStep(codec, st, g, 0);
    l := if st.flight[0].phase.Submitted? then Parse(0) else Finish(0);
  }

  lemma OldestRetires(codec: Codec, st: State, g: Shadow)
    requires Sound(codec, st, g) && st.flight != [] && st.flight[0].phase.Finished?
    ensures CanRetire(st)
  {
    Unseal(codec, st, g);
  }

  /** Some frame goroutine takes some enabled step. */
  method FrameGoroutine(codec: Codec, st: State, ghost g: Shadow, ghost ls: seq<Label>)
    returns (st': State, ghost l: Label)
    requires At(codec, st.n, ls, st, g) && st.flight != [] && !st.flight[0].phase.Finished?
    ensures IsTail(l) && At(codec, st.n, ls + [l], st', g)
    ensures Quiet(st, st') && Remaining(st'.flight) < Remaining(st.flight)
  {
    AtCame(codec, st.n, ls, st, g);
    ghost var able := OldestSteps(codec, st, g);
    assert able.j < |st.flight| && (CanParse(st, able.j) || CanFinish(st, able.j));
    var j: nat :| j < |st.flight| && (CanParse(st, j) || CanFinish(st, j));
    l := if CanParse(st, j) then Parse(j) else Finish(j);
    TailDecreases(codec, st, l);
    TailQuiet(codec, st, g, l);
    AtStep(codec, st.n, ls, st, g, l);
    st' := if CanParse(st, j) then ParsedState(codec, st, j) else FinishedState(codec, st, j);
  }

  /** Blocks until the oldest entry is finished; whichever frame goroutines step meanwhile, this ends. */
  method AwaitOldest(codec: Codec, st: State, ghost g: Shadow, ghost ls: seq<Label>)
    returns (st': State, ghost tail: seq<Label>)
    requires At(codec, st.n, ls, st, g) && st.flight != []
    ensures At(codec, st.n, ls + tail, st', g) && OnlyRetires(tail)
    ensures Quiet(st, st') && CanRetire(st')
  {
    st', tail := st, [];
    assert ls + tail == ls;
    while !st'.flight[0].phase.Finished?
      invariant At(codec, st.n, ls + tail, st', g) && OnlyRetires(tail)
      invariant Quiet(st, st')
      decreases Remaining(st'.flight)
    {
      ghost var l;
      st', l := FrameGoroutine(codec, st', g, ls + tail);
      OnlyRetiresOne(tail, l);
      assert ls + (tail + [l]) == ls + tail + [l];
      tail := tail + [l];
    }
    AtCame(codec, st.n, ls + tail, st', g);
    OldestRetires(codec, st', g);
  }

  // ----- what each command does to the ring's numbers ---------------------------------------

  lemma RetireNumbers(codec: Codec, st: State, g: Shadow)
    requires CanRetire(st) && st.inCall
    ensures var st' := Next(codec, st, Retire);
            && |st'.flight| == |st.flight| - 1 && st'.count == st.count && st'.inCall
            && st'.submissions == st.submissions
            && ShadowNext(codec, st, g, Retire) == g
  {
  }

  lemma Submits(codec: Codec, st: State, g: Shadow, ls: seq<Label>, e: Event) returns (g': Shadow)
    requires At(codec, st.n, ls, st, g) && st.inCall && CanSubmit(codec, st, e)
    ensures var st' := SubmittedState(codec, st, e);
            && At(codec, st.n, ls + [Submit(e)], st', g')
            && |st'.flight| == |st.flight| + 1 && st'.count == st.count + 1 && st'.inCall
            && st'.submissions == st.submissions + 1
  {
    AtStep(codec, st.n, ls, st, g, Submit(e));
    g' := ShadowNext(codec, st, g, Submit(e));
  }

  lemma ShowsAgain(codec: Codec, st: State, g: Shadow, ls: seq<Label>, shown: nat, key: bool) returns (g': Shadow)
    requires At(codec, st.n, ls, st, g) && st.inCall && CanShow(st, shown)
    ensures var st' := ShownState(st, shown, key);
            && At(codec, st.n, ls + [ShowExisting(shown, key)], st', g')
            && |st'.flight| == |st.flight| + 1 && st'.count == st.count + 1 && st'.inCall
            && st'.submissions == st.submissions + 1
  {
    AtStep(codec, st.n, ls, st, g, ShowExisting(shown, key));
    g' := ShadowNext(codec, st, g, ShowExisting(shown, key));
  }

  /** The run is not a well-behaved one. */
  ghost predicate Misused(codec: Codec, n: nat, ls: seq<Label>) {
    CanRun(codec, Init(n), ls) && !ModestRun(codec, Init(n), ls)
  }

  /** With the pool dry although nothing is in flight, the run was not a well-behaved one. */
  lemma DryMeansMisuse(codec: Codec, n: nat, ls: seq<Label>, st: State, g: Shadow)
    requires At(codec, n, ls, st, g) && st.inCall && st.flight == [] && st.submissions <= n && st.pool.free == []
    ensures Misused(codec, n, ls)
  {
    AtCame(codec, n, ls, st, g);
    if ModestRun(codec, Init(n), ls) {
      NeverDry(codec, n, ls);
    }
  }

  /** Retires the oldest entry, once it has finished. */
  method RetireEntry(codec: Codec, st: State, ghost g: Shadow, ghost ls: seq<Label>)
    returns (st': State, ghost more: seq<Label>)
    requires At(codec, st.n, ls, st, g) && st.flight != [] && st.inCall
    ensures At(codec, st.n, ls + more, st', g) && OnlyRetires(more)
    ensures |st'.flight| == |st.flight| - 1 && st'.count == st.count && st'.inCall && st'.submissions == st.submissions
  {
    st', more := AwaitOldest(codec, st, g, ls);
    RetireNumbers(codec, st', g);
    AtStep(codec, st.n, ls + more, st', g, Retire);
    OnlyRetiresOne(more, Retire);
    assert ls + (more + [Retire]) == ls + more + [Retire];
    st', more := RetiredState(st'), more + [Retire];
  }

  /** Why a submission is refused. */
  lemma Refused(codec: Codec, n: nat, ls: seq<Label>, st: State, g: Shadow, e: Event)
    requires At(codec, n, ls, st, g) && st.inCall && (st.pool.free != [] || st.flight == [])
    requires !CanSubmit(codec, st, e)
    ensures !MaySubmit(st, e)
    ensures st.submissions <= n && st.pool.free == [] ==> Misused(codec, n, ls)
  {
    if st.submissions <= n && st.pool.free == [] {
      DryMeansMisuse(codec, n, ls, st, g);
    }
    if MaySubmit(st, e) {
      AtCame(codec, n, ls, st, g);
      Unseal(codec, st, g);
      HandlesSuffice(codec, st, g, e);
    }
  }

  /** The state after submitting e, if it can be submitted. */
  method TrySubmit(codec: Codec, st: State, ghost g: Shadow, ghost ls: seq<Label>, e: Event)
    returns (ok: bool, st': State, ghost g': Shadow)
    requires At(codec, st.n, ls, st, g) && st.inCall && (st.pool.free != [] || st.flight == [])
    ensures ok == MaySubmit(st, e)
    ensures ok ==> At(codec, st.n, ls + [Submit(e)], st', g') && st'.inCall
    ensures ok ==> |st'.flight| == |st.flight| + 1 && st'.count == st.count + 1 && st'.submissions == st.submissions + 1
    ensures !ok && st.submissions <= st.n && st.pool.free == [] ==> Misused(codec, st.n, ls)
  {
    ok, st', g' := CanSubmit(codec, st, e), st, g;
    if ok {
      st' := SubmittedState(codec, st, e);
      g' := Submits(codec, st, g, ls, e);
    } else {
      Refused(codec, st.n, ls, st, g, e);
    }
  }

  // ----- calls ------------------------------------------------------------------------------

  /** The answer to a call. */
  datatype Reply = Pictures(frames: seq<Data>) | Failed(first: nat) | Refused

  function ReplyOf(st: State): Reply {
    if st.err.Some? then Failed(st.err.value) else Pictures(if BatchInBounds(st) then Batch(st) else [])
  }

  /** The steps of one call, between its beginning and its end. */
  ghost predicate Inside(ls: seq<Label>) {
    forall i | 0 <= i < |ls| :: !ls[i].BeginCall? && !ls[i].EndCall?
  }

  lemma {:induction false} UnitsConcat(a: seq<Label>, b: seq<Label>)
    ensures Units(a + b) == Units(a) + Units(b)
  {
    if a == [] {
      assert a + b == b;
    } else {
      assert (a + b)[1..] == a[1..] + b;
      UnitsConcat(a[1..], b);
    }
  }

  lemma {:induction false} InsideRetires(ls: seq<Label>)
    requires OnlyRetires(ls)
    ensures Inside(ls) && Units(ls) == []
  {
    if ls != [] {
      var front, l := ls[..|ls| - 1], ls[|ls| - 1];
      InsideRetires(front);
      assert ls == front + [l];
      UnitsConcat(front, [l]);
      assert [l][1..] == [];
    }
  }

  lemma InsideOne(ls: seq<Label>, l: Label)
    requires OnlyRetires(ls) && (l.Submit? || l.ShowExisting?)
    ensures Inside(ls + [l]) && Units(ls + [l]) == [UnitOf(l).value]
  {
    InsideRetires(ls);
    UnitsConcat(ls, [l]);
    assert [l][1..] == [];
    assert Units([l]) == [UnitOf(l).value];
  }

  lemma InsideMore(ls: seq<Label>, more: seq<Label>)
    requires Inside(ls) && OnlyRetires(more)
    ensures Inside(ls + more) && Units(ls + more) == Units(ls)
  {
    InsideRetires(more);
    UnitsConcat(ls, more);
  }

  lemma MoreInside(ls: seq<Label>, more: seq<Label>)
    requires OnlyRetires(ls) && Inside(more)
    ensures Inside(ls + more) && Units(ls + more) == Units(more)
  {
    InsideRetires(ls);
    UnitsConcat(ls, more);
  }

  /** A frame decoded with nothing in flight: submission, both passes and retirement in a row. */
  method SerialFrame(codec: Codec, st: State, ghost g: Shadow, ghost ls: seq<Label>, e: Event)
    returns (ok: bool, st': State, ghost g': Shadow, ghost steps: seq<Label>)
    requires At(codec, st.n, ls, st, g) && st.inCall && st.flight == []
    ensures ok == MaySubmit(st, e)
    ensures ok ==> At(codec, st.n, ls + steps, st', g') && st'.inCall && st'.flight == [] && st'.count == st.count + 1
    ensures ok ==> Inside(steps) && Units(steps) == [Frame(e)]
  {
    steps := [];
    ok, st', g' := TrySubmit(codec, st, g, ls, e);
    if ok {
      ghost var more;
      st', more := RetireEntry(codec, st', g', ls + [Submit(e)]);
      steps := [Submit(e)] + more;
      assert ls + steps == ls + [Submit(e)] + more;
      InsideOne([], Submit(e));
      assert [] + [Submit(e)] == [Submit(e)];
      InsideMore([Submit(e)], more);
    }
  }

  lemma {:induction false} BegunUnits(before: seq<Label>, body: seq<Label>)
    ensures Units(before + [BeginCall] + body) == Units(before) + Units(body)
  {
    assert [BeginCall][1..] == [];
    UnitsConcat(before, [BeginCall]);
    UnitsConcat(before + [BeginCall], body);
  }

  lemma {:induction false} CallUnits(before: seq<Label>, body: seq<Label>)
    ensures Units(before + [BeginCall] + body + [EndCall]) == Units(before) + Units(body)
  {
    assert [EndCall][1..] == [];
    BegunUnits(before, body);
    UnitsConcat(before + [BeginCall] + body, [EndCall]);
  }

  lemma Begins(codec: Codec, st: State, g: Shadow, ls: seq<Label>)
    requires At(codec, st.n, ls, st, g) && !st.inCall
    ensures At(codec, st.n, ls + [BeginCall], Begun(st), g)
    ensures Begun(st).flight == st.flight && Begun(st).count == st.count && Begun(st).inCall
  {
    AtStep(codec, st.n, ls, st, g, BeginCall);
  }

  lemma Ends(codec: Codec, st: State, g: Shadow, ls: seq<Label>)
    requires At(codec, st.n, ls, st, g) && st.inCall
    ensures At(codec, st.n, ls + [EndCall], Ended(st), g)
    ensures Ended(st).flight == st.flight && Ended(st).count == st.count && !Ended(st).inCall
  {
    AtStep(codec, st.n, ls, st, g, EndCall);
  }

  lemma {:induction false} DeliveredConcat(codec: Codec, st: State, a: seq<Label>, b: seq<Label>)
    requires CanRun(codec, st, a) && CanRun(codec, st, a + b) && CanRun(codec, Run(codec, st, a), b)
    ensures Delivered(codec, st, a + b) == Delivered(codec, st, a) + Delivered(codec, Run(codec, st, a), b)
    decreases |a|
  {
    if a == [] {
      assert a + b == b;
    } else {
      assert (a + b)[0] == a[0] && (a + b)[1..] == a[1..] + b;
      DeliveredConcat(codec, Next(codec, st, a[0]), a[1..], b);
    }
  }

  ghost predicate Unended(ls: seq<Label>) {
    forall i | 0 <= i < |ls| :: !ls[i].EndCall?
  }

  /** Nothing is delivered before the end of a call. */
  lemma {:induction false} DeliveredUnended(codec: Codec, st: State, ls: seq<Label>)
    requires CanRun(codec, st, ls) && Unended(ls)
    ensures Delivered(codec, st, ls) == []
    decreases |ls|
  {
    if ls != [] {
      assert forall i | 0 <= i < |ls[1..]| :: ls[1..][i] == ls[i + 1];
      DeliveredUnended(codec, Next(codec, st, ls[0]), ls[1..]);
    }
  }

  lemma BodyDelivers(codec: Codec, start: State, t0: seq<Label>, body: seq<Label>)
    requires CanRun(codec, start, t0) && Unended(body) && CanRun(codec, start, t0 + body)
    ensures Delivered(codec, start, t0 + body) == Delivered(codec, start, t0)
  {
    RunSplit(codec, start, t0, body);
    DeliveredConcat(codec, start, t0, body);
    DeliveredUnended(codec, Run(codec, start, t0), body);
  }

  lemma EndDelivers(codec: Codec, start: State, t: seq<Label>)
    requires CanRun(codec, start, t) && CanRun(codec, start, t + [EndCall]) && Run(codec, start, t).inCall
    ensures Delivered(codec, start, t + [EndCall]) == Delivered(codec, start, t) + DeliveredBy(Run(codec, start, t), EndCall)
  {
    RunSplit(codec, start, t, [EndCall]);
    DeliveredConcat(codec, start, t, [EndCall]);
    DeliveredAtEnd(codec, Run(codec, start, t));
  }

  lemma DeliveredAtEnd(codec: Codec, st: State)
    requires st.inCall && CanRun(codec, st, [EndCall])
    ensures Delivered(codec, st, [EndCall]) == DeliveredBy(st, EndCall)
  {
    assert [EndCall][1..] == [];
    assert Delivered(codec, Next(codec, st, EndCall), []) == [];
  }

  /** The shadow of the second half of a run. */
  lemma RunSuffix(codec: Codec, n: nat, a: seq<Label>, st: State, g: Shadow, b: seq<Label>, st': State, g': Shadow)
    requires Came(codec, n, a, st, g) && Came(codec, n, a + b, st', g')
    ensures CanRun(codec, st, b) && Run(codec, st, b) == st' && ShadowRun(codec, st, g, b) == g'
  {
    RunSplit(codec, Init(n), a, b);
    RunConcat(codec, Init(n), ShadowInit(n), a, b);
  }

  /** The failure recorded during a call is the earliest among the frames that left. */
  lemma CallFails(codec: Codec, st1: State, g: Shadow, body: seq<Label>, st: State, g': Shadow)
    requires Sound(codec, st1, g) && st1.err.None? && CanRun(codec, st1, body) && Inside(body)
    requires st == Run(codec, st1, body) && g' == ShadowRun(codec, st1, g, body)
    ensures |st1.flight| <= st1.count && |st.flight| <= st.count && Gone(st) <= |g'.pictures|
    ensures st.err == FirstFailure(g'.pictures, Gone(st1), Gone(st))
  {
    SoundCount(codec, st1, g);
    CallOutput(codec, st1, g, body);
  }

  /** A stream that decodes serially never reports a failure. */
  lemma CleanReports(codec: Codec, n: nat, ls: seq<Label>)
    requires n <= MAX_CONTEXTS && CanRun(codec, Init(n), ls) && ValidUnits(Units(ls))
    requires Clean(codec, EmptySlots(), Units(ls))
    ensures Run(codec, Init(n), ls).err.None?
  {
    InitSound(codec, n);
    var g := ShadowInit(n);
    CleanRun(codec, Init(n), g, ls);
    var ps := PicturesFrom(codec, g.slots, Units(ls));
    assert g.pictures + ps == ps;
    assert AllSucceed(ps);
    var end := LedgerRun(codec, Init(n), g, ls, 0);
  }

  lemma CallClean(codec: Codec, n: nat, t1: seq<Label>, st1: State, g1: Shadow)
    requires Came(codec, n, t1, st1, g1) && !st1.inCall
    ensures ValidUnits(Units(t1))
    ensures Clean(codec, EmptySlots(), Units(t1)) ==>
              && st1.err.None? && |st1.flight| <= |Units(t1)|
              && Delivered(codec, Init(n), t1) == ShownData(SerialPictures(codec, Units(t1))[..|Units(t1)| - |st1.flight|])
  {
    ThreadedEqualsSerial(codec, n, t1);
    if Clean(codec, EmptySlots(), Units(t1)) {
      CleanReports(codec, n, t1);
    }
  }

  // ----- the whole decoder ------------------------------------------------------------------

  /** What a call that was not refused answers, given the steps t0 before and t1 after it. */
  ghost predicate Reported(codec: Codec, n: nat, t0: seq<Label>, t1: seq<Label>, reply: Reply) {
    && CanRun(codec, Init(n), t0) && CanRun(codec, Init(n), t1)
    && DeliversNext(codec, Init(n), t0, t1, reply)
    && ReportsEarliest(codec, n, t0, t1, reply)
    && SerialSoFar(codec, n, t1, reply)
  }

  /** The pictures are the next ones delivered. */
  ghost predicate DeliversNext(codec: Codec, start: State, t0: seq<Label>, t1: seq<Label>, reply: Reply)
    requires CanRun(codec, start, t0) && CanRun(codec, start, t1)
  {
    Delivered(codec, start, t1) == Delivered(codec, start, t0) + (if reply.Pictures? then reply.frames else [])
  }

  /** The reported failure is the earliest among the frames that left during the call. */
  ghost predicate ReportsEarliest(codec: Codec, n: nat, t0: seq<Label>, t1: seq<Label>, reply: Reply)
    requires CanRun(codec, Init(n), t0) && CanRun(codec, Init(n), t1)
  {
    FirstFailed(codec, n, t0, t1) == if reply.Failed? then Some(reply.first) else None
  }

  /** If serial decoding of the stream succeeds, so does the call, and all pictures so far are the serial
      ones. */
  ghost predicate SerialSoFar(codec: Codec, n: nat, t1: seq<Label>, reply: Reply)
    requires CanRun(codec, Init(n), t1)
  {
    var us, st := Units(t1), Run(codec, Init(n), t1);
    && ValidUnits(us)
    && (Clean(codec, EmptySlots(), us) ==>
          && reply.Pictures?
          && Delivered(codec, Init(n), t1) == ShownData(SerialPictures(codec, us)[..Departed(st, |us|)]))
  }

  /** How many of the units have left the ring. */
  function Departed(st: State, units: nat): nat {
    if |st.flight| <= units then units - |st.flight| else 0
  }

  /** The earliest failure among the submissions that left between t0 and t1. */
  ghost function FirstFailed(codec: Codec, n: nat, t0: seq<Label>, t1: seq<Label>): Option<nat>
    requires CanRun(codec, Init(n), t0) && CanRun(codec, Init(n), t1)
  {
    var ps := ShadowRun(codec, Init(n), ShadowInit(n), t1).pictures;
    var from := Departed(Run(codec, Init(n), t0), Run(codec, Init(n), t0).count);
    var to := Departed(Run(codec, Init(n), t1), Run(codec, Init(n), t1).count);
    if to <= |ps| then FirstFailure(ps, from, to) else None
  }

  lemma CallDeliversNext(codec: Codec, n: nat, t0: seq<Label>, st0: State, g0: Shadow, body: seq<Label>, st: State, g: Shadow)
    requires Came(codec, n, t0, st0, g0) && Came(codec, n, t0 + body, st, g) && Unended(body) && st.inCall
    requires CanRun(codec, Init(n), t0 + body + [EndCall])
    ensures DeliversNext(codec, Init(n), t0, t0 + body + [EndCall], ReplyOf(st))
  {
    BodyDelivers(codec, Init(n), t0, body);
    EndDelivers(codec, Init(n), t0 + body);
    assert DeliveredBy(st, EndCall) == if ReplyOf(st).Pictures? then ReplyOf(st).frames else [];
  }

  /** The failure that the end of a run reports, from its two states. */
  lemma FirstFailedIs(codec: Codec, n: nat, t0: seq<Label>, st0: State, g0: Shadow, t1: seq<Label>, st1: State, g1: Shadow)
    requires Came(codec, n, t0, st0, g0) && Came(codec, n, t1, st1, g1)
    requires |st0.flight| <= st0.count && |st1.flight| <= st1.count && Gone(st1) <= |g1.pictures|
    ensures FirstFailed(codec, n, t0, t1) == FirstFailure(g1.pictures, Gone(st0), Gone(st1))
  {
  }

  lemma BodyFails(codec: Codec, n: nat, st1: State, g0: Shadow, t: seq<Label>, body: seq<Label>, st: State, g: Shadow)
    requires Came(codec, n, t, st1, g0) && Came(codec, n, t + body, st, g) && Inside(body) && st1.err.None?
    ensures |st1.flight| <= st1.count && |st.flight| <= st.count && Gone(st) <= |g.pictures|
    ensures st.err == FirstFailure(g.pictures, Gone(st1), Gone(st))
  {
    RunSuffix(codec, n, t, st1, g0, body, st, g);
    CallFails(codec, st1, g0, body, st, g);
  }

  lemma CallReportsEarliest(codec: Codec, n: nat, t0: seq<Label>, st0: State, g0: Shadow, t: seq<Label>, body: seq<Label>, st: State, g: Shadow, t1: seq<Label>)
    requires Came(codec, n, t0, st0, g0) && Came(codec, n, t, Begun(st0), g0) && Came(codec, n, t + body, st, g)
    requires Came(codec, n, t1, Ended(st), g) && Inside(body)
    ensures ReportsEarliest(codec, n, t0, t1, ReplyOf(st))
  {
    BodyFails(codec, n, Begun(st0), g0, t, body, st, g);
    FirstFailedIs(codec, n, t0, st0, g0, t1, Ended(st), g);
  }

  lemma CallSerialSoFar(codec: Codec, n: nat, t1: seq<Label>, st: State, g: Shadow)
    requires Came(codec, n, t1, Ended(st), g)
    ensures SerialSoFar(codec, n, t1, ReplyOf(st))
  {
    CallClean(codec, n, t1, Ended(st), g);
  }

  /** A call that began after t0 and made the steps body answers as promised. */
  lemma CallMade(codec: Codec, n: nat, t0: seq<Label>, st0: State, g0: Shadow, body: seq<Label>, st: State, g: Shadow)
    requires At(codec, n, t0, st0, g0) && !st0.inCall
    requires At(codec, n, t0 + [BeginCall] + body, st, g) && st.inCall && Inside(body)
    ensures Reported(codec, n, t0, t0 + [BeginCall] + body + [EndCall], ReplyOf(st)) && !ReplyOf(st).Refused?
    ensures At(codec, n, t0 + [BeginCall] + body + [EndCall], Ended(st), g)
    ensures Ended(st).flight == st.flight && Ended(st).count == st.count && !Ended(st).inCall
  {
    var t := t0 + [BeginCall];
    var t1 := t + body + [EndCall];
    Begins(codec, st0, g0, t0);
    Ends(codec, st, g, t + body);
    AtCame(codec, n, t0, st0, g0);
    AtCame(codec, n, t, Begun(st0), g0);
    AtCame(codec, n, t + body, st, g);
    AtCame(codec, n, t1, Ended(st), g);
    assert t + body == t0 + ([BeginCall] + body);
    CallDeliversNext(codec, n, t0, st0, g0, [BeginCall] + body, st, g);
    CallReportsEarliest(codec, n, t0, st0, g0, t, body, st, g, t1);
    CallSerialSoFar(codec, n, t1, st, g);
  }
}
