/**
 A stream of key frames, one to a call: the picture of a frame is a call later than n - 1 calls.
 */
module DelayExample {
  import opened Values
  import opened SerialDecode
  import opened FrameThread
  import opened FrameThreadOutput
  import opened FrameCalls
  import opened FrameDelay
  import opened FrameRing

  predicate KeyFrames(es: seq<Event>) {
    forall i | 0 <= i < |es| :: ValidEvent(es[i]) && !es[i].inter
  }

  function Frames(es: seq<Event>): (us: seq<Unit>)
    ensures |us| == |es|
  {
    seq(|es|, i requires 0 <= i < |es| => Frame(es[i]))
  }

  /** As long as there are surfaces, a call with a key frame is not refused, and the floor stays. */
  method OneCall(p: Pipeline, e: Event)
    requires p.Valid() && !p.core.inCall && p.floor == 0 && ValidEvent(e) && !e.inter
    requires |Units(p.trace)| + 1 < SurfaceCount(p.contexts.Length)
    modifies p`next, p`core, p`trace, p`shadow, p`floor, p.contexts
    ensures p.Valid() && !p.core.inCall && p.floor == 0 && Units(p.trace) == old(Units(p.trace)) + [Frame(e)]
  {
    var pieces := [Threaded(Frame(e))];
    assert pieces[..0] == [] && UnitsIn(pieces) == [Frame(e)];
    var reply := p.DecodeNext(pieces);
    assert |Units(p.trace)| <= |old(Units(p.trace))| + 1;
    EarlyNotDry(p.codec, p.contexts.Length, old(p.trace), p.trace);
    assert !reply.Refused?;
  }

  /** Key frames go in one to a call, fewer than there are surfaces. A frame is in the ring until n calls have
      followed its own, and leaves with the n-th: after n - 1 it is still there. If the stream decodes, the bytes
      returned are those of the frames that have left. */
  method OnePerCall(codec: Codec, n: nat, es: seq<Event>) returns (p: Pipeline)
    requires 0 < n <= MAX_CONTEXTS && KeyFrames(es) && |es| < SurfaceCount(n)
    ensures fresh(p) && p.Valid() && p.codec == codec && p.contexts.Length == n && Units(p.trace) == Frames(es)
    ensures forall id: nat | id < |es| :: InFlight(p.core.flight, id) <==> |es| - id <= n
    ensures CanRun(codec, Init(n), p.trace) && ValidUnits(Frames(es))
    ensures Clean(codec, EmptySlots(), Frames(es)) ==>
              Delivered(codec, Init(n), p.trace) ==
                ShownData(SerialPictures(codec, Frames(es))[..if |es| <= n then 0 else |es| - n])
  {
    p := new Pipeline(codec, n);
    for i := 0 to |es|
      invariant fresh(p) && fresh(p.contexts) && p.Valid() && p.codec == codec && p.contexts.Length == n
      invariant !p.core.inCall && p.floor == 0 && Units(p.trace) == Frames(es[..i])
    {
      OneCall(p, es[i]);
      assert Frames(es[..i + 1]) == Frames(es[..i]) + [Frame(es[i])];
    }
    assert es[..|es|] == es;
    AtCame(codec, n, p.trace, p.core, p.shadow);
    CountIs(codec, n, p.trace, p.core, p.shadow);
    CallClean(codec, n, p.trace, p.core, p.shadow);
    forall id: nat | id < |es|
      ensures InFlight(p.core.flight, id) <==> |es| - id <= n
    {
      p.Waits(id);
    }
  }
}
