/**
 How long the ring keeps a frame: the number of frames in flight, exactly, and when the pool can run dry.
 */
module FrameDelay {
  import opened Values
  import opened Handles
  import opened Surfaces
  import opened SerialDecode
  import opened FrameThread
  import opened Refinement
  import opened FrameThreadTheorems
  import opened FrameThreadOutput
  import opened FrameCalls

  // ----- frames in flight -------------------------------------------------------------------

  /** Of count submissions, all from floor on are in flight, as far as there is room. The others have left: those
      before floor because the ring was drained, or retired frames for want of a surface, and the rest to make room
      in the ring. */
  predicate Lags(floor: nat, count: nat, flight: nat, room: nat) {
    floor <= count && flight == if count - floor < room then count - floor else room
  }

  /** Taking a context, and retiring the frame it holds if the ring is full, leaves exactly the room for one more. */
  lemma LagsTake(floor: nat, count: nat, flight: nat, n: nat)
    requires n > 0 && Lags(floor, count, flight, n)
    ensures Lags(floor, count, if flight == n then n - 1 else flight, n - 1)
  {
  }

  predicate InFlight(fs: seq<Flight>, id: nat) {
    exists j :: 0 <= j < |fs| && fs[j].id == id
  }

  /** A submission is in flight exactly if it is not below the floor and at most n submissions old. */
  lemma InFlightIff(codec: Codec, n: nat, ls: seq<Label>, st: State, g: Shadow, floor: nat, id: nat)
    requires At(codec, n, ls, st, g) && Lags(floor, st.count, |st.flight|, n)
    ensures InFlight(st.flight, id) <==> floor <= id < st.count && st.count - id <= n
  {
    AtCame(codec, n, ls, st, g);
    Unseal(codec, st, g);
    if floor <= id < st.count && st.count - id <= n {
      assert st.flight[id - (st.count - |st.flight|)].id == id;
    }
  }

  // ----- the pool ---------------------------------------------------------------------------

  /** The steps t leave no surface free. */
  ghost predicate DryAfter(codec: Codec, n: nat, t: seq<Label>) {
    CanRun(codec, Init(n), t) && Run(codec, Init(n), t).pool.free == []
  }

  /** At some moment between t0 and t1 no surface is free. */
  ghost predicate Dried(codec: Codec, n: nat, t0: seq<Label>, t1: seq<Label>) {
    exists t :: t0 <= t && t <= t1 && DryAfter(codec, n, t)
  }

  lemma DriedNow(codec: Codec, n: nat, t0: seq<Label>, ls: seq<Label>, st: State, g: Shadow)
    requires At(codec, n, ls, st, g) && st.pool.free == [] && t0 <= ls
    ensures Dried(codec, n, t0, ls)
  {
    AtCame(codec, n, ls, st, g);
    assert DryAfter(codec, n, ls);
  }

  lemma PrefixTrans(a: seq<Label>, b: seq<Label>, c: seq<Label>)
    requires a <= b && b <= c
    ensures a <= c
  {
    assert c[..|b|] == b && b[..|a|] == a;
  }

  lemma DriedGrows(codec: Codec, n: nat, t0: seq<Label>, t1: seq<Label>, u0: seq<Label>, u1: seq<Label>)
    requires Dried(codec, n, t0, t1) && u0 <= t0 && t1 <= u1
    ensures Dried(codec, n, u0, u1)
  {
    var t :| t0 <= t && t <= t1 && DryAfter(codec, n, t);
    PrefixTrans(u0, t0, t);
    PrefixTrans(t, t1, u1);
  }

  /** A frame that needs no reference is refused only if no surface is free. */
  lemma RefusedDry(codec: Codec, n: nat, t0: seq<Label>, ls: seq<Label>, st: State, g: Shadow, e: Event)
    requires At(codec, n, ls, st, g) && |st.flight| < n && t0 <= ls && !MaySubmit(st, e)
    ensures ValidEvent(e) && !e.inter ==> Dried(codec, n, t0, ls)
  {
    AtCame(codec, n, ls, st, g);
    Unseal(codec, st, g);
    if st.pool.free == [] {
      DriedNow(codec, n, t0, ls, st, g);
    }
  }

  lemma {:induction false} ReleasedGrows(p: Pool, ss: seq<int>, keep: set<int>)
    ensures |ReleasedExcept(p, ss, keep).free| >= |p.free|
    decreases |ss|
  {
    if ss != [] {
      ReleasedGrows(if ss[0] in keep then p else Released(p, ss[0]), ss[1..], keep);
    }
  }

  lemma StepLeaves(codec: Codec, st: State, l: Label)
    requires Enabled(codec, st, l)
    ensures |Next(codec, st, l).pool.free| + (if l.Submit? then 1 else 0) >= |st.pool.free|
    ensures Next(codec, st, l).count == st.count + |Units([l])|
    ensures |Units([l])| == if UnitOf(l).Some? then 1 else 0
  {
    UnitsStep([l]);
    assert [l][1..] == [];
    if l.BeginCall? {
      ReleasedGrows(st.pool, st.shown, Elements(st.slots) + Deferred(st.flight));
    } else if l.Retire? {
      ReleasedGrows(st.pool, st.flight[0].releases, ReadySurfaces(st.ready));
    }
  }

  /** Each unit takes at most one surface, and is one submission. */
  lemma {:induction false} RunLeaves(codec: Codec, st: State, ls: seq<Label>)
    requires CanRun(codec, st, ls)
    ensures |Run(codec, st, ls).pool.free| + |Units(ls)| >= |st.pool.free|
    ensures Run(codec, st, ls).count == st.count + |Units(ls)|
    decreases |ls|
  {
    if ls != [] {
      StepLeaves(codec, st, ls[0]);
      UnitsStep(ls);
      UnitsStep([ls[0]]);
      assert [ls[0]][1..] == [];
      RunLeaves(codec, Next(codec, st, ls[0]), ls[1..]);
    }
  }

  /** The pool cannot run dry with the first units of a stream, as long as they are fewer than the surfaces. */
  lemma EarlyNotDry(codec: Codec, n: nat, t0: seq<Label>, t1: seq<Label>)
    requires |Units(t1)| < SurfaceCount(n)
    ensures !Dried(codec, n, t0, t1)
  {
    if Dried(codec, n, t0, t1) {
      var t :| t0 <= t && t <= t1 && DryAfter(codec, n, t);
      assert t1 == t + t1[|t|..];
      UnitsConcat(t, t1[|t|..]);
      RunLeaves(codec, Init(n), t);
    }
  }

  lemma CountIs(codec: Codec, n: nat, ls: seq<Label>, st: State, g: Shadow)
    requires At(codec, n, ls, st, g)
    ensures st.count == |Units(ls)|
  {
    AtCame(codec, n, ls, st, g);
    RunLeaves(codec, Init(n), ls);
  }
}
