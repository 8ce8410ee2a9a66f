/**
 Who keeps a surface out of the pool.

 A surface is in use while a reference slot names it, while a frame in flight writes or reads it,
 while a frame in flight is going to return it, and while the current call returns it to the caller
 (or the last call did). These lemmas show that every step keeps this, and that the surfaces a step
 returns to the pool are in use when it returns them and have no owner afterwards.
 */
module Ownership {
  import opened Values
  import opened Handles
  import opened Progress
  import opened Surfaces
  import opened SerialDecode
  import opened FrameThread

  predicate Coded(f: Flight) {
    f.job.Some?
  }

  ghost predicate Within(ss: seq<int>, u: set<int>) {
    forall i | 0 <= i < |ss| :: ss[i] in u
  }

  /** Everything that is named is in use. */
  ghost predicate AllInUse(u: set<int>, slots: seq<int>, flight: seq<Flight>, ready: seq<Out>, shown: seq<int>) {
    && (forall i | 0 <= i < |slots| :: slots[i] >= 0 ==> slots[i] in u)
    && (forall j | 0 <= j < |flight| :: flight[j].surface in u && Within(flight[j].releases, u))
    && (forall i | 0 <= i < |ready| :: ready[i].surface in u)
    && Within(shown, u)
  }

  /** A surface that is still being written was not returned to anybody yet. */
  ghost predicate WritesAlone(flight: seq<Flight>, ready: seq<Out>, shown: seq<int>) {
    && (forall j, k | 0 <= j < k < |flight| && Coded(flight[k]) :: flight[j].surface != flight[k].surface)
    && (forall j, i | 0 <= j < |flight| && Coded(flight[j]) && 0 <= i < |ready| ::
          flight[j].surface != ready[i].surface)
    && (forall j | 0 <= j < |flight| && Coded(flight[j]) :: flight[j].surface !in shown)
  }

  /** A dropped surface is named by no slot, is on one release list, once, and was not dropped by the
      frame that writes it or by an earlier one. */
  ghost predicate DroppedOnce(slots: seq<int>, flight: seq<Flight>) {
    && (forall k | 0 <= k < |flight| :: Distinct(flight[k].releases))
    && (forall k, s | 0 <= k < |flight| && s in flight[k].releases :: s !in slots)
    && (forall j, k, s | 0 <= j < k < |flight| && s in flight[j].releases :: s !in flight[k].releases)
    && (forall j, k | 0 <= k <= j < |flight| && Coded(flight[j]) :: flight[j].surface !in flight[k].releases)
  }

  ghost predicate DroppedSince(flight: seq<Flight>, j: nat, s: int) {
    exists k :: j <= k < |flight| && s in flight[k].releases
  }

  /** A surface that a frame in flight reads is still named by a slot, or is on the release list of
      that frame or of a later one. */
  ghost predicate ReadersProtected(slots: seq<int>, flight: seq<Flight>) {
    forall j, s | 0 <= j < |flight| && s in flight[j].pix.needs :: Protected(slots, flight, j, s)
  }

  ghost predicate Protected(slots: seq<int>, flight: seq<Flight>, j: nat, s: int) {
    s >= 0 && (s in slots || DroppedSince(flight, j, s))
  }

  /** A coded frame writes its own surface; a picture shown again only reads. */
  ghost predicate WellFormed(flight: seq<Flight>) {
    forall j | 0 <= j < |flight| ::
      if Coded(flight[j]) then flight[j].pix.makes == flight[j].surface
      else flight[j].pix.makes == NONE && flight[j].pix.needs == [flight[j].surface]
           && flight[j].surface !in flight[j].releases
  }

  ghost predicate Owned(u: set<int>, slots: seq<int>, flight: seq<Flight>, ready: seq<Out>, shown: seq<int>) {
    && AllInUse(u, slots, flight, ready, shown)
    && WritesAlone(flight, ready, shown)
    && DroppedOnce(slots, flight)
    && ReadersProtected(slots, flight)
    && WellFormed(flight)
    && Distinct(shown)
  }

  ghost predicate OwnedState(st: State) {
    && ValidPool(st.pool)
    && Owned(Used(st.pool), st.slots, st.flight, st.ready, st.shown)
  }

  /** What a frame in flight reads is in use. */
  lemma ReadsInUse(u: set<int>, slots: seq<int>, flight: seq<Flight>, ready: seq<Out>, shown: seq<int>, j: nat, s: int)
    requires Owned(u, slots, flight, ready, shown) && j < |flight| && s in flight[j].pix.needs
    ensures s in u
  {
    if s !in slots {
      var k :| j <= k < |flight| && s in flight[k].releases;
    }
  }

  /** A surface that is free is one that nobody writes, reads or is shown. */
  lemma FreeIsFresh(u: set<int>, slots: seq<int>, flight: seq<Flight>, ready: seq<Out>, shown: seq<int>, s: nat)
    requires Owned(u, slots, flight, ready, shown) && s !in u
    ensures s !in slots
    ensures forall j | 0 <= j < |flight| ::
              flight[j].surface != s && flight[j].pix.makes != s && s !in flight[j].pix.needs
    ensures forall i | 0 <= i < |ready| :: ready[i].surface != s
  {
    forall j | 0 <= j < |flight|
      ensures s !in flight[j].pix.needs
    {
      if s in flight[j].pix.needs {
        ReadsInUse(u, slots, flight, ready, shown, j, s);
      }
    }
  }

  // ----- steps ------------------------------------------------------------------------------

  /** An entry joins the queue: a coded frame on a surface that was free, or a picture shown again. */
  lemma JoinOwned(u: set<int>, slots: seq<int>, flight: seq<Flight>, ready: seq<Out>, shown: seq<int>,
                  f: Flight, refresh: seq<bool>)
    requires Owned(u, slots, flight, ready, shown) && |slots| == |refresh|
    requires Coded(f) ==> f.surface !in u
    requires !Coded(f) ==> f.surface in slots
    requires f.releases == Dropped(slots, refresh, f.surface)
    requires forall s | s in f.pix.needs :: s >= 0 && s in slots
    requires WellFormed([f])
    ensures Owned(u + {f.surface}, RefreshedSlots(slots, refresh, f.surface), flight + [f], ready, shown)
  {
    DroppedExactly(slots, refresh, f.surface);
    var slots' := RefreshedSlots(slots, refresh, f.surface);
    var flight' := flight + [f];
    assert flight'[|flight|] == f;
    assert forall j | 0 <= j < |flight| :: flight'[j] == flight[j];
    assert forall s | s in slots' :: s in slots || s == f.surface;
    assert forall s | s in slots && s >= 0 :: s in slots' || s in f.releases;
    assert [f][0] == f;
    JoinDropped(u, slots, flight, ready, shown, f, slots');
    JoinReaders(slots, flight, f, slots');
    forall i | 0 <= i < |f.releases|
      ensures f.releases[i] in u
    {
      assert f.releases[i] in f.releases;
    }
  }

  lemma JoinDropped(u: set<int>, slots: seq<int>, flight: seq<Flight>, ready: seq<Out>, shown: seq<int>,
                    f: Flight, slots': seq<int>)
    requires Owned(u, slots, flight, ready, shown)
    requires Coded(f) ==> f.surface !in u
    requires !Coded(f) ==> f.surface in slots
    requires Distinct(f.releases) && forall s | s in f.releases :: s in slots && s !in slots' && s >= 0
    requires forall s | s in slots' :: s in slots || s == f.surface
    ensures DroppedOnce(slots', flight + [f])
  {
    var flight' := flight + [f];
    forall k, s | 0 <= k < |flight'| && s in flight'[k].releases
      ensures s !in slots'
    {
      if k < |flight| {
        assert s in flight[k].releases && s in u;
      }
    }
    forall j, k | 0 <= k <= j < |flight'| && Coded(flight'[j])
      ensures flight'[j].surface !in flight'[k].releases
    {
      if j == |flight| && k < j {
        assert Within(flight[k].releases, u);
      }
    }
  }

  lemma JoinReaders(slots: seq<int>, flight: seq<Flight>, f: Flight, slots': seq<int>)
    requires ReadersProtected(slots, flight)
    requires forall s | s in f.pix.needs :: s >= 0 && s in slots
    requires forall s | s in slots && s >= 0 :: s in slots' || s in f.releases
    ensures ReadersProtected(slots', flight + [f])
  {
    var flight' := flight + [f];
    forall j, s | 0 <= j < |flight'| && s in flight'[j].pix.needs
      ensures Protected(slots', flight', j, s)
    {
      assert j < |flight| ==> flight'[j] == flight[j] && Protected(slots, flight, j, s);
      if s in f.releases {
        assert flight'[|flight|] == f && s in flight'[|flight|].releases;
      } else if j < |flight| && s !in slots' {
        var k :| j <= k < |flight| && s in flight[k].releases;
        assert s in flight'[k].releases;
      }
    }
  }

  /** A step of a frame goroutine changes no owner. */
  lemma SameOwned(u: set<int>, slots: seq<int>, flight: seq<Flight>, ready: seq<Out>, shown: seq<int>, flight': seq<Flight>)
    requires Owned(u, slots, flight, ready, shown)
    requires |flight'| == |flight|
    requires forall j | 0 <= j < |flight| ::
               flight'[j].surface == flight[j].surface && flight'[j].releases == flight[j].releases
               && flight'[j].pix.needs == flight[j].pix.needs && flight'[j].pix.makes == flight[j].pix.makes
               && Coded(flight'[j]) == Coded(flight[j])
    ensures Owned(u, slots, flight', ready, shown)
  {
    forall j, s | 0 <= j < |flight'| && s in flight'[j].pix.needs
      ensures Protected(slots, flight', j, s)
    {
      assert s in flight[j].pix.needs && Protected(slots, flight, j, s);
      if s !in slots {
        var k :| j <= k < |flight| && s in flight[k].releases;
        assert s in flight'[k].releases;
      }
    }
  }

  /** Retiring frees exactly the surfaces that the oldest frame dropped and this call does not
      return. No slot names them, no frame still in flight writes or reads them, and nobody else is
      going to release them. */
  lemma RetireFrees(u: set<int>, slots: seq<int>, flight: seq<Flight>, ready: seq<Out>, shown: seq<int>, s: int)
    requires Owned(u, slots, flight, ready, shown) && flight != []
    requires s in flight[0].releases && s !in ReadySurfaces(ready)
    ensures s in u && s !in slots
    ensures forall i | 0 <= i < |ready| :: ready[i].surface != s
    ensures s != flight[0].surface || !Coded(flight[0])
    ensures forall j | 1 <= j < |flight| ::
              (Coded(flight[j]) ==> flight[j].surface != s) && s !in flight[j].pix.needs && s !in flight[j].releases
  {
    var i :| 0 <= i < |flight[0].releases| && flight[0].releases[i] == s;
    assert Within(flight[0].releases, u);
    assert forall i | 0 <= i < |ready| :: ready[i].surface in ReadySurfaces(ready);
    forall j | 1 <= j < |flight|
      ensures s !in flight[j].pix.needs
    {
      assert !DroppedSince(flight, j, s);
    }
  }

  /** After the oldest entry left, keeping or returning its picture. out is its surface, if queued. */
  lemma RetireOwned(u: set<int>, slots: seq<int>, flight: seq<Flight>, ready: seq<Out>, shown: seq<int>, ready': seq<Out>)
    requires Owned(u, slots, flight, ready, shown) && flight != [] && shown == []
    requires ready' == ready || ready' == ready + [Out(flight[0].id, flight[0].surface)]
    ensures Owned(u - (Elements(flight[0].releases) - ReadySurfaces(ready)), slots, flight[1..], ready', shown)
  {
    var freed := Elements(flight[0].releases) - ReadySurfaces(ready);
    var flight' := flight[1..];
    assert forall j | 0 <= j < |flight'| :: flight'[j] == flight[j + 1];
    forall s | s in freed
      ensures s !in slots && forall i | 0 <= i < |ready'| :: ready'[i].surface != s
      ensures forall j | 0 <= j < |flight'| ::
                flight'[j].surface != s && s !in flight'[j].pix.needs && s !in flight'[j].releases
    {
      RetireFrees(u, slots, flight, ready, shown, s);
    }
    RetireReaders(slots, flight);
    assert flight[0].surface !in freed;
    forall j | 0 <= j < |flight'|
      ensures Within(flight'[j].releases, u - freed)
    {
      assert Within(flight[j + 1].releases, u);
    }
  }

  lemma RetireReaders(slots: seq<int>, flight: seq<Flight>)
    requires ReadersProtected(slots, flight) && flight != []
    ensures ReadersProtected(slots, flight[1..])
  {
    var flight' := flight[1..];
    forall j, s | 0 <= j < |flight'| && s in flight'[j].pix.needs
      ensures Protected(slots, flight', j, s)
    {
      assert s in flight[j + 1].pix.needs && Protected(slots, flight, j + 1, s);
      if s !in slots {
        var k :| j + 1 <= k < |flight| && s in flight[k].releases;
        assert s in flight'[k - 1].releases;
      }
    }
  }

  /** The start of a call frees exactly the surfaces of the last batch that no slot names and no
      frame in flight will return; no frame in flight writes or reads them. */
  lemma BeginFrees(u: set<int>, slots: seq<int>, flight: seq<Flight>, ready: seq<Out>, shown: seq<int>, s: int)
    requires Owned(u, slots, flight, ready, shown)
    requires s in shown && s !in slots && s !in Deferred(flight)
    ensures s in u
    ensures forall j | 0 <= j < |flight| ::
              (Coded(flight[j]) ==> flight[j].surface != s) && s !in flight[j].pix.needs && s !in flight[j].releases
  {
    var i :| 0 <= i < |shown| && shown[i] == s;
    assert Within(shown, u);
    assert forall k, x | 0 <= k < |flight| && x in flight[k].releases :: x in Deferred(flight);
    forall j | 0 <= j < |flight|
      ensures s !in flight[j].pix.needs
    {
      assert !DroppedSince(flight, j, s);
    }
  }

  lemma BeginOwned(u: set<int>, slots: seq<int>, flight: seq<Flight>, ready: seq<Out>, shown: seq<int>)
    requires Owned(u, slots, flight, ready, shown)
    ensures Owned(u - (Elements(shown) - (Elements(slots) + Deferred(flight))), slots, flight, [], [])
  {
    var freed := Elements(shown) - (Elements(slots) + Deferred(flight));
    forall s | s in freed
      ensures s !in slots
      ensures forall j | 0 <= j < |flight| :: flight[j].surface != s && s !in flight[j].releases
    {
      BeginFrees(u, slots, flight, ready, shown, s);
    }
    forall j | 0 <= j < |flight|
      ensures Within(flight[j].releases, u - freed)
    {
      assert Within(flight[j].releases, u);
    }
  }

  lemma {:induction false} TrackedExactly(ready: seq<Out>)
    ensures Distinct(Tracked(ready))
    ensures forall s | s in Tracked(ready) :: s in ReadySurfaces(ready)
    ensures |ready| <= SHOWN_CAPACITY ==> Elements(Tracked(ready)) == ReadySurfaces(ready)
    ensures |Tracked(ready)| <= |ready|
  {
    if ready != [] {
      var last := |ready| - 1;
      TrackedExactly(ready[..last]);
      assert ReadySurfaces(ready) == ReadySurfaces(ready[..last]) + {ready[last].surface as int};
    }
  }

  lemma EndOwned(u: set<int>, slots: seq<int>, flight: seq<Flight>, ready: seq<Out>, shown: seq<int>, shown': seq<int>)
    requires Owned(u, slots, flight, ready, shown)
    requires shown' == Tracked(ready) || shown' == []
    ensures Owned(u, slots, flight, ready, shown')
  {
    TrackedExactly(ready);
    forall s | s in shown'
      ensures s in u && forall j | 0 <= j < |flight| && Coded(flight[j]) :: flight[j].surface != s
    {
      var i :| 0 <= i < |ready| && ready[i].surface == s;
    }
    assert forall i | 0 <= i < |shown'| :: shown'[i] in shown';
  }
}
