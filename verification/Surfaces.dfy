/**
 The frame pool and the reference slots that name its surfaces.
 */
module Surfaces {
  import opened Values
  import opened Handles

  // ----- the pool ---------------------------------------------------------------------------

  /** A last-in first-out pool: free is the stack of free surfaces, used marks the others. */
  datatype Pool = Pool(free: seq<nat>, used: seq<bool>)

  function NewPool(size: nat): Pool {
    Pool(seq(size, i requires 0 <= i < size => size - 1 - i), seq(size, i => false))
  }

  ghost predicate Distinct<T>(xs: seq<T>) {
    forall i, j | 0 <= i < j < |xs| :: xs[i] != xs[j]
  }

  ghost predicate ValidPool(p: Pool) {
    && Distinct(p.free)
    && (forall i | 0 <= i < |p.free| :: p.free[i] < |p.used| && !p.used[p.free[i]])
    && (forall s | 0 <= s < |p.used| :: !p.used[s] ==> s in p.free)
  }

  function Used(p: Pool): set<int> {
    set s | 0 <= s < |p.used| && p.used[s]
  }

  function Acquired(p: Pool): (r: (Pool, nat))
    requires p.free != [] && p.free[|p.free| - 1] < |p.used|
  {
    var s := p.free[|p.free| - 1];
    (Pool(p.free[..|p.free| - 1], p.used[s := true]), s)
  }

  /** Releasing a surface that is not in use changes nothing. */
  function Released(p: Pool, s: int): Pool {
    if 0 <= s < |p.used| && p.used[s] && |p.free| < |p.used| then Pool(p.free + [s], p.used[s := false]) else p
  }

  /** Releases the surfaces of ss that keep does not name, in order. */
  function ReleasedExcept(p: Pool, ss: seq<int>, keep: set<int>): Pool
    decreases |ss|
  {
    if ss == [] then p
    else ReleasedExcept(if ss[0] in keep then p else Released(p, ss[0]), ss[1..], keep)
  }

  lemma NewPoolValid(size: nat)
    ensures ValidPool(NewPool(size)) && Used(NewPool(size)) == {}
  {
    var p := NewPool(size);
    forall s | 0 <= s < size
      ensures s in p.free
    {
      assert p.free[size - 1 - s] == s;
    }
  }

  lemma AcquiredValid(p: Pool)
    requires ValidPool(p) && p.free != []
    ensures var (r, s) := Acquired(p);
            && ValidPool(r) && |r.used| == |p.used|
            && s < |p.used| && s !in Used(p) && Used(r) == Used(p) + {s}
  {
    var (r, s) := Acquired(p);
    forall x | 0 <= x < |r.used| && !r.used[x]
      ensures x in r.free
    {
      var i :| 0 <= i < |p.free| && p.free[i] == x;
      assert i < |p.free| - 1;
      assert r.free[i] == x;
    }
  }

  /** A free stack with room for every free surface. */
  lemma FreeFits(p: Pool)
    requires ValidPool(p)
    ensures |p.free| + |Used(p)| == |p.used|
  {
    var free := set i | 0 <= i < |p.free| :: p.free[i] as int;
    DistinctSize(p.free);
    assert free == Elements(p.free);
    BelowSize(|p.used|);
    assert Below(|p.used|) == free + Used(p);
    assert free !! Used(p);
  }

  lemma {:induction false} DistinctSize(xs: seq<int>)
    requires Distinct(xs)
    ensures |Elements(xs)| == |xs|
  {
    if xs == [] {
      assert Elements(xs) == {};
    } else {
      DistinctSize(xs[1..]);
      assert Elements(xs) == {xs[0]} + Elements(xs[1..]);
    }
  }

  lemma ReleasedValid(p: Pool, s: int)
    requires ValidPool(p) && s in Used(p)
    ensures var r := Released(p, s);
            && ValidPool(r) && |r.used| == |p.used| && Used(r) == Used(p) - {s}
  {
    FreeFits(p);
    assert |Used(p)| > 0;
    var r := Released(p, s);
    assert s !in p.free;
    forall x | 0 <= x < |r.used| && !r.used[x]
      ensures x in r.free
    {
      if x == s {
        assert r.free[|p.free|] == s;
      } else {
        var i :| 0 <= i < |p.free| && p.free[i] == x;
        assert r.free[i] == x;
      }
    }
  }

  /** Releasing distinct surfaces in use frees exactly those that are not kept. */
  lemma {:induction false} ReleasedExceptValid(p: Pool, ss: seq<int>, keep: set<int>)
    requires ValidPool(p) && Distinct(ss)
    requires forall i | 0 <= i < |ss| :: ss[i] in Used(p)
    ensures var r := ReleasedExcept(p, ss, keep);
            && ValidPool(r) && |r.used| == |p.used|
            && Used(r) == Used(p) - (Elements(ss) - keep)
    decreases |ss|
  {
    if ss == [] {
      assert Elements(ss) == {};
    } else {
      var p1 := if ss[0] in keep then p else Released(p, ss[0]);
      if ss[0] !in keep {
        ReleasedValid(p, ss[0]);
      }
      assert forall i | 0 <= i < |ss[1..]| :: ss[1..][i] == ss[i + 1];
      ReleasedExceptValid(p1, ss[1..], keep);
      assert Elements(ss) == {ss[0]} + Elements(ss[1..]);
    }
  }

  // ----- reference slots --------------------------------------------------------------------

  /** The surfaces that the first i slots lose to a refresh with surface, each listed once. */
  function Overwritten(slots: seq<int>, refresh: seq<bool>, surface: int, i: nat): seq<int>
    requires i <= |slots| == |refresh|
  {
    if i == 0 then []
    else
      var before := Overwritten(slots, refresh, surface, i - 1);
      var target := slots[i - 1];
      if refresh[i - 1] && target >= 0 && target != surface && target !in before then before + [target] else before
  }

  function RefreshedSlots(slots: seq<int>, refresh: seq<bool>, surface: int): (r: seq<int>)
    requires |slots| == |refresh|
    ensures |r| == |slots|
  {
    seq(|slots|, i requires 0 <= i < |slots| => if refresh[i] then surface else slots[i])
  }

  function Without(xs: seq<int>, ys: seq<int>): seq<int> {
    if xs == [] then []
    else if xs[0] in ys then Without(xs[1..], ys)
    else [xs[0]] + Without(xs[1..], ys)
  }

  /** The surfaces a refresh drops from the slots altogether. */
  function Dropped(slots: seq<int>, refresh: seq<bool>, surface: int): seq<int>
    requires |slots| == |refresh|
  {
    Without(Overwritten(slots, refresh, surface, |slots|), RefreshedSlots(slots, refresh, surface))
  }

  lemma {:induction false} OverwrittenExactly(slots: seq<int>, refresh: seq<bool>, surface: int, i: nat)
    requires i <= |slots| == |refresh|
    ensures Distinct(Overwritten(slots, refresh, surface, i))
    ensures forall s :: s in Overwritten(slots, refresh, surface, i) <==>
              s >= 0 && s != surface && exists k :: 0 <= k < i && refresh[k] && slots[k] == s
  {
    if i > 0 {
      OverwrittenExactly(slots, refresh, surface, i - 1);
    }
  }

  lemma {:induction false} WithoutExactly(xs: seq<int>, ys: seq<int>)
    requires Distinct(xs)
    ensures Distinct(Without(xs, ys))
    ensures forall s :: s in Without(xs, ys) <==> s in xs && s !in ys
  {
    if xs != [] {
      WithoutExactly(xs[1..], ys);
      assert xs[0] !in xs[1..];
    }
  }

  /** A refresh drops exactly the surfaces that some slot named before and none names after, each
      once. */
  lemma DroppedExactly(slots: seq<int>, refresh: seq<bool>, surface: int)
    requires |slots| == |refresh|
    ensures Distinct(Dropped(slots, refresh, surface))
    ensures forall s :: s in Dropped(slots, refresh, surface) <==>
              s >= 0 && s in slots && s !in RefreshedSlots(slots, refresh, surface)
  {
    var next := RefreshedSlots(slots, refresh, surface);
    OverwrittenExactly(slots, refresh, surface, |slots|);
    WithoutExactly(Overwritten(slots, refresh, surface, |slots|), next);
    forall s | s >= 0 && s in slots && s !in next
      ensures s in Overwritten(slots, refresh, surface, |slots|)
    {
      var k :| 0 <= k < |slots| && slots[k] == s;
      assert next[k] in next;
    }
  }

  /** The in-place form of a refresh: one pass over the slots collects what is overwritten, a second
      keeps what no slot names any more. */
  method RefreshInPlace(slots: array<int>, refresh: seq<bool>, surface: int) returns (releases: seq<int>)
    requires slots.Length == |refresh|
    modifies slots
    ensures slots[..] == RefreshedSlots(old(slots[..]), refresh, surface)
    ensures releases == Dropped(old(slots[..]), refresh, surface)
  {
    ghost var was := slots[..];
    var overwritten: seq<int> := [];
    for i := 0 to slots.Length
      invariant overwritten == Overwritten(was, refresh, surface, i)
      invariant forall k | 0 <= k < slots.Length ::
                  slots[k] == if k < i && refresh[k] then surface else was[k]
    {
      if refresh[i] {
        var target := slots[i];
        if target >= 0 && target != surface && target !in overwritten {
          overwritten := overwritten + [target];
        }
        slots[i] := surface;
      }
    }
    var next := slots[..];
    assert next == RefreshedSlots(was, refresh, surface);
    releases := [];
    for i := 0 to |overwritten|
      invariant releases + Without(overwritten[i..], next) == Without(overwritten, next)
    {
      assert overwritten[i..][1..] == overwritten[i + 1..];
      if overwritten[i] !in next {
        releases := releases + [overwritten[i]];
      }
    }
  }
}
