/**
 The ring of frame contexts: the submitting goroutine's code, in its imperative form.

 The contexts are used round robin. Every method is proved to be a run of the step relation, so that
 everything proved about runs holds of it; while a method blocks, the frame goroutines take enabled
 steps in any order.
 */
module FrameRing {
  import opened Values
  import opened Surfaces
  import opened SerialDecode
  import opened FrameThread
  import opened Refinement
  import opened FrameThreadTheorems
  import opened FrameThreadOutput
  import opened FrameThreadPool
  import opened FrameCalls
  import opened FrameDelay

  // ----- the ring on values -----------------------------------------------------------------

  /** How far context i is behind base in ring order. */
  function Position(n: nat, base: nat, i: nat): nat
    requires base < n && i < n
  {
    if base <= i then i - base else i + n - base
  }

  /** The context at position k. */
  method ContextAt(n: nat, base: nat, k: nat) returns (i: nat)
    requires base < n && k < n
    ensures i < n && Position(n, base, i) == k
  {
    i := (base + k) % n;
    WrapOnce(n, base + k);
  }

  lemma WrapOnce(n: nat, x: nat)
    requires 0 < n && x < n + n
    ensures x % n == if x < n then x else x - n
  {
    var q := x / n;
    assert x == q * n + x % n;
    assert q == 0 || q == 1;
  }

  /** The submission that the context at position k holds, when f submissions are in flight, count have
      been made, and the gap last contexts are idle. */
  function Holding(n: nat, gap: nat, f: nat, count: nat, k: nat): Option<nat>
    requires f + gap <= n && f <= count
  {
    if n - gap - f <= k < n - gap then Some(count - (n - gap) + k) else None
  }

  /** The busy contexts are consecutive in ring order and hold the frames in flight, oldest first. */
  predicate Ring(cs: seq<Option<nat>>, base: nat, gap: nat, f: nat, count: nat) {
    && base < |cs| && f + gap <= |cs| && f <= count
    && forall i | 0 <= i < |cs| :: cs[i] == Holding(|cs|, gap, f, count, Position(|cs|, base, i))
  }

  /** The same, sealed: the methods below do not look into it. */
  ghost predicate Placed(cs: seq<Option<nat>>, base: nat, gap: nat, f: nat, count: nat) {
    && base < |cs| && f + gap <= |cs| && f <= count
    && forall k: int {:trigger Open(k)} :: Open(k) ==> Ring(cs, base, gap, f, count)
  }

  function Following(n: nat, i: nat): nat {
    if i + 1 == n then 0 else i + 1
  }

  lemma RingAt(cs: seq<Option<nat>>, base: nat, gap: nat, f: nat, count: nat, i: nat)
    requires Placed(cs, base, gap, f, count) && i < |cs|
    ensures cs[i] == Holding(|cs|, gap, f, count, Position(|cs|, base, i))
  {
    assert Open(0);
  }

  lemma RingStart(cs: seq<Option<nat>>)
    requires cs != [] && forall i | 0 <= i < |cs| :: cs[i].None?
    ensures Placed(cs, 0, 0, 0, 0)
  {
  }

  lemma RingRetire(cs: seq<Option<nat>>, base: nat, gap: nat, f: nat, count: nat, i: nat)
    requires Placed(cs, base, gap, f, count) && f > 0 && i < |cs| && cs[i] == Some(count - f)
    ensures Placed(cs[i := None], base, gap, f - 1, count)
  {
    assert Open(0);
    assert Ring(cs[i := None], base, gap, f - 1, count);
  }

  lemma RingTake(cs: seq<Option<nat>>, base: nat, f: nat, count: nat)
    requires Placed(cs, base, 0, f, count) && f < |cs|
    ensures Placed(cs, Following(|cs|, base), 1, f, count)
  {
    assert Open(0);
    assert Ring(cs, Following(|cs|, base), 1, f, count);
  }

  lemma RingPut(cs: seq<Option<nat>>, i: nat, f: nat, count: nat)
    requires i < |cs| && Placed(cs, Following(|cs|, i), 1, f, count)
    ensures Placed(cs[i := Some(count)], Following(|cs|, i), 0, f + 1, count + 1)
  {
    assert Open(0);
    assert Ring(cs[i := Some(count)], Following(|cs|, i), 0, f + 1, count + 1);
  }

  lemma RingIdle(cs: seq<Option<nat>>, base: nat, gap: nat, count: nat)
    requires Placed(cs, base, gap, 0, count)
    ensures Placed(cs, base, 0, 0, count)
  {
    assert Open(0);
    assert Ring(cs, base, 0, 0, count);
  }

  /** While nothing is in flight the ring does not depend on the number of submissions. */
  lemma RingCount(cs: seq<Option<nat>>, base: nat, count: nat, count': nat)
    requires Placed(cs, base, 0, 0, count)
    ensures Placed(cs, base, 0, 0, count')
  {
    assert Open(0);
    assert Ring(cs, base, 0, 0, count');
  }

  /** What a call is fed with: a unit for the ring, a frame that is decoded serially, or an event that only
      waits for the frames in flight. */
  datatype Piece = Threaded(unit: Unit) | Serial(e: Event) | Barrier

  /** A frame that needs no reference. */
  predicate Plain(p: Piece) {
    p.Threaded? && p.unit.Frame? && ValidEvent(p.unit.e) && !p.unit.e.inter
  }

  function UnitsIn(pieces: seq<Piece>): seq<Unit> {
    if pieces == [] then []
    else
      UnitsIn(pieces[..|pieces| - 1])
      + match pieces[|pieces| - 1]
        case Threaded(u) => [u]
        case Serial(e) => [Frame(e)]
        case Barrier => []
  }

  lemma BodyGrows(before: seq<Label>, body: seq<Label>, ls: seq<Label>, pieces: seq<Piece>, k: nat)
    requires k < |pieces| && Inside(body) && Inside(ls)
    requires Units(body) == UnitsIn(pieces[..k]) && Units(ls) == UnitsIn([pieces[k]])
    ensures Inside(body + ls) && Units(body + ls) == UnitsIn(pieces[..k + 1])
    ensures before + [BeginCall] + (body + ls) == before + [BeginCall] + body + ls
  {
    UnitsConcat(body, ls);
    assert pieces[..k + 1][..k] == pieces[..k];
    assert [pieces[k]][..0] == [];
  }

  /** The floor moves only with a drain, or when the pool runs dry. */
  lemma FloorMoves(codec: Codec, n: nat, t0: seq<Label>, t: seq<Label>, t': seq<Label>, f0: nat, f: nat, f': nat,
                   pieces: seq<Piece>, k: nat)
    requires k < |pieces| && t0 <= t && t <= t'
    requires f != f0 && (forall j | 0 <= j < k :: pieces[j].Threaded?) ==> Dried(codec, n, t0, t)
    requires pieces[k].Threaded? && f' != f ==> Dried(codec, n, t, t')
    ensures f' != f0 && (forall j | 0 <= j < k + 1 :: pieces[j].Threaded?) ==> Dried(codec, n, t0, t')
  {
    if f' != f0 && forall j | 0 <= j < k + 1 :: pieces[j].Threaded? {
      if f' != f {
        DriedGrows(codec, n, t, t', t0, t');
      } else {
        DriedGrows(codec, n, t0, t, t0, t');
      }
    }
  }

  lemma {:induction false} UnitsInGrow(pieces: seq<Piece>, k: nat)
    requires k <= |pieces|
    ensures UnitsIn(pieces[..k]) <= UnitsIn(pieces)
    decreases |pieces|
  {
    if k == |pieces| {
      assert pieces[..k] == pieces;
    } else {
      var front := pieces[..|pieces| - 1];
      UnitsInGrow(front, k);
      assert front[..k] == pieces[..k];
    }
  }

  lemma LaterPrefix<T>(x: seq<T>, a: seq<T>, b: seq<T>)
    requires a <= b
    ensures x + a <= x + b
  {
    assert b == a + b[|a|..];
    assert x + b == (x + a) + b[|a|..];
  }

  /** The units of a refused call are some of its first pieces; if all are plain, the pool was dry. */
  lemma {:induction false} RefusedCall(codec: Codec, n: nat, before: seq<Label>, body: seq<Label>, ls: seq<Label>, more: seq<Label>,
                                       pieces: seq<Piece>, k: nat)
    requires k < |pieces| && OnlyRetires(ls) && OnlyRetires(more) && Units(body) == UnitsIn(pieces[..k])
    requires Plain(pieces[k]) ==> Dried(codec, n, before + [BeginCall] + body, before + [BeginCall] + body + ls)
    ensures Units(before + [BeginCall] + body + ls + more) <= Units(before) + UnitsIn(pieces)
    ensures Plain(pieces[k]) ==> Dried(codec, n, before, before + [BeginCall] + body + ls + more)
  {
    var t := before + [BeginCall] + body;
    InsideRetires(ls);
    InsideRetires(more);
    BegunUnits(before, body);
    UnitsConcat(t, ls);
    UnitsConcat(t + ls, more);
    UnitsInGrow(pieces, k);
    LaterPrefix(Units(before), Units(body), UnitsIn(pieces));
    if Plain(pieces[k]) {
      assert before <= t;
      DriedGrows(codec, n, t, t + ls, before, t + ls + more);
    }
  }

  class Pipeline {
    const codec: Codec
    /** Which submission each context holds, if it is busy. */
    const contexts: array<Option<nat>>
    /** The context that the next submission takes. */
    var next: nat
    /** Everything the contexts share: pool, slots, lanes, and the frames in flight. */
    var core: State
    ghost var shadow: Shadow
    /** All steps so far. */
    ghost var trace: seq<Label>
    /** How many submissions the last drain, or the last retirement for want of a surface, left behind. */
    ghost var floor: nat

    /** The contexts hold the frames in flight, in ring order from base, with gap idle ones last; and the
        state is the one that the steps so far lead to. */
    ghost predicate Going(base: nat, gap: nat)
      reads this`core, this`shadow, this`trace, contexts
    {
      && Placed(contexts[..], base, gap, |core.flight|, core.count)
      && At(codec, contexts.Length, trace, core, shadow)
    }

    /** Everything submitted since the floor is in flight, as far as the ring has room for it. */
    ghost predicate Full(gap: nat)
      reads this`core, this`floor
    {
      gap <= contexts.Length && Lags(floor, core.count, |core.flight|, contexts.Length - gap)
    }

    ghost predicate Valid()
      reads this, contexts
    {
      Going(next, 0) && Full(0)
    }

    /** The delay, exactly: a submission is still in flight if and only if it is not below the floor and fewer than
        n submissions have followed it. */
    lemma Waits(id: nat)
      requires Valid()
      ensures InFlight(core.flight, id) <==> floor <= id < core.count && core.count - id <= contexts.Length
    {
      InFlightIff(codec, contexts.Length, trace, core, shadow, floor, id);
    }

    constructor (codec: Codec, n: nat)
      requires 0 < n <= MAX_CONTEXTS
      ensures Valid() && core == Init(n) && trace == [] && floor == 0 && this.codec == codec
      ensures fresh(contexts) && contexts.Length == n
    {
      AtStart(codec, n);
      this.codec := codec;
      var idle := new Option<nat>[n](i => None);
      RingStart(idle[..]);
      this.contexts := idle;
      this.next := 0;
      this.core := Init(n);
      this.shadow := ShadowInit(n);
      this.trace := [];
      this.floor := 0;
    }

    /** Waits for the frame that context i holds and retires it. It has to be the oldest. */
    method RetireBusy(i: nat, ghost base: nat, ghost gap: nat) returns (ghost ls: seq<Label>)
      requires Going(base, gap) && core.inCall && i < contexts.Length
      requires core.flight != [] && contexts[..][i] == Some(core.count - |core.flight|)
      modifies this`core, this`trace, contexts
      ensures Going(base, gap) && contexts[..] == old(contexts[..])[i := None]
      ensures trace == old(trace) + ls && OnlyRetires(ls)
      ensures |core.flight| == |old(core.flight)| - 1
      ensures core.count == old(core.count) && core.inCall && core.submissions == old(core.submissions)
    {
      RingRetire(contexts[..], base, gap, |core.flight|, core.count, i);
      core, ls := RetireEntry(codec, core, shadow, trace);
      trace := trace + ls;
      SetContext(i, None);
    }

    /** The same, if context i holds a frame. */
    method Retire(i: nat, ghost base: nat, ghost gap: nat) returns (ghost ls: seq<Label>)
      requires Going(base, gap) && core.inCall && i < contexts.Length
      requires contexts[i].Some? ==> core.flight != [] && contexts[i].value == core.count - |core.flight|
      modifies this`core, this`trace, contexts
      ensures Going(base, gap) && contexts[..] == old(contexts[..])[i := None]
      ensures trace == old(trace) + ls && OnlyRetires(ls)
      ensures |core.flight| == |old(core.flight)| - if old(contexts[i]).Some? then 1 else 0
      ensures old(contexts[i]).None? ==> core == old(core) && ls == []
      ensures core.count == old(core.count) && core.inCall && core.submissions == old(core.submissions)
    {
      assert contexts[i] == contexts[..][i];
      if contexts[i].Some? {
        ls := RetireBusy(i, base, gap);
      } else {
        ls := [];
        assert contexts[..] == contexts[..][i := None];
      }
    }

    method SetContext(i: nat, v: Option<nat>)
      requires i < contexts.Length
      modifies contexts
      ensures contexts[..] == old(contexts[..])[i := v]
    {
      contexts[i] := v;
    }

    /** Retires the oldest frame in flight, if there is one. */
    method RetireOldest(ghost gap: nat) returns (found: bool, ghost ls: seq<Label>)
      requires Going(next, gap) && core.inCall
      modifies this`core, this`trace, contexts
      ensures Going(next, gap) && trace == old(trace) + ls
      ensures found == (old(core.flight) != []) && OnlyRetires(ls)
      ensures |core.flight| == |old(core.flight)| - (if found then 1 else 0)
      ensures !found ==> core == old(core)
      ensures core.count == old(core.count) && core.inCall && core.submissions == old(core.submissions)
    {
      var n := contexts.Length;
      for k := 0 to n
        invariant core == old(core) && trace == old(trace) && contexts[..] == old(contexts[..])
        invariant core.flight == [] || k <= n - gap - |core.flight|
      {
        var i := ContextAt(n, next, k);
        RingAt(contexts[..], next, gap, |core.flight|, core.count, i);
        assert contexts[i] == contexts[..][i];
        if contexts[i].Some? {
          ls := Retire(i, next, gap);
          return true, ls;
        }
      }
      return false, [];
    }

    /** Retires what the context at position k holds. Those before it are idle. */
    method RetireAt(k: nat, ghost gap: nat) returns (ghost ls: seq<Label>)
      requires Going(next, gap) && core.inCall && k < contexts.Length
      requires core.flight == [] || k <= contexts.Length - gap - |core.flight|
      modifies this`core, this`trace, contexts
      ensures Going(next, gap) && core.inCall && trace == old(trace) + ls && OnlyRetires(ls)
      ensures core.flight == [] || k + 1 <= contexts.Length - gap - |core.flight|
      ensures core.count == old(core.count) && core.submissions == old(core.submissions)
    {
      var i := ContextAt(contexts.Length, next, k);
      RingAt(contexts[..], next, gap, |core.flight|, core.count, i);
      assert contexts[i] == contexts[..][i];
      ls := Retire(i, next, gap);
    }

    /** Retires every frame in flight, oldest first. */
    method RetireAll(ghost gap: nat) returns (ghost ls: seq<Label>)
      requires Going(next, gap) && core.inCall
      modifies this`core, this`trace, contexts
      ensures Going(next, gap) && core.inCall && core.flight == []
      ensures trace == old(trace) + ls && OnlyRetires(ls)
      ensures core.count == old(core.count) && core.submissions == old(core.submissions)
    {
      ls := [];
      for k := 0 to contexts.Length
        invariant Going(next, gap) && core.inCall && trace == old(trace) + ls && OnlyRetires(ls)
        invariant core.flight == [] || k <= contexts.Length - gap - |core.flight|
        invariant core.count == old(core.count) && core.submissions == old(core.submissions)
      {
        ghost var more := RetireAt(k, gap);
        OnlyRetiresConcat(ls, more);
        ls := ls + more;
      }
    }

    /** Drains the ring: nothing is in flight, and the floor moves up. */
    method Drain(ghost gap: nat) returns (ghost ls: seq<Label>)
      requires Going(next, gap) && core.inCall
      modifies this`core, this`trace, this`floor, contexts
      ensures Valid() && core.flight == [] && floor == core.count
      ensures trace == old(trace) + ls && OnlyRetires(ls)
      ensures core.count == old(core.count) && core.inCall && core.submissions == old(core.submissions)
    {
      ls := RetireAll(gap);
      RingIdle(contexts[..], next, gap, core.count);
      floor := core.count;
    }

    /** Retires the frame that context i holds, where i comes first in ring order. */
    method Vacate(i: nat) returns (ghost ls: seq<Label>)
      requires Going(i, 0) && Full(0) && core.inCall
      modifies this`core, this`trace, contexts
      ensures Going(Following(contexts.Length, i), 1) && Full(1) && core.inCall
      ensures trace == old(trace) + ls && OnlyRetires(ls)
      ensures if |old(core.flight)| == contexts.Length then |core.flight| == contexts.Length - 1
              else core == old(core)
      ensures core.count == old(core.count) && core.submissions == old(core.submissions)
    {
      RingAt(contexts[..], i, 0, |core.flight|, core.count, i);
      assert contexts[i] == contexts[..][i];
      LagsTake(floor, core.count, |core.flight|, contexts.Length);
      ls := Retire(i, i, 0);
      RingTake(contexts[..], i, |core.flight|, core.count);
    }

    /** Takes the next context, retiring the frame it holds. */
    method TakeContext() returns (i: nat, ghost ls: seq<Label>)
      requires Valid() && core.inCall
      modifies this`next, this`core, this`trace, contexts
      ensures Going(next, 1) && Full(1) && core.inCall && i < contexts.Length && next == Following(contexts.Length, i)
      ensures trace == old(trace) + ls && OnlyRetires(ls)
      ensures if |old(core.flight)| == contexts.Length then |core.flight| == contexts.Length - 1
              else core == old(core)
      ensures core.count == old(core.count) && core.submissions == old(core.submissions)
    {
      i := next;
      next := if next + 1 == contexts.Length then 0 else next + 1;
      assert next == Following(contexts.Length, i);
      ls := Vacate(i);
    }

    /** Retires frames until a surface is free or none is in flight. */
    method RetireForSurface() returns (ghost ls: seq<Label>)
      requires Going(next, 1) && core.inCall
      modifies this`core, this`trace, contexts
      ensures Going(next, 1) && core.inCall && trace == old(trace) + ls
      ensures core.pool.free != [] || core.flight == []
      ensures old(core.pool.free) != [] ==> core == old(core)
      ensures |core.flight| <= |old(core.flight)| && OnlyRetires(ls)
      ensures core.count == old(core.count) && core.submissions == old(core.submissions)
    {
      ls := [];
      var more := true;
      while core.pool.free == [] && more
        invariant Going(next, 1) && core.inCall && trace == old(trace) + ls
        invariant more || core.flight == []
        invariant old(core.pool.free) != [] ==> core == old(core)
        invariant |core.flight| <= |old(core.flight)| && OnlyRetires(ls)
        invariant core.count == old(core.count) && core.submissions == old(core.submissions)
        decreases |core.flight|, more
      {
        ghost var step;
        more, step := RetireOldest(1);
        OnlyRetiresConcat(ls, step);
        ls := ls + step;
      }
    }

    /** The same; the floor moves up to what is left, if a frame had to be retired. */
    method FreeSurface() returns (ghost ls: seq<Label>)
      requires Going(next, 1) && Full(1) && core.inCall
      modifies this`core, this`trace, this`floor, contexts
      ensures Going(next, 1) && Full(1) && core.inCall && trace == old(trace) + ls
      ensures core.pool.free != [] || core.flight == []
      ensures old(core.pool.free) != [] ==> core == old(core) && floor == old(floor)
      ensures |core.flight| <= |old(core.flight)| && OnlyRetires(ls)
      ensures core.count == old(core.count) && core.submissions == old(core.submissions)
    {
      ls := RetireForSurface();
      if |core.flight| < |old(core.flight)| {
        floor := core.count - |core.flight|;
      }
    }

    /** Marks context i, the last in ring order, as holding submission count. */
    method Occupy(i: nat, count: nat, ghost base: nat, ghost f: nat)
      requires i < contexts.Length && base == Following(contexts.Length, i) && Placed(contexts[..], base, 1, f, count)
      modifies contexts
      ensures Placed(contexts[..], base, 0, f + 1, count + 1)
    {
      RingPut(contexts[..], i, f, count);
      SetContext(i, Some(count));
    }

    /** Puts the entry just submitted into context i; the steps so far are then t. */
    method Fill(i: nat, st: State, ghost g: Shadow, ghost t: seq<Label>)
      requires Placed(contexts[..], next, 1, |core.flight|, core.count) && Full(1)
      requires i < contexts.Length && next == Following(contexts.Length, i)
      requires At(codec, contexts.Length, t, st, g)
      requires |st.flight| == |core.flight| + 1 && st.count == core.count + 1
      modifies this`core, this`trace, this`shadow, contexts
      ensures Valid() && core == st && trace == t
    {
      Occupy(i, core.count, next, |core.flight|);
      core := st;
      shadow, trace := g, t;
    }

    /** Takes the next context and sees to it that a surface is free, if possible. */
    method MakeRoom() returns (i: nat, ghost ls: seq<Label>)
      requires Valid() && core.inCall
      modifies this`next, this`core, this`trace, this`floor, contexts
      ensures Going(next, 1) && Full(1) && core.inCall && i < contexts.Length && next == Following(contexts.Length, i)
      ensures core.pool.free != [] || core.flight == []
      ensures floor == old(floor) || Dried(codec, contexts.Length, old(trace), trace)
      ensures trace == old(trace) + ls && OnlyRetires(ls)
      ensures |core.flight| <= |old(core.flight)|
      ensures |old(core.flight)| < contexts.Length && old(core.pool.free) != [] ==> core == old(core)
      ensures core.count == old(core.count) && core.submissions == old(core.submissions)
    {
      i, ls := TakeContext();
      ghost var taken, dry := trace, core.pool.free == [];
      if dry {
        DriedNow(codec, contexts.Length, old(trace), trace, core, shadow);
      }
      ghost var more := FreeSurface();
      if dry {
        DriedGrows(codec, contexts.Length, old(trace), taken, old(trace), trace);
      }
      OnlyRetiresConcat(ls, more);
      ls := ls + more;
    }

    /** Submits a frame. The ring holds at most as many frames as it has contexts; nothing is retired early if
        it is not full and a surface is free, and the floor moves only if the pool has run dry. The frame is refused only for want of references or of surfaces,
        and never for want of surfaces among the first n + 1 submissions of a call in a well-behaved run. */
    method RunFrame(e: Event) returns (ok: bool, ghost ls: seq<Label>)
      requires Valid() && core.inCall
      modifies this`next, this`core, this`trace, this`shadow, this`floor, contexts
      ensures floor == old(floor) || Dried(codec, contexts.Length, old(trace), trace)
      ensures !ok && ValidEvent(e) && !e.inter ==> Dried(codec, contexts.Length, old(trace), trace)
      ensures core.inCall && OnlyRetires(ls) && trace == old(trace) + if ok then ls + [Submit(e)] else ls
      ensures ok ==> Valid()
      ensures ok ==> core.count == old(core.count) + 1 && core.submissions == old(core.submissions) + 1
      ensures ok ==> |core.flight| <= |old(core.flight)| + 1
      ensures ok && |old(core.flight)| < contexts.Length && old(core.pool.free) != [] ==>
                |core.flight| == |old(core.flight)| + 1
      ensures !ok ==> Going(next, 1) && !MaySubmit(core, e)
      ensures !ok && core.submissions <= contexts.Length && core.pool.free == [] ==>
                Misused(codec, contexts.Length, trace)
    {
      var i;
      i, ls := MakeRoom();
      var st;
      ghost var g;
      ok, st, g := TrySubmit(codec, core, shadow, trace, e);
      ghost var made := trace;
      if ok {
        Fill(i, st, g, trace + [Submit(e)]);
        if floor != old(floor) {
          DriedGrows(codec, contexts.Length, old(trace), made, old(trace), trace);
        }
      } else {
        RefusedDry(codec, contexts.Length, old(trace), trace, core, shadow, e);
      }
    }

    /** Queues a reference picture to be shown again, behind everything submitted before it. */
    method ShowAgain(shown: nat, key: bool) returns (ok: bool, ghost ls: seq<Label>)
      requires Valid() && core.inCall
      modifies this`next, this`core, this`trace, this`shadow, contexts
      ensures core.inCall && OnlyRetires(ls) && trace == old(trace) + if ok then ls + [ShowExisting(shown, key)] else ls
      ensures ok ==> Valid()
      ensures ok ==> core.count == old(core.count) + 1 && core.submissions == old(core.submissions) + 1
      ensures ok ==> |core.flight| == if |old(core.flight)| < contexts.Length then |old(core.flight)| + 1 else contexts.Length
      ensures !ok ==> Going(next, 1) && !CanShow(core, shown)
    {
      var i;
      i, ls := TakeContext();
      ok := CanShow(core, shown);
      if ok {
        var st := ShownState(core, shown, key);
        ghost var g := ShowsAgain(codec, core, shadow, trace, shown, key);
        Fill(i, st, g, trace + [ShowExisting(shown, key)]);
      }
    }

    method Begin()
      requires Valid() && !core.inCall
      modifies this`core, this`trace
      ensures Valid() && core.inCall && core.flight == old(core.flight) && trace == old(trace) + [BeginCall]
    {
      Begins(codec, core, shadow, trace);
      core, trace := Begun(core), trace + [BeginCall];
    }

    /** Decodes a frame outside the ring, with nothing in flight: submission, both passes and retirement follow each
        other, and it adds at most its own picture. */
    method RunIdle(e: Event) returns (ok: bool, ghost steps: seq<Label>)
      requires Valid() && core.inCall && core.flight == []
      modifies this`core, this`trace, this`shadow, this`floor
      ensures Valid() && core.inCall && core.flight == [] && trace == old(trace) + steps
      ensures ok ==> Inside(steps) && Units(steps) == [Frame(e)] && core.count == old(core.count) + 1
      ensures !ok ==> core == old(core) && steps == [] && !MaySubmit(core, e)
    {
      var st;
      ghost var g;
      ok, st, g, steps := SerialFrame(codec, core, shadow, trace, e);
      if ok {
        RingCount(contexts[..], next, core.count, core.count + 1);
        core := st;
        shadow, trace, floor := g, trace + steps, st.count;
      } else {
        steps := [];
      }
    }

    /** A serial event waits for the frames in flight and then decodes its frame. */
    method RunSerial(e: Event) returns (ok: bool, ghost ls: seq<Label>)
      requires Valid() && core.inCall
      modifies this`core, this`trace, this`shadow, this`floor, contexts
      ensures Valid() && core.inCall && core.flight == [] && trace == old(trace) + ls
      ensures ok ==> Inside(ls) && Units(ls) == [Frame(e)] && core.count == old(core.count) + 1
      ensures !ok ==> !MaySubmit(core, e) && OnlyRetires(ls)
    {
      ls := Drain(0);
      ghost var steps;
      ok, steps := RunIdle(e);
      if ok {
        MoreInside(ls, steps);
      } else {
        OnlyRetiresConcat(ls, steps);
      }
      ls := ls + steps;
    }

    /** Handles one piece of the stream. */
    method Feed(p: Piece) returns (ok: bool, ghost ls: seq<Label>, ghost gap: nat)
      requires Valid() && core.inCall
      modifies this`next, this`core, this`trace, this`shadow, this`floor, contexts
      ensures core.inCall && trace == old(trace) + ls
      ensures p.Threaded? && floor != old(floor) ==> Dried(codec, contexts.Length, old(trace), trace)
      ensures !ok && Plain(p) ==> Dried(codec, contexts.Length, old(trace), trace)
      ensures ok ==> Valid() && Inside(ls) && Units(ls) == UnitsIn([p])
      ensures !ok ==> Going(next, gap) && OnlyRetires(ls)
    {
      assert [p][..0] == [];
      gap := if p.Threaded? then 1 else 0;
      match p
      case Threaded(Frame(e)) =>
        ok, ls := RunFrame(e);
        if ok {
          InsideOne(ls, Submit(e));
          ls := ls + [Submit(e)];
        }
      case Threaded(Existing(shown, key)) =>
        ok, ls := ShowAgain(shown, key);
        if ok {
          InsideOne(ls, ShowExisting(shown, key));
          ls := ls + [ShowExisting(shown, key)];
        }
      case Serial(e) =>
        ok, ls := RunSerial(e);
      case Barrier =>
        ls := Drain(0);
        InsideRetires(ls);
        ok := true;
    }

    /** Ends a call that began after the steps before and has made the steps body. */
    method End(ghost before: seq<Label>, ghost st: State, ghost g: Shadow, ghost body: seq<Label>) returns (reply: Reply)
      requires Valid() && core.inCall
      requires At(codec, contexts.Length, before, st, g) && !st.inCall
      requires trace == before + [BeginCall] + body && Inside(body)
      modifies this`core, this`trace
      ensures Valid() && !core.inCall && trace == old(trace) + [EndCall] && core.flight == old(core.flight)
      ensures Reported(codec, contexts.Length, before, trace, reply) && !reply.Refused?
    {
      CallMade(codec, contexts.Length, before, st, g, body, core, shadow);
      reply := ReplyOf(core);
      core, trace := Ended(core), trace + [EndCall];
    }

    /** One call, with the pieces of one payload. If one is refused, the ring is drained and the call fails as a
        whole; otherwise it is a run that submits exactly these units. The floor moves only with a serial frame, a
        barrier or a dry pool: with Waits, a submission has left if and only if n others have followed it, or one
        of these has made it leave earlier. */
    method DecodeNext(pieces: seq<Piece>) returns (reply: Reply)
      requires Valid() && !core.inCall
      modifies this`next, this`core, this`trace, this`shadow, this`floor, contexts
      ensures reply.Refused? ==> core.flight == [] && Units(trace) <= old(Units(trace)) + UnitsIn(pieces)
      ensures reply.Refused? && (forall k | 0 <= k < |pieces| :: Plain(pieces[k])) ==>
                Dried(codec, contexts.Length, old(trace), trace)
      ensures !reply.Refused? && floor != old(floor) && (forall k | 0 <= k < |pieces| :: pieces[k].Threaded?) ==>
                Dried(codec, contexts.Length, old(trace), trace)
      ensures !reply.Refused? ==> Valid() && !core.inCall && Units(trace) == old(Units(trace)) + UnitsIn(pieces)
      ensures !reply.Refused? ==> Reported(codec, contexts.Length, old(trace), trace, reply)
    {
      Begin();
      ghost var body: seq<Label> := [];
      for k := 0 to |pieces|
        invariant Valid() && core.inCall
        invariant trace == old(trace) + [BeginCall] + body && Inside(body) && Units(body) == UnitsIn(pieces[..k])
        invariant floor != old(floor) && (forall j | 0 <= j < k :: pieces[j].Threaded?) ==>
                    Dried(codec, contexts.Length, old(trace), trace)
      {
        ghost var ls, gap;
        ghost var t, f := trace, floor;
        var ok;
        ok, ls, gap := Feed(pieces[k]);
        if !ok {
          ghost var more := Drain(gap);
          RefusedCall(codec, contexts.Length, old(trace), body, ls, more, pieces, k);
          return Refused;
        }
        FloorMoves(codec, contexts.Length, old(trace), t, trace, old(floor), f, floor, pieces, k);
        BodyGrows(old(trace), body, ls, pieces, k);
        body := body + ls;
      }
      assert pieces[..|pieces|] == pieces;
      reply := End(old(trace), old(core), old(shadow), body);
      CallUnits(old(trace), body);
    }

    /** A call without a payload, at the end of the stream: everything still in flight is returned. */
    method Flush() returns (reply: Reply)
      requires Valid() && !core.inCall
      modifies this`core, this`trace, this`floor, contexts
      ensures Valid() && !core.inCall && core.flight == [] && Units(trace) == old(Units(trace))
      ensures !reply.Refused? && Reported(codec, contexts.Length, old(trace), trace, reply)
    {
      Begin();
      ghost var body := Drain(0);
      InsideRetires(body);
      reply := End(old(trace), old(core), old(shadow), body);
      CallUnits(old(trace), body);
    }
  }
}
