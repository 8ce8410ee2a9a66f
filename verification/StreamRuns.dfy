/**
 Incremental and batch decoding of a list of inputs: accumulated results, and where each input's pictures go.
 */
module StreamRuns {
  import opened Numbers

  /** What parsing one input gives: its events, and how many pictures they are planned to show. */
  datatype Parsed = Parsed(ok: bool, events: nat, planned: nat)

  /** What running the events of one input gives. tally stands for any of the counters; all are added up alike. */
  datatype Decoded = Decoded(ok: bool, count: nat, tally: int, last: int, outputs: seq<nat>)

  /** An input that was pushed, and whether its events were run. */
  datatype Entry<S> = Entry(src: S, ran: bool)

  function Sources<S>(h: seq<Entry<S>>): seq<S> {
    seq(|h|, i requires 0 <= i < |h| => h[i].src)
  }

  /** Parsing depends on all inputs pushed before, decoding also on which of them were run. */
  datatype Engine<!S> = Engine(parse: (seq<S>, S) -> Parsed, decode: (seq<Entry<S>>, S) -> Decoded)

  /** No input shows more pictures than its events plan. */
  ghost predicate Modest<S(!new)>(e: Engine<S>) {
    forall h: seq<Entry<S>>, s: S :: |e.decode(h, s).outputs| <= e.parse(Sources(h), s).planned
  }

  // ----- one input --------------------------------------------------------------------------

  datatype Outcome = Outcome(events: nat, run: Decoded)

  const NO_RUN: Decoded := Decoded(false, 0, 0, 0, [])

  /** One input, with room for so many pictures. The events of an input that does not parse, or that plans more
      pictures than there is room for, are not run; the stream has moved on even so. */
  predicate Runs<S>(e: Engine<S>, h: seq<Entry<S>>, src: S, room: int) {
    var p := e.parse(Sources(h), src);
    p.ok && p.planned <= room
  }

  function OutcomeOf<S>(e: Engine<S>, h: seq<Entry<S>>, src: S, room: int): Outcome {
    Outcome(e.parse(Sources(h), src).events, if Runs(e, h, src, room) then e.decode(h, src) else NO_RUN)
  }

  // ----- results ----------------------------------------------------------------------------

  datatype Total = Total(events: nat, count: nat, tally: int, last: int, outputCount: nat)

  const NOTHING: Total := Total(0, 0, 0, 0, 0)

  /** The result with one more input. The last step is kept if the input had none. */
  function Accumulated(t: Total, r: Outcome): Total {
    Total(t.events + r.events, t.count + r.run.count, t.tally + r.run.tally,
          if r.run.count > 0 then r.run.last else t.last, t.outputCount + |r.run.outputs|)
  }

  /** Where a list of inputs has come to. */
  datatype State<S> = State(history: seq<Entry<S>>, total: Total, pictures: seq<nat>, ok: bool)

  function Next<S>(e: Engine<S>, length: nat, st: State<S>, src: S): State<S> {
    var r := OutcomeOf(e, st.history, src, length - st.total.outputCount);
    State(st.history + [Entry(src, Runs(e, st.history, src, length - st.total.outputCount))],
          Accumulated(st.total, r), st.pictures + r.run.outputs, r.run.ok)
  }

  /** The first k inputs in order, up to the first that fails. */
  function Folded<S>(e: Engine<S>, length: nat, st: State<S>, srcs: seq<S>, k: nat): State<S>
    requires k <= |srcs|
  {
    if k == 0 then st
    else
      var before := Folded(e, length, st, srcs, k - 1);
      if before.ok then Next(e, length, before, srcs[k - 1]) else before
  }

  /** After a failure nothing more is taken in. */
  lemma {:induction false} FailedStays<S>(e: Engine<S>, length: nat, st: State<S>, srcs: seq<S>, k: nat, m: nat)
    requires k <= m <= |srcs| && !Folded(e, length, st, srcs, k).ok
    ensures Folded(e, length, st, srcs, m) == Folded(e, length, st, srcs, k)
  {
    if k < m {
      FailedStays(e, length, st, srcs, k, m - 1);
    }
  }

  /** A list may be cut: taking in one part and then the other gives what the whole list gives. */
  lemma {:induction false} FoldedCut<S>(e: Engine<S>, length: nat, st: State<S>, a: seq<S>, b: seq<S>, k: nat)
    requires k <= |b|
    ensures Folded(e, length, st, a + b, |a| + k) == Folded(e, length, Folded(e, length, st, a, |a|), b, k)
  {
    if k > 0 {
      FoldedCut(e, length, st, a, b, k - 1);
    } else {
      SamePrefix(e, length, st, a, a + b, |a|);
    }
  }

  lemma {:induction false} SamePrefix<S>(e: Engine<S>, length: nat, st: State<S>, a: seq<S>, b: seq<S>, k: nat)
    requires k <= |a| && k <= |b| && a[..k] == b[..k]
    ensures Folded(e, length, st, a, k) == Folded(e, length, st, b, k)
  {
    if k > 0 {
      assert a[..k][..k - 1] == a[..k - 1] && b[..k][..k - 1] == b[..k - 1];
      assert a[..k][k - 1] == a[k - 1] && b[..k][k - 1] == b[k - 1];
      SamePrefix(e, length, st, a, b, k - 1);
    }
  }

  // ----- what a result is -------------------------------------------------------------------

  /** What input i gives when its turn comes. */
  function Taken<S>(e: Engine<S>, length: nat, st: State<S>, srcs: seq<S>, i: nat): Outcome
    requires i < |srcs|
  {
    var before := Folded(e, length, st, srcs, i);
    OutcomeOf(e, before.history, srcs[i], length - before.total.outputCount)
  }

  /** The first k inputs are all taken in. */
  predicate AllTaken<S>(e: Engine<S>, length: nat, st: State<S>, srcs: seq<S>, k: nat)
    requires k <= |srcs|
  {
    forall i | 0 <= i < k :: Folded(e, length, st, srcs, i).ok
  }

  function Outcomes<S>(e: Engine<S>, length: nat, st: State<S>, srcs: seq<S>, k: nat): (os: seq<Outcome>)
    requires k <= |srcs|
    ensures |os| == k && forall i | 0 <= i < k :: os[i] == Taken(e, length, st, srcs, i)
  {
    seq(k, i requires 0 <= i < k => Taken(e, length, st, srcs, i))
  }

  /** last is the last step of the latest of the inputs that has one, or else the one before. */
  ghost predicate LatestStep(os: seq<Outcome>, before: int, last: int) {
    || (exists i :: 0 <= i < |os| && os[i].run.count > 0 && last == os[i].run.last && forall j | i < j < |os| :: os[j].run.count == 0)
    || (last == before && forall j | 0 <= j < |os| :: os[j].run.count == 0)
  }

  /** The result of the inputs taken in: their events, steps, counters and pictures, added up, and the last step of the
      latest input that has one. */
  ghost predicate AddsUp(os: seq<Outcome>, before: Total, after: Total) {
    && after.events == before.events + Sum(seq(|os|, i requires 0 <= i < |os| => os[i].events))
    && after.count == before.count + Sum(seq(|os|, i requires 0 <= i < |os| => os[i].run.count))
    && after.tally == before.tally + Sum(seq(|os|, i requires 0 <= i < |os| => os[i].run.tally))
    && after.outputCount == before.outputCount + Sum(seq(|os|, i requires 0 <= i < |os| => |os[i].run.outputs|))
    && LatestStep(os, before.last, after.last)
  }

  lemma SumSnoc(s: seq<int>, x: int)
    ensures Sum(s + [x]) == Sum(s) + x
  {
    assert (s + [x])[..|s|] == s;
  }

  lemma AddsOne(os: seq<Outcome>, o: Outcome, before: Total, t: Total)
    requires AddsUp(os, before, t)
    ensures AddsUp(os + [o], before, Accumulated(t, o))
  {
    var all := os + [o];
    var events, counts := seq(|os|, i requires 0 <= i < |os| => os[i].events), seq(|os|, i requires 0 <= i < |os| => os[i].run.count);
    var tallies := seq(|os|, i requires 0 <= i < |os| => os[i].run.tally);
    var outputs := seq(|os|, i requires 0 <= i < |os| => |os[i].run.outputs|);
    SumSnoc(events, o.events);
    SumSnoc(counts, o.run.count);
    SumSnoc(tallies, o.run.tally);
    SumSnoc(outputs, |o.run.outputs|);
    assert seq(|all|, i requires 0 <= i < |all| => all[i].events) == events + [o.events];
    assert seq(|all|, i requires 0 <= i < |all| => all[i].run.count) == counts + [o.run.count];
    assert seq(|all|, i requires 0 <= i < |all| => all[i].run.tally) == tallies + [o.run.tally];
    assert seq(|all|, i requires 0 <= i < |all| => |all[i].run.outputs|) == outputs + [|o.run.outputs|];
    LatestOne(os, o, before.last, t.last);
  }

  lemma LatestOne(os: seq<Outcome>, o: Outcome, before: int, last: int)
    requires LatestStep(os, before, last)
    ensures LatestStep(os + [o], before, if o.run.count > 0 then o.run.last else last)
  {
    var all := os + [o];
    if o.run.count > 0 {
      assert all[|os|] == o;
    } else if i :| 0 <= i < |os| && os[i].run.count > 0 && last == os[i].run.last && forall j | i < j < |os| :: os[j].run.count == 0 {
      assert all[i] == os[i] && forall j | i < j < |all| :: all[j].run.count == 0;
    }
  }

  lemma {:induction false} FoldedAddsUp<S>(e: Engine<S>, length: nat, st: State<S>, srcs: seq<S>, k: nat)
    requires k <= |srcs| && AllTaken(e, length, st, srcs, k)
    ensures AddsUp(Outcomes(e, length, st, srcs, k), st.total, Folded(e, length, st, srcs, k).total)
  {
    if k == 0 {
      NothingAdds(Outcomes(e, length, st, srcs, 0), st.total);
    } else {
      FoldedAddsUp(e, length, st, srcs, k - 1);
      AddsOne(Outcomes(e, length, st, srcs, k - 1), Taken(e, length, st, srcs, k - 1), st.total, Folded(e, length, st, srcs, k - 1).total);
      assert Outcomes(e, length, st, srcs, k) == Outcomes(e, length, st, srcs, k - 1) + [Taken(e, length, st, srcs, k - 1)];
    }
  }

  lemma NothingAdds(os: seq<Outcome>, t: Total)
    requires os == []
    ensures AddsUp(os, t, t)
  {
  }

  // ----- the plan ---------------------------------------------------------------------------

  /** Room for the pictures of the first k inputs, planned on a copy of the stream, without running any. */
  function Planned<S>(e: Engine<S>, pushed: seq<S>, srcs: seq<S>, k: nat): nat
    requires k <= |srcs|
  {
    if k == 0 then 0 else Planned(e, pushed, srcs, k - 1) + e.parse(pushed + srcs[..k - 1], srcs[k - 1]).planned
  }

  predicate Parses<S>(e: Engine<S>, pushed: seq<S>, srcs: seq<S>, k: nat)
    requires k <= |srcs|
  {
    forall i | 0 <= i < k :: e.parse(pushed + srcs[..i], srcs[i]).ok
  }

  /** The planning pass: it fails with the first input that does not parse. */
  method Plan<S>(e: Engine<S>, pushed: seq<S>, srcs: seq<S>) returns (outputs: nat, ok: bool)
    ensures ok <==> Parses(e, pushed, srcs, |srcs|)
    ensures ok ==> outputs == Planned(e, pushed, srcs, |srcs|)
  {
    outputs, ok := 0, true;
    var stream := pushed;
    for i := 0 to |srcs|
      invariant stream == pushed + srcs[..i] && Parses(e, pushed, srcs, i) && outputs == Planned(e, pushed, srcs, i)
    {
      var p := e.parse(stream, srcs[i]);
      if !p.ok {
        return outputs, false;
      }
      outputs := outputs + p.planned;
      stream := stream + [srcs[i]];
    }
  }

  lemma {:induction false} PlannedGrows<S>(e: Engine<S>, pushed: seq<S>, srcs: seq<S>, k: nat, m: nat)
    requires k <= m <= |srcs|
    ensures Planned(e, pushed, srcs, k) <= Planned(e, pushed, srcs, m)
  {
    if k < m {
      PlannedGrows(e, pushed, srcs, k, m - 1);
    }
  }

  lemma SourcesSnoc<S>(h: seq<Entry<S>>, x: Entry<S>)
    ensures Sources(h + [x]) == Sources(h) + [x.src]
  {
  }

  /** With the planned room behind the pictures so far, every input that is reached is run, at every prefix: none is
      refused for want of room, however few pictures the inputs before it gave. */
  lemma {:induction false} PlanSuffices<S(!new)>(e: Engine<S>, length: nat, st: State<S>, srcs: seq<S>, k: nat)
    requires Modest(e) && st.ok && k <= |srcs| && Parses(e, Sources(st.history), srcs, |srcs|)
    requires st.total.outputCount + Planned(e, Sources(st.history), srcs, |srcs|) <= length
    requires Folded(e, length, st, srcs, k).ok
    ensures var now := Folded(e, length, st, srcs, k);
            && now.total.outputCount <= st.total.outputCount + Planned(e, Sources(st.history), srcs, k)
            && Sources(now.history) == Sources(st.history) + srcs[..k]
            && (k < |srcs| ==> Runs(e, now.history, srcs[k], length - now.total.outputCount))
  {
    var pushed := Sources(st.history);
    if k > 0 {
      PlanSuffices(e, length, st, srcs, k - 1);
      var before := Folded(e, length, st, srcs, k - 1);
      SourcesSnoc(before.history, Entry(srcs[k - 1], true));
      assert srcs[..k] == srcs[..k - 1] + [srcs[k - 1]];
    }
    if k < |srcs| {
      PlannedGrows(e, pushed, srcs, k + 1, |srcs|);
    }
  }

  // ----- the runner -------------------------------------------------------------------------

  /** A result that inputs are accumulated into. */
  class Result {
    var total: Total

    constructor ()
      ensures total == NOTHING
    {
      total := NOTHING;
    }
  }

  class Runner<!S(!new)> {
    const engine: Engine<S>
    /** The caller's output slots. */
    const slots: array<nat>
    /** The inputs pushed so far stand for the state of the stream and of the decoder. */
    var history: seq<Entry<S>>

    constructor (engine: Engine<S>, slots: array<nat>)
      ensures this.engine == engine && this.slots == slots && history == []
    {
      this.engine, this.slots, history := engine, slots, [];
    }

    /** The runner and a result have come to this state: the slots begin with its pictures. */
    ghost predicate At(st: State<S>)
      reads this, slots
    {
      && history == st.history && st.total.outputCount == |st.pictures| <= slots.Length
      && slots[..|st.pictures|] == st.pictures
    }

    /** Takes in one input, its pictures going to the slots from offset on. The planned pictures must fit before
        anything is run. */
    method RunAt(src: S, offset: nat) returns (r: Outcome)
      requires Modest(engine)
      modifies this`history, slots
      ensures r == OutcomeOf(engine, old(history), src, slots.Length - offset)
      ensures history == old(history) + [Entry(src, Runs(engine, old(history), src, slots.Length - offset))]
      ensures offset <= slots.Length ==> offset + |r.run.outputs| <= slots.Length
      ensures offset <= slots.Length ==> slots[..offset + |r.run.outputs|] == old(slots[..offset]) + r.run.outputs
    {
      var p := engine.parse(Sources(history), src);
      r := Outcome(p.events, NO_RUN);
      if !p.ok || offset > slots.Length || slots.Length - offset < p.planned {
        history := history + [Entry(src, false)];
        return;
      }
      r := r.(run := engine.decode(history, src));
      var outputs := r.run.outputs;
      for i := 0 to |outputs|
        invariant history == old(history) && slots[..offset + i] == old(slots[..offset]) + outputs[..i]
      {
        slots[offset + i] := outputs[i];
      }
      assert outputs[..|outputs|] == outputs;
      history := history + [Entry(src, true)];
    }

    /** The incremental form: one more input into a result. */
    method RunInto(result: Result, src: S, ghost st: State<S>) returns (ok: bool)
      requires Modest(engine) && At(st) && result.total == st.total
      modifies this`history, slots, result
      ensures At(Next(engine, slots.Length, st, src)) && result.total == Next(engine, slots.Length, st, src).total
      ensures ok == Next(engine, slots.Length, st, src).ok
    {
      var r := RunAt(src, result.total.outputCount);
      result.total := Accumulated(result.total, r);
      ok := r.run.ok;
    }

    /** The incremental form over a list, up to the first input that fails. */
    method RunAllInto(result: Result, srcs: seq<S>, ghost st: State<S>) returns (ok: bool)
      requires Modest(engine) && st.ok && At(st) && result.total == st.total
      modifies this`history, slots, result
      ensures var end := Folded(engine, slots.Length, st, srcs, |srcs|);
              At(end) && result.total == end.total && ok == end.ok
    {
      ok := true;
      for i := 0 to |srcs|
        invariant var now := Folded(engine, slots.Length, st, srcs, i);
                  ok && now.ok && At(now) && result.total == now.total
      {
        ok := RunInto(result, srcs[i], Folded(engine, slots.Length, st, srcs, i));
        if !ok {
          FailedStays(engine, slots.Length, st, srcs, i + 1, |srcs|);
          return;
        }
      }
    }

    /** The batch form: a loop of its own, over a result of its own. It ends with the result, the pictures in the
        slots and the decoder state that the incremental form ends with. */
    method RunAll(srcs: seq<S>) returns (total: Total, ok: bool)
      requires Modest(engine)
      modifies this`history, slots
      ensures var end := Folded(engine, slots.Length, State(old(history), NOTHING, [], true), srcs, |srcs|);
              At(end) && total == end.total && ok == end.ok
    {
      ghost var st := State(history, NOTHING, [], true);
      total, ok := NOTHING, true;
      for i := 0 to |srcs|
        invariant var now := Folded(engine, slots.Length, st, srcs, i);
                  ok && now.ok && At(now) && total == now.total
      {
        var r := RunAt(srcs[i], total.outputCount);
        total := Accumulated(total, r);
        if !r.run.ok {
          FailedStays(engine, slots.Length, st, srcs, i + 1, |srcs|);
          return total, false;
        }
      }
    }
  }
}
