/**
 Which frames and streams a session description admits: its restriction and simulcast lines, in terms of
 their text.
 */
module SdpFrames {
  import opened Values
  import opened Text
  import opened SdpRid
  import opened SdpSimulcast
  import opened SdpScan
  import opened SdpLines
  import opened SdpQueries
  import SdpLimits

  // ----- restrictions that a section keeps --------------------------------------------------

  lemma {:induction false} FilteredIff(pts: seq<string>, has: set<string>)
    ensures forall pt :: pt in Filtered(pts, has) <==> pt in pts && pt in has
  {
    if pts != [] {
      FilteredIff(pts[..|pts| - 1], has);
      assert pts == pts[..|pts| - 1] + [pts[|pts| - 1]];
    }
  }

  /** It names no payload types, or one that the section has. */
  predicate Effective(r: Rid, has: set<string>) {
    |r.payloadTypes| == 0 || exists j :: 0 <= j < |r.payloadTypes| && r.payloadTypes[j] in has
  }

  /** What a section keeps: the restriction without the payload types that it does not have. */
  lemma {:induction false} KeptIff(r: Rid, has: set<string>)
    ensures Kept(r, has).Some? <==> Effective(r, has)
    ensures Kept(r, has).Some? ==>
              var v := Kept(r, has).value;
              && v.id == r.id && v.direction == r.direction && v.restrictions == r.restrictions
              && (|v.payloadTypes| == 0 <==> |r.payloadTypes| == 0)
              && forall pt :: pt in v.payloadTypes <==> pt in r.payloadTypes && pt in has
  {
    FilteredIff(r.payloadTypes, has);
    if j :| 0 <= j < |r.payloadTypes| && r.payloadTypes[j] in has {
      assert r.payloadTypes[j] in Filtered(r.payloadTypes, has);
    }
    if Filtered(r.payloadTypes, has) != [] {
      assert Filtered(r.payloadTypes, has)[0] in r.payloadTypes;
    }
  }

  /** The order in which they are kept. */
  lemma {:induction false} FilteredParts(a: seq<string>, b: seq<string>, has: set<string>)
    ensures Filtered(a + b, has) == Filtered(a, has) + Filtered(b, has)
  {
    if b == [] {
      assert a + b == a;
    } else {
      FilteredParts(a, b[..|b| - 1], has);
      assert (a + b)[..|a + b| - 1] == a + b[..|b| - 1];
    }
  }

  /** The restrictions kept, and the lines they come from. */
  ghost predicate Placed(items: seq<Item>, from: nat, end: nat, has: set<string>, rids: seq<Rid>, at: seq<nat>) {
    && from <= end <= |items| && |at| == |rids|
    && (forall i | 0 <= i < |at| ::
          from <= at[i] < end && items[at[i]].RidLine? && Kept(items[at[i]].rid, has) == Some(rids[i]))
    && (forall i, j | 0 <= i < j < |at| :: at[i] < at[j])
    && forall n | from <= n < end && items[n].RidLine? && Effective(items[n].rid, has) :: n in at
  }

  lemma {:induction false} PlacedSnoc(items: seq<Item>, from: nat, end: nat, has: set<string>, rids: seq<Rid>, at: seq<nat>)
    requires end < |items| && Placed(items, from, end, has, rids, at)
    ensures var item := items[end];
            if item.RidLine? && Kept(item.rid, has).Some?
            then Placed(items, from, end + 1, has, rids + [Kept(item.rid, has).value], at + [end])
            else Placed(items, from, end + 1, has, rids, at)
  {
    if items[end].RidLine? {
      KeptIff(items[end].rid, has);
    }
  }

  lemma {:induction false} RidPlaces(items: seq<Item>, from: nat, end: nat, has: set<string>) returns (at: seq<nat>)
    requires from <= end <= |items|
    ensures Placed(items, from, end, has, KeptRids(items[from..end], has), at)
    decreases end
  {
    at := [];
    if from < end {
      SliceSnoc(items, from, end);
      at := RidPlaces(items, from, end - 1, has);
      PlacedSnoc(items, from, end - 1, has, KeptRids(items[from..end - 1], has), at);
      if items[end - 1].RidLine? && Kept(items[end - 1].rid, has).Some? {
        at := at + [end - 1];
      }
    }
  }

  /** The item on line n restricts frames of a payload type and a direction, and no other has its identifier. */
  ghost predicate ItemBinds(items: seq<Item>, from: nat, end: nat, n: nat, has: set<string>, pt: string, direction: string)
    requires end <= |items|
  {
    && from <= n < end && items[n].RidLine? && items[n].rid.direction == direction
    && (|items[n].rid.payloadTypes| == 0 || pt in items[n].rid.payloadTypes)
    && forall m | from <= m < end && items[m].RidLine? && Effective(items[m].rid, has) && items[m].rid.id == items[n].rid.id :: m == n
  }

  lemma {:induction false} PlacedRid(items: seq<Item>, from: nat, end: nat, has: set<string>, rids: seq<Rid>, at: seq<nat>, i: nat)
    requires Placed(items, from, end, has, rids, at) && i < |at|
    ensures from <= at[i] < end && items[at[i]].RidLine?
    ensures var r := items[at[i]].rid;
            && Effective(r, has) && rids[i].id == r.id && rids[i].direction == r.direction && rids[i].restrictions == r.restrictions
            && (|rids[i].payloadTypes| == 0 <==> |r.payloadTypes| == 0)
            && forall pt :: pt in rids[i].payloadTypes <==> pt in r.payloadTypes && pt in has
  {
    KeptIff(items[at[i]].rid, has);
  }

  lemma {:induction false} BindingPlaced(items: seq<Item>, from: nat, end: nat, has: set<string>, rids: seq<Rid>, at: seq<nat>, i: nat, pt: string, direction: string)
    requires Placed(items, from, end, has, rids, at) && i < |at| && pt in has
    ensures Binding(rids, i, pt, direction) <==> ItemBinds(items, from, end, at[i], has, pt, direction)
  {
    forall j: nat | j < |at|
      ensures items[at[j]].RidLine? && rids[j].id == items[at[j]].rid.id && Effective(items[at[j]].rid, has)
    {
      PlacedRid(items, from, end, has, rids, at, j);
    }
    PlacedRid(items, from, end, has, rids, at, i);
    AllowedIff(rids[i], pt);
    if ItemBinds(items, from, end, at[i], has, pt, direction) {
      forall j | 0 <= j < |rids| && rids[j].id == rids[i].id
        ensures j == i
      {
        assert at[j] == at[i];
      }
    }
    if Binding(rids, i, pt, direction) {
      forall m | from <= m < end && items[m].RidLine? && Effective(items[m].rid, has) && items[m].rid.id == items[at[i]].rid.id
        ensures m == at[i]
      {
        var j :| 0 <= j < |at| && at[j] == m;
        assert rids[j].id == rids[i].id;
      }
    }
  }

  /** Whatever binds is among the restrictions kept. */
  lemma {:induction false} BindsPlaced(items: seq<Item>, from: nat, end: nat, has: set<string>, rids: seq<Rid>, at: seq<nat>, n: nat, pt: string, direction: string)
    requires Placed(items, from, end, has, rids, at) && pt in has && ItemBinds(items, from, end, n, has, pt, direction)
    ensures n in at
  {
    var r := items[n].rid;
    if pt in r.payloadTypes {
      var j :| 0 <= j < |r.payloadTypes| && r.payloadTypes[j] == pt;
      assert r.payloadTypes[j] in has;
    }
  }

  // ----- simulcast lines --------------------------------------------------------------------

  /** There is one simulcast item, on line n. */
  ghost predicate OneSimulcast(items: seq<Item>, from: nat, end: nat, n: nat)
    requires end <= |items|
  {
    from <= n < end && items[n].SimulcastLine? && forall m | from <= m < end && items[m].SimulcastLine? :: m == n
  }

  lemma {:induction false} CountIs(items: seq<Item>, from: nat, end: nat)
    requires from <= end <= |items|
    ensures CountSimulcasts(items[from..end]) == 0 <==> forall m | from <= m < end :: !items[m].SimulcastLine?
    ensures CountSimulcasts(items[from..end]) == 1 <==> exists n: nat :: OneSimulcast(items, from, end, n)
    decreases end
  {
    if from < end {
      SliceSnoc(items, from, end);
      CountIs(items, from, end - 1);
      OneMoreIs(items, from, end - 1, end);
    }
  }

  lemma {:induction false} OneMoreIs(items: seq<Item>, from: nat, last: nat, end: nat)
    requires from <= last < |items| && end == last + 1
    ensures (exists n: nat :: OneSimulcast(items, from, end, n)) <==>
              if items[last].SimulcastLine? then forall m | from <= m < last :: !items[m].SimulcastLine?
              else exists n: nat :: OneSimulcast(items, from, last, n)
  {
    if items[last].SimulcastLine? {
      if forall m | from <= m < last :: !items[m].SimulcastLine? {
        assert OneSimulcast(items, from, end, last);
      }
    } else {
      if n: nat :| OneSimulcast(items, from, end, n) {
        assert OneSimulcast(items, from, last, n);
      }
      if n: nat :| OneSimulcast(items, from, last, n) {
        assert OneSimulcast(items, from, end, n);
      }
    }
  }

  // ----- a section in terms of its text -----------------------------------------------------

  /** The media line has the payload type. */
  predicate HasType(ls: seq<string>, k: nat, pt: string)
    requires k < |ls| && IsMedia(ls[k])
  {
    exists j :: 3 <= j < |Fields(ls[k][2..])| && Fields(ls[k][2..])[j] == pt
  }

  /** The restriction says something about some payload type of the section. */
  ghost predicate Counts(ls: seq<string>, k: nat, r: Rid)
    requires k < |ls| && IsMedia(ls[k])
  {
    |r.payloadTypes| == 0 || exists j :: 0 <= j < |r.payloadTypes| && HasType(ls, k, r.payloadTypes[j])
  }

  /** Line i restricts frames of a payload type and a direction by r, and no other restriction of the section that
      counts has its identifier. */
  ghost predicate LineBinds(ls: seq<string>, k: nat, i: nat, r: Rid, pt: string, direction: string)
    requires k < |ls| && IsMedia(ls[k])
  {
    && InSection(ls, k, i) && Restricts(ls[i], r) && r.direction == direction
    && (|r.payloadTypes| == 0 || pt in r.payloadTypes)
    && forall m: nat, o | InSection(ls, k, m) && Restricts(ls[m], o) && Counts(ls, k, o) && o.id == r.id :: m == i
  }

  /** The section has one simulcast line, and it says v. */
  ghost predicate OnlySimulcast(ls: seq<string>, k: nat, v: Simulcast) {
    exists i: nat :: && InSection(ls, k, i) && OffersStreams(ls[i], v)
                     && forall m: nat, w | InSection(ls, k, m) && OffersStreams(ls[m], w) :: m == i
  }

  /** Some restriction that binds has the property; with streams, one of them names it. */
  ghost predicate SomeBinds(ls: seq<string>, k: nat, pt: string, direction: string, permits: Permits, streams: Option<seq<Stream>>)
    requires k < |ls| && IsMedia(ls[k])
  {
    exists i: nat, r :: && LineBinds(ls, k, i, r, pt, direction) && permits(r.restrictions)
                        && (streams.Some? ==> Listed(streams.value, r.id))
  }

  ghost predicate NoneBinds(ls: seq<string>, k: nat, pt: string, direction: string)
    requires k < |ls| && IsMedia(ls[k])
  {
    forall i: nat, r :: !LineBinds(ls, k, i, r, pt, direction)
  }

  /** Whether the section admits frames of a payload type. With one simulcast line that has streams of the direction,
      a restriction that one of them names has to permit the frame; otherwise some restriction, if any binds it. */
  ghost predicate Admits(ls: seq<string>, k: nat, pt: string, direction: string, permits: Permits)
    requires k < |ls| && IsMedia(ls[k])
  {
    if exists v :: OnlySimulcast(ls, k, v) && |StreamsFor(v, direction)| > 0 then
      exists v :: OnlySimulcast(ls, k, v) && SomeBinds(ls, k, pt, direction, permits, Some(StreamsFor(v, direction)))
    else
      NoneBinds(ls, k, pt, direction) || SomeBinds(ls, k, pt, direction, permits, None)
  }

  // ----- the items and the text of a section ------------------------------------------------

  /** The lines of the section that line k opens are those before end, it has the payload types has, and its
      restrictions and simulcast items are what the lines say. */
  ghost predicate Same(items: seq<Item>, ls: seq<string>, k: nat, end: nat, has: set<string>) {
    && k < end <= |ls| == |items| && IsMedia(ls[k])
    && (forall i: nat :: InSection(ls, k, i) <==> k < i < end)
    && (forall pt :: pt in has <==> HasType(ls, k, pt))
    && (forall i: nat, r | i < |ls| :: items[i] == RidLine(r) <==> Restricts(ls[i], r))
    && (forall i: nat, v | i < |ls| :: items[i] == SimulcastLine(v) <==> OffersStreams(ls[i], v))
  }

  lemma {:induction false} ReadSame(items: seq<Item>, ls: seq<string>, k: nat)
    requires Read(items, ls) && Sections(items, ls) && k < |ls| && OpensVideo(ls[k])
    ensures items[k].Media? && Same(items, ls, k, NextMedia(items, k + 1), items[k].line.payloadTypes)
  {
    var end := NextMedia(items, k + 1);
    OpensVideoIff(items, ls, k);
    NextMediaEnds(items, ls, k + 1, end);
    assert end < |ls| ==> IsMedia(ls[end]);
    assert forall i: nat :: InSection(ls, k, i) <==> k < i < end;
    forall i: nat, r | i < |ls|
      ensures items[i] == RidLine(r) <==> Restricts(ls[i], r)
    {
      RidLineIff(ls[i], r);
    }
    forall i: nat, v | i < |ls|
      ensures items[i] == SimulcastLine(v) <==> OffersStreams(ls[i], v)
    {
      SimulcastLineIff(ls[i], v);
    }
  }

  lemma {:induction false} CountsIff(items: seq<Item>, ls: seq<string>, k: nat, end: nat, has: set<string>, r: Rid)
    requires Same(items, ls, k, end, has)
    ensures Effective(r, has) <==> Counts(ls, k, r)
  {
    if j :| 0 <= j < |r.payloadTypes| && r.payloadTypes[j] in has {
      assert HasType(ls, k, r.payloadTypes[j]);
    }
    if j :| 0 <= j < |r.payloadTypes| && HasType(ls, k, r.payloadTypes[j]) {
      assert r.payloadTypes[j] in has;
    }
  }

  lemma {:induction false} LineBindsIff(items: seq<Item>, ls: seq<string>, k: nat, end: nat, has: set<string>, n: nat, r: Rid, pt: string, direction: string)
    requires Same(items, ls, k, end, has)
    ensures LineBinds(ls, k, n, r, pt, direction) <==>
              k < n < end && items[n] == RidLine(r) && ItemBinds(items, k + 1, end, n, has, pt, direction)
  {
    if k < n < end && items[n] == RidLine(r) {
      if ItemBinds(items, k + 1, end, n, has, pt, direction) {
        forall m: nat, o | InSection(ls, k, m) && Restricts(ls[m], o) && Counts(ls, k, o) && o.id == r.id
          ensures m == n
        {
          CountsIff(items, ls, k, end, has, o);
          assert items[m] == RidLine(o);
        }
      }
      if LineBinds(ls, k, n, r, pt, direction) {
        forall m | k + 1 <= m < end && items[m].RidLine? && Effective(items[m].rid, has) && items[m].rid.id == r.id
          ensures m == n
        {
          CountsIff(items, ls, k, end, has, items[m].rid);
          assert items[m] == RidLine(items[m].rid);
        }
      }
    }
  }

  lemma {:induction false} PermittingBinds(items: seq<Item>, ls: seq<string>, k: nat, end: nat, has: set<string>, rids: seq<Rid>, at: seq<nat>,
                                           i: nat, pt: string, direction: string)
    requires Same(items, ls, k, end, has) && Placed(items, k + 1, end, has, rids, at) && pt in has
    requires i < |rids| && Binding(rids, i, pt, direction)
    ensures items[at[i]].RidLine?
    ensures var r := items[at[i]].rid;
            LineBinds(ls, k, at[i], r, pt, direction) && r.restrictions == rids[i].restrictions && r.id == rids[i].id
  {
    PlacedRid(items, k + 1, end, has, rids, at, i);
    BindingPlaced(items, k + 1, end, has, rids, at, i, pt, direction);
    LineBindsIff(items, ls, k, end, has, at[i], items[at[i]].rid, pt, direction);
  }

  lemma {:induction false} BindsPermitting(items: seq<Item>, ls: seq<string>, k: nat, end: nat, has: set<string>, rids: seq<Rid>, at: seq<nat>,
                                           n: nat, r: Rid, pt: string, direction: string) returns (i: nat)
    requires Same(items, ls, k, end, has) && Placed(items, k + 1, end, has, rids, at) && pt in has
    requires LineBinds(ls, k, n, r, pt, direction)
    ensures i < |rids| && Binding(rids, i, pt, direction) && r.restrictions == rids[i].restrictions && r.id == rids[i].id
  {
    LineBindsIff(items, ls, k, end, has, n, r, pt, direction);
    BindsPlaced(items, k + 1, end, has, rids, at, n, pt, direction);
    i :| 0 <= i < |at| && at[i] == n;
    PlacedRid(items, k + 1, end, has, rids, at, i);
    BindingPlaced(items, k + 1, end, has, rids, at, i, pt, direction);
  }

  lemma {:induction false} SomeBindsIff(items: seq<Item>, ls: seq<string>, k: nat, end: nat, has: set<string>, rids: seq<Rid>, at: seq<nat>,
                                        pt: string, direction: string, permits: Permits, streams: Option<seq<Stream>>)
    requires Same(items, ls, k, end, has) && Placed(items, k + 1, end, has, rids, at) && pt in has
    ensures Permitting(rids, pt, direction, permits, streams) <==> SomeBinds(ls, k, pt, direction, permits, streams)
  {
    if i :| 0 <= i < |rids| && Binding(rids, i, pt, direction) && permits(rids[i].restrictions)
            && (streams.Some? ==> Listed(streams.value, rids[i].id)) {
      PermittingBinds(items, ls, k, end, has, rids, at, i, pt, direction);
    }
    if n: nat, r :| LineBinds(ls, k, n, r, pt, direction) && permits(r.restrictions)
                    && (streams.Some? ==> Listed(streams.value, r.id)) {
      var i := BindsPermitting(items, ls, k, end, has, rids, at, n, r, pt, direction);
    }
  }

  lemma {:induction false} NoneBindsIff(items: seq<Item>, ls: seq<string>, k: nat, end: nat, has: set<string>, rids: seq<Rid>, at: seq<nat>,
                                        pt: string, direction: string)
    requires Same(items, ls, k, end, has) && Placed(items, k + 1, end, has, rids, at) && pt in has
    ensures (forall i | 0 <= i < |rids| :: !Binding(rids, i, pt, direction)) <==> NoneBinds(ls, k, pt, direction)
  {
    if i :| 0 <= i < |rids| && Binding(rids, i, pt, direction) {
      PermittingBinds(items, ls, k, end, has, rids, at, i, pt, direction);
    }
    if n: nat, r :| LineBinds(ls, k, n, r, pt, direction) {
      var i := BindsPermitting(items, ls, k, end, has, rids, at, n, r, pt, direction);
    }
  }

  lemma {:induction false} OnlyOne(items: seq<Item>, ls: seq<string>, k: nat, end: nat, has: set<string>, v: Simulcast)
    requires Same(items, ls, k, end, has) && OnlySimulcast(ls, k, v)
    ensures exists n: nat :: n < |items| && items[n] == SimulcastLine(v) && OneSimulcast(items, k + 1, end, n)
  {
    var i: nat :| InSection(ls, k, i) && OffersStreams(ls[i], v)
                  && forall m: nat, w | InSection(ls, k, m) && OffersStreams(ls[m], w) :: m == i;
    assert items[i] == SimulcastLine(v);
    forall m | k + 1 <= m < end && items[m].SimulcastLine?
      ensures m == i
    {
      assert items[m] == SimulcastLine(items[m].simulcast);
    }
    assert OneSimulcast(items, k + 1, end, i);
  }

  lemma {:induction false} OneOnly(items: seq<Item>, ls: seq<string>, k: nat, end: nat, has: set<string>, v: Simulcast, n: nat)
    requires Same(items, ls, k, end, has) && n < |items| && items[n] == SimulcastLine(v) && OneSimulcast(items, k + 1, end, n)
    ensures OnlySimulcast(ls, k, v)
  {
    forall m: nat, w | InSection(ls, k, m) && OffersStreams(ls[m], w)
      ensures m == n
    {
      assert items[m] == SimulcastLine(w);
    }
    assert InSection(ls, k, n) && OffersStreams(ls[n], v);
  }

  /** What has been gathered of the simulcast items. */
  ghost predicate Counted(c: Simulcasts, body: seq<Item>) {
    && (c.seen <==> CountSimulcasts(body) >= 1) && (c.duplicate <==> CountSimulcasts(body) >= 2)
    && (c.seen ==> SimulcastLine(c.last) in body)
  }

  /** A section's simulcast is that of its only simulcast line. */
  lemma {:induction false} OnlyIs(items: seq<Item>, ls: seq<string>, k: nat, end: nat, has: set<string>, c: Simulcasts, v: Simulcast)
    requires Same(items, ls, k, end, has) && Counted(c, items[k + 1..end])
    ensures OnlySimulcast(ls, k, v) <==> c.seen && !c.duplicate && c.last == v
  {
    CountIs(items, k + 1, end);
    if c.seen && !c.duplicate {
      InSlice(items, k + 1, end, SimulcastLine(c.last));
      var n: nat :| OneSimulcast(items, k + 1, end, n);
      assert items[n] == SimulcastLine(c.last);
      OneOnly(items, ls, k, end, has, c.last, n);
    }
    if OnlySimulcast(ls, k, v) {
      OnlyOne(items, ls, k, end, has, v);
    }
  }

  lemma {:induction false} AdmitsSection(items: seq<Item>, ls: seq<string>, k: nat, end: nat, has: set<string>, at: seq<nat>, s: Section,
                                         pt: string, direction: string, permits: Permits)
    requires Same(items, ls, k, end, has) && Placed(items, k + 1, end, has, s.table.rids, at) && pt in has
    requires Consistent(s.table) && Counted(s.simulcasts, items[k + 1..end])
    ensures FramePermitted(s, pt, direction, permits) <==> Admits(ls, k, pt, direction, permits)
  {
    var streams := StreamsFor(s.simulcasts.last, direction);
    FrameIff(s, pt, direction, permits);
    forall v
      ensures OnlySimulcast(ls, k, v) <==> s.simulcasts.seen && !s.simulcasts.duplicate && s.simulcasts.last == v
    {
      OnlyIs(items, ls, k, end, has, s.simulcasts, v);
    }
    SomeBindsIff(items, ls, k, end, has, s.table.rids, at, pt, direction, permits, Some(streams));
    SomeBindsIff(items, ls, k, end, has, s.table.rids, at, pt, direction, permits, None);
    NoneBindsIff(items, ls, k, end, has, s.table.rids, at, pt, direction);
  }

  lemma {:induction false} SectionIs(items: seq<Item>, k: nat, s: Section)
    requires k < |items| && items[k].Media? && ReadsAttributes(items[k].line) && s == SectionAt(items, k)
    ensures Consistent(s.table) && Counted(s.simulcasts, Body(items, k)) && s.table.rids == KeptRids(Body(items, k), items[k].line.payloadTypes)
  {
    GatheredConsistent(items[k].line, SessionDirection(items), Body(items, k));
    RidsAre(items[k].line, SessionDirection(items), Body(items, k), "");
    SimulcastsAre(items[k].line, SessionDirection(items), Body(items, k));
  }

  lemma {:induction false} SectionPlaces(items: seq<Item>, ls: seq<string>, k: nat, end: nat, s: Section) returns (at: seq<nat>)
    requires Read(items, ls) && Sections(items, ls) && k < |ls| && OpensVideo(ls[k])
    requires items[k].Media? && s == SectionAt(items, k) && end == NextMedia(items, k + 1)
    ensures Same(items, ls, k, end, items[k].line.payloadTypes) && Consistent(s.table) && Counted(s.simulcasts, items[k + 1..end])
    ensures Placed(items, k + 1, end, items[k].line.payloadTypes, s.table.rids, at)
  {
    OpensVideoIff(items, ls, k);
    ReadSame(items, ls, k);
    SectionIs(items, k, s);
    at := RidPlaces(items, k + 1, end, items[k].line.payloadTypes);
  }

  /** What the scan has gathered of a section, by the section's text. */
  lemma {:induction false} AdmitsIff(items: seq<Item>, ls: seq<string>, k: nat, s: Section, pt: string, direction: string, permits: Permits)
    requires Read(items, ls) && Sections(items, ls) && k < |ls| && OpensVideo(ls[k]) && TextAvailable(ls, k, pt)
    requires items[k].Media? && s == SectionAt(items, k)
    ensures FramePermitted(s, pt, direction, permits) <==> Admits(ls, k, pt, direction, permits)
  {
    var end := NextMedia(items, k + 1);
    OpensVideoIff(items, ls, k);
    var at := SectionPlaces(items, ls, k, end, s);
    AdmitsSection(items, ls, k, end, items[k].line.payloadTypes, at, s, pt, direction, permits);
  }

  // ----- the question -----------------------------------------------------------------------

  function AskFrame(direction: string, permits: Permits): (Section, string) -> bool {
    (s, pt) => FramePermitted(s, pt, direction, permits)
  }

  ghost function AdmitsIn(ls: seq<string>, k: nat, direction: string, permits: Permits): string -> bool {
    pt => k < |ls| && IsMedia(ls[k]) && Admits(ls, k, pt, direction, permits)
  }

  ghost function PermittedAt(items: seq<Item>, k: nat, direction: string, permits: Permits): string -> bool {
    pt => k < |items| && items[k].Media? && FramePermitted(SectionAt(items, k), pt, direction, permits)
  }

  lemma {:induction false} FrameAnswers(items: seq<Item>, k: nat, directionOk: string -> bool, direction: string, permits: Permits)
    ensures Answers(items, k, directionOk, AskFrame(direction, permits)) <==>
              Described(items, k, directionOk, PermittedAt(items, k, direction, permits))
  {
    AnswersIff(items, k, directionOk, AskFrame(direction, permits), PermittedAt(items, k, direction, permits));
  }

  lemma {:induction false} FrameSection(items: seq<Item>, ls: seq<string>, k: nat, directionOk: string -> bool, direction: string, permits: Permits)
    requires Read(items, ls)
    ensures Answers(items, k, directionOk, AskFrame(direction, permits)) <==>
              TextDescribed(ls, k, directionOk, AdmitsIn(ls, k, direction, permits))
  {
    FrameAnswers(items, k, directionOk, direction, permits);
    DescribedIff(items, ls, k, directionOk, PermittedAt(items, k, direction, permits));
    ReadSections(items, ls);
    if k < |ls| && OpensVideo(ls[k]) {
      OpensVideoIff(items, ls, k);
      forall pt | TextAvailable(ls, k, pt)
        ensures PermittedAt(items, k, direction, permits)(pt) == AdmitsIn(ls, k, direction, permits)(pt)
      {
        AdmitsIff(items, ls, k, SectionAt(items, k), pt, direction, permits);
      }
    }
    SameDescribed(ls, k, directionOk, PermittedAt(items, k, direction, permits), AdmitsIn(ls, k, direction, permits));
  }

  /** Whether some section admits frames of AV1. */
  method NegotiatesFrame(sdp: string, directionOk: string -> bool, direction: string, permits: Permits) returns (ok: bool)
    ensures var ls := LinesOf(sdp);
            ok <==> exists k :: TextDescribed(ls, k, directionOk, AdmitsIn(ls, k, direction, permits))
  {
    var items := Items(sdp);
    var section;
    ghost var at;
    ok, section, at := Scan(items, directionOk, AskFrame(direction, permits));
    ItemsRead(sdp);
    forall k
      ensures Answers(items, k, directionOk, AskFrame(direction, permits)) <==>
                TextDescribed(LinesOf(sdp), k, directionOk, AdmitsIn(LinesOf(sdp), k, direction, permits))
    {
      FrameSection(items, LinesOf(sdp), k, directionOk, direction, permits);
    }
  }

  /** A frame of a size and rate. */
  function Fitting(f: SdpLimits.Frame): Permits {
    r => SdpLimits.AllowsFrame(r, f) == Ok(true)
  }

  /** Whatever restricts it is judged by its meaning, if the frame's samples per second are a 64-bit number. */
  lemma {:induction false} Judged(ls: seq<string>, k: nat, i: nat, r: Rid, pt: string, direction: string, f: SdpLimits.Frame)
    requires k < |ls| && IsMedia(ls[k]) && LineBinds(ls, k, i, r, pt, direction)
    requires SdpLimits.Positive(f) && f.width * f.height * f.rate <= 0x7fff_ffff_ffff_ffff
    ensures |r.restrictions.limits| == LIMITS && (Fitting(f)(r.restrictions) <==> SdpLimits.Fits(r.restrictions, f))
  {
    SdpLimits.FrameExact(r.restrictions, f);
  }

  // ----- simulcast at all -------------------------------------------------------------------

  function Anything(): Permits {
    r => true
  }

  /** Some stream of the section's simulcast line can be sent or received with the payload type. */
  predicate HasSimulcast(s: Section, pt: string, direction: string) {
    if direction == "" then Streaming(s, pt, "send") || Streaming(s, pt, "recv") else Streaming(s, pt, direction)
  }

  predicate Streaming(s: Section, pt: string, direction: string) {
    var ids := SimulcastRids(s.simulcasts, direction);
    ids.Some? && Permitted(s.table, ids.value, pt, direction, Anything())
  }

  /** The loop over the identifiers. */
  method CheckStreaming(s: Section, pt: string, direction: string) returns (ok: bool)
    ensures ok == Streaming(s, pt, direction)
  {
    var ids := SimulcastRids(s.simulcasts, direction);
    if ids.None? {
      return false;
    }
    for i := 0 to |ids.value|
      invariant forall k | 0 <= k < i ::
                  var r := Lookup(s.table, ids.value[k], direction);
                  !(r.Some? && PayloadAllowed(r.value, pt))
    {
      var r := Lookup(s.table, ids.value[i], direction);
      if r.Some? && PayloadAllowed(r.value, pt) {
        return true;
      }
    }
    return false;
  }

  method CheckSimulcast(s: Section, pt: string, direction: string) returns (ok: bool)
    ensures ok == HasSimulcast(s, pt, direction)
  {
    if !s.simulcasts.seen || s.simulcasts.duplicate {
      return false;
    }
    if direction == "" {
      ok := CheckStreaming(s, pt, "send");
      if !ok {
        ok := CheckStreaming(s, pt, "recv");
      }
      return;
    }
    ok := CheckStreaming(s, pt, direction);
  }

  /** The section's only simulcast line has a stream of the direction that names a restriction for the payload type. */
  ghost predicate Streams(ls: seq<string>, k: nat, pt: string, direction: string)
    requires k < |ls| && IsMedia(ls[k])
  {
    exists v :: OnlySimulcast(ls, k, v) && SomeBinds(ls, k, pt, direction, Anything(), Some(StreamsFor(v, direction)))
  }

  ghost predicate StreamsEither(ls: seq<string>, k: nat, pt: string, direction: string)
    requires k < |ls| && IsMedia(ls[k])
  {
    if direction == "" then Streams(ls, k, pt, "send") || Streams(ls, k, pt, "recv") else Streams(ls, k, pt, direction)
  }

  lemma {:induction false} StreamingSection(items: seq<Item>, ls: seq<string>, k: nat, end: nat, has: set<string>, at: seq<nat>, s: Section,
                                            pt: string, direction: string)
    requires Same(items, ls, k, end, has) && Placed(items, k + 1, end, has, s.table.rids, at) && pt in has
    requires Consistent(s.table) && Counted(s.simulcasts, items[k + 1..end])
    ensures Streaming(s, pt, direction) <==> Streams(ls, k, pt, direction)
  {
    var streams := StreamsFor(s.simulcasts.last, direction);
    forall v
      ensures OnlySimulcast(ls, k, v) <==> s.simulcasts.seen && !s.simulcasts.duplicate && s.simulcasts.last == v
    {
      OnlyIs(items, ls, k, end, has, s.simulcasts, v);
    }
    StreamsPermit(s.table, streams, pt, direction, Anything());
    SomeBindsIff(items, ls, k, end, has, s.table.rids, at, pt, direction, Anything(), Some(streams));
  }

  lemma {:induction false} StreamsIff(items: seq<Item>, ls: seq<string>, k: nat, s: Section, pt: string, direction: string)
    requires Read(items, ls) && Sections(items, ls) && k < |ls| && OpensVideo(ls[k]) && TextAvailable(ls, k, pt)
    requires items[k].Media? && s == SectionAt(items, k)
    ensures HasSimulcast(s, pt, direction) <==> StreamsEither(ls, k, pt, direction)
  {
    var end := NextMedia(items, k + 1);
    OpensVideoIff(items, ls, k);
    var at := SectionPlaces(items, ls, k, end, s);
    StreamingSection(items, ls, k, end, items[k].line.payloadTypes, at, s, pt, "send");
    StreamingSection(items, ls, k, end, items[k].line.payloadTypes, at, s, pt, "recv");
    StreamingSection(items, ls, k, end, items[k].line.payloadTypes, at, s, pt, direction);
  }

  function AskSimulcast(direction: string): (Section, string) -> bool {
    (s, pt) => HasSimulcast(s, pt, direction)
  }

  ghost function StreamsIn(ls: seq<string>, k: nat, direction: string): string -> bool {
    pt => k < |ls| && IsMedia(ls[k]) && StreamsEither(ls, k, pt, direction)
  }

  ghost function StreamingAt(items: seq<Item>, k: nat, direction: string): string -> bool {
    pt => k < |items| && items[k].Media? && HasSimulcast(SectionAt(items, k), pt, direction)
  }

  lemma {:induction false} SimulcastSection(items: seq<Item>, ls: seq<string>, k: nat, directionOk: string -> bool, direction: string)
    requires Read(items, ls)
    ensures Answers(items, k, directionOk, AskSimulcast(direction)) <==> TextDescribed(ls, k, directionOk, StreamsIn(ls, k, direction))
  {
    AnswersIff(items, k, directionOk, AskSimulcast(direction), StreamingAt(items, k, direction));
    DescribedIff(items, ls, k, directionOk, StreamingAt(items, k, direction));
    ReadSections(items, ls);
    if k < |ls| && OpensVideo(ls[k]) {
      OpensVideoIff(items, ls, k);
      forall pt | TextAvailable(ls, k, pt)
        ensures StreamingAt(items, k, direction)(pt) == StreamsIn(ls, k, direction)(pt)
      {
        StreamsIff(items, ls, k, SectionAt(items, k), pt, direction);
      }
    }
    SameDescribed(ls, k, directionOk, StreamingAt(items, k, direction), StreamsIn(ls, k, direction));
  }

  /** Whether some section has simulcast streams of AV1, in a direction or, if none is named, in either. */
  method NegotiatesSimulcast(sdp: string, directionOk: string -> bool, direction: string) returns (ok: bool)
    ensures var ls := LinesOf(sdp);
            ok <==> exists k :: TextDescribed(ls, k, directionOk, StreamsIn(ls, k, direction))
  {
    var items := Items(sdp);
    var section;
    ghost var at;
    ok, section, at := Scan(items, directionOk, AskSimulcast(direction));
    ItemsRead(sdp);
    forall k
      ensures Answers(items, k, directionOk, AskSimulcast(direction)) <==>
                TextDescribed(LinesOf(sdp), k, directionOk, StreamsIn(LinesOf(sdp), k, direction))
    {
      SimulcastSection(items, LinesOf(sdp), k, directionOk, direction);
    }
  }
}
