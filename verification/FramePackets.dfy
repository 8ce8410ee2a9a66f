/**
 Packets of several frames: the sizing passes, the three buffers the frames are appended to, and the tables of
 spans over them.
 */
module FramePackets {
  type Bytes = seq<int>

  datatype Packet = Packet(payload: Bytes, descriptor: Bytes, marker: bool)

  /** One frame: its OBU, its packets, and the two lengths of its dependency descriptors. */
  datatype Frame = Frame(obu: Bytes, packets: seq<Packet>, firstLength: nat, laterLength: nat)

  /** The structure is attached to the first descriptor only, so all later ones are equally long. */
  predicate ValidFrame(f: Frame) {
    forall i | 0 <= i < |f.packets| :: |f.packets[i].descriptor| == if i == 0 then f.firstLength else f.laterLength
  }

  predicate ValidFrames(fs: seq<Frame>) {
    forall i | 0 <= i < |fs| :: ValidFrame(fs[i])
  }

  // ----- appending packets ------------------------------------------------------------------

  datatype Buffers = Buffers(payloads: Bytes, descriptors: Bytes)

  datatype Span = Span(payloadOffset: nat, payloadLength: nat, descriptorOffset: nat, descriptorLength: nat, marker: bool)

  function Put(b: Buffers, p: Packet): Buffers {
    Buffers(b.payloads + p.payload, b.descriptors + p.descriptor)
  }

  /** The buffers with the first k packets appended. */
  function PutAll(b: Buffers, ps: seq<Packet>, k: nat): Buffers
    requires k <= |ps|
  {
    if k == 0 then b else Put(PutAll(b, ps, k - 1), ps[k - 1])
  }

  /** The span of a packet that is appended to these buffers. */
  function SpanOf(b: Buffers, p: Packet): Span {
    Span(|b.payloads|, |p.payload|, |b.descriptors|, |p.descriptor|, p.marker)
  }

  function Table(b: Buffers, ps: seq<Packet>, k: nat): (t: seq<Span>)
    requires k <= |ps|
    ensures |t| == k
  {
    if k == 0 then [] else Table(b, ps, k - 1) + [SpanOf(PutAll(b, ps, k - 1), ps[k - 1])]
  }

  /** The buffers hold the packet where its span says. */
  ghost predicate Holds(b: Buffers, s: Span, p: Packet) {
    && s.payloadOffset + s.payloadLength <= |b.payloads|
    && b.payloads[s.payloadOffset..s.payloadOffset + s.payloadLength] == p.payload
    && s.descriptorOffset + s.descriptorLength <= |b.descriptors|
    && b.descriptors[s.descriptorOffset..s.descriptorOffset + s.descriptorLength] == p.descriptor
    && s.marker == p.marker
  }

  /** The spans follow each other without gaps, in both buffers. */
  ghost predicate Contiguous(spans: seq<Span>, from: Buffers, to: Buffers) {
    && (spans == [] ==> |from.payloads| == |to.payloads| && |from.descriptors| == |to.descriptors|)
    && (spans != [] ==>
          && spans[0].payloadOffset == |from.payloads| && spans[0].descriptorOffset == |from.descriptors|
          && var last := spans[|spans| - 1];
             && last.payloadOffset + last.payloadLength == |to.payloads|
             && last.descriptorOffset + last.descriptorLength == |to.descriptors|)
    && forall i, j | 0 <= i < |spans| && 0 <= j < |spans| && j == i + 1 ::
         && spans[j].payloadOffset == spans[i].payloadOffset + spans[i].payloadLength
         && spans[j].descriptorOffset == spans[i].descriptorOffset + spans[i].descriptorLength
  }

  /** What appending packets promises: what was there stays, the spans tile what is new, and each packet is found at
      its span. */
  ghost predicate Filled(from: Buffers, to: Buffers, spans: seq<Span>, ps: seq<Packet>) {
    && from.payloads <= to.payloads && from.descriptors <= to.descriptors
    && |spans| == |ps|
    && Contiguous(spans, from, to)
    && forall i | 0 <= i < |ps| :: Holds(to, spans[i], ps[i])
  }

  lemma {:induction false} TableAt(b: Buffers, ps: seq<Packet>, k: nat, i: nat)
    requires i < k <= |ps|
    ensures Table(b, ps, k)[i] == SpanOf(PutAll(b, ps, i), ps[i])
  {
    if i < k - 1 {
      TableAt(b, ps, k - 1, i);
    }
  }

  /** Later packets leave earlier ones where they are. */
  lemma {:induction false} PutGrows(b: Buffers, ps: seq<Packet>, i: nat, k: nat)
    requires i <= k <= |ps|
    ensures PutAll(b, ps, i).payloads <= PutAll(b, ps, k).payloads && PutAll(b, ps, i).descriptors <= PutAll(b, ps, k).descriptors
  {
    if i < k {
      PutGrows(b, ps, i, k - 1);
    }
  }

  lemma {:induction false} HeldAt(b: Buffers, ps: seq<Packet>, i: nat)
    requires i < |ps|
    ensures Holds(PutAll(b, ps, |ps|), Table(b, ps, |ps|)[i], ps[i])
  {
    TableAt(b, ps, |ps|, i);
    PutGrows(b, ps, i + 1, |ps|);
    var now, next, end := PutAll(b, ps, i), PutAll(b, ps, i + 1), PutAll(b, ps, |ps|);
    SlicePrefix(now.payloads, ps[i].payload, end.payloads);
    SlicePrefix(now.descriptors, ps[i].descriptor, end.descriptors);
  }

  lemma SlicePrefix(a: Bytes, p: Bytes, end: Bytes)
    requires a + p <= end
    ensures |a| + |p| <= |end| && end[|a|..|a| + |p|] == p
  {
    assert end[..|a + p|] == a + p;
    assert end[|a|..|a| + |p|] == end[..|a + p|][|a|..];
  }

  lemma TableContiguous(b: Buffers, ps: seq<Packet>)
    ensures Contiguous(Table(b, ps, |ps|), b, PutAll(b, ps, |ps|))
  {
    var spans := Table(b, ps, |ps|);
    forall i | 0 <= i < |ps|
      ensures spans[i] == SpanOf(PutAll(b, ps, i), ps[i])
    {
      TableAt(b, ps, |ps|, i);
    }
  }

  /** The table that the packets are appended with is right about them. */
  lemma TableFills(b: Buffers, ps: seq<Packet>)
    ensures Filled(b, PutAll(b, ps, |ps|), Table(b, ps, |ps|), ps)
  {
    PutGrows(b, ps, 0, |ps|);
    TableContiguous(b, ps);
    forall i | 0 <= i < |ps|
      ensures Holds(PutAll(b, ps, |ps|), Table(b, ps, |ps|)[i], ps[i])
    {
      HeldAt(b, ps, i);
    }
  }

  // ----- sizes ------------------------------------------------------------------------------

  datatype Size = Size(packets: nat, payloadBytes: nat, descriptorBytes: nat)

  function RemainingPayload(f: Frame, k: nat): nat
    requires k <= |f.packets|
    decreases |f.packets| - k
  {
    if k == |f.packets| then 0 else |f.packets[k].payload| + RemainingPayload(f, k + 1)
  }

  /** The sizing pass: one descriptor with the structure, and the others without. */
  function SizeOf(f: Frame): Size {
    var n := |f.packets|;
    Size(n, RemainingPayload(f, 0), if n == 0 then 0 else f.firstLength + f.laterLength * (n - 1))
  }

  /** The sizing pass over several frames. */
  function TotalSize(fs: seq<Frame>, k: nat): Size
    requires k <= |fs|
  {
    if k == 0 then Size(0, 0, 0)
    else
      var t, s := TotalSize(fs, k - 1), SizeOf(fs[k - 1]);
      Size(t.packets + s.packets, t.payloadBytes + s.payloadBytes, t.descriptorBytes + s.descriptorBytes)
  }

  lemma {:induction false} PayloadRemains(b: Buffers, f: Frame, k: nat)
    requires k <= |f.packets|
    ensures |PutAll(b, f.packets, k).payloads| + RemainingPayload(f, k) == |PutAll(b, f.packets, |f.packets|).payloads|
    decreases |f.packets| - k
  {
    if k < |f.packets| {
      PayloadRemains(b, f, k + 1);
    }
  }

  lemma {:induction false} DescriptorLength(b: Buffers, f: Frame, k: nat)
    requires ValidFrame(f) && k <= |f.packets|
    ensures |PutAll(b, f.packets, k).descriptors| == |b.descriptors| + if k == 0 then 0 else f.firstLength + f.laterLength * (k - 1)
  {
    if k > 0 {
      DescriptorLength(b, f, k - 1);
      if k > 1 {
        assert f.laterLength * (k - 1) == f.laterLength * (k - 2) + f.laterLength;
      }
    }
  }

  /** The packets of a frame take what its sizing pass says. */
  lemma SizeAgrees(b: Buffers, f: Frame)
    requires ValidFrame(f)
    ensures var to := PutAll(b, f.packets, |f.packets|);
            && |to.payloads| == |b.payloads| + SizeOf(f).payloadBytes
            && |to.descriptors| == |b.descriptors| + SizeOf(f).descriptorBytes
  {
    PayloadRemains(b, f, 0);
    DescriptorLength(b, f, |f.packets|);
  }

  // ----- all frames as one list of packets --------------------------------------------------

  function Flat(fs: seq<Frame>, k: nat): seq<Packet>
    requires k <= |fs|
  {
    if k == 0 then [] else Flat(fs, k - 1) + fs[k - 1].packets
  }

  function Obus(fs: seq<Frame>, k: nat): Bytes
    requires k <= |fs|
  {
    if k == 0 then [] else Obus(fs, k - 1) + fs[k - 1].obu
  }

  lemma {:induction false} FlatAt(fs: seq<Frame>, k: nat, m: nat)
    requires k < m <= |fs|
    ensures var from := |Flat(fs, k)|;
            from + |fs[k].packets| <= |Flat(fs, m)| && Flat(fs, m)[from..from + |fs[k].packets|] == fs[k].packets
  {
    if k < m - 1 {
      FlatAt(fs, k, m - 1);
    }
  }

  lemma {:induction false} ObusGrow(fs: seq<Frame>, k: nat, m: nat)
    requires k <= m <= |fs|
    ensures Obus(fs, k) <= Obus(fs, m)
  {
    if k < m {
      ObusGrow(fs, k, m - 1);
    }
  }

  /** Appending the next packets of a list is appending them on their own. */
  lemma {:induction false} PutNext(b: Buffers, all: seq<Packet>, from: nat, ps: seq<Packet>, k: nat)
    requires from + |ps| <= |all| && all[from..from + |ps|] == ps && k <= |ps|
    ensures PutAll(b, all, from + k) == PutAll(PutAll(b, all, from), ps, k)
  {
    if k > 0 {
      PutNext(b, all, from, ps, k - 1);
      assert all[from + k - 1] == ps[k - 1];
    }
  }

  lemma {:induction false} FlatGrows(fs: seq<Frame>, k: nat, m: nat)
    requires k <= m <= |fs|
    ensures |Flat(fs, k)| <= |Flat(fs, m)|
  {
    if k < m {
      FlatGrows(fs, k, m - 1);
    }
  }

  /** The packets of all frames take what the sizing pass says. */
  lemma {:induction false} TotalAgrees(b: Buffers, fs: seq<Frame>, k: nat, all: seq<Packet>)
    requires k <= |fs| && ValidFrames(fs) && all == Flat(fs, |fs|)
    ensures TotalSize(fs, k).packets == |Flat(fs, k)| <= |all|
    ensures var to := PutAll(b, all, |Flat(fs, k)|);
            && |to.payloads| == |b.payloads| + TotalSize(fs, k).payloadBytes
            && |to.descriptors| == |b.descriptors| + TotalSize(fs, k).descriptorBytes
  {
    if k > 0 {
      TotalAgrees(b, fs, k - 1, all);
      FlatGrows(fs, k, |fs|);
      FlatAt(fs, k - 1, |fs|);
      var from, f := |Flat(fs, k - 1)|, fs[k - 1];
      PutNext(b, all, from, f.packets, |f.packets|);
      SizeAgrees(PutAll(b, all, from), f);
    }
  }

  // ----- one frame --------------------------------------------------------------------------

  /** Capacities of the three buffers. */
  datatype Room = Room(obus: nat, payloads: nat, descriptors: nat)

  predicate Fits(b: Buffers, room: Room) {
    |b.payloads| <= room.payloads && |b.descriptors| <= room.descriptors
  }

  /** Appends the packets of one frame, which are the next ones of the list all, to buffers that hold those before
      them. It succeeds exactly if there are spans and room for all of them. */
  method AppendFrame(dst: Buffers, spans: array<Span>, from: nat, f: Frame, room: Room, ghost base: Buffers, ghost all: seq<Packet>)
    returns (out: Buffers, count: nat, ok: bool)
    requires from <= spans.Length && Fits(dst, room)
    requires from + |f.packets| <= |all| && all[from..from + |f.packets|] == f.packets
    requires dst == PutAll(base, all, from) && spans[..from] == Table(base, all, from)
    modifies spans
    ensures ok <==> from + |f.packets| <= spans.Length && Fits(PutAll(base, all, from + |f.packets|), room)
    ensures !ok ==> out == dst && count == 0
    ensures ok ==> count == |f.packets| && out == PutAll(base, all, from + count)
    ensures ok ==> spans[..from + count] == Table(base, all, from + count)
  {
    out, count, ok := dst, 0, true;
    while count < |f.packets|
      invariant count <= |f.packets| && from + count <= spans.Length
      invariant out == PutAll(base, all, from + count) && Fits(out, room)
      invariant spans[..from + count] == Table(base, all, from + count)
    {
      var p := f.packets[count];
      assert p == all[from + count];
      if from + count >= spans.Length || room.descriptors - |out.descriptors| < |p.descriptor|
        || room.payloads - |out.payloads| < |p.payload| {
        PutGrows(base, all, from + count + 1, from + |f.packets|);
        return dst, 0, false;
      }
      spans[from + count] := SpanOf(out, p);
      assert spans[..from + count + 1] == spans[..from + count] + [SpanOf(out, p)];
      out, count := Put(out, p), count + 1;
    }
  }

  // ----- several frames ---------------------------------------------------------------------

  datatype FrameSpan = FrameSpan(obuOffset: nat, obuLength: nat, packetOffset: nat, packetCount: nat)

  function FrameSpanOf(fs: seq<Frame>, i: nat, obuBase: nat): FrameSpan
    requires i < |fs|
  {
    FrameSpan(obuBase + |Obus(fs, i)|, |fs[i].obu|, |Flat(fs, i)|, |fs[i].packets|)
  }

  /** A frame's span finds its OBU, and its packets in the packet table. */
  ghost predicate FrameHolds(obus: Bytes, all: seq<Packet>, s: FrameSpan, f: Frame) {
    && s.obuOffset + s.obuLength <= |obus| && obus[s.obuOffset..s.obuOffset + s.obuLength] == f.obu
    && s.packetOffset + s.packetCount <= |all| && all[s.packetOffset..s.packetOffset + s.packetCount] == f.packets
  }

  lemma {:induction false} FrameHeldAt(obuDst: Bytes, fs: seq<Frame>, i: nat)
    requires i < |fs|
    ensures FrameHolds(obuDst + Obus(fs, |fs|), Flat(fs, |fs|), FrameSpanOf(fs, i, |obuDst|), fs[i])
  {
    FlatAt(fs, i, |fs|);
    ObuAt(obuDst, fs, i);
  }

  lemma {:induction false} ObuAt(obuDst: Bytes, fs: seq<Frame>, i: nat)
    requires i < |fs|
    ensures var from, to := |obuDst| + |Obus(fs, i)|, obuDst + Obus(fs, |fs|);
            from + |fs[i].obu| <= |to| && to[from..from + |fs[i].obu|] == fs[i].obu
  {
    var end := Obus(fs, |fs|);
    ObusGrow(fs, i + 1, |fs|);
    SlicePrefix(Obus(fs, i), fs[i].obu, end);
    assert (obuDst + end)[|obuDst|..] == end;
  }

  /** Both tables are right about what has been appended. */
  lemma TablesFill(obuDst: Bytes, dst: Buffers, fs: seq<Frame>)
    ensures var all := Flat(fs, |fs|);
            && Filled(dst, PutAll(dst, all, |all|), Table(dst, all, |all|), all)
            && forall i | 0 <= i < |fs| :: FrameHolds(obuDst + Obus(fs, |fs|), all, FrameSpanOf(fs, i, |obuDst|), fs[i])
  {
    TableFills(dst, Flat(fs, |fs|));
    forall i | 0 <= i < |fs|
      ensures FrameHolds(obuDst + Obus(fs, |fs|), Flat(fs, |fs|), FrameSpanOf(fs, i, |obuDst|), fs[i])
    {
      FrameHeldAt(obuDst, fs, i);
    }
  }

  /** Whether the tables and the room suffice for the sizes of all frames. */
  predicate Suffices(fs: seq<Frame>, obuDst: Bytes, dst: Buffers, frameSpans: nat, packetSpans: nat, room: Room) {
    && fs != [] && |fs| <= frameSpans
    && TotalSize(fs, |fs|).packets <= packetSpans
    && |obuDst| + |Obus(fs, |fs|)| <= room.obus
    && |dst.payloads| + TotalSize(fs, |fs|).payloadBytes <= room.payloads
    && |dst.descriptors| + TotalSize(fs, |fs|).descriptorBytes <= room.descriptors
  }

  /** If the first k frames do not fit, all do not. */
  lemma Overrun(fs: seq<Frame>, obuDst: Bytes, dst: Buffers, k: nat, packetSpans: nat, room: Room, all: seq<Packet>)
    requires ValidFrames(fs) && k <= |fs| && all == Flat(fs, |fs|) && |Flat(fs, k)| <= |all|
    requires |obuDst| + |Obus(fs, k)| > room.obus || |Flat(fs, k)| > packetSpans || !Fits(PutAll(dst, all, |Flat(fs, k)|), room)
    ensures !Suffices(fs, obuDst, dst, |fs|, packetSpans, room)
  {
    ObusGrow(fs, k, |fs|);
    TotalAgrees(dst, fs, |fs|, all);
    PutGrows(dst, all, |Flat(fs, k)|, |all|);
  }

  /** The first k frames have been appended. */
  ghost predicate Appended(obuDst: Bytes, dst: Buffers, fs: seq<Frame>, k: nat, obus: Bytes, out: Buffers, packets: nat,
                           spans: seq<Span>, room: Room)
    requires k <= |fs|
  {
    && packets == |Flat(fs, k)| <= |spans| && packets <= |Flat(fs, |fs|)|
    && |obus| <= room.obus && Fits(out, room)
    && obus == obuDst + Obus(fs, k) && out == PutAll(dst, Flat(fs, |fs|), packets)
    && spans[..packets] == Table(dst, Flat(fs, |fs|), packets)
  }

  /** Appends the next frame. */
  method AppendNext(ghost obuDst: Bytes, ghost dst: Buffers, fs: seq<Frame>, k: nat, obus: Bytes, out: Buffers, packets: nat,
                    packetSpans: array<Span>, room: Room)
    returns (next: Bytes, nextOut: Buffers, count: nat, ok: bool)
    requires ValidFrames(fs) && k < |fs| && Appended(obuDst, dst, fs, k, obus, out, packets, packetSpans[..], room)
    modifies packetSpans
    ensures ok ==> Appended(obuDst, dst, fs, k + 1, next, nextOut, packets + count, packetSpans[..], room)
    ensures ok ==> next == obus + fs[k].obu && count == |fs[k].packets|
    ensures !ok ==> !Suffices(fs, obuDst, dst, |fs|, packetSpans.Length, room)
  {
    var f := fs[k];
    ghost var all := Flat(fs, |fs|);
    next, nextOut, count, ok := obus, out, 0, false;
    FlatAt(fs, k, |fs|);
    if room.obus - |obus| < |f.obu| {
      Overrun(fs, obuDst, dst, k + 1, packetSpans.Length, room, all);
      return;
    }
    nextOut, count, ok := AppendFrame(out, packetSpans, packets, f, room, dst, all);
    next := obus + f.obu;
    if !ok {
      Overrun(fs, obuDst, dst, k + 1, packetSpans.Length, room, all);
    }
  }

  lemma AppendedAll(obuDst: Bytes, dst: Buffers, fs: seq<Frame>, obus: Bytes, out: Buffers, packets: nat, spans: seq<Span>, room: Room)
    requires ValidFrames(fs) && fs != [] && Appended(obuDst, dst, fs, |fs|, obus, out, packets, spans, room)
    ensures Suffices(fs, obuDst, dst, |fs|, |spans|, room)
    ensures Filled(dst, out, spans[..packets], Flat(fs, |fs|))
    ensures forall i | 0 <= i < |fs| :: FrameHolds(obus, Flat(fs, |fs|), FrameSpanOf(fs, i, |obuDst|), fs[i])
  {
    TotalAgrees(dst, fs, |fs|, Flat(fs, |fs|));
    TablesFill(obuDst, dst, fs);
  }

  /** Appends several frames. It succeeds exactly if the tables and the room suffice for the sizes that the sizing
      pass reports. Then the packet table is right about the packets of all frames, across frame boundaries, and the
      frame table about the OBUs and the packets of each frame. Otherwise the buffers are the original ones. */
  method AppendFrames(obuDst: Bytes, dst: Buffers, frameSpans: array<FrameSpan>, packetSpans: array<Span>, fs: seq<Frame>, room: Room)
    returns (obus: Bytes, out: Buffers, frames: nat, packets: nat, ok: bool)
    requires ValidFrames(fs) && |obuDst| <= room.obus && Fits(dst, room)
    modifies frameSpans, packetSpans
    ensures ok <==> Suffices(fs, obuDst, dst, frameSpans.Length, packetSpans.Length, room)
    ensures !ok ==> obus == obuDst && out == dst && frames == packets == 0
    ensures ok ==> frames == |fs| && packets == |Flat(fs, |fs|)| <= packetSpans.Length && obus == obuDst + Obus(fs, |fs|)
    ensures ok ==> Filled(dst, out, packetSpans[..packets], Flat(fs, |fs|))
    ensures ok ==> forall i | 0 <= i < |fs| :: FrameHolds(obus, Flat(fs, |fs|), frameSpans[i], fs[i])
    ensures ok ==> forall i | 0 <= i < |fs| :: frameSpans[i] == FrameSpanOf(fs, i, |obuDst|)
  {
    obus, out, frames, packets, ok := obuDst, dst, 0, 0, false;
    if fs == [] || frameSpans.Length < |fs| {
      return;
    }
    while frames < |fs|
      invariant frames <= |fs| <= frameSpans.Length
      invariant Appended(obuDst, dst, fs, frames, obus, out, packets, packetSpans[..], room)
      invariant forall i | 0 <= i < frames :: frameSpans[i] == FrameSpanOf(fs, i, |obuDst|)
    {
      var next, nextOut, count, done := AppendNext(obuDst, dst, fs, frames, obus, out, packets, packetSpans, room);
      if !done {
        return obuDst, dst, 0, 0, false;
      }
      frameSpans[frames] := FrameSpan(|obus|, |next| - |obus|, packets, count);
      obus, out, packets, frames := next, nextOut, packets + count, frames + 1;
    }
    AppendedAll(obuDst, dst, fs, obus, out, packets, packetSpans[..], room);
    ok := true;
  }
}
