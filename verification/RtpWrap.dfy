/**
 Wrapping AV1 payloads into complete RTP packets with header extensions.
 */
module RtpWrap {
  import opened Values
  import opened Numbers
  import opened RtpHeader

  // ----- plans ------------------------------------------------------------------------------

  /** A header extension: the same bytes in every packet, or a counter that advances with each packet. */
  datatype Extension = Fixed(id: Byte, bytes: Bytes) | Counter(id: Byte, start: U16, suffix: Bytes)

  /** A descriptorId of zero means no dependency descriptor, a profile of zero the two-byte framing. */
  datatype Config = Config(
    payloadType: Byte,
    sequence: U16,
    timestamp: U32,
    source: U32,
    descriptorId: Byte,
    extensions: seq<Extension>,
    profile: U16)

  /** Where the payload and the descriptor of a packet are in their buffers. */
  datatype Span = Span(payloadOffset: int, payloadLength: int, descriptorOffset: int, descriptorLength: int, marker: bool)

  /** Payloads and descriptors to wrap, and how they are cut into packets. */
  datatype Plan = Plan(config: Config, payloads: Bytes, descriptors: Bytes, spans: seq<Span>)

  const MAX_EXTENSIONS: nat := 13

  function ProfileOf(c: Config): U16 {
    if c.profile == 0 then 0x1000 else c.profile
  }

  function Ids(c: Config): seq<Byte> {
    (if c.descriptorId == 0 then [] else [c.descriptorId])
    + seq(|c.extensions|, i requires 0 <= i < |c.extensions| => c.extensions[i].id)
  }

  /** No identifier is zero and none occurs twice. */
  predicate DistinctIds(ids: seq<Byte>) {
    if ids == [] then true
    else ids[|ids| - 1] != 0 && ids[|ids| - 1] !in ids[..|ids| - 1] && DistinctIds(ids[..|ids| - 1])
  }

  predicate ValidConfig(c: Config) {
    && c.payloadType <= 127 && |c.extensions| <= MAX_EXTENSIONS
    && Ids(c) != [] && DistinctIds(Ids(c))
    && KindOf(ProfileOf(c)).Some?
  }

  predicate Different(ids: seq<Byte>) {
    (forall k | 0 <= k < |ids| :: ids[k] != 0) && forall j, k | 0 <= j < k < |ids| :: ids[j] != ids[k]
  }

  lemma {:induction false} DistinctIff(ids: seq<Byte>)
    ensures DistinctIds(ids) <==> Different(ids)
  {
    if ids != [] {
      DistinctIff(ids[..|ids| - 1]);
    }
  }

  /** A valid configuration: at most thirteen extensions beside the descriptor, at least one element, identifiers that
      are not zero and all different, and a profile with a framing, zero standing for two-byte framing. */
  lemma {:induction false} ValidConfigIff(c: Config, ids: seq<Byte>)
    requires |ids| == |c.extensions| && forall k | 0 <= k < |ids| :: ids[k] == c.extensions[k].id
    ensures ValidConfig(c) <==>
              && c.payloadType <= 127 && |c.extensions| <= 13 && (c.descriptorId != 0 || c.extensions != [])
              && Different(if c.descriptorId == 0 then ids else [c.descriptorId] + ids)
              && (c.profile == 0 || c.profile == 48862 || 4096 <= c.profile < 4112)
  {
    DistinctIff(Ids(c));
    KindIff(ProfileOf(c));
    assert Ids(c) == if c.descriptorId == 0 then ids else [c.descriptorId] + ids;
  }

  function Advanced(start: U16, i: nat): U16 {
    (start + i) % 0x1_0000
  }

  function ExtensionPayload(x: Extension, i: nat): Bytes {
    match x
    case Fixed(_, bytes) => bytes
    case Counter(_, start, suffix) => Put16(Advanced(start, i)) + suffix
  }

  function ExtensionSize(x: Extension): nat {
    match x
    case Fixed(_, bytes) => |bytes|
    case Counter(_, _, suffix) => 2 + |suffix|
  }

  function Slice(src: Bytes, off: int, n: int): Option<Bytes> {
    if off < 0 || n < 0 || off > |src| || n > |src| - off then None else Some(src[off..off + n])
  }

  // ----- sizes ------------------------------------------------------------------------------

  /** The size of the extensions from the k-th on. */
  function ExtensionsSize(kind: Kind, xs: seq<Extension>): Option<nat> {
    if xs == [] then Some(0)
    else
      var first, rest := ElementSize(kind, xs[0].id, ExtensionSize(xs[0])), ExtensionsSize(kind, xs[1..]);
      if first.None? || rest.None? then None else Some(first.value + rest.value)
  }

  function ElementsLength(kind: Kind, c: Config, descriptorLength: nat): Option<nat> {
    var rest := ExtensionsSize(kind, c.extensions);
    if c.descriptorId == 0 then rest
    else
      var first := ElementSize(kind, c.descriptorId, descriptorLength);
      if descriptorLength == 0 || first.None? || rest.None? then None else Some(first.value + rest.value)
  }

  function SizeOfPacket(c: Config, payloadLength: nat, descriptorLength: nat): Option<nat> {
    var kind := KindOf(ProfileOf(c));
    var n := if kind.None? then None else ElementsLength(kind.value, c, descriptorLength);
    var padded := if n.None? then None else PaddedLength(n.value);
    if padded.None? then None else Some(HEADER_MIN + 4 + padded.value + payloadLength)
  }

  /** The size of one packet, if its span makes sense. */
  function SizeOf(p: Plan, s: Span): Option<nat> {
    var payload, descriptor := Slice(p.payloads, s.payloadOffset, s.payloadLength), Slice(p.descriptors, s.descriptorOffset, s.descriptorLength);
    if payload.None? || descriptor.None? then None else SizeOfPacket(p.config, |payload.value|, |descriptor.value|)
  }

  lemma SizeBound(p: Plan, s: Span)
    requires SizeOf(p, s).Some?
    ensures 0 <= s.payloadLength <= SizeOf(p, s).value && s.descriptorLength >= 0
  {
  }

  predicate InRange(size: nat, off: int, n: int) {
    0 <= off && 0 <= n && off + n <= size
  }

  /** An element with this identifier and length fits the framing. */
  predicate LengthFits(kind: Kind, id: Byte, n: int) {
    id != 0 && if kind.OneByte? then id != 15 && 1 <= n <= 16 else n <= 255
  }

  lemma {:induction false} ExtensionsSizeIff(kind: Kind, xs: seq<Extension>)
    ensures ExtensionsSize(kind, xs).Some? <==>
              forall k | 0 <= k < |xs| :: LengthFits(kind, xs[k].id, match xs[k] case Fixed(_, bytes) => |bytes| case Counter(_, _, suffix) => 2 + |suffix|)
    ensures ExtensionsSize(kind, xs).Some? ==> ExtensionsSize(kind, xs).value <= 257 * |xs|
  {
    if xs != [] {
      ExtensionsSizeIff(kind, xs[1..]);
      assert forall k | 1 <= k < |xs| :: xs[k] == xs[1..][k - 1];
    }
  }

  /** A packet has a size exactly if its payload and its descriptor are in their buffers, the descriptor is not missing,
      and every element fits. */
  lemma SizeIff(p: Plan, s: Span)
    requires ValidConfig(p.config)
    ensures var kind := if p.config.profile == 0xBEDE then OneByte else TwoByte;
            SizeOf(p, s).Some? <==>
              && InRange(|p.payloads|, s.payloadOffset, s.payloadLength)
              && InRange(|p.descriptors|, s.descriptorOffset, s.descriptorLength)
              && (p.config.descriptorId != 0 ==> s.descriptorLength > 0 && LengthFits(kind, p.config.descriptorId, s.descriptorLength))
              && forall k | 0 <= k < |p.config.extensions| ::
                   LengthFits(kind, p.config.extensions[k].id,
                     match p.config.extensions[k] case Fixed(_, bytes) => |bytes| case Counter(_, _, suffix) => 2 + |suffix|)
  {
    var kind := if p.config.profile == 0xBEDE then OneByte else TwoByte;
    ExtensionsSizeIff(kind, p.config.extensions);
    assert KindOf(ProfileOf(p.config)) == Some(kind);
  }

  /** What the sizing pass takes for the header is what the packet has before its payload. */
  lemma HeaderIs(p: Plan, s: Span, i: nat)
    requires ValidConfig(p.config) && SizeOf(p, s).Some?
    ensures SizeAt(SizerOf(p), s) == |PacketAt(p, s, i)| && HeaderAt(SizerOf(p), s) == |PacketAt(p, s, i)| - |PayloadAt(p.payloads, s)|
  {
  }

  /** How long the packet of a span gets, if it can be built. */
  type Sizer = Span -> Option<nat>

  function SizerOf(p: Plan): Sizer {
    s => SizeOf(p, s)
  }

  /** The size of packet i, and of its header. */
  function SizeAt(f: Sizer, s: Span): nat {
    if f(s).Some? then f(s).value else 0
  }

  function HeaderAt(f: Sizer, s: Span): nat {
    if 0 <= s.payloadLength <= SizeAt(f, s) then SizeAt(f, s) - s.payloadLength else 0
  }

  /** The bytes of the first k packets. */
  function Sum(f: Sizer, spans: seq<Span>, k: nat): nat
    requires k <= |spans|
  {
    if k == 0 then 0 else Sum(f, spans, k - 1) + SizeAt(f, spans[k - 1])
  }

  lemma {:induction false} SumGrows(f: Sizer, spans: seq<Span>, k: nat, m: nat)
    requires k <= m <= |spans|
    ensures Sum(f, spans, k) <= Sum(f, spans, m)
  {
    if k < m {
      SumGrows(f, spans, k, m - 1);
    }
  }

  datatype SizeInfo = SizeInfo(packets: nat, bytes: nat, maxPacket: nat, maxHeader: nat)

  /** One more packet. */
  function Grown(info: SizeInfo, size: nat, header: nat): SizeInfo {
    SizeInfo(info.packets + 1, info.bytes + size,
             if size > info.maxPacket then size else info.maxPacket,
             if header > info.maxHeader then header else info.maxHeader)
  }

  /** What the sizing pass has found after k packets. */
  function Measured(f: Sizer, spans: seq<Span>, k: nat): SizeInfo
    requires k <= |spans|
  {
    if k == 0 then SizeInfo(0, 0, 0, 0)
    else Grown(Measured(f, spans, k - 1), SizeAt(f, spans[k - 1]), HeaderAt(f, spans[k - 1]))
  }

  lemma {:induction false} MeasuredSum(f: Sizer, spans: seq<Span>, k: nat)
    requires k <= |spans|
    ensures Measured(f, spans, k).packets == k && Measured(f, spans, k).bytes == Sum(f, spans, k)
  {
    if k > 0 {
      MeasuredSum(f, spans, k - 1);
    }
  }

  /** The maxima are what their names say. */
  lemma {:induction false} MeasuredMax(f: Sizer, spans: seq<Span>, k: nat)
    requires k <= |spans|
    ensures var m := Measured(f, spans, k);
            && (forall i | 0 <= i < k :: SizeAt(f, spans[i]) <= m.maxPacket && HeaderAt(f, spans[i]) <= m.maxHeader)
            && (m.maxPacket > 0 ==> exists i :: 0 <= i < k && SizeAt(f, spans[i]) == m.maxPacket)
            && (m.maxHeader > 0 ==> exists i :: 0 <= i < k && HeaderAt(f, spans[i]) == m.maxHeader)
  {
    if k > 0 {
      MeasuredMax(f, spans, k - 1);
      var m, before, last := Measured(f, spans, k), Measured(f, spans, k - 1), spans[k - 1];
      assert m.maxPacket != before.maxPacket ==> SizeAt(f, last) == m.maxPacket;
      assert m.maxHeader != before.maxHeader ==> HeaderAt(f, last) == m.maxHeader;
    }
  }

  predicate AllSized(f: Sizer, spans: seq<Span>, k: nat)
    requires k <= |spans|
  {
    forall i | 0 <= i < k :: f(spans[i]).Some?
  }

  /** The loop over the packets. */
  method SizeLoop(f: Sizer, spans: seq<Span>) returns (res: Result<SizeInfo>)
    ensures res.Ok? <==> AllSized(f, spans, |spans|) && Sum(f, spans, |spans|) <= MAX_INT
    ensures res.Ok? ==> res.value == Measured(f, spans, |spans|)
  {
    var info := SizeInfo(0, 0, 0, 0);
    for i := 0 to |spans|
      invariant AllSized(f, spans, i)
      invariant info == Measured(f, spans, i) && Sum(f, spans, i) <= MAX_INT
    {
      MeasuredSum(f, spans, i);
      var size := f(spans[i]);
      if size.None? {
        return Err;
      }
      if size.value > MAX_INT - info.bytes {
        SumGrows(f, spans, i + 1, |spans|);
        return Err;
      }
      info := Grown(info, size.value, HeaderAt(f, spans[i]));
    }
    return Ok(info);
  }

  predicate Sized(p: Plan) {
    forall i | 0 <= i < |p.spans| :: SizeOf(p, p.spans[i]).Some?
  }

  function Size(p: Plan, i: nat): nat
    requires i < |p.spans|
  {
    SizeAt(SizerOf(p), p.spans[i])
  }

  function Total(p: Plan, k: nat): nat
    requires k <= |p.spans|
  {
    Sum(SizerOf(p), p.spans, k)
  }

  /** A plan that can be carried out: every packet has a size and the sum is a length. */
  predicate Feasible(p: Plan) {
    ValidConfig(p.config) && Sized(p) && Total(p, |p.spans|) <= MAX_INT
  }

  /** The sizing pass: it succeeds exactly for a feasible plan. */
  method SizePass(p: Plan) returns (res: Result<SizeInfo>)
    ensures res.Ok? <==> Feasible(p)
    ensures res.Ok? ==> res.value == Measured(SizerOf(p), p.spans, |p.spans|)
  {
    if !ValidConfig(p.config) {
      return Err;
    }
    res := SizeLoop(SizerOf(p), p.spans);
    SizedIff(p);
  }

  lemma SizedIff(p: Plan)
    ensures Sized(p) <==> AllSized(SizerOf(p), p.spans, |p.spans|)
  {
  }

  // ----- packets ----------------------------------------------------------------------------

  function ExtensionElements(xs: seq<Extension>, i: nat): (r: seq<Element>)
    ensures |r| == |xs| && forall k | 0 <= k < |xs| :: r[k] == Element(xs[k].id, ExtensionPayload(xs[k], i))
  {
    seq(|xs|, k requires 0 <= k < |xs| => Element(xs[k].id, ExtensionPayload(xs[k], i)))
  }

  /** The elements of packet i: the descriptor first. */
  function ElementsFor(c: Config, i: nat, descriptor: Bytes): seq<Element> {
    (if c.descriptorId == 0 then [] else [Element(c.descriptorId, descriptor)]) + ExtensionElements(c.extensions, i)
  }

  lemma {:induction false} ExtensionsAgree(kind: Kind, xs: seq<Extension>, i: nat)
    ensures ElementsSize(kind, ExtensionElements(xs, i)) == ExtensionsSize(kind, xs)
  {
    if xs != [] {
      ExtensionsAgree(kind, xs[1..], i);
      assert ExtensionElements(xs, i)[1..] == ExtensionElements(xs[1..], i);
    }
  }

  /** The sizing pass counts what the elements take. */
  lemma ElementsAgree(kind: Kind, c: Config, i: nat, descriptor: Bytes)
    requires ElementsLength(kind, c, |descriptor|).Some?
    ensures var es := ElementsFor(c, i, descriptor);
            AllFit(kind, es) && |ElementsBytes(kind, es)| == ElementsLength(kind, c, |descriptor|).value
  {
    var es := ElementsFor(c, i, descriptor);
    ExtensionsAgree(kind, c.extensions, i);
    if c.descriptorId == 0 {
      assert es == ExtensionElements(c.extensions, i);
    } else {
      assert es[1..] == ExtensionElements(c.extensions, i);
    }
    SizeIsLength(kind, es);
  }

  function HeaderFor(c: Config, i: nat, marker: bool, extension: Bytes): Header {
    Header(false, marker, c.payloadType, Advanced(c.sequence, i), c.timestamp, c.source, [], ProfileOf(c), extension)
  }

  /** Packet i as it goes on the wire. */
  function PacketBytes(c: Config, i: nat, payload: Bytes, descriptor: Bytes, marker: bool): Bytes
    requires ValidConfig(c) && SizeOfPacket(c, |payload|, |descriptor|).Some?
  {
    PacketFits(c, i, payload, descriptor, marker);
    HeaderBytes(HeaderFor(c, i, marker, ElementsBytes(KindOf(ProfileOf(c)).value, ElementsFor(c, i, descriptor)))) + payload
  }

  lemma PacketFits(c: Config, i: nat, payload: Bytes, descriptor: Bytes, marker: bool)
    requires ValidConfig(c) && SizeOfPacket(c, |payload|, |descriptor|).Some?
    ensures var kind := KindOf(ProfileOf(c)).value;
            var es := ElementsFor(c, i, descriptor);
            var h := HeaderFor(c, i, marker, ElementsBytes(kind, es));
            && AllFit(kind, es) && ValidHeader(h) && ProfileOf(c) != 0
            && |HeaderBytes(h)| + |payload| == SizeOfPacket(c, |payload|, |descriptor|).value
  {
    var kind := KindOf(ProfileOf(c)).value;
    ElementsAgree(kind, c, i, descriptor);
    HeaderLength(HeaderFor(c, i, marker, ElementsBytes(kind, ElementsFor(c, i, descriptor))));
  }

  /** The fixed header and the head of the extension. */
  function Head(h: Header): Bytes
    requires ValidHeader(h) && h.sources == []
  {
    FixedBytes(h) + (Put16(h.profile) + Put16(PaddedLength(|h.extension|).value / 4))
  }

  lemma HeaderParts(h: Header)
    requires ValidHeader(h) && h.profile != 0 && h.sources == []
    ensures |Head(h)| == HEADER_MIN + 4 && HeaderBytes(h) == Head(h) + Padded(h.extension)
  {
    assert SourcesBytes(h.sources) == [];
    assert FixedBytes(h) + [] == FixedBytes(h);
    Associate(FixedBytes(h), Put16(h.profile) + Put16(PaddedLength(|h.extension|).value / 4), Padded(h.extension));
  }

  /** What the buffer holds once the elements and then the header are written. */
  lemma Assembled(head: Bytes, ext: Bytes, size: nat, payloadLength: nat, was: Bytes)
    requires PaddedLength(|ext|).Some? && |head| == 16 && size == 16 + PaddedLength(|ext|).value + payloadLength
    requires was == Zeros(16) + ext + Zeros(size)[16 + |ext|..]
    ensures head + was[16..] == head + Padded(ext) + Zeros(payloadLength)
  {
    assert was[16..] == ext + Zeros(size)[16 + |ext|..];
    assert Zeros(size)[16 + |ext|..] == Zeros(PaddedLength(|ext|).value - |ext|) + Zeros(payloadLength);
  }

  /** The elements in their place in a zeroed buffer. */
  method PutExtension(size: nat, kind: Kind, es: seq<Element>) returns (packet: array<int>, end: nat)
    requires 16 + |ElementsBytes(kind, es)| <= size
    ensures fresh(packet) && end == 16 + |ElementsBytes(kind, es)|
    ensures packet[..] == Zeros(16) + ElementsBytes(kind, es) + Zeros(size)[end..]
    ensures packet[16..end] == ElementsBytes(kind, es)
  {
    packet := new int[size](k => 0);
    assert packet[..] == Zeros(16) + Zeros(size)[16..];
    end := PutElements(packet, 16, kind, es, Zeros(16), Zeros(size));
    assert packet[16..end] == packet[..][16..end];
  }

  /** Builds a packet in a zeroed buffer: elements first, then the header in front of them, then the payload. */
  method Build(c: Config, i: nat, payload: Bytes, descriptor: Bytes, marker: bool) returns (packet: array<int>)
    requires ValidConfig(c) && SizeOfPacket(c, |payload|, |descriptor|).Some?
    ensures fresh(packet) && packet[..] == PacketBytes(c, i, payload, descriptor, marker)
  {
    PacketFits(c, i, payload, descriptor, marker);
    var kind := KindOf(ProfileOf(c)).value;
    var size := SizeOfPacket(c, |payload|, |descriptor|).value;
    var es := ElementsFor(c, i, descriptor);
    ghost var ext := ElementsBytes(kind, es);
    HeaderParts(HeaderFor(c, i, marker, ext));
    HeaderLength(HeaderFor(c, i, marker, ext));
    var end;
    packet, end := PutExtension(size, kind, es);
    var header := HeaderFor(c, i, marker, packet[16..end]);
    FinishPacket(packet, header, payload, ext);
  }

  method FinishPacket(packet: array<int>, h: Header, payload: Bytes, ghost ext: Bytes)
    requires ValidHeader(h) && h.profile != 0 && h.sources == [] && h.extension == ext
    requires packet.Length == HeaderSize(h) + |payload|
    requires packet[..] == Zeros(16) + ext + Zeros(packet.Length)[16 + |ext|..]
    modifies packet
    ensures packet[..] == HeaderBytes(h) + payload
  {
    HeaderParts(h);
    HeaderLength(h);
    ghost var was := packet[..];
    Assembled(Head(h), ext, packet.Length, |payload|, was);
    var end := Copy(packet, 0, Head(h), [], was);
    assert [] + Head(h) == Head(h);
    assert packet[..] == HeaderBytes(h) + Zeros(|payload|);
    ghost var now := packet[..];
    assert now == HeaderBytes(h) + now[HeaderSize(h)..];
    end := Copy(packet, HeaderSize(h), payload, HeaderBytes(h), now);
    assert now[HeaderSize(h) + |payload|..] == [];
  }

  // ----- all packets ------------------------------------------------------------------------

  /** Where a packet and its parts are in the output. */
  datatype PacketSpan = PacketSpan(
    offset: nat,
    length: nat,
    headerSize: nat,
    payloadOffset: nat,
    payloadLength: nat,
    descriptorOffset: int,
    descriptorLength: nat,
    sequence: U16,
    marker: bool)

  function PrefixLength(kind: Kind): nat {
    if kind.OneByte? then 1 else 2
  }

  function PayloadAt(payloads: Bytes, s: Span): Bytes
    requires Slice(payloads, s.payloadOffset, s.payloadLength).Some?
  {
    Slice(payloads, s.payloadOffset, s.payloadLength).value
  }

  function DescriptorAt(descriptors: Bytes, s: Span): Bytes
    requires Slice(descriptors, s.descriptorOffset, s.descriptorLength).Some?
  {
    Slice(descriptors, s.descriptorOffset, s.descriptorLength).value
  }

  function PacketAt(p: Plan, s: Span, i: nat): (b: Bytes)
    requires ValidConfig(p.config) && SizeOf(p, s).Some?
    ensures |b| == SizeOf(p, s).value
  {
    PacketFits(p.config, i, PayloadAt(p.payloads, s), DescriptorAt(p.descriptors, s), s.marker);
    PacketBytes(p.config, i, PayloadAt(p.payloads, s), DescriptorAt(p.descriptors, s), s.marker)
  }

  /** The span of packet i of a given size when it is put at offset. */
  function SpanAt(c: Config, s: Span, i: nat, offset: nat, size: nat): PacketSpan
    requires 0 <= s.payloadLength <= size && KindOf(ProfileOf(c)).Some? && s.descriptorLength >= 0
  {
    PacketSpan(offset, size, size - s.payloadLength, offset + size - s.payloadLength, s.payloadLength,
               if c.descriptorId == 0 then -1 else offset + HEADER_MIN + 4 + PrefixLength(KindOf(ProfileOf(c)).value),
               if c.descriptorId == 0 then 0 else s.descriptorLength,
               Advanced(c.sequence, i), s.marker)
  }

  /** The span of packet i when it is put at offset. */
  function SpanOf(p: Plan, i: nat, offset: nat): PacketSpan
    requires i < |p.spans| && ValidConfig(p.config) && SizeOf(p, p.spans[i]).Some?
  {
    SizeBound(p, p.spans[i]);
    SpanAt(p.config, p.spans[i], i, offset, SizeOf(p, p.spans[i]).value)
  }

  /** The first k of a list of packets, one after the other. */
  function Concat(bs: seq<Bytes>, k: nat): Bytes
    requires k <= |bs|
  {
    if k == 0 then [] else Concat(bs, k - 1) + bs[k - 1]
  }

  /** Packets and spans of a plan: each packet as planned, and where it starts. */
  ghost predicate Wraps(p: Plan, base: nat, packets: seq<Bytes>, table: seq<PacketSpan>) {
    && ValidConfig(p.config) && Sized(p) && |packets| == |table| == |p.spans|
    && forall i | 0 <= i < |packets| :: WrapsOne(p, base, packets, table, i)
  }

  ghost predicate WrapsOne(p: Plan, base: nat, packets: seq<Bytes>, table: seq<PacketSpan>, i: nat)
    requires i < |packets| == |table| == |p.spans| && ValidConfig(p.config) && SizeOf(p, p.spans[i]).Some?
  {
    packets[i] == PacketAt(p, p.spans[i], i) && table[i] == SpanOf(p, i, base + |Concat(packets, i)|)
  }

  predicate Unsealed(k: int) {
    true
  }

  /** The same, sealed: the loop below does not look into it. */
  ghost predicate Sealed(p: Plan, base: nat, packets: seq<Bytes>, table: seq<PacketSpan>) {
    && |packets| == |table| == |p.spans|
    && forall k: int {:trigger Unsealed(k)} :: Unsealed(k) ==> Wraps(p, base, packets, table)
  }

  lemma PacketSize(p: Plan, base: nat, packets: seq<Bytes>, table: seq<PacketSpan>, i: nat)
    requires Wraps(p, base, packets, table) && i < |packets|
    ensures |packets[i]| == Size(p, i)
  {
    assert WrapsOne(p, base, packets, table, i);
  }

  lemma {:induction false} ConcatLength(p: Plan, packets: seq<Bytes>, k: nat)
    requires k <= |packets| == |p.spans| && forall i | 0 <= i < |packets| :: |packets[i]| == Size(p, i)
    ensures |Concat(packets, k)| == Total(p, k)
  {
    if k > 0 {
      ConcatLength(p, packets, k - 1);
    }
  }

  /** Bytes appended equal the sizing pass, and each packet starts where the sizes before it end. */
  lemma WrapsLength(p: Plan, base: nat, packets: seq<Bytes>, table: seq<PacketSpan>, k: nat)
    requires Wraps(p, base, packets, table) && k <= |packets|
    ensures |Concat(packets, k)| == Total(p, k)
  {
    forall i | 0 <= i < |packets|
      ensures |packets[i]| == Size(p, i)
    {
      PacketSize(p, base, packets, table, i);
    }
    ConcatLength(p, packets, k);
  }

  function PacketsOf(p: Plan): (r: seq<Bytes>)
    requires ValidConfig(p.config) && Sized(p)
    ensures |r| == |p.spans|
  {
    seq(|p.spans|, i requires 0 <= i < |p.spans| => PacketAt(p, p.spans[i], i))
  }

  lemma PacketIs(p: Plan, i: nat)
    requires i < |p.spans| && ValidConfig(p.config) && Sized(p)
    ensures PacketsOf(p)[i] == PacketAt(p, p.spans[i], i)
  {
  }

  lemma {:induction false} RealizeTable(p: Plan, starts: seq<nat>, k: nat) returns (table: seq<PacketSpan>)
    requires k <= |p.spans| == |starts| && ValidConfig(p.config) && Sized(p)
    ensures |table| == k && forall i | 0 <= i < k :: table[i] == SpanOf(p, i, starts[i])
  {
    if k == 0 {
      table := [];
    } else {
      table := RealizeTable(p, starts, k - 1);
      table := table + [SpanOf(p, k - 1, starts[k - 1])];
    }
  }

  lemma RealizePackets(p: Plan) returns (packets: seq<Bytes>)
    requires ValidConfig(p.config) && Sized(p)
    ensures |packets| == |p.spans| && forall i | 0 <= i < |packets| :: packets[i] == PacketAt(p, p.spans[i], i)
  {
    packets := PacketsOf(p);
    forall i | 0 <= i < |packets|
      ensures packets[i] == PacketAt(p, p.spans[i], i)
    {
      PacketIs(p, i);
    }
  }

  function Starts(base: nat, packets: seq<Bytes>): (r: seq<nat>)
    ensures |r| == |packets| && forall i | 0 <= i < |packets| :: r[i] == base + |Concat(packets, i)|
  {
    seq(|packets|, i requires 0 <= i < |packets| => base + |Concat(packets, i)|)
  }

  lemma WrapsFrom(p: Plan, base: nat, packets: seq<Bytes>, table: seq<PacketSpan>, starts: seq<nat>)
    requires ValidConfig(p.config) && Sized(p) && |packets| == |table| == |starts| == |p.spans|
    requires forall i | 0 <= i < |packets| :: packets[i] == PacketAt(p, p.spans[i], i)
    requires forall i | 0 <= i < |table| :: table[i] == SpanOf(p, i, starts[i])
    requires forall i | 0 <= i < |starts| :: starts[i] == base + |Concat(packets, i)|
    ensures Wraps(p, base, packets, table)
  {
  }

  lemma Seal(p: Plan, base: nat, packets: seq<Bytes>, table: seq<PacketSpan>)
    requires Wraps(p, base, packets, table)
    ensures Sealed(p, base, packets, table)
  {
  }

  /** A feasible plan has packets and spans. */
  lemma Realize(p: Plan, base: nat) returns (packets: seq<Bytes>, table: seq<PacketSpan>)
    requires ValidConfig(p.config) && Sized(p)
    ensures Sealed(p, base, packets, table)
  {
    packets := RealizePackets(p);
    var starts := Starts(base, packets);
    table := RealizeTable(p, starts, |p.spans|);
    WrapsFrom(p, base, packets, table, starts);
    Seal(p, base, packets, table);
  }

  /** Appends all packets and records their spans. It succeeds exactly if there is room for the spans and the
      plan is feasible; otherwise nothing is changed. */
  method Append(dst: Bytes, headerSpans: array<PacketSpan>, p: Plan)
    returns (out: Bytes, count: nat, ok: bool, ghost packets: seq<Bytes>, ghost table: seq<PacketSpan>)
    modifies headerSpans
    ensures ok <==> |p.spans| <= headerSpans.Length && Feasible(p)
    ensures !ok ==> out == dst && count == 0 && headerSpans[..] == old(headerSpans[..])
    ensures ok ==> Wraps(p, |dst|, packets, table) && count == |p.spans| && out == dst + Concat(packets, |packets|)
    ensures ok ==> forall i | 0 <= i < headerSpans.Length ::
              headerSpans[i] == if i < |p.spans| then table[i] else old(headerSpans[i])
    ensures ok ==> forall i | 0 <= i < |p.spans| :: DeliveredAt(p, out, headerSpans[i], i)
  {
    ok, packets, table := false, [], [];
    if headerSpans.Length >= |p.spans| {
      var info := SizePass(p);
      ok := info.Ok?;
    }
    if !ok {
      return dst, 0, false, [], [];
    }
    packets, table := Realize(p, |dst|);
    out := AppendAll(dst, headerSpans, p, packets, table);
    count := |p.spans|;
    assert Unsealed(0);
    forall i | 0 <= i < |p.spans|
      ensures DeliveredAt(p, out, headerSpans[i], i)
    {
      PlanDelivered(p, dst, packets, table, i);
    }
  }

  method AppendAll(dst: Bytes, headerSpans: array<PacketSpan>, p: Plan, ghost packets: seq<Bytes>, ghost table: seq<PacketSpan>)
    returns (out: Bytes)
    requires |p.spans| <= headerSpans.Length && Sealed(p, |dst|, packets, table)
    modifies headerSpans
    ensures out == dst + Concat(packets, |packets|)
    ensures forall i | 0 <= i < headerSpans.Length ::
              headerSpans[i] == if i < |p.spans| then table[i] else old(headerSpans[i])
  {
    out := dst;
    for i := 0 to |p.spans|
      invariant out == dst + Concat(packets, i)
      invariant forall k | 0 <= k < headerSpans.Length :: headerSpans[k] == if k < i then table[k] else old(headerSpans[k])
    {
      var packet, span := BuildAt(p, i, |out|, |dst|, packets, table);
      headerSpans[i] := span;
      out := out + packet;
    }
  }

  method BuildAt(p: Plan, i: nat, start: nat, ghost base: nat, ghost packets: seq<Bytes>, ghost table: seq<PacketSpan>)
    returns (packet: Bytes, span: PacketSpan)
    requires i < |p.spans| && Sealed(p, base, packets, table) && start == base + |Concat(packets, i)|
    ensures packet == packets[i] && span == table[i]
  {
    assert Unsealed(0);
    assert WrapsOne(p, base, packets, table, i);
    packet := BuildOne(p, p.spans[i], i);
    span := SpanOf(p, i, start);
  }

  method BuildOne(p: Plan, s: Span, i: nat) returns (packet: Bytes)
    requires ValidConfig(p.config) && SizeOf(p, s).Some?
    ensures packet == PacketAt(p, s, i)
  {
    var b := Build(p.config, i, PayloadAt(p.payloads, s), DescriptorAt(p.descriptors, s), s.marker);
    packet := b[..];
  }

  // ----- what the output holds --------------------------------------------------------------

  lemma {:induction false} ConcatAt(packets: seq<Bytes>, k: nat, i: nat)
    requires i < k <= |packets|
    ensures var at := |Concat(packets, i)|;
            at + |packets[i]| <= |Concat(packets, k)| && Concat(packets, k)[at..at + |packets[i]|] == packets[i]
  {
    if i < k - 1 {
      ConcatAt(packets, k - 1, i);
    }
  }

  /** The bytes of packet i in the output. */
  lemma PacketHeld(dst: Bytes, packets: seq<Bytes>, i: nat, all: Bytes, at: nat)
    requires i < |packets| && all == Concat(packets, |packets|) && at == |Concat(packets, i)|
    ensures at + |packets[i]| <= |all| && (dst + all)[|dst| + at..|dst| + at + |packets[i]|] == packets[i]
  {
    ConcatAt(packets, |packets|, i);
    Shifted(dst, all, at, |packets[i]|);
  }

  lemma Shifted(a: Bytes, b: Bytes, at: nat, n: nat)
    requires at + n <= |b|
    ensures (a + b)[|a| + at..|a| + at + n] == b[at..at + n]
  {
  }

  /** The packets tile the output: each span starts where the one before it ends, the last ends with the
      output, and sequence numbers advance by one modulo 2^16. */
  lemma SpansTile(p: Plan, base: nat, packets: seq<Bytes>, table: seq<PacketSpan>, i: nat)
    requires Wraps(p, base, packets, table) && i < |table|
    ensures table[i].offset == base + Total(p, i) && table[i].length == Size(p, i) == |packets[i]|
    ensures i + 1 < |table| ==> table[i + 1].offset == table[i].offset + table[i].length
    ensures i + 1 == |table| ==> table[i].offset + table[i].length == base + |Concat(packets, |packets|)|
    ensures table[i].sequence == (p.config.sequence + i) % 0x1_0000 && table[i].marker == p.spans[i].marker
  {
    WrapsLength(p, base, packets, table, i);
    WrapsLength(p, base, packets, table, i + 1);
    PacketSize(p, base, packets, table, i);
    assert WrapsOne(p, base, packets, table, i);
    SpanFields(p, i, base + |Concat(packets, i)|);
    if i + 1 < |table| {
      assert WrapsOne(p, base, packets, table, i + 1);
      SpanFields(p, i + 1, base + |Concat(packets, i + 1)|);
    }
  }

  lemma SpanFields(p: Plan, i: nat, offset: nat)
    requires i < |p.spans| && ValidConfig(p.config) && SizeOf(p, p.spans[i]).Some?
    ensures var s := SpanOf(p, i, offset);
            && s.offset == offset && s.length == Size(p, i) && s.sequence == (p.config.sequence + i) % 0x1_0000
            && s.marker == p.spans[i].marker && s.payloadOffset == offset + s.headerSize && s.headerSize == s.length - s.payloadLength
            && s.payloadLength == p.spans[i].payloadLength
  {
  }

  /** A packet ends with its payload. */
  lemma PacketEnds(c: Config, i: nat, payload: Bytes, descriptor: Bytes, marker: bool)
    requires ValidConfig(c) && SizeOfPacket(c, |payload|, |descriptor|).Some?
    ensures var b := PacketBytes(c, i, payload, descriptor, marker);
            |payload| <= |b| && b[|b| - |payload|..] == payload
  {
  }

  /** The descriptor is the payload of the first element, right after its prefix. */
  lemma DescriptorHeld(c: Config, i: nat, payload: Bytes, descriptor: Bytes, marker: bool)
    requires ValidConfig(c) && SizeOfPacket(c, |payload|, |descriptor|).Some? && c.descriptorId != 0
    ensures var b := PacketBytes(c, i, payload, descriptor, marker);
            var at := HEADER_MIN + 4 + PrefixLength(KindOf(ProfileOf(c)).value);
            at + |descriptor| <= |b| && b[at..at + |descriptor|] == descriptor
  {
    var kind := KindOf(ProfileOf(c)).value;
    var es := ElementsFor(c, i, descriptor);
    PacketFits(c, i, payload, descriptor, marker);
    var h := HeaderFor(c, i, marker, ElementsBytes(kind, es));
    HeaderParts(h);
    var rest := ElementsBytes(kind, es[1..]) + Zeros(PaddedLength(|h.extension|).value - |h.extension|) + payload;
    FirstElement(kind, es, h, payload, Head(h), rest);
    assert es[0] == Element(c.descriptorId, descriptor);
    Middle(Head(h) + Prefix(kind, c.descriptorId, |descriptor|), descriptor, rest);
  }

  lemma FirstElement(kind: Kind, es: seq<Element>, h: Header, payload: Bytes, head: Bytes, rest: Bytes)
    requires es != [] && ValidHeader(h) && h.extension == ElementsBytes(kind, es) && HeaderBytes(h) == head + Padded(h.extension)
    requires rest == ElementsBytes(kind, es[1..]) + Zeros(PaddedLength(|h.extension|).value - |h.extension|) + payload
    ensures HeaderBytes(h) + payload == head + Prefix(kind, es[0].id, |es[0].payload|) + es[0].payload + rest
  {
    var prefix, first, others := Prefix(kind, es[0].id, |es[0].payload|), es[0].payload, ElementsBytes(kind, es[1..]);
    var zeros := Zeros(PaddedLength(|h.extension|).value - |h.extension|);
    assert h.extension == prefix + first + others;
    Nested(head, prefix, first, others, zeros, payload);
  }

  lemma Nested(a: Bytes, b: Bytes, c: Bytes, d: Bytes, e: Bytes, f: Bytes)
    ensures a + ((b + c + d) + e) + f == a + b + c + (d + e + f)
  {
  }

  /** The header of a packet that can be built. */
  function BuiltHeader(c: Config, i: nat, payload: Bytes, descriptor: Bytes, marker: bool): (h: Header)
    requires ValidConfig(c) && SizeOfPacket(c, |payload|, |descriptor|).Some?
    ensures ValidHeader(h)
  {
    PacketFits(c, i, payload, descriptor, marker);
    HeaderFor(c, i, marker, ElementsBytes(KindOf(ProfileOf(c)).value, ElementsFor(c, i, descriptor)))
  }

  lemma PacketParsed(c: Config, i: nat, payload: Bytes, descriptor: Bytes, marker: bool, h: Header)
    requires ValidConfig(c) && SizeOfPacket(c, |payload|, |descriptor|).Some?
    requires h == BuiltHeader(c, i, payload, descriptor, marker)
    ensures PacketOf(PacketBytes(c, i, payload, descriptor, marker)) == Ok(Packet(ReadHeader(h), payload))
  {
    PacketRoundTrip(h, payload);
  }

  /** A header read back has the fields of its packet. */
  ghost predicate ReadAs(c: Config, i: nat, h: Header, descriptor: Bytes, marker: bool) {
    && h.marker == marker && h.sequence == (c.sequence + i) % 0x1_0000
    && h.payloadType == c.payloadType && h.profile == ProfileOf(c)
    && h.timestamp == c.timestamp && h.source == c.source && h.sources == []
    && h.extension == ExtensionOf(c, i, descriptor)
  }

  lemma HeaderReads(c: Config, i: nat, payload: Bytes, descriptor: Bytes, marker: bool)
    requires ValidConfig(c) && SizeOfPacket(c, |payload|, |descriptor|).Some?
    ensures ReadAs(c, i, ReadHeader(BuiltHeader(c, i, payload, descriptor, marker)), descriptor, marker)
  {
    PacketFits(c, i, payload, descriptor, marker);
  }

  /** Read back from the wire, a packet has its payload and the fields it was built with. */
  lemma PacketReadsBack(c: Config, i: nat, payload: Bytes, descriptor: Bytes, marker: bool)
    requires ValidConfig(c) && SizeOfPacket(c, |payload|, |descriptor|).Some?
    ensures var r := PacketOf(PacketBytes(c, i, payload, descriptor, marker));
            r.Ok? && r.value.payload == payload && ReadAs(c, i, r.value.header, descriptor, marker)
  {
    PacketParsed(c, i, payload, descriptor, marker, BuiltHeader(c, i, payload, descriptor, marker));
    HeaderReads(c, i, payload, descriptor, marker);
  }

  /** The padded elements of a packet. */
  function ExtensionOf(c: Config, i: nat, descriptor: Bytes): Bytes {
    var kind := KindOf(ProfileOf(c));
    var ext := if kind.None? then [] else ElementsBytes(kind.value, ElementsFor(c, i, descriptor));
    if PaddedLength(|ext|).None? then [] else Padded(ext)
  }

  /** The elements read back are the ones put in exactly when the framing carries their identifiers. */
  lemma ElementsReadBack(c: Config, i: nat, payload: Bytes, descriptor: Bytes, marker: bool)
    requires ValidConfig(c) && SizeOfPacket(c, |payload|, |descriptor|).Some?
    ensures ElementsBack(c, i, ExtensionOf(c, i, descriptor), descriptor)
  {
    var kind := KindOf(ProfileOf(c)).value;
    var es := ElementsFor(c, i, descriptor);
    PacketFits(c, i, payload, descriptor, marker);
    var ext := ElementsBytes(kind, es);
    ElementsRoundTrip(kind, es, PaddedLength(|ext|).value - |ext|, |es|);
  }

  // ----- the output as a receiver sees it ---------------------------------------------------

  /** The source payload, and the descriptor if there is one, are in the output where the span says. */
  ghost predicate Placed(out: Bytes, t: PacketSpan, payload: Bytes, descriptor: Bytes, described: bool) {
    && t.payloadOffset + t.payloadLength == t.offset + t.length <= |out| && t.payloadLength <= t.length
    && out[t.payloadOffset..t.payloadOffset + t.payloadLength] == payload
    && (described ==>
          && t.offset <= t.descriptorOffset && t.descriptorOffset + t.descriptorLength <= t.payloadOffset
          && out[t.descriptorOffset..t.descriptorOffset + t.descriptorLength] == descriptor)
  }

  /** The output at a span: what the packet is made of is in its place, and the packet parses to what was planned. */
  ghost predicate Delivered(c: Config, out: Bytes, t: PacketSpan, i: nat, payload: Bytes, descriptor: Bytes, marker: bool)
    requires KindOf(ProfileOf(c)).Some?
  {
    && Placed(out, t, payload, descriptor, c.descriptorId != 0)
    && Parses(c, i, out[t.offset..t.offset + t.length], payload, descriptor, marker)
  }

  ghost predicate DeliveredAt(p: Plan, out: Bytes, t: PacketSpan, i: nat)
    requires i < |p.spans| && ValidConfig(p.config) && SizeOf(p, p.spans[i]).Some?
  {
    var s, c := p.spans[i], p.config;
    var payload, descriptor := PayloadAt(p.payloads, s), DescriptorAt(p.descriptors, s);
    && Sliced(p.payloads, s.payloadOffset, s.payloadLength, payload)
    && Sliced(p.descriptors, s.descriptorOffset, s.descriptorLength, descriptor)
    && SpanPlanned(c, s, t, i)
    && Delivered(c, out, t, i, payload, descriptor, s.marker)
  }

  /** The n bytes of src from off on. */
  predicate Sliced(src: Bytes, off: int, n: int, part: Bytes) {
    0 <= off && 0 <= n && off + n <= |src| && src[off..off + n] == part
  }

  /** What a span of the output says besides its place. */
  predicate SpanPlanned(c: Config, s: Span, t: PacketSpan, i: nat) {
    && t.sequence == (c.sequence + i) % 0x1_0000 && t.marker == s.marker
    && t.payloadLength == s.payloadLength && t.headerSize + t.payloadLength == t.length
    && if c.descriptorId == 0 then t.descriptorOffset == -1 && t.descriptorLength == 0
       else t.descriptorLength == s.descriptorLength
  }

  /** What parsing a packet gives: its payload, the fields of the plan, and, exactly if the framing carries their
      identifiers, the descriptor and the extensions of the plan. */
  ghost predicate Reads(c: Config, i: nat, packet: Bytes, payload: Bytes, descriptor: Bytes, marker: bool)
    requires KindOf(ProfileOf(c)).Some?
  {
    var r := PacketOf(packet);
    && r.Ok? && r.value.payload == payload
    && HeaderPlanned(c, i, r.value.header, marker)
    && (ElementsPlanned(c, i, ElementsOf(Framing(c), r.value.header.extension, Planned(c)), descriptor) <==> Carried(c))
  }

  ghost predicate HeaderPlanned(c: Config, i: nat, h: Header, marker: bool) {
    && h.marker == marker && h.payloadType == c.payloadType && h.sources == []
    && h.sequence == (c.sequence + i) % 0x1_0000 && h.timestamp == c.timestamp && h.source == c.source
    && h.profile == if c.profile == 0 then 0x1000 else c.profile
  }

  /** One-byte framing for its profile, two-byte framing for all others. */
  function Framing(c: Config): Kind {
    if c.profile == 0xBEDE then OneByte else TwoByte
  }

  /** How many elements a packet has. */
  function Planned(c: Config): nat {
    |c.extensions| + if c.descriptorId == 0 then 0 else 1
  }

  /** One-byte framing carries identifiers below 15. */
  ghost predicate Carried(c: Config) {
    c.profile == 0xBEDE ==>
      c.descriptorId < 15 && forall k | 0 <= k < |c.extensions| :: c.extensions[k].id < 15
  }

  /** The elements of packet i: the descriptor first, if there is one, and then the extensions in order. */
  ghost predicate ElementsPlanned(c: Config, i: nat, r: Result<seq<Element>>, descriptor: Bytes) {
    && r.Ok? && |r.value| == Planned(c)
    && (c.descriptorId != 0 ==> r.value[0].id == c.descriptorId && r.value[0].payload == descriptor)
    && ExtensionsPlanned(c.extensions, i, if c.descriptorId == 0 then r.value else r.value[1..])
  }

  predicate ExtensionsPlanned(xs: seq<Extension>, i: nat, es: seq<Element>) {
    |es| == |xs| && forall k | 0 <= k < |xs| :: ElementPlanned(xs[k], i, es[k])
  }

  /** A fixed extension has its bytes. A counter has advanced by one for each packet before, modulo 2^16, the high
      byte first. */
  predicate ElementPlanned(x: Extension, i: nat, e: Element) {
    && e.id == x.id
    && match x
       case Fixed(_, bytes) => e.payload == bytes
       case Counter(_, start, suffix) =>
         && |e.payload| == 2 + |suffix| && e.payload[2..] == suffix
         && 0 <= e.payload[0] < 256 && 0 <= e.payload[1] < 256
         && 256 * e.payload[0] + e.payload[1] == (start + i) % 0x1_0000
  }

  lemma PayloadIs(x: Extension, i: nat, e: Element)
    ensures ElementPlanned(x, i, e) <==> e == Element(x.id, ExtensionPayload(x, i))
  {
    if x.Counter? && |e.payload| >= 2 {
      assert e.payload == [e.payload[0], e.payload[1]] + e.payload[2..];
    }
  }

  lemma ExtensionsAre(xs: seq<Extension>, i: nat, es: seq<Element>)
    ensures ExtensionsPlanned(xs, i, es) <==> es == ExtensionElements(xs, i)
  {
    if |es| == |xs| {
      forall k | 0 <= k < |xs|
        ensures ElementPlanned(xs[k], i, es[k]) <==> es[k] == ExtensionElements(xs, i)[k]
      {
        PayloadIs(xs[k], i, es[k]);
      }
    }
  }

  lemma HeadAndTail<T>(s: seq<T>, x: T, rest: seq<T>)
    ensures s == [x] + rest <==> s != [] && s[0] == x && s[1..] == rest
  {
    if s != [] {
      assert s == [s[0]] + s[1..];
    }
  }

  lemma PlannedIs(c: Config, i: nat, es: seq<Element>, descriptor: Bytes)
    ensures ElementsPlanned(c, i, Ok(es), descriptor) <==> es == ElementsFor(c, i, descriptor)
  {
    var rest := ExtensionElements(c.extensions, i);
    if c.descriptorId == 0 {
      assert [] + rest == rest;
      ExtensionsAre(c.extensions, i, es);
    } else if es != [] {
      ExtensionsAre(c.extensions, i, es[1..]);
      HeadAndTail(es, Element(c.descriptorId, descriptor), rest);
    }
  }

  lemma KindIs(c: Config)
    requires KindOf(ProfileOf(c)).Some?
    ensures KindOf(ProfileOf(c)).value == Framing(c)
  {
  }

  lemma CarriedIs(c: Config, i: nat, descriptor: Bytes)
    requires KindOf(ProfileOf(c)).Some?
    ensures Carried(c) <==>
              forall k | 0 <= k < |ElementsFor(c, i, descriptor)| :: Carries(Framing(c), ElementsFor(c, i, descriptor)[k].id)
  {
    var rest := ExtensionElements(c.extensions, i);
    if c.descriptorId == 0 {
      assert ElementsFor(c, i, descriptor) == rest;
      ExtensionsCarried(Framing(c), c.extensions, rest);
    } else {
      assert ElementsFor(c, i, descriptor) == [Element(c.descriptorId, descriptor)] + rest;
      ExtensionsCarried(Framing(c), c.extensions, rest);
      OneMore(Framing(c), Element(c.descriptorId, descriptor), rest);
    }
  }

  lemma ExtensionsCarried(kind: Kind, xs: seq<Extension>, es: seq<Element>)
    requires |es| == |xs| && forall k | 0 <= k < |xs| :: es[k].id == xs[k].id
    ensures (forall k | 0 <= k < |es| :: Carries(kind, es[k].id)) <==> forall k | 0 <= k < |xs| :: kind.OneByte? ==> xs[k].id < 15
  {
  }

  lemma OneMore(kind: Kind, e: Element, es: seq<Element>)
    ensures (forall k | 0 <= k < |[e] + es| :: Carries(kind, ([e] + es)[k].id)) <==>
              Carries(kind, e.id) && forall k | 0 <= k < |es| :: Carries(kind, es[k].id)
  {
    assert ([e] + es)[0] == e && forall k | 0 <= k < |es| :: ([e] + es)[k + 1] == es[k];
  }

  lemma ElementsPlannedIff(c: Config, i: nat, extension: Bytes, descriptor: Bytes)
    requires KindOf(ProfileOf(c)).Some? && ElementsBack(c, i, extension, descriptor)
    ensures ElementsPlanned(c, i, ElementsOf(Framing(c), extension, Planned(c)), descriptor) <==> Carried(c)
  {
    KindIs(c);
    CarriedIs(c, i, descriptor);
    var r := ElementsOf(Framing(c), extension, Planned(c));
    if r.Ok? {
      PlannedIs(c, i, r.value, descriptor);
    }
  }

  ghost predicate ElementsBack(c: Config, i: nat, extension: Bytes, descriptor: Bytes)
    requires KindOf(ProfileOf(c)).Some?
  {
    var kind, es := KindOf(ProfileOf(c)).value, ElementsFor(c, i, descriptor);
    ElementsOf(kind, extension, |es|) == Ok(es) <==> forall k | 0 <= k < |es| :: Carries(kind, es[k].id)
  }

  /** The same, sealed. */
  ghost predicate Parses(c: Config, i: nat, packet: Bytes, payload: Bytes, descriptor: Bytes, marker: bool)
    requires KindOf(ProfileOf(c)).Some?
  {
    forall k: int {:trigger Unsealed(k)} :: Unsealed(k) ==> Reads(c, i, packet, payload, descriptor, marker)
  }

  lemma PacketReads(c: Config, i: nat, payload: Bytes, descriptor: Bytes, marker: bool)
    requires ValidConfig(c) && SizeOfPacket(c, |payload|, |descriptor|).Some?
    ensures Parses(c, i, PacketBytes(c, i, payload, descriptor, marker), payload, descriptor, marker)
  {
    PacketReadsBack(c, i, payload, descriptor, marker);
    ElementsReadBack(c, i, payload, descriptor, marker);
    ElementsPlannedIff(c, i, ExtensionOf(c, i, descriptor), descriptor);
  }

  lemma Within(out: Bytes, offset: nat, packet: Bytes, at: nat, n: nat)
    requires offset + |packet| <= |out| && out[offset..offset + |packet|] == packet && at + n <= |packet|
    ensures out[offset + at..offset + at + n] == packet[at..at + n]
  {
    var post := out[offset + |packet|..];
    assert out == out[..offset] + (packet + post);
    Shifted(out[..offset], packet + post, at, n);
    assert (packet + post)[at..at + n] == packet[at..at + n];
  }

  /** The descriptor ends before the payload starts. */
  lemma DescriptorBefore(c: Config, payload: Bytes, descriptor: Bytes)
    requires ValidConfig(c) && SizeOfPacket(c, |payload|, |descriptor|).Some? && c.descriptorId != 0
    ensures HEADER_MIN + 4 + PrefixLength(KindOf(ProfileOf(c)).value) + |descriptor|
            <= SizeOfPacket(c, |payload|, |descriptor|).value - |payload|
  {
  }

  lemma PartsPlaced(c: Config, i: nat, out: Bytes, offset: nat, b: Bytes, s: Span, payload: Bytes, descriptor: Bytes, at: nat)
    requires KindOf(ProfileOf(c)).Some? && s.payloadLength == |payload| <= |b| && s.descriptorLength == |descriptor|
    requires offset + |b| <= |out| && out[offset..offset + |b|] == b && b[|b| - |payload|..] == payload
    requires at == HEADER_MIN + 4 + PrefixLength(KindOf(ProfileOf(c)).value)
    requires c.descriptorId != 0 ==> at + |descriptor| <= |b| - |payload| && b[at..at + |descriptor|] == descriptor
    ensures Placed(out, SpanAt(c, s, i, offset, |b|), payload, descriptor, c.descriptorId != 0)
  {
    Within(out, offset, b, |b| - |payload|, |payload|);
    if c.descriptorId != 0 {
      Within(out, offset, b, at, |descriptor|);
    }
  }

  lemma PacketPlaced(c: Config, i: nat, out: Bytes, offset: nat, b: Bytes, s: Span, payload: Bytes, descriptor: Bytes)
    requires ValidConfig(c) && s.payloadLength == |payload| && s.descriptorLength == |descriptor|
    requires SizeOfPacket(c, |payload|, |descriptor|).Some? && b == PacketBytes(c, i, payload, descriptor, s.marker)
    requires |b| == SizeOfPacket(c, |payload|, |descriptor|).value
    requires offset + |b| <= |out| && out[offset..offset + |b|] == b
    ensures |payload| <= |b| && Placed(out, SpanAt(c, s, i, offset, |b|), payload, descriptor, c.descriptorId != 0)
  {
    PacketEnds(c, i, payload, descriptor, s.marker);
    if c.descriptorId != 0 {
      DescriptorHeld(c, i, payload, descriptor, s.marker);
      DescriptorBefore(c, payload, descriptor);
    }
    PartsPlaced(c, i, out, offset, b, s, payload, descriptor, HEADER_MIN + 4 + PrefixLength(KindOf(ProfileOf(c)).value));
  }

  lemma PlacedDelivered(c: Config, i: nat, out: Bytes, t: PacketSpan, b: Bytes, payload: Bytes, descriptor: Bytes, marker: bool)
    requires KindOf(ProfileOf(c)).Some? && Placed(out, t, payload, descriptor, c.descriptorId != 0)
    requires Parses(c, i, b, payload, descriptor, marker) && out[t.offset..t.offset + t.length] == b
    ensures Delivered(c, out, t, i, payload, descriptor, marker)
  {
  }

  lemma PacketDelivered(c: Config, i: nat, out: Bytes, offset: nat, b: Bytes, s: Span, payload: Bytes, descriptor: Bytes)
    requires ValidConfig(c) && s.payloadLength == |payload| && s.descriptorLength == |descriptor|
    requires SizeOfPacket(c, |payload|, |descriptor|).Some? && b == PacketBytes(c, i, payload, descriptor, s.marker)
    requires |b| == SizeOfPacket(c, |payload|, |descriptor|).value
    requires offset + |b| <= |out| && out[offset..offset + |b|] == b
    ensures |payload| <= |b| && Delivered(c, out, SpanAt(c, s, i, offset, |b|), i, payload, descriptor, s.marker)
  {
    PacketPlaced(c, i, out, offset, b, s, payload, descriptor);
    PacketReads(c, i, payload, descriptor, s.marker);
    PlacedDelivered(c, i, out, SpanAt(c, s, i, offset, |b|), b, payload, descriptor, s.marker);
  }

  /** What a span says about its packet. */
  lemma SpanIs(p: Plan, i: nat, offset: nat, b: Bytes)
    requires i < |p.spans| && ValidConfig(p.config) && SizeOf(p, p.spans[i]).Some? && b == PacketAt(p, p.spans[i], i)
    ensures var s := p.spans[i];
            var payload, descriptor := PayloadAt(p.payloads, s), DescriptorAt(p.descriptors, s);
            && s.payloadLength == |payload| <= |b| && s.descriptorLength == |descriptor|
            && SizeOfPacket(p.config, |payload|, |descriptor|) == Some(|b|)
            && b == PacketBytes(p.config, i, payload, descriptor, s.marker)
            && SpanOf(p, i, offset) == SpanAt(p.config, s, i, offset, |b|)
            && Sliced(p.payloads, s.payloadOffset, s.payloadLength, payload)
            && Sliced(p.descriptors, s.descriptorOffset, s.descriptorLength, descriptor)
            && SpanPlanned(p.config, s, SpanOf(p, i, offset), i)
  {
  }

  lemma SpanDelivered(p: Plan, out: Bytes, i: nat, offset: nat, b: Bytes)
    requires i < |p.spans| && ValidConfig(p.config) && SizeOf(p, p.spans[i]).Some? && b == PacketAt(p, p.spans[i], i)
    requires offset + |b| <= |out| && out[offset..offset + |b|] == b
    ensures DeliveredAt(p, out, SpanOf(p, i, offset), i)
  {
    var s := p.spans[i];
    SpanIs(p, i, offset, b);
    PacketDelivered(p.config, i, out, offset, b, s, PayloadAt(p.payloads, s), DescriptorAt(p.descriptors, s));
  }

  lemma {:induction false} OutputDelivered(p: Plan, dst: Bytes, packets: seq<Bytes>, t: PacketSpan, i: nat, all: Bytes, at: nat, out: Bytes)
    requires i < |packets| == |p.spans| && ValidConfig(p.config) && SizeOf(p, p.spans[i]).Some?
    requires packets[i] == PacketAt(p, p.spans[i], i) && t == SpanOf(p, i, |dst| + at)
    requires all == Concat(packets, |packets|) && at == |Concat(packets, i)| && out == dst + all
    ensures DeliveredAt(p, out, t, i)
  {
    PacketHeld(dst, packets, i, all, at);
    SpanDelivered(p, out, i, |dst| + at, packets[i]);
  }

  /** Every packet of the output is delivered at its span. */
  lemma {:induction false} PlanDelivered(p: Plan, dst: Bytes, packets: seq<Bytes>, table: seq<PacketSpan>, i: nat)
    requires Wraps(p, |dst|, packets, table) && i < |p.spans|
    ensures DeliveredAt(p, dst + Concat(packets, |packets|), table[i], i)
  {
    assert WrapsOne(p, |dst|, packets, table, i);
    OutputDelivered(p, dst, packets, table[i], i, Concat(packets, |packets|), |Concat(packets, i)|, dst + Concat(packets, |packets|));
  }
}
