/**
 RTP headers and their extension elements: RFC 3550 section 5.3.1, RFC 8285 sections 4.2 and 4.3.
 */
module RtpHeader {
  import opened Values
  import opened Numbers

  type Byte = x: int | 0 <= x < 256

  /** Buffer contents; what counts of each number is its value modulo 256. */
  type Bytes = seq<int>
  type U16 = x: int | 0 <= x < 0x1_0000
  type U32 = x: int | 0 <= x < 0x1_0000_0000

  const HEADER_MIN: nat := 12
  const MAX_SOURCES: nat := 15

  // ----- numbers ----------------------------------------------------------------------------

  function Put16(x: U16): (b: Bytes)
    ensures |b| == 2 && Get16(b) == x
  {
    [x / 256, x % 256]
  }

  function Get16(b: Bytes): U16
    requires |b| == 2
  {
    256 * (b[0] % 256) + b[1] % 256
  }

  function Put32(x: U32): (b: Bytes)
    ensures |b| == 4 && Get32(b) == x
  {
    var high: U16 := x / 0x1_0000;
    var low: U16 := x % 0x1_0000;
    var b := Put16(high) + Put16(low);
    assert b[..2] == Put16(high) && b[2..] == Put16(low);
    b
  }

  function Get32(b: Bytes): U32
    requires |b| == 4
  {
    var high: int := Get16(b[..2]);
    0x1_0000 * high + Get16(b[2..])
  }

  // ----- extension elements -----------------------------------------------------------------

  datatype Kind = OneByte | TwoByte

  /** The framing that an extension profile selects. The low four bits of the second are free. */
  function KindOf(profile: U16): Option<Kind> {
    if profile == 0xBEDE then Some(OneByte)
    else if profile / 16 == 0x100 then Some(TwoByte)
    else None
  }

  /** The profiles of RFC 8285 sections 4.2 and 4.3. */
  lemma KindIff(profile: U16)
    ensures KindOf(profile) == Some(OneByte) <==> profile == 48862
    ensures KindOf(profile) == Some(TwoByte) <==> 4096 <= profile < 4112
  {
  }

  datatype Element = Element(id: Byte, payload: Bytes)

  function ElementSize(kind: Kind, id: Byte, length: nat): Option<nat> {
    if kind.OneByte? then
      if id == 0 || id == 15 || length == 0 || length > 16 then None else Some(1 + length)
    else if id == 0 || length > 255 then None else Some(2 + length)
  }

  predicate Fits(kind: Kind, e: Element) {
    ElementSize(kind, e.id, |e.payload|).Some?
  }

  /** What fits: a payload of 1 to 16 bytes in one-byte framing, where 15 is no identifier, and of up to 255 bytes in
      two-byte framing; zero is padding in both. */
  lemma FitsIff(kind: Kind, e: Element)
    ensures Fits(kind, e) <==>
              e.id != 0 && if kind.OneByte? then e.id != 15 && 1 <= |e.payload| <= 16 else |e.payload| <= 255
  {
  }

  predicate AllFit(kind: Kind, es: seq<Element>) {
    forall i | 0 <= i < |es| :: Fits(kind, es[i])
  }

  /** The byte or bytes before the payload. In one-byte framing the identifier has four bits; higher ones are
      lost. */
  function Prefix(kind: Kind, id: Byte, length: nat): (b: Bytes)
    ensures |b| == if kind.OneByte? then 1 else 2
  {
    if kind.OneByte? then [(id % 16) * 16 + (length + 15) % 16] else [id, length % 256]
  }

  function ElementBytes(kind: Kind, e: Element): (b: Bytes)
    ensures |b| == |e.payload| + if kind.OneByte? then 1 else 2
  {
    Prefix(kind, e.id, |e.payload|) + e.payload
  }

  function ElementsBytes(kind: Kind, es: seq<Element>): Bytes {
    if es == [] then [] else ElementBytes(kind, es[0]) + ElementsBytes(kind, es[1..])
  }

  function ElementsSize(kind: Kind, es: seq<Element>): Option<nat> {
    if es == [] then Some(0)
    else
      var rest, first := ElementsSize(kind, es[1..]), ElementSize(kind, es[0].id, |es[0].payload|);
      if rest.None? || first.None? then None else Some(first.value + rest.value)
  }

  /** The size function agrees with the bytes written, and fails exactly if an element does not fit. */
  lemma {:induction false} SizeIsLength(kind: Kind, es: seq<Element>)
    ensures ElementsSize(kind, es).Some? <==> AllFit(kind, es)
    ensures AllFit(kind, es) ==> ElementsSize(kind, es) == Some(|ElementsBytes(kind, es)|)
  {
    if es != [] {
      SizeIsLength(kind, es[1..]);
      assert forall i | 1 <= i < |es| :: es[i] == es[1..][i - 1];
      assert AllFit(kind, es) <==> Fits(kind, es[0]) && AllFit(kind, es[1..]);
    }
  }

  lemma {:induction false} ElementsSplit(kind: Kind, a: seq<Element>, b: seq<Element>)
    ensures ElementsBytes(kind, a + b) == ElementsBytes(kind, a) + ElementsBytes(kind, b)
  {
    if a == [] {
      assert a + b == b;
    } else {
      assert (a + b)[1..] == a[1..] + b;
      ElementsSplit(kind, a[1..], b);
      Associate(ElementBytes(kind, a[0]), ElementsBytes(kind, a[1..]), ElementsBytes(kind, b));
    }
  }

  lemma Associate(a: Bytes, b: Bytes, c: Bytes)
    ensures (a + b) + c == a + (b + c)
  {
  }

  lemma Middle(a: Bytes, b: Bytes, c: Bytes)
    ensures (a + b + c)[|a|..|a| + |b|] == b && (a + b + c)[|a| + |b|..] == c
  {
  }

  lemma PrefixGrows(kind: Kind, es: seq<Element>, i: nat)
    requires i < |es|
    ensures ElementsBytes(kind, es[..i + 1]) == ElementsBytes(kind, es[..i]) + ElementBytes(kind, es[i])
  {
    assert es[..i + 1] == es[..i] + [es[i]];
    ElementsSplit(kind, es[..i], [es[i]]);
    assert [es[i]][1..] == [];
    assert ElementsBytes(kind, [es[i]]) == ElementBytes(kind, es[i]) + [];
  }

  lemma PrefixFits(kind: Kind, es: seq<Element>, i: nat)
    requires i <= |es|
    ensures |ElementsBytes(kind, es[..i])| <= |ElementsBytes(kind, es)|
  {
    assert es[..i] + es[i..] == es;
    ElementsSplit(kind, es[..i], es[i..]);
  }

  /** The buffer holds b up to position off, and its contents was from there on. */
  ghost predicate Holds(dst: array<int>, b: Bytes, was: Bytes)
    reads dst
  {
    |was| == dst.Length && |b| <= dst.Length && dst[..] == b + was[|b|..]
  }

  method PutElement(dst: array<int>, off: nat, kind: Kind, e: Element, ghost b: Bytes, ghost was: Bytes) returns (end: nat)
    requires Holds(dst, b, was) && off == |b| && off + |ElementBytes(kind, e)| <= dst.Length
    modifies dst
    ensures end == off + |ElementBytes(kind, e)| && Holds(dst, b + ElementBytes(kind, e), was)
  {
    var prefix := Prefix(kind, e.id, |e.payload|);
    end := Copy(dst, off, prefix, b, was);
    end := Copy(dst, end, e.payload, b + prefix, was);
    Associate(b, prefix, e.payload);
  }

  /** Writes the elements into a buffer, from position start on. */
  method PutElements(dst: array<int>, start: nat, kind: Kind, es: seq<Element>, ghost b: Bytes, ghost was: Bytes) returns (end: nat)
    requires Holds(dst, b, was) && start == |b| && start + |ElementsBytes(kind, es)| <= dst.Length
    modifies dst
    ensures end == start + |ElementsBytes(kind, es)| && Holds(dst, b + ElementsBytes(kind, es), was)
  {
    end := start;
    assert es[..0] == [] && b + [] == b;
    for i := 0 to |es|
      invariant end == start + |ElementsBytes(kind, es[..i])|
      invariant Holds(dst, b + ElementsBytes(kind, es[..i]), was)
    {
      PrefixGrows(kind, es, i);
      PrefixFits(kind, es, i + 1);
      end := PutElement(dst, end, kind, es[i], b + ElementsBytes(kind, es[..i]), was);
      Associate(b, ElementsBytes(kind, es[..i]), ElementBytes(kind, es[i]));
    }
    assert es[..|es|] == es;
  }

  /** Copies src to position at. */
  method Copy(dst: array<int>, at: nat, src: Bytes, ghost b: Bytes, ghost was: Bytes) returns (end: nat)
    requires Holds(dst, b, was) && at == |b| && at + |src| <= dst.Length
    modifies dst
    ensures end == at + |src| && Holds(dst, b + src, was)
  {
    end := at + |src|;
    for i := 0 to |src|
      invariant forall k | 0 <= k < at :: dst[k] == b[k]
      invariant forall k | 0 <= k < i :: dst[at + k] == src[k]
      invariant forall k | at + i <= k < dst.Length :: dst[k] == was[k]
    {
      dst[at + i] := src[i];
    }
  }

  // ----- reading elements -------------------------------------------------------------------

  /** The elements of an extension payload, into a table with room for capacity of them. Zero bytes between
      elements are padding; in one-byte framing identifier 15 ends the list. */
  function ElementsOf(kind: Kind, b: Bytes, capacity: nat): Result<seq<Element>>
    decreases |b|
  {
    if b == [] then Ok([])
    else if b[0] % 256 == 0 then ElementsOf(kind, b[1..], capacity)
    else if kind.OneByte? && b[0] / 16 % 16 == 15 then Ok([])
    else if !kind.OneByte? && |b| == 1 then Err
    else
      var id := if kind.OneByte? then b[0] / 16 % 16 else b[0] % 256;
      var n := if kind.OneByte? then b[0] % 16 + 1 else b[1] % 256;
      var off := if kind.OneByte? then 1 else 2;
      if off + n > |b| || capacity == 0 then Err
      else
        var rest := ElementsOf(kind, b[off + n..], capacity - 1);
        if rest.Err? then Err else Ok([Element(id, b[off..off + n])] + rest.value)
  }

  function Zeros(n: nat): (b: Bytes)
    ensures |b| == n && forall i | 0 <= i < n :: b[i] == 0
  {
    seq(n, i => 0)
  }

  lemma {:induction false} PaddingReads(kind: Kind, n: nat, capacity: nat)
    ensures ElementsOf(kind, Zeros(n), capacity) == Ok([])
  {
    if n > 0 {
      assert Zeros(n)[1..] == Zeros(n - 1);
      PaddingReads(kind, n - 1, capacity);
    }
  }

  /** Whether the framing can carry the identifier. */
  predicate Carries(kind: Kind, id: Byte) {
    kind.OneByte? ==> id < 15
  }

  lemma ElementReads(kind: Kind, e: Element, rest: Bytes, capacity: nat)
    requires Fits(kind, e) && Carries(kind, e.id) && capacity > 0
    ensures ElementsOf(kind, ElementBytes(kind, e) + rest, capacity) ==
              var r := ElementsOf(kind, rest, capacity - 1);
              if r.Err? then Err else Ok([e] + r.value)
  {
    var head := Prefix(kind, e.id, |e.payload|);
    PrefixReads(kind, e.id, |e.payload|);
    var b := head + e.payload + rest;
    assert b[0] == head[0];
    assert !kind.OneByte? ==> b[1] == head[1];
    Middle(head, e.payload, rest);
  }

  lemma PrefixReads(kind: Kind, id: Byte, length: nat)
    requires ElementSize(kind, id, length).Some? && Carries(kind, id)
    ensures var b := Prefix(kind, id, length);
            && b[0] % 256 != 0
            && (kind.OneByte? ==> b[0] / 16 % 16 == id && b[0] % 16 + 1 == length)
            && (!kind.OneByte? ==> b[0] % 256 == id && b[1] % 256 == length)
  {
    if kind.OneByte? {
      var first := Prefix(kind, id, length)[0];
      assert first == id * 16 + (length - 1) && first / 16 == id && first % 16 == length - 1;
    }
  }

  lemma {:induction false} FirstAndRest(kind: Kind, es: seq<Element>, after: Bytes)
    requires es != []
    ensures ElementsBytes(kind, es) + after == ElementBytes(kind, es[0]) + (ElementsBytes(kind, es[1..]) + after)
  {
    Associate(ElementBytes(kind, es[0]), ElementsBytes(kind, es[1..]), after);
  }

  lemma {:induction false} ElementsRead(kind: Kind, es: seq<Element>, padding: nat, capacity: nat)
    requires AllFit(kind, es) && (forall i | 0 <= i < |es| :: Carries(kind, es[i].id)) && |es| <= capacity
    ensures ElementsOf(kind, ElementsBytes(kind, es) + Zeros(padding), capacity) == Ok(es)
  {
    if es == [] {
      assert ElementsBytes(kind, es) + Zeros(padding) == Zeros(padding);
      PaddingReads(kind, padding, capacity);
    } else {
      FirstAndRest(kind, es, Zeros(padding));
      ElementsRead(kind, es[1..], padding, capacity - 1);
      ElementReads(kind, es[0], ElementsBytes(kind, es[1..]) + Zeros(padding), capacity);
      assert [es[0]] + es[1..] == es;
    }
  }

  lemma {:induction false} ReadIdentifiers(b: Bytes, capacity: nat)
    ensures var r := ElementsOf(OneByte, b, capacity);
            r.Ok? ==> forall i | 0 <= i < |r.value| :: r.value[i].id < 15
    decreases |b|
  {
    if b != [] {
      if b[0] % 256 == 0 {
        ReadIdentifiers(b[1..], capacity);
      } else {
        var n := b[0] % 16 + 1;
        if 1 + n <= |b| && capacity > 0 {
          ReadIdentifiers(b[1 + n..], capacity - 1);
        }
      }
    }
  }

  /** Round trip: elements that were accepted are read back, padding or not, exactly when the framing carries
      every identifier. One-byte framing accepts identifiers above 15 but does not carry them. */
  lemma ElementsRoundTrip(kind: Kind, es: seq<Element>, padding: nat, capacity: nat)
    requires AllFit(kind, es) && |es| <= capacity
    ensures ElementsOf(kind, ElementsBytes(kind, es) + Zeros(padding), capacity) == Ok(es) <==>
              forall i | 0 <= i < |es| :: Carries(kind, es[i].id)
  {
    if forall i | 0 <= i < |es| :: Carries(kind, es[i].id) {
      ElementsRead(kind, es, padding, capacity);
    } else {
      ReadIdentifiers(ElementsBytes(kind, es) + Zeros(padding), capacity);
    }
  }

  /** For one, an identifier between 17 and 30 is accepted and comes back as the one 16 below it. */
  lemma IdentifierLost(e: Element)
    requires Fits(OneByte, e) && 16 < e.id < 31
    ensures ElementsOf(OneByte, ElementsBytes(OneByte, [e]) + Zeros(0), 1) == Ok([Element(e.id - 16, e.payload)])
  {
    var low := Element(e.id - 16, e.payload);
    assert [e][1..] == [] && [low][1..] == [];
    assert ElementBytes(OneByte, e) == ElementBytes(OneByte, low);
    ElementsRead(OneByte, [low], 0, 1);
  }

  /** An element on the wire: in one-byte framing the identifier and the length less one share a byte; in two-byte
      framing each has its own. */
  lemma ElementOnWire(kind: Kind, e: Element)
    requires Fits(kind, e) && Carries(kind, e.id)
    ensures var b := ElementBytes(kind, e);
            if kind.OneByte? then |b| == 1 + |e.payload| && b[0] == 16 * e.id + |e.payload| - 1 && b[1..] == e.payload
            else |b| == 2 + |e.payload| && b[0] == e.id && b[1] == |e.payload| && b[2..] == e.payload
  {
  }

  // ----- headers ----------------------------------------------------------------------------

  /** profile is zero if there is no extension. */
  datatype Header = Header(
    padded: bool,
    marker: bool,
    payloadType: Byte,
    sequence: U16,
    timestamp: U32,
    source: U32,
    sources: seq<U32>,
    profile: U16,
    extension: Bytes)

  function PaddedLength(n: nat): Option<nat> {
    if n > MAX_INT - 3 || (n + 3) / 4 > 0xffff then None else Some((n + 3) / 4 * 4)
  }

  predicate ValidHeader(h: Header) {
    && h.payloadType <= 127 && |h.sources| <= MAX_SOURCES
    && (h.profile == 0 ==> h.extension == [])
    && PaddedLength(|h.extension|).Some?
  }

  function Padded(b: Bytes): Bytes
    requires PaddedLength(|b|).Some?
  {
    b + Zeros(PaddedLength(|b|).value - |b|)
  }

  function SourcesBytes(ss: seq<U32>): (b: Bytes)
    ensures |b| == 4 * |ss|
  {
    if ss == [] then [] else Put32(ss[0]) + SourcesBytes(ss[1..])
  }

  function SourcesOf(b: Bytes, n: nat): seq<U32>
    requires |b| == 4 * n
  {
    if n == 0 then [] else [Get32(b[..4])] + SourcesOf(b[4..], n - 1)
  }

  lemma {:induction false} SourcesRead(ss: seq<U32>)
    ensures SourcesOf(SourcesBytes(ss), |ss|) == ss
  {
    if ss != [] {
      SourcesRead(ss[1..]);
      var b := SourcesBytes(ss);
      assert b[..4] == Put32(ss[0]) && b[4..] == SourcesBytes(ss[1..]);
    }
  }

  function FirstByte(h: Header): Byte
    requires ValidHeader(h)
  {
    128 + (if h.padded then 32 else 0) + (if h.profile != 0 then 16 else 0) + |h.sources|
  }

  function FixedBytes(h: Header): (b: Bytes)
    requires ValidHeader(h)
    ensures |b| == HEADER_MIN
  {
    [FirstByte(h), h.payloadType + if h.marker then 128 else 0]
    + Put16(h.sequence) + Put32(h.timestamp) + Put32(h.source)
  }

  function ExtensionBytes(h: Header): Bytes
    requires ValidHeader(h)
  {
    if h.profile == 0 then []
    else Put16(h.profile) + Put16(PaddedLength(|h.extension|).value / 4) + Padded(h.extension)
  }

  function HeaderBytes(h: Header): Bytes
    requires ValidHeader(h)
  {
    FixedBytes(h) + SourcesBytes(h.sources) + ExtensionBytes(h)
  }

  function HeaderSize(h: Header): nat
    requires ValidHeader(h)
  {
    HEADER_MIN + 4 * |h.sources| + if h.profile == 0 then 0 else 4 + PaddedLength(|h.extension|).value
  }

  lemma HeaderLength(h: Header)
    requires ValidHeader(h)
    ensures |HeaderBytes(h)| == HeaderSize(h)
  {
  }

  /** The number that two and four bytes are, the highest first. */
  function Big16(b: Bytes, at: nat): int
    requires at + 2 <= |b|
  {
    256 * b[at] + b[at + 1]
  }

  function Big32(b: Bytes, at: nat): int
    requires at + 4 <= |b|
  {
    16777216 * b[at] + 65536 * b[at + 1] + 256 * b[at + 2] + b[at + 3]
  }

  predicate Octets(b: Bytes) {
    forall k | 0 <= k < |b| :: 0 <= b[k] < 256
  }

  lemma PutOnWire(x: U16, y: U32)
    ensures Big16(Put16(x), 0) == x && Octets(Put16(x)) && Big32(Put32(y), 0) == y && Octets(Put32(y))
  {
  }

  lemma {:induction false} SourcesOnWire(ss: seq<U32>, k: nat)
    requires k < |ss|
    ensures Big32(SourcesBytes(ss), 4 * k) == ss[k]
  {
    PutOnWire(0, ss[0]);
    if k > 0 {
      SourcesOnWire(ss[1..], k - 1);
    }
  }

  /** The fixed header of RFC 3550 section 5.1: version 2, then padding, extension and number of sources in the first
      byte; marker and payload type in the second; then sequence number, timestamp and source. */
  lemma FixedOnWire(h: Header)
    requires ValidHeader(h)
    ensures var b := FixedBytes(h);
            && |b| == 12
            && b[0] == 2 * 64 + (if h.padded then 32 else 0) + (if h.profile != 0 then 16 else 0) + |h.sources|
            && b[1] == (if h.marker then 128 else 0) + h.payloadType
            && Big16(b, 2) == h.sequence && Big32(b, 4) == h.timestamp && Big32(b, 8) == h.source && Octets(b[2..])
  {
    PutOnWire(h.sequence, h.timestamp);
    PutOnWire(0, h.source);
  }

  /** The extension of RFC 3550 section 5.3.1: profile, length in words, the bytes, and zeros up to a whole word. */
  lemma ExtensionOnWire(h: Header)
    requires ValidHeader(h) && h.profile != 0
    ensures var b := ExtensionBytes(h);
            && |b| % 4 == 0 && |h.extension| + 4 <= |b| < |h.extension| + 8
            && Big16(b, 0) == h.profile && 4 * Big16(b, 2) == |b| - 4
            && b[4..4 + |h.extension|] == h.extension && forall k | 4 + |h.extension| <= k < |b| :: b[k] == 0
  {
    var words := PaddedLength(|h.extension|).value / 4;
    PutOnWire(h.profile, 0);
    PutOnWire(words, 0);
    PaddedOnWire(h.extension);
    PartsOnWire(Put16(h.profile), Put16(words), Padded(h.extension), |h.extension|);
  }

  lemma PaddedOnWire(ext: Bytes)
    requires PaddedLength(|ext|).Some?
    ensures var b := Padded(ext);
            && |b| == PaddedLength(|ext|).value && |b| % 4 == 0 && |ext| <= |b| < |ext| + 4
            && b[..|ext|] == ext && forall k | |ext| <= k < |b| :: b[k] == 0
  {
  }

  lemma PartsOnWire(a: Bytes, b: Bytes, c: Bytes, n: nat)
    requires |a| == |b| == 2 && n <= |c|
    ensures var s := a + b + c;
            && |s| == |c| + 4 && Big16(s, 0) == Big16(a, 0) && Big16(s, 2) == Big16(b, 0) && s[4..4 + n] == c[..n]
            && forall k | 4 + n <= k < |s| :: s[k] == c[k - 4]
  {
  }

  // ----- reading headers --------------------------------------------------------------------

  /** The header at the front of src and the position after it. */
  function HeaderOf(src: Bytes): Result<(Header, nat)> {
    if |src| < HEADER_MIN || src[0] / 64 % 4 != 2 then Err
    else
      var n := src[0] % 16;
      var off := HEADER_MIN + 4 * n;
      if |src| < off then Err
      else
        var fixed := Header(src[0] / 32 % 2 == 1, src[1] / 128 % 2 == 1, src[1] % 128, Get16(src[2..4]), Get32(src[4..8]),
                            Get32(src[8..12]), SourcesOf(src[12..off], n), 0, []);
        if src[0] / 16 % 2 == 0 then Ok((fixed, off))
        else if |src| < off + 4 then Err
        else
          var length := 4 * Get16(src[off + 2..off + 4]);
          if |src| < off + 4 + length then Err
          else
            Ok((fixed.(profile := Get16(src[off..off + 2]), extension := src[off + 4..off + 4 + length]), off + 4 + length))
  }

  datatype Packet = Packet(header: Header, payload: Bytes)

  function PacketOf(src: Bytes): Result<Packet> {
    var h := HeaderOf(src);
    if h.Err? then Err
    else
      var header, off := h.value.0, h.value.1;
      if !header.padded then Ok(Packet(header, src[off..]))
      else if off >= |src| || src[|src| - 1] % 256 == 0 || src[|src| - 1] % 256 > |src| - off then Err
      else Ok(Packet(header, src[off..|src| - src[|src| - 1] % 256]))
  }

  // ----- round trip -------------------------------------------------------------------------

  lemma FixedReads(h: Header, rest: Bytes)
    requires ValidHeader(h)
    ensures var b := FixedBytes(h) + rest;
            && b[0] == FirstByte(h) && b[1] == h.payloadType + (if h.marker then 128 else 0)
            && Get16(b[2..4]) == h.sequence && Get32(b[4..8]) == h.timestamp && Get32(b[8..12]) == h.source
            && b[12..] == rest
  {
    var b := FixedBytes(h) + rest;
    assert b[2..4] == Put16(h.sequence) && b[4..8] == Put32(h.timestamp) && b[8..12] == Put32(h.source);
  }

  lemma FirstByteReads(h: Header)
    requires ValidHeader(h)
    ensures var f := FirstByte(h);
            && f / 64 == 2 && (f / 32 % 2 == 1 <==> h.padded) && (f / 16 % 2 == 1 <==> h.profile != 0)
            && f % 16 == |h.sources|
  {
  }

  lemma SourcesAt(a: Bytes, ss: seq<U32>, rest: Bytes)
    requires |a| == HEADER_MIN
    ensures var b := a + SourcesBytes(ss) + rest;
            && SourcesOf(b[12..12 + 4 * |ss|], |ss|) == ss && b[12 + 4 * |ss|..] == rest
  {
    Middle(a, SourcesBytes(ss), rest);
    SourcesRead(ss);
  }

  lemma ExtensionReads(a: Bytes, h: Header, rest: Bytes)
    requires ValidHeader(h) && h.profile != 0
    ensures var b, n := a + ExtensionBytes(h) + rest, PaddedLength(|h.extension|).value;
            && Get16(b[|a|..|a| + 2]) == h.profile && 4 * Get16(b[|a| + 2..|a| + 4]) == n
            && b[|a| + 4..|a| + 4 + n] == Padded(h.extension) && b[|a| + 4 + n..] == rest
  {
    var b, n := a + ExtensionBytes(h) + rest, PaddedLength(|h.extension|).value;
    assert |Padded(h.extension)| == n;
    assert b[|a|..|a| + 2] == Put16(h.profile);
    assert b[|a| + 2..|a| + 4] == Put16(n / 4);
  }

  /** The header as it is read back: the extension comes with its padding. */
  function ReadHeader(h: Header): Header
    requires ValidHeader(h)
  {
    h.(extension := Padded(h.extension))
  }

  lemma PlainReads(src: Bytes, h: Header)
    requires ValidHeader(h) && |src| >= HEADER_MIN + 4 * |h.sources|
    requires src[0] == FirstByte(h) && src[1] == h.payloadType + (if h.marker then 128 else 0)
    requires Get16(src[2..4]) == h.sequence && Get32(src[4..8]) == h.timestamp && Get32(src[8..12]) == h.source
    requires SourcesOf(src[12..12 + 4 * |h.sources|], |h.sources|) == h.sources
    requires h.profile != 0 ==>
               var off, n := HEADER_MIN + 4 * |h.sources|, PaddedLength(|h.extension|).value;
               && |src| >= off + 4 + n && Get16(src[off..off + 2]) == h.profile && 4 * Get16(src[off + 2..off + 4]) == n
               && src[off + 4..off + 4 + n] == Padded(h.extension)
    ensures HeaderOf(src) == Ok((ReadHeader(h), HeaderSize(h)))
  {
    FirstByteReads(h);
    assert Padded([]) == [];
  }

  lemma Regroup(a: Bytes, b: Bytes, c: Bytes, d: Bytes)
    ensures a + b + c + d == a + (b + c + d) && a + b + c + d == a + b + (c + d)
    ensures (a + b + c + d)[|a + b + c|..] == d
  {
  }

  /** Reading undoes writing, whatever follows the header. */
  lemma HeaderRoundTrip(h: Header, rest: Bytes)
    requires ValidHeader(h)
    ensures HeaderOf(HeaderBytes(h) + rest) == Ok((ReadHeader(h), HeaderSize(h)))
    ensures (HeaderBytes(h) + rest)[HeaderSize(h)..] == rest
  {
    var f, s, e := FixedBytes(h), SourcesBytes(h.sources), ExtensionBytes(h);
    var src := HeaderBytes(h) + rest;
    HeaderLength(h);
    Regroup(f, s, e, rest);
    FixedReads(h, s + e + rest);
    SourcesAt(f, h.sources, e + rest);
    if h.profile != 0 {
      ExtensionReads(f + s, h, rest);
    }
    PlainReads(src, h);
  }

  /** Padding at the end of a packet is left out; its last byte says how long it is. */
  lemma PaddingRoundTrip(h: Header, payload: Bytes, n: nat)
    requires ValidHeader(h) && h.padded && 0 < n < 256
    ensures PacketOf(HeaderBytes(h) + (payload + Zeros(n - 1) + [n])) == Ok(Packet(ReadHeader(h), payload))
  {
    var rest := payload + Zeros(n - 1) + [n];
    HeaderRoundTrip(h, rest);
    HeaderLength(h);
    PaddingLeftOut(HeaderBytes(h) + rest, ReadHeader(h), HeaderSize(h), payload, n);
  }

  lemma PaddingLeftOut(src: Bytes, h: Header, off: nat, payload: Bytes, n: nat)
    requires HeaderOf(src) == Ok((h, off)) && h.padded && 0 < n < 256 && off <= |src|
    requires src[off..] == payload + Zeros(n - 1) + [n]
    ensures PacketOf(src) == Ok(Packet(h, payload))
  {
    var rest := payload + Zeros(n - 1) + [n];
    assert rest[|rest| - 1] == n && src[|src| - 1] == src[off..][|rest| - 1];
    assert src[off..|src| - n] == rest[..|rest| - n] == payload;
  }

  lemma PacketRoundTrip(h: Header, payload: Bytes)
    requires ValidHeader(h) && !h.padded
    ensures PacketOf(HeaderBytes(h) + payload) == Ok(Packet(ReadHeader(h), payload))
  {
    HeaderRoundTrip(h, payload);
  }
}
