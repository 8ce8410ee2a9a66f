/**
 Chroma conversion to 4:2:0: the typed paths, the path for generic frames, and semi-planar input. One plane at a
 time; both chroma planes are treated alike.
 */
module Chroma {
  import opened Values
  import opened Numbers

  type Sample = x: int | 0 <= x < 256

  // ----- planes -----------------------------------------------------------------------------

  /** The length that a plane needs, unless it overflows. */
  function PlaneLength(stride: nat, width: nat, height: nat): Option<nat>
    requires stride > 0 && height > 0 && width <= MAX_INT
  {
    if height - 1 > (MAX_INT - width) / stride then None else Some((height - 1) * stride + width)
  }

  /** The check is exact. */
  lemma PlaneLengthExact(stride: nat, width: nat, height: nat)
    requires stride > 0 && height > 0 && width <= MAX_INT
    ensures PlaneLength(stride, width, height).Some? <==> (height - 1) * stride + width <= MAX_INT
  {
    var room, rows := MAX_INT - width, height - 1;
    var q, r := room / stride, room % stride;
    assert room == q * stride + r;
    if rows <= q {
      Scales(stride, rows, q);
    } else {
      Scales(stride, q + 1, rows);
      assert (q + 1) * stride == q * stride + stride;
    }
  }

  datatype Plane = Plane(pix: seq<Sample>, stride: nat)

  /** A plane with room for width by height samples. */
  predicate Holds(p: Plane, width: nat, height: nat) {
    && 0 < width <= p.stride && width <= MAX_INT && 0 < height
    && PlaneLength(p.stride, width, height).Some? && PlaneLength(p.stride, width, height).value <= |p.pix|
  }

  /** Every sample of a plane that passed the check is in bounds. */
  lemma InBounds(p: Plane, width: nat, height: nat, x: nat, y: nat)
    requires Holds(p, width, height) && x < width && y < height
    ensures y * p.stride + x < |p.pix|
  {
    Scales(p.stride, y, height - 1);
  }

  function At(p: Plane, width: nat, height: nat, x: nat, y: nat): Sample
    requires Holds(p, width, height) && x < width && y < height
  {
    InBounds(p, width, height, x, y);
    p.pix[y * p.stride + x]
  }

  // ----- means ------------------------------------------------------------------------------

  /** The typed paths: a rounded mean by shifting. */
  function MeanOfTwo(a: Sample, b: Sample): Sample {
    (a + b + 1) / 2
  }

  function MeanOfFour(a: Sample, b: Sample, c: Sample, d: Sample): Sample {
    (a + b + c + d + 2) / 4
  }

  /** The generic path: any bit depth, and samples above the range are clipped. */
  function SampleTo8(sample: nat, bitDepth: nat): Sample {
    var v: nat := if bitDepth <= 8 then sample else Shifted(sample, bitDepth - 8);
    if v > 255 then 255 else v
  }

  /** sample >> n */
  function Shifted(sample: nat, n: nat): nat {
    if n == 0 then sample else Shifted(sample / 2, n - 1)
  }

  function AverageTo8(sum: nat, count: nat, bitDepth: nat): Sample {
    if count == 0 then 0 else SampleTo8((sum + count / 2) / count, bitDepth)
  }

  /** For 8-bit samples both are the rounded mean. */
  lemma MeansAgree(a: Sample, b: Sample, c: Sample, d: Sample)
    ensures AverageTo8(a + b, 2, 8) == MeanOfTwo(a, b)
    ensures AverageTo8(a + b + c + d, 4, 8) == MeanOfFour(a, b, c, d)
  {
  }

  // ----- conversions ------------------------------------------------------------------------

  /** Halving rows, halving rows and columns, or taking one of interleaved pairs. */
  datatype Conversion = From422 | From444 | Interleaved(offset: nat)

  /** The source plane that a destination of width by height samples needs. */
  predicate Source(c: Conversion, p: Plane, width: nat, height: nat) {
    match c
    case From422 => Holds(p, width, 2 * height)
    case From444 => Holds(p, 2 * width, 2 * height)
    case Interleaved(offset) => offset < 2 && Holds(p, 2 * width, height)
  }

  /** A destination sample, by the typed path or by the generic one. */
  function Value(c: Conversion, typed: bool, p: Plane, width: nat, height: nat, x: nat, y: nat): Sample
    requires Source(c, p, width, height) && x < width && y < height
  {
    match c
    case From422 =>
      var a, b := At(p, width, 2 * height, x, 2 * y), At(p, width, 2 * height, x, 2 * y + 1);
      if typed then MeanOfTwo(a, b) else AverageTo8(a + b, 2, 8)
    case From444 =>
      var a, b := At(p, 2 * width, 2 * height, 2 * x, 2 * y), At(p, 2 * width, 2 * height, 2 * x + 1, 2 * y);
      var c, d := At(p, 2 * width, 2 * height, 2 * x, 2 * y + 1), At(p, 2 * width, 2 * height, 2 * x + 1, 2 * y + 1);
      if typed then MeanOfFour(a, b, c, d) else AverageTo8(a + b + c + d, 4, 8)
    case Interleaved(offset) => At(p, 2 * width, height, 2 * x + offset, y)
  }

  /** The first x samples of row y. */
  function Row(c: Conversion, typed: bool, p: Plane, width: nat, height: nat, y: nat, x: nat): (r: seq<Sample>)
    requires Source(c, p, width, height) && x <= width && y < height
    ensures |r| == x
    decreases x
  {
    if x == 0 then [] else Row(c, typed, p, width, height, y, x - 1) + [Value(c, typed, p, width, height, x - 1, y)]
  }

  /** The first y rows. */
  function Rows(c: Conversion, typed: bool, p: Plane, width: nat, height: nat, y: nat): (r: seq<Sample>)
    requires Source(c, p, width, height) && y <= height
    ensures |r| == y * width
    decreases y
  {
    if y == 0 then []
    else
      assert y * width == (y - 1) * width + width;
      Rows(c, typed, p, width, height, y - 1) + Row(c, typed, p, width, height, y - 1, width)
  }

  // ----- what a destination sample is -------------------------------------------------------

  /** The byte at a place of a plane, if the plane has one there. */
  function Pixel(p: Plane, x: nat, y: nat): int {
    var k := y * p.stride + x;
    if k < |p.pix| then p.pix[k] else -1
  }

  /** d is the sample at x, y: the mean of the two source samples above each other, rounded up; or that of the four in
      a square, rounded to the nearest; or the one at this place of the pair. */
  predicate IsSample(c: Conversion, p: Plane, x: nat, y: nat, d: int) {
    match c
    case From422 =>
      var sum := Pixel(p, x, 2 * y) + Pixel(p, x, 2 * y + 1);
      2 * d == sum || 2 * d == sum + 1
    case From444 =>
      var sum := Pixel(p, 2 * x, 2 * y) + Pixel(p, 2 * x + 1, 2 * y) + Pixel(p, 2 * x, 2 * y + 1) + Pixel(p, 2 * x + 1, 2 * y + 1);
      4 * d <= sum + 2 < 4 * d + 4
    case Interleaved(offset) => d == Pixel(p, 2 * x + offset, y)
  }

  lemma AtIs(p: Plane, width: nat, height: nat, x: nat, y: nat)
    requires Holds(p, width, height) && x < width && y < height
    ensures At(p, width, height, x, y) == Pixel(p, x, y) >= 0
  {
    InBounds(p, width, height, x, y);
  }

  lemma ValueIsSample(c: Conversion, typed: bool, p: Plane, width: nat, height: nat, x: nat, y: nat)
    requires Source(c, p, width, height) && x < width && y < height
    ensures IsSample(c, p, x, y, Value(c, typed, p, width, height, x, y))
  {
    match c
    case From422 =>
      AtIs(p, width, 2 * height, x, 2 * y);
      AtIs(p, width, 2 * height, x, 2 * y + 1);
    case From444 =>
      AtIs(p, 2 * width, 2 * height, 2 * x, 2 * y);
      AtIs(p, 2 * width, 2 * height, 2 * x + 1, 2 * y);
      AtIs(p, 2 * width, 2 * height, 2 * x, 2 * y + 1);
      AtIs(p, 2 * width, 2 * height, 2 * x + 1, 2 * y + 1);
    case Interleaved(offset) =>
      AtIs(p, 2 * width, height, 2 * x + offset, y);
    ValuesAgree(c, p, width, height, x, y);
  }

  lemma {:induction false} RowAt(c: Conversion, typed: bool, p: Plane, width: nat, height: nat, y: nat, n: nat, x: nat)
    requires Source(c, p, width, height) && x < n <= width && y < height
    ensures Row(c, typed, p, width, height, y, n)[x] == Value(c, typed, p, width, height, x, y)
    decreases n
  {
    if x < n - 1 {
      RowAt(c, typed, p, width, height, y, n - 1, x);
    }
  }

  lemma {:induction false} RowsAt(c: Conversion, typed: bool, p: Plane, width: nat, height: nat, n: nat, x: nat, y: nat, k: nat)
    requires Source(c, p, width, height) && x < width && y < n <= height && k == y * width + x
    ensures k < |Rows(c, typed, p, width, height, n)|
    ensures Rows(c, typed, p, width, height, n)[k] == Value(c, typed, p, width, height, x, y)
    decreases n
  {
    assert n * width == (n - 1) * width + width;
    if y < n - 1 {
      RowsAt(c, typed, p, width, height, n - 1, x, y, k);
    } else {
      RowAt(c, typed, p, width, height, y, width, x);
    }
  }

  /** Row by row, every sample of a dense plane is what it should be. */
  ghost predicate Converted(c: Conversion, p: Plane, width: nat, height: nat, dst: seq<Sample>)
  {
    && |dst| == height * width
    && forall x: nat, y: nat, k: nat | x < width && y < height && k < |dst| && k == y * width + x ::
         IsSample(c, p, x, y, dst[k])
  }

  lemma RowsConverted(c: Conversion, typed: bool, p: Plane, width: nat, height: nat)
    requires Source(c, p, width, height)
    ensures Converted(c, p, width, height, Rows(c, typed, p, width, height, height))
  {
    var dst := Rows(c, typed, p, width, height, height);
    forall x: nat, y: nat, k: nat | x < width && y < height && k < |dst| && k == y * width + x
      ensures IsSample(c, p, x, y, dst[k])
    {
      RowsAt(c, typed, p, width, height, height, x, y, k);
      ValueIsSample(c, typed, p, width, height, x, y);
    }
  }

  /** The nested loops, filling a dense destination plane in place. */
  method Convert(dst: array<Sample>, c: Conversion, typed: bool, p: Plane, width: nat, height: nat)
    requires Source(c, p, width, height) && dst.Length == height * width
    modifies dst
    ensures dst[..] == Rows(c, typed, p, width, height, height) && Converted(c, p, width, height, dst[..])
  {
    for y := 0 to height
      invariant y * width <= dst.Length && dst[..y * width] == Rows(c, typed, p, width, height, y)
    {
      Scales(width, y + 1, height);
      assert (y + 1) * width == y * width + width;
      ConvertRow(dst, y * width, c, typed, p, width, height, y);
    }
    assert dst[..height * width] == dst[..];
    RowsConverted(c, typed, p, width, height);
  }

  method ConvertRow(dst: array<Sample>, at: nat, c: Conversion, typed: bool, p: Plane, width: nat, height: nat, y: nat)
    requires Source(c, p, width, height) && y < height && at + width <= dst.Length
    modifies dst
    ensures dst[..at + width] == old(dst[..at]) + Row(c, typed, p, width, height, y, width)
  {
    for x := 0 to width
      invariant dst[..at + x] == old(dst[..at]) + Row(c, typed, p, width, height, y, x)
    {
      var v := Value(c, typed, p, width, height, x, y);
      dst[at + x] := v;
    }
  }

  // ----- the paths agree --------------------------------------------------------------------

  lemma {:induction false} RowsAgree(c: Conversion, p: Plane, width: nat, height: nat, y: nat, x: nat)
    requires Source(c, p, width, height) && x <= width && y < height
    ensures Row(c, true, p, width, height, y, x) == Row(c, false, p, width, height, y, x)
    decreases x
  {
    if x > 0 {
      RowsAgree(c, p, width, height, y, x - 1);
      ValuesAgree(c, p, width, height, x - 1, y);
    }
  }

  lemma ValuesAgree(c: Conversion, p: Plane, width: nat, height: nat, x: nat, y: nat)
    requires Source(c, p, width, height) && x < width && y < height
    ensures Value(c, true, p, width, height, x, y) == Value(c, false, p, width, height, x, y)
  {
    match c
    case From422 =>
      MeansAgree(At(p, width, 2 * height, x, 2 * y), At(p, width, 2 * height, x, 2 * y + 1), 0, 0);
    case From444 =>
      MeansAgree(At(p, 2 * width, 2 * height, 2 * x, 2 * y), At(p, 2 * width, 2 * height, 2 * x + 1, 2 * y),
                 At(p, 2 * width, 2 * height, 2 * x, 2 * y + 1), At(p, 2 * width, 2 * height, 2 * x + 1, 2 * y + 1));
    case Interleaved(_) =>
  }

  /** The typed and the generic path give the same plane, for every 8-bit source that passes the check. */
  lemma {:induction false} PathsAgree(c: Conversion, p: Plane, width: nat, height: nat, y: nat)
    requires Source(c, p, width, height) && y <= height
    ensures Rows(c, true, p, width, height, y) == Rows(c, false, p, width, height, y)
    decreases y
  {
    if y > 0 {
      PathsAgree(c, p, width, height, y - 1);
      RowsAgree(c, p, width, height, y - 1, width);
    }
  }

  // ----- the two interleaved orders ---------------------------------------------------------

  /** The other order of a plane of pairs: NV21 is NV12 with its pairs swapped. */
  predicate Swapped(p: Plane, q: Plane, width: nat, height: nat) {
    && Holds(p, 2 * width, height) && Holds(q, 2 * width, height)
    && forall x, y | 0 <= x < width && 0 <= y < height ::
         && At(q, 2 * width, height, 2 * x, y) == At(p, 2 * width, height, 2 * x + 1, y)
         && At(q, 2 * width, height, 2 * x + 1, y) == At(p, 2 * width, height, 2 * x, y)
  }

  lemma {:induction false} SwappedRow(p: Plane, q: Plane, width: nat, height: nat, y: nat, x: nat)
    requires Swapped(p, q, width, height) && x <= width && y < height
    ensures Row(Interleaved(0), true, p, width, height, y, x) == Row(Interleaved(1), true, q, width, height, y, x)
    ensures Row(Interleaved(1), true, p, width, height, y, x) == Row(Interleaved(0), true, q, width, height, y, x)
    decreases x
  {
    if x > 0 {
      SwappedRow(p, q, width, height, y, x - 1);
      assert At(q, 2 * width, height, 2 * (x - 1), y) == At(p, 2 * width, height, 2 * (x - 1) + 1, y);
    }
  }

  /** Reading pairs in one order, or swapped pairs in the other, gives the same two planes. */
  lemma {:induction false} OrdersAgree(p: Plane, q: Plane, width: nat, height: nat, y: nat)
    requires Swapped(p, q, width, height) && y <= height
    ensures Rows(Interleaved(0), true, p, width, height, y) == Rows(Interleaved(1), true, q, width, height, y)
    ensures Rows(Interleaved(1), true, p, width, height, y) == Rows(Interleaved(0), true, q, width, height, y)
    decreases y
  {
    if y > 0 {
      OrdersAgree(p, q, width, height, y - 1);
      SwappedRow(p, q, width, height, y - 1, width);
    }
  }
}
