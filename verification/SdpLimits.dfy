/**
 Whether a frame fits the restrictions of a restriction identifier, in 64-bit arithmetic.
 */
module SdpLimits {
  import opened Values
  import opened Numbers
  import opened SdpRid

  datatype Frame = Frame(width: Int, height: Int, rate: Int)

  /** A limit of zero is none. */
  predicate Under(n: int, limit: Int) {
    limit > 0 ==> n <= limit
  }

  function AllowsFrame(r: Restrictions, f: Frame): Result<bool> {
    if !ValidRestrictions(r) || f.width <= 0 || f.height <= 0 || f.rate <= 0 then Err
    else
      var samples := Wrapped(f.width * f.height);
      if samples <= 0 then Err
      else if !Under(f.width, r.limits[0]) || !Under(f.height, r.limits[1]) || !Under(f.rate, r.limits[2]) then Ok(false)
      else if !Under(samples, r.limits[3]) then Ok(false)
      else Ok(Under(Wrapped(samples * f.rate), r.limits[5]))
  }

  function AllowsEncoded(r: Restrictions, f: Frame, bitrate: Int, bits: Int): Result<bool> {
    var frame := AllowsFrame(r, f);
    if frame != Ok(true) then frame
    else if r.limits[4] > 0 && bitrate <= 0 then Err
    else if !Under(bitrate, r.limits[4]) then Ok(false)
    else if r.bitsPerPixel > 0 && bits <= 0 then Err
    else Ok(r.bitsPerPixel > 0 ==> Wrapped(bits * 10000) <= Wrapped(r.bitsPerPixel * Wrapped(f.width * f.height)))
  }

  /** What the restrictions mean: the frame's size, rate, samples and samples per second are all within their limits. */
  predicate Fits(r: Restrictions, f: Frame)
    requires |r.limits| == LIMITS
  {
    && (r.limits[0] == 0 || f.width <= r.limits[0]) && (r.limits[1] == 0 || f.height <= r.limits[1])
    && (r.limits[2] == 0 || f.rate <= r.limits[2]) && (r.limits[3] == 0 || f.width * f.height <= r.limits[3])
    && (r.limits[5] == 0 || f.width * f.height * f.rate <= r.limits[5])
  }

  predicate Positive(f: Frame) {
    f.width > 0 && f.height > 0 && f.rate > 0
  }

  lemma WrappedNat(x: int)
    requires 0 <= x <= MAX_INT
    ensures Wrapped(x) == x
  {
  }

  lemma FrameWith(r: Restrictions, f: Frame, samples: Int, rate: Int)
    requires ValidRestrictions(r) && Positive(f) && samples == Wrapped(f.width * f.height) && samples > 0 && rate == Wrapped(samples * f.rate)
    ensures AllowsFrame(r, f) == Ok(
              && (r.limits[0] == 0 || f.width <= r.limits[0]) && (r.limits[1] == 0 || f.height <= r.limits[1])
              && (r.limits[2] == 0 || f.rate <= r.limits[2]) && (r.limits[3] == 0 || samples <= r.limits[3])
              && (r.limits[5] == 0 || rate <= r.limits[5]))
  {
  }

  lemma ProductGrows(a: int, b: int)
    requires a > 0 && b > 0
    ensures a <= a * b
  {
  }

  /** Frames whose samples per second are a 64-bit number are judged by what the restrictions mean. */
  lemma FrameExact(r: Restrictions, f: Frame)
    requires ValidRestrictions(r) && Positive(f) && f.width * f.height * f.rate <= MAX_INT
    ensures AllowsFrame(r, f) == Ok(Fits(r, f))
  {
    var samples := f.width * f.height;
    Samples(f);
    FrameWith(r, f, samples, samples * f.rate);
  }

  lemma Samples(f: Frame)
    requires Positive(f) && f.width * f.height * f.rate <= MAX_INT
    ensures 0 < f.width * f.height <= f.width * f.height * f.rate
    ensures Wrapped(f.width * f.height) == f.width * f.height
    ensures Wrapped(f.width * f.height * f.rate) == f.width * f.height * f.rate
  {
    ProductGrows(f.width, f.height);
    ProductGrows(f.width * f.height, f.rate);
    WrappedNat(f.width * f.height);
    WrappedNat(f.width * f.height * f.rate);
  }

  /** A frame too large for that is judged by what is left of the product, so that one with a rate 2^64 samples per
      second fits any limit on them. */
  lemma ProductWraps(limit: Int)
    requires 0 < limit
    ensures var r, f := Restrictions([0, 0, 0, 0, 0, limit], 0, []), Frame(0x8000_0000, 0x8000_0000, 4);
            AllowsFrame(r, f) == Ok(true) && !Fits(r, f)
  {
    var r, f := Restrictions([0, 0, 0, 0, 0, limit], 0, []), Frame(0x8000_0000, 0x8000_0000, 4);
    assert f.width * f.height == 0x4000_0000_0000_0000;
    FrameWith(r, f, 0x4000_0000_0000_0000, 0);
  }

  function OneLimit(k: nat): Restrictions
    requires k < LIMITS
  {
    Restrictions([0, 0, 0, 0, 0, 0][k := MAX_INT], 0, [])
  }

  /** A frame is judged by what the restrictions mean, whatever they are, exactly if its samples per second are a
      64-bit number. */
  lemma FrameExactIff(f: Frame)
    requires Positive(f)
    ensures (forall r | ValidRestrictions(r) :: AllowsFrame(r, f) == Ok(Fits(r, f))) <==> f.width * f.height * f.rate <= MAX_INT
  {
    if f.width * f.height * f.rate <= MAX_INT {
      forall r | ValidRestrictions(r)
        ensures AllowsFrame(r, f) == Ok(Fits(r, f))
      {
        FrameExact(r, f);
      }
    } else {
      Misjudged(f);
    }
  }

  lemma Misjudged(f: Frame)
    requires Positive(f) && f.width * f.height * f.rate > MAX_INT
    ensures exists r :: ValidRestrictions(r) && AllowsFrame(r, f) != Ok(Fits(r, f))
  {
    var samples := Wrapped(f.width * f.height);
    var r := OneLimit(if f.width * f.height > MAX_INT then 3 else 5);
    assert ValidRestrictions(r) && !Fits(r, f);
    if samples > 0 {
      FrameWith(r, f, samples, Wrapped(samples * f.rate));
    }
    assert AllowsFrame(r, f) != Ok(false);
  }

  /** The same of an encoded frame whose size and allowance are 64-bit numbers too. */
  lemma EncodedExact(r: Restrictions, f: Frame, bitrate: Int, bits: Int)
    requires ValidRestrictions(r) && Positive(f) && f.width * f.height * f.rate <= MAX_INT
    requires bits * 10000 <= MAX_INT && r.bitsPerPixel * (f.width * f.height) <= MAX_INT
    ensures AllowsEncoded(r, f, bitrate, bits) == Ok(true) <==>
              && Fits(r, f) && (r.limits[4] == 0 || 0 < bitrate <= r.limits[4])
              && (r.bitsPerPixel == 0 || (0 < bits && bits * 10000 <= r.bitsPerPixel * (f.width * f.height)))
  {
    FrameExact(r, f);
    Samples(f);
    var allowance := r.bitsPerPixel * (f.width * f.height);
    if r.bitsPerPixel > 0 {
      ProductGrows(r.bitsPerPixel, f.width * f.height);
      WrappedNat(allowance);
      if bits > 0 {
        WrappedNat(bits * 10000);
      }
    }
  }
}
