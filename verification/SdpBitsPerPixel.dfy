/**
 Bits per pixel as a decimal with one to four fraction digits, kept in units of 1/10000.
 */
module SdpBitsPerPixel {
  import opened Values
  import opened Numbers
  import opened Text

  const MAX_BPP: Int := 480000

  function Zeros(n: nat): (s: string)
    ensures |s| == n && AllDigits(s) && forall i | 0 <= i < n :: s[i] == '0'
  {
    seq(n, i => '0')
  }

  /** Without the zeros at the end. */
  function DropZeros(s: string): string {
    if s != [] && s[|s| - 1] == '0' then DropZeros(s[..|s| - 1]) else s
  }

  function PadRight(s: string): string {
    if |s| < 4 then s + Zeros(4 - |s|) else s
  }

  function PadLeft(s: string): string {
    if |s| < 4 then Zeros(4 - |s|) + s else s
  }

  // ----- printing ---------------------------------------------------------------------------

  /** The fraction that the four digits of a number of units stand for. */
  function FractionOf(units: string): string {
    var f := DropZeros(PadLeft(units));
    if f == "" then "0" else f
  }

  function Formatted(v: nat): string {
    Itoa(v / 10000) + "." + FractionOf(Itoa(v % 10000))
  }

  method Format(v: nat) returns (s: string)
    ensures s == Formatted(v)
  {
    var fraction := Itoa(v % 10000);
    while |fraction| < 4
      invariant PadLeft(fraction) == PadLeft(Itoa(v % 10000))
      decreases 4 - |fraction|
    {
      assert PadLeft("0" + fraction) == PadLeft(fraction);
      fraction := "0" + fraction;
    }
    ghost var padded := fraction;
    while fraction != [] && fraction[|fraction| - 1] == '0'
      invariant DropZeros(fraction) == DropZeros(padded)
      decreases |fraction|
    {
      fraction := fraction[..|fraction| - 1];
    }
    if fraction == "" {
      fraction := "0";
    }
    return Itoa(v / 10000) + "." + fraction;
  }

  // ----- reading ----------------------------------------------------------------------------

  /** The two halves of a well-formed decimal. */
  function Halves(value: string): Option<(string, string)> {
    var (integer, fraction, found) := Cut(Trim(value), '.');
    if !found || integer == "" || fraction == "" || |fraction| > 4 || !AllDigits(integer) || !AllDigits(fraction) then None
    else Some((integer, fraction))
  }

  /** The value in units of 1/10000; the product is computed in 64 bits. */
  function Combined(h: (string, string)): (r: Option<Int>)
    ensures r.Some? ==> 1 <= r.value <= MAX_BPP
  {
    var integer, fraction := Atoi(h.0), Atoi(PadRight(h.1));
    if integer.None? || fraction.None? then None
    else
      var scaled := Wrapped(integer.value * 10000 + fraction.value);
      if scaled < 1 || scaled > MAX_BPP then None else Some(scaled)
  }

  function Parsed(value: string): (r: Option<Int>)
    ensures r.Some? ==> 1 <= r.value <= MAX_BPP
  {
    if Halves(value).None? then None else Combined(Halves(value).value)
  }

  method Pad(fraction: string) returns (padded: string)
    ensures padded == PadRight(fraction)
  {
    padded := fraction;
    while |padded| < 4
      invariant PadRight(padded) == PadRight(fraction)
      decreases 4 - |padded|
    {
      assert PadRight(padded + "0") == PadRight(padded);
      padded := padded + "0";
    }
  }

  method Parse(value: string) returns (r: Option<Int>)
    ensures r == Parsed(value)
  {
    var h := Halves(value);
    if h.None? {
      return None;
    }
    var whole: Option<int> := Atoi(h.value.0);
    if whole.None? {
      return None;
    }
    var padded := Pad(h.value.1);
    var part: Option<int> := Atoi(padded);
    if part.None? {
      return None;
    }
    var scaled := Wrapped(whole.value * 10000 + part.value);
    if scaled < 1 || scaled > MAX_BPP {
      return None;
    }
    return Some(scaled);
  }

  // ----- round trip -------------------------------------------------------------------------

  lemma {:induction false} LeadingZeros(n: nat, s: string)
    requires AllDigits(s)
    ensures Decimal(Zeros(n) + s) == Decimal(s)
    decreases |s|
  {
    var t := Zeros(n) + s;
    if s == [] {
      if n > 0 {
        assert t[..|t| - 1] == Zeros(n - 1) + [];
        LeadingZerosOnly(n);
        assert t == Zeros(n);
      }
    } else {
      assert t[..|t| - 1] == Zeros(n) + s[..|s| - 1];
      LeadingZeros(n, s[..|s| - 1]);
    }
  }

  lemma {:induction false} LeadingZerosOnly(n: nat)
    ensures Decimal(Zeros(n)) == 0
  {
    if n > 0 {
      assert Zeros(n)[..n - 1] == Zeros(n - 1);
      LeadingZerosOnly(n - 1);
    }
  }

  /** Removing zeros at the end and adding them again gives four digits back. */
  lemma {:induction false} DropPad(s: string)
    requires |s| <= 4
    ensures |DropZeros(s)| <= |s| && DropZeros(s) == s[..|DropZeros(s)|]
    ensures PadRight(DropZeros(s)) == PadRight(s)
  {
    if s != [] && s[|s| - 1] == '0' {
      var t := s[..|s| - 1];
      DropPad(t);
      assert PadRight(s) == PadRight(t);
      assert t[..|DropZeros(t)|] == s[..|DropZeros(t)|];
    }
  }

  lemma {:induction false} ItoaWidth(n: nat, k: nat)
    requires k > 0 && n < Power10(k)
    ensures |Itoa(n)| <= k
    decreases k
  {
    if n >= 10 {
      assert k > 1;
      ItoaWidth(n / 10, k - 1);
    }
  }

  function Power10(k: nat): nat {
    if k == 0 then 1 else 10 * Power10(k - 1)
  }

  lemma PaddedDigits(d: string)
    requires 1 <= |d| <= 4 && AllDigits(d)
    ensures |PadLeft(d)| == 4 && AllDigits(PadLeft(d)) && Decimal(PadLeft(d)) == Decimal(d)
  {
    if |d| < 4 {
      LeadingZeros(4 - |d|, d);
    }
  }

  lemma FractionDigits(d: string)
    requires 1 <= |d| <= 4 && AllDigits(d)
    ensures 1 <= |FractionOf(d)| <= 4 && AllDigits(FractionOf(d))
    ensures AllDigits(PadRight(FractionOf(d))) && Decimal(PadRight(FractionOf(d))) == Decimal(d)
  {
    PaddedDigits(d);
    DroppedDigits(PadLeft(d));
  }

  lemma DroppedDigits(p: string)
    requires |p| == 4 && AllDigits(p)
    ensures |DropZeros(p)| <= 4 && AllDigits(DropZeros(p))
    ensures PadRight(DropZeros(p)) == p && (DropZeros(p) == "" ==> PadRight("0") == p)
  {
    DropPad(p);
    assert PadRight("0") == Zeros(4) && PadRight("") == Zeros(4);
  }

  lemma HalvesOf(a: string, f: string)
    requires a != "" && AllDigits(a) && 1 <= |f| <= 4 && AllDigits(f)
    ensures Halves(a + "." + f) == Some((a, f))
  {
    var s := a + "." + f;
    DigitsNoSpace(a);
    DigitsNoSpace(f);
    assert s[0] == a[0] && s[|s| - 1] == f[|f| - 1];
    TrimId(s);
    assert forall i | 0 <= i < |a| :: IsDigit(a[i]);
    assert '.' !in a;
    CutAt(a, '.', f);
  }

  lemma AtoiDigits(s: string)
    requires s != "" && AllDigits(s) && Decimal(s) <= MAX_INT
    ensures Atoi(s) == Some(Decimal(s))
  {
    assert IsDigit(s[0]);
  }

  /** Two well-formed halves are read as the number they denote, modulo 2^64. */
  lemma ParseHalves(a: string, f: string, scaled: Int)
    requires a != "" && AllDigits(a) && Decimal(a) <= MAX_INT && 1 <= |f| <= 4 && AllDigits(f)
    requires scaled == Wrapped(Decimal(a) * 10000 + Decimal(PadRight(f)))
    ensures Parsed(a + "." + f) == if 1 <= scaled <= MAX_BPP then Some(scaled) else None
  {
    HalvesOf(a, f);
    CombinedOf(a, f, scaled);
  }

  lemma CombinedOf(a: string, f: string, scaled: Int)
    requires a != "" && AllDigits(a) && Decimal(a) <= MAX_INT && 1 <= |f| <= 4 && AllDigits(f)
    requires scaled == Wrapped(Decimal(a) * 10000 + Decimal(PadRight(f)))
    ensures Combined((a, f)) == if 1 <= scaled <= MAX_BPP then Some(scaled) else None
  {
    AtoiDigits(a);
    FourDigits(PadRight(f));
    AtoiDigits(PadRight(f));
  }

  /** Reading undoes printing, for every value of the range. */
  lemma ParseFormat(v: Int)
    requires 1 <= v <= MAX_BPP
    ensures Parsed(Formatted(v)) == Some(v)
  {
    FormatRead(v, v / 10000, v % 10000);
  }

  lemma FormatRead(v: Int, q: nat, r: nat)
    requires 1 <= v <= MAX_BPP && v == q * 10000 + r && r < 10000
    ensures Parsed(Itoa(q) + "." + FractionOf(Itoa(r))) == Some(v)
  {
    Width4(r);
    FractionDigits(Itoa(r));
    WrappedId(v);
    ParseHalves(Itoa(q), FractionOf(Itoa(r)), v);
  }

  lemma Width4(x: nat)
    requires x < 10000
    ensures |Itoa(x)| <= 4
  {
    assert Power10(4) == 10000;
    ItoaWidth(x, 4);
  }

  lemma FormattedText(v: nat)
    ensures NoSpace(Formatted(v)) && Formatted(v) != "" && ';' !in Formatted(v)
  {
    var a, f := Itoa(v / 10000), FractionOf(Itoa(v % 10000));
    Width4(v % 10000);
    FractionDigits(Itoa(v % 10000));
    assert forall i | 0 <= i < |a| :: IsDigit(a[i]);
    assert forall i | 0 <= i < |f| :: IsDigit(f[i]);
  }

  // ----- wrap-around ------------------------------------------------------------------------

  /** What a well-formed decimal denotes, in units of 1/10000. */
  function Denoted(value: string): nat
    requires Halves(value).Some?
  {
    Decimal(Halves(value).value.0) * 10000 + PaddedValue(Halves(value).value.1)
  }

  function PaddedValue(fraction: string): nat
    requires AllDigits(fraction)
  {
    Decimal(PadRight(fraction))
  }

  /** An accepted decimal is read as what it denotes exactly when its integer part is at most 48; a larger
      one is accepted by accident of wrap-around. */
  lemma ReadExactly(value: string)
    requires Parsed(value).Some?
    ensures Halves(value).Some?
    ensures Parsed(value).value == Denoted(value) <==> Decimal(Halves(value).value.0) <= 48
  {
    var h := Halves(value).value;
    var p := PadRight(h.1);
    assert IsDigit(h.0[0]) && IsDigit(p[0]);
    FourDigits(p);
    var exact := Decimal(h.0) * 10000 + Decimal(p);
    assert Parsed(value).value == Wrapped(exact);
    if Decimal(h.0) <= 48 {
      WrappedId(exact);
    }
  }

  lemma HalvesIff(value: string, a: string, f: string)
    ensures Halves(value) == Some((a, f)) <==>
              Trim(value) == a + "." + f && a != "" && AllDigits(a) && 1 <= |f| <= 4 && AllDigits(f)
  {
    var t := Trim(value);
    if Halves(value) == Some((a, f)) {
      assert t == a + "." + f;
    } else if t == a + "." + f && a != "" && AllDigits(a) && 1 <= |f| <= 4 && AllDigits(f) {
      assert forall i | 0 <= i < |a| :: IsDigit(a[i]);
      assert '.' !in a;
      CutAt(a, '.', f);
    }
  }

  lemma CombinedIff(a: string, f: string, n: Int, p: string, units: nat)
    requires a != "" && AllDigits(a) && 1 <= |f| <= 4 && AllDigits(f)
    requires p == PadRight(f) && AllDigits(p) && units == Decimal(p)
    ensures Combined((a, f)) == Some(n) <==>
              1 <= n <= 480000 && Decimal(a) <= MAX_INT && n == Wrapped(Decimal(a) * 10000 + units)
  {
    CombinedAs(a, f, p, units);
    RangeIff(Combined((a, f)), Decimal(a), units, n);
  }

  lemma RangeIff(r: Option<Int>, whole: nat, units: nat, n: Int)
    requires whole > MAX_INT ==> r == None
    requires whole <= MAX_INT ==>
               var scaled := Wrapped(whole * 10000 + units);
               r == if 1 <= scaled <= 480000 then Some(scaled) else None
    ensures r == Some(n) <==> 1 <= n <= 480000 && whole <= MAX_INT && n == Wrapped(whole * 10000 + units)
  {
  }

  lemma CombinedAs(a: string, f: string, p: string, units: nat)
    requires a != "" && AllDigits(a) && 1 <= |f| <= 4 && AllDigits(f) && p == PadRight(f) && AllDigits(p) && units == Decimal(p)
    ensures Decimal(a) > MAX_INT ==> Combined((a, f)) == None
    ensures Decimal(a) <= MAX_INT ==>
              var scaled := Wrapped(Decimal(a) * 10000 + units);
              Combined((a, f)) == if 1 <= scaled <= 480000 then Some(scaled) else None
  {
    if Decimal(a) <= MAX_INT {
      CombinedOf(a, f, Wrapped(Decimal(a) * 10000 + units));
    } else {
      assert IsDigit(a[0]);
    }
  }

  lemma ReadsIff(value: string, a: string, f: string, n: Int, units: nat)
    requires Halves(value) == Some((a, f))
    requires AllDigits(PadRight(f)) && units == Decimal(PadRight(f)) && units == Units(f)
    ensures Combined((a, f)) == Some(n) <==> 1 <= n <= 480000 && Reads(value, a, f, n)
  {
    HalvesIff(value, a, f);
    CombinedIff(a, f, n, PadRight(f), units);
  }

  lemma HalvesRead(value: string, a: string, f: string, n: Int)
    requires Halves(value) == Some((a, f))
    ensures Parsed(value) == Some(n) <==> 1 <= n <= 480000 && Reads(value, a, f, n)
  {
    PaddedIs(f);
    ReadsIff(value, a, f, n, Decimal(PadRight(f)));
  }

  /** Exactly what is accepted: digits, a point, one to four digits, of a number that is in range modulo 2^64. */
  lemma ParsedIff(value: string, n: Int)
    ensures Parsed(value) == Some(n) <==> 1 <= n <= 480000 && exists a, f :: Reads(value, a, f, n)
  {
    if Halves(value).Some? {
      HalvesRead(value, Halves(value).value.0, Halves(value).value.1, n);
    }
    if a, f :| Reads(value, a, f, n) {
      HalvesIff(value, a, f);
    }
  }

  ghost predicate Reads(value: string, a: string, f: string, n: Int) {
    && Trim(value) == a + "." + f && a != "" && AllDigits(a) && 1 <= |f| <= 4 && AllDigits(f)
    && Decimal(a) <= MAX_INT && n == Wrapped(Decimal(a) * 10000 + Units(f))
  }

  /** A fraction in units of 1/10000. */
  function Units(f: string): nat
    requires AllDigits(f)
  {
    if |f| == 1 then 1000 * Decimal(f) else if |f| == 2 then 100 * Decimal(f) else if |f| == 3 then 10 * Decimal(f) else Decimal(f)
  }

  lemma {:induction false} TrailingZeros(s: string, n: nat)
    requires AllDigits(s)
    ensures Decimal(s + Zeros(n)) == Decimal(s) * Power10(n)
  {
    if n == 0 {
      assert s + Zeros(0) == s;
    } else {
      assert (s + Zeros(n))[..|s| + n - 1] == s + Zeros(n - 1);
      TrailingZeros(s, n - 1);
    }
  }

  lemma PaddedIs(f: string)
    requires 1 <= |f| <= 4 && AllDigits(f)
    ensures AllDigits(PadRight(f)) && Decimal(PadRight(f)) == Units(f)
  {
    assert Power10(1) == 10 && Power10(2) == 100 && Power10(3) == 1000;
    if |f| < 4 {
      TrailingZeros(f, 4 - |f|);
    }
  }

  lemma FourDigits(p: string)
    requires |p| == 4 && AllDigits(p)
    ensures Decimal(p) < 10000
  {
    assert Decimal(p[..0]) == 0;
    assert p[..4][..3] == p[..3] && p[..3][..2] == p[..2] && p[..2][..1] == p[..1] && p[..1][..0] == p[..0];
    assert p == p[..4];
    assert Decimal(p[..1]) < 10 && Decimal(p[..2]) < 100 && Decimal(p[..3]) < 1000;
  }

  lemma PaddedZero()
    ensures Decimal(PadRight("0")) == 0
  {
    assert PadRight("0") == Zeros(4);
    LeadingZerosOnly(4);
  }

  lemma WholeDenotes(k: string)
    requires k != "" && AllDigits(k)
    ensures Halves(k + "." + "0").Some? && Denoted(k + "." + "0") == Decimal(k) * 10000
  {
    PaddedZero();
    HalvesOf(k, "0");
  }

  /** Every integer part that wraps to 16 units is accepted, and read as 0.0016. */
  lemma {:induction false} WrapAroundAccepted(k: string, fraction: string)
    requires k != "" && AllDigits(k) && Decimal(k) <= MAX_INT && Wrapped(Decimal(k) * 10000) == 16
    requires 1 <= |fraction| <= 4 && AllDigits(fraction) && Decimal(PadRight(fraction)) == 0
    ensures Parsed(k + "." + fraction) == Some(16)
  {
    assert Decimal(k) * 10000 + Decimal(PadRight(fraction)) == Decimal(k) * 10000;
    ParseHalves(k, fraction, 16);
  }

  /** An integer part that wraps: about 1.8e17 bits per pixel. */
  const WRAPPING: Int := 182622766329724561

  lemma Appended(t: string, d: string, n: nat, x: nat)
    requires AllDigits(t) && Decimal(t) == n && |d| == 3 && AllDigits(d)
    requires x == 100 * Digit(d[0]) + 10 * Digit(d[1]) + Digit(d[2])
    ensures AllDigits(t + d) && Decimal(t + d) == 1000 * n + x
  {
    var t1, t2 := t + [d[0]], t + [d[0], d[1]];
    assert t1[..|t|] == t && t2[..|t| + 1] == t1 && (t + d)[..|t| + 2] == t2;
    assert Decimal(t1) == 10 * n + Digit(d[0]) && Decimal(t2) == 10 * Decimal(t1) + Digit(d[1]);
  }

  lemma SixGroups(a: string, b: string, c: string, d: string, e: string, f: string)
    requires AllDigits(a) && AllDigits(b) && AllDigits(c) && AllDigits(d) && AllDigits(e) && AllDigits(f)
    requires [a, b, c, d, e, f] == ["182", "622", "766", "329", "724", "561"]
    ensures AllDigits(a + b + c + d + e + f) && Decimal(a + b + c + d + e + f) == WRAPPING
  {
    assert a == [] + a;
    Appended([], a, 0, 182);
    Appended(a, b, 182, 622);
    Appended(a + b, c, 182622, 766);
    Appended(a + b + c, d, 182622766, 329);
    Appended(a + b + c + d, e, 182622766329, 724);
    Appended(a + b + c + d + e, f, 182622766329724, 561);
  }

  /** It is accepted. */
  lemma WrappingAccepted(k: string)
    requires k == "182" + "622" + "766" + "329" + "724" + "561"
    ensures Parsed(k + "." + "0") == Some(16) && Halves(k + "." + "0").Some?
    ensures Denoted(k + "." + "0") == WRAPPING * 10000
  {
    SixGroups("182", "622", "766", "329", "724", "561");
    PaddedZero();
    WrapAroundAccepted(k, "0");
    WholeDenotes(k);
  }
}
