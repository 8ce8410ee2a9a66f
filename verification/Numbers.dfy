/** 64-bit integers, products and sums. */
module Numbers {

  const MAX_INT: int := 0x7fff_ffff_ffff_ffff

  /** A 64-bit integer. */
  type Int = x: int | -MAX_INT - 1 <= x <= MAX_INT

  /** Two's complement wrap-around of 64-bit arithmetic. */
  function Wrapped(x: int): Int {
    (x + MAX_INT + 1) % (2 * MAX_INT + 2) - MAX_INT - 1
  }

  /** The number that is left of x in 64 bits: in range, and a multiple of 2^64 away from x. */
  lemma WrappedIff(x: int, n: int)
    ensures Wrapped(x) == n <==> -0x8000_0000_0000_0000 <= n < 0x8000_0000_0000_0000 && (x - n) % 0x1_0000_0000_0000_0000 == 0
  {
  }

  lemma WrappedId(x: Int)
    ensures Wrapped(x) == x
  {
  }

  function Larger(a: int, b: int): (r: int)
    ensures r >= a && r >= b && (r == a || r == b)
  {
    if a >= b then a else b
  }

  lemma Scales(k: nat, a: nat, b: nat)
    requires a <= b
    ensures k * a <= k * b && a * k <= b * k
    ensures k > 0 && a < b ==> k * a < k * b
  {
  }

  function Sum(s: seq<int>): int {
    if s == [] then 0 else Sum(s[..|s| - 1]) + s[|s| - 1]
  }

  lemma {:induction false} SumConcat(a: seq<int>, b: seq<int>)
    ensures Sum(a + b) == Sum(a) + Sum(b)
  {
    if b == [] {
      assert a + b == a;
    } else {
      assert (a + b)[..|a + b| - 1] == a + b[..|b| - 1];
      SumConcat(a, b[..|b| - 1]);
    }
  }
}
