/**
 The typed arena: one allocation for six kinds of elements, sized by one list of requests and spent by another.
 Regions are intervals of bytes.
 */
module Arena {
  import opened Values
  import opened Numbers

  /** The element kinds, in the order in which they are laid out. */
  datatype Kind = Ints | Int32s | Uint16s | Int16s | Bytes | Bools

  function Width(k: Kind): nat {
    match k
    case Ints => 8
    case Int32s => 4
    case Uint16s => 2
    case Int16s => 2
    case Bytes => 1
    case Bools => 1
  }

  datatype Request = Request(kind: Kind, n: int)

  /** How many elements of a kind are requested. */
  function Total(rs: seq<Request>, k: Kind): int {
    if rs == [] then 0 else Total(rs[..|rs| - 1], k) + if rs[|rs| - 1].kind == k then rs[|rs| - 1].n else 0
  }

  predicate NonNegative(rs: seq<Request>) {
    forall i | 0 <= i < |rs| :: rs[i].n >= 0
  }

  lemma {:induction false} TotalConcat(a: seq<Request>, b: seq<Request>, k: Kind)
    ensures Total(a + b, k) == Total(a, k) + Total(b, k)
  {
    if b == [] {
      assert a + b == a;
    } else {
      assert (a + b)[..|a + b| - 1] == a + b[..|b| - 1];
      TotalConcat(a, b[..|b| - 1], k);
    }
  }

  lemma {:induction false} TotalMonotone(rs: seq<Request>, i: nat, k: Kind)
    requires i <= |rs| && NonNegative(rs)
    ensures 0 <= Total(rs[..i], k) <= Total(rs, k)
  {
    if i == |rs| {
      assert rs[..i] == rs;
      if rs != [] {
        TotalMonotone(rs[..|rs| - 1], |rs| - 1, k);
        assert rs[..|rs| - 1][..|rs| - 1] == rs[..|rs| - 1];
      }
    } else {
      TotalMonotone(rs[..|rs| - 1], i, k);
      assert rs[..|rs| - 1][..i] == rs[..i];
    }
  }

  // ----- sizing -----------------------------------------------------------------------------

  /** Element counts by kind. */
  datatype Sizes = Sizes(ints: int, int32s: int, uint16s: int, int16s: int, bytes: int, bools: int)

  const NOTHING: Sizes := Sizes(0, 0, 0, 0, 0, 0)

  function Of(s: Sizes, k: Kind): int {
    match k
    case Ints => s.ints
    case Int32s => s.int32s
    case Uint16s => s.uint16s
    case Int16s => s.int16s
    case Bytes => s.bytes
    case Bools => s.bools
  }

  function Plus(s: Sizes, k: Kind, n: int): Sizes {
    match k
    case Ints => s.(ints := s.ints + n)
    case Int32s => s.(int32s := s.int32s + n)
    case Uint16s => s.(uint16s := s.uint16s + n)
    case Int16s => s.(int16s := s.int16s + n)
    case Bytes => s.(bytes := s.bytes + n)
    case Bools => s.(bools := s.bools + n)
  }

  /** The totals of a list, kind by kind. */
  function Totals(rs: seq<Request>): Sizes {
    Sizes(Total(rs, Ints), Total(rs, Int32s), Total(rs, Uint16s), Total(rs, Int16s), Total(rs, Bytes), Total(rs, Bools))
  }

  predicate AtMost(a: Sizes, b: Sizes) {
    && a.ints <= b.ints && a.int32s <= b.int32s && a.uint16s <= b.uint16s
    && a.int16s <= b.int16s && a.bytes <= b.bytes && a.bools <= b.bools
  }

  const FULL: Sizes := Sizes(MAX_INT, MAX_INT, MAX_INT, MAX_INT, MAX_INT, MAX_INT)

  lemma TotalsOf(rs: seq<Request>, k: Kind)
    ensures Of(Totals(rs), k) == Total(rs, k)
  {
  }

  lemma TotalsSnoc(rs: seq<Request>, r: Request)
    ensures Totals(rs + [r]) == Plus(Totals(rs), r.kind, r.n)
  {
    assert (rs + [r])[..|rs|] == rs;
  }

  function AddTwo(a: int, b: int): Option<int> {
    if a < 0 || b < 0 || a > MAX_INT - b then None else Some(a + b)
  }

  /** The sizing pass succeeds exactly if no request is negative and every total is a length. */
  predicate Sized(rs: seq<Request>) {
    NonNegative(rs) && AtMost(Totals(rs), FULL)
  }

  /** The counters of the sizing pass. */
  class Counters {
    var sizes: Sizes

    constructor ()
      ensures sizes == NOTHING
    {
      sizes := NOTHING;
    }

    /** Counts one request; an overflow or a negative request is refused. */
    method Add(r: Request) returns (ok: bool)
      requires 0 <= Of(sizes, r.kind)
      modifies this
      ensures ok <==> r.n >= 0 && old(Of(sizes, r.kind)) + r.n <= MAX_INT
      ensures sizes == if ok then Plus(old(sizes), r.kind, r.n) else old(sizes)
    {
      ok := AddTwo(Of(sizes, r.kind), r.n).Some?;
      if ok {
        sizes := Plus(sizes, r.kind, r.n);
      }
    }

    method AddAll(rs: seq<Request>) returns (ok: bool)
      requires sizes == NOTHING
      modifies this
      ensures ok <==> Sized(rs)
      ensures ok ==> sizes == Totals(rs)
    {
      assert rs[..0] == [];
      for i := 0 to |rs|
        invariant NonNegative(rs[..i]) && sizes == Totals(rs[..i]) && AtMost(NOTHING, sizes) && AtMost(sizes, FULL)
      {
        assert rs[..i + 1] == rs[..i] + [rs[i]];
        TotalsSnoc(rs[..i], rs[i]);
        var counted := Add(rs[i]);
        if !counted {
          if NonNegative(rs) {
            TotalMonotone(rs, i + 1, rs[i].kind);
            TotalsOf(rs[..i + 1], rs[i].kind);
            TotalsOf(rs, rs[i].kind);
          }
          return false;
        }
      }
      assert rs[..|rs|] == rs;
      return true;
    }
  }

  // ----- layout -----------------------------------------------------------------------------

  /** Where the region of a kind starts, for given element counts. */
  function Offset(size: Sizes, k: Kind): int {
    match k
    case Ints => 0
    case Int32s => 8 * size.ints
    case Uint16s => 8 * size.ints + 4 * size.int32s
    case Int16s => 8 * size.ints + 4 * size.int32s + 2 * size.uint16s
    case Bytes => 8 * size.ints + 4 * size.int32s + 2 * size.uint16s + 2 * size.int16s
    case Bools => 8 * size.ints + 4 * size.int32s + 2 * size.uint16s + 2 * size.int16s + size.bytes
  }

  function EndOf(size: Sizes): int {
    Offset(size, Bools) + size.bools
  }

  /** Elements of 8, 4, 2, 2, 1 and 1 bytes. */
  lemma EndIs(size: Sizes)
    ensures EndOf(size) == Width(Ints) * size.ints + Width(Int32s) * size.int32s + Width(Uint16s) * size.uint16s
                           + Width(Int16s) * size.int16s + Width(Bytes) * size.bytes + Width(Bools) * size.bools
    ensures EndOf(size) == 8 * size.ints + 4 * size.int32s + 2 * (size.uint16s + size.int16s) + size.bytes + size.bools
  {
  }

  /** The words that are allocated for the layout. Neither the byte total nor the rounding is checked; modulo 2^64 it
      does not matter where they wrap around. A negative length makes the allocation panic. */
  function BackingWords(size: Sizes): Option<nat> {
    var rounded := Wrapped(Wrapped(EndOf(size)) + 7);
    if rounded <= -8 then None else if rounded < 0 then Some(0) else Some(rounded / 8)
  }

  /** The allocation covers the whole layout. */
  predicate Backed(size: Sizes) {
    BackingWords(size).Some? && EndOf(size) <= 8 * BackingWords(size).value
  }

  /** It does exactly if the byte total, rounded up, is a length. */
  lemma BackedIff(size: Sizes)
    requires IsSize(size)
    ensures Backed(size) <==> EndOf(size) <= MAX_INT - 7
  {
    if EndOf(size) <= MAX_INT {
      WrappedId(EndOf(size));
    }
  }

  predicate IsSize(size: Sizes) {
    AtMost(NOTHING, size)
  }

  /** Widest first: every region starts aligned for its kind, relative to an 8-byte aligned base. */
  lemma RegionsAligned(size: Sizes, k: Kind)
    ensures Offset(size, k) % Width(k) == 0
  {
    match k
    case Ints =>
    case Int32s => assert Offset(size, k) == 4 * (2 * size.ints);
    case Uint16s => assert Offset(size, k) == 2 * (4 * size.ints + 2 * size.int32s);
    case Int16s => assert Offset(size, k) == 2 * (4 * size.ints + 2 * size.int32s + size.uint16s);
    case Bytes =>
    case Bools =>
  }

  predicate Before(a: Kind, b: Kind) {
    Rank(a) < Rank(b)
  }

  function Rank(k: Kind): nat {
    match k
    case Ints => 0
    case Int32s => 1
    case Uint16s => 2
    case Int16s => 3
    case Bytes => 4
    case Bools => 5
  }

  lemma RegionsOrdered(size: Sizes, a: Kind, b: Kind)
    requires IsSize(size) && Before(a, b)
    ensures Offset(size, a) + Width(a) * Of(size, a) <= Offset(size, b)
    ensures 0 <= Offset(size, b) && Offset(size, b) + Width(b) * Of(size, b) <= EndOf(size)
  {
  }

  lemma RegionInside(size: Sizes, k: Kind)
    requires IsSize(size)
    ensures 0 <= Offset(size, k) && Offset(size, k) + Width(k) * Of(size, k) <= EndOf(size)
  {
  }

  // ----- spending ---------------------------------------------------------------------------

  datatype Region = Region(start: int, end: int)

  /** What the i-th of a list of takes gets. */
  function RegionAt(size: Sizes, rs: seq<Request>, i: nat): Region
    requires i < |rs|
  {
    var k := rs[i].kind;
    var start := Offset(size, k) + Width(k) * Total(rs[..i], k);
    Region(start, start + Width(k) * rs[i].n)
  }

  lemma TotalAt(rs: seq<Request>, i: nat)
    requires i < |rs| && NonNegative(rs)
    ensures 0 <= Total(rs[..i], rs[i].kind) && Total(rs[..i], rs[i].kind) + rs[i].n <= Total(rs, rs[i].kind)
  {
    TotalMonotone(rs, i, rs[i].kind);
    TotalMonotone(rs, i + 1, rs[i].kind);
    assert rs[..i + 1][..i] == rs[..i];
  }

  lemma RegionWithin(size: Sizes, rs: seq<Request>, i: nat)
    requires i < |rs| && NonNegative(rs) && Total(rs, rs[i].kind) <= Of(size, rs[i].kind)
    ensures var k := rs[i].kind;
            Offset(size, k) <= RegionAt(size, rs, i).start <= RegionAt(size, rs, i).end <= Offset(size, k) + Width(k) * Of(size, k)
    ensures RegionAt(size, rs, i).start % Width(rs[i].kind) == 0
  {
    TotalAt(rs, i);
    RegionsAligned(size, rs[i].kind);
    var w, before, n := Width(rs[i].kind), Total(rs[..i], rs[i].kind), rs[i].n;
    AlignedSum(Offset(size, rs[i].kind), before, w);
    Scaled(w, before, n, Of(size, rs[i].kind));
  }

  lemma AlignedSum(a: int, b: int, w: nat)
    requires (w == 1 || w == 2 || w == 4 || w == 8) && a % w == 0
    ensures (a + w * b) % w == 0
  {
    var x := a + w * b;
    if w == 1 {
      assert x % 1 == 0;
    } else if w == 2 {
      Aligned2(a, b, x);
    } else if w == 4 {
      Aligned4(a, b, x);
    } else {
      Aligned8(a, b, x);
    }
  }

  lemma Aligned2(a: int, b: int, x: int)
    requires a % 2 == 0 && x == a + 2 * b
    ensures x % 2 == 0
  {
  }

  lemma Aligned4(a: int, b: int, x: int)
    requires a % 4 == 0 && x == a + 4 * b
    ensures x % 4 == 0
  {
  }

  lemma Aligned8(a: int, b: int, x: int)
    requires a % 8 == 0 && x == a + 8 * b
    ensures x % 8 == 0
  {
  }

  lemma Scaled(w: nat, before: int, n: int, size: int)
    requires w == 1 || w == 2 || w == 4 || w == 8
    requires 0 <= before && 0 <= n && before + n <= size
    ensures 0 <= w * before && 0 <= w * n && w * before + w * n <= w * size
  {
    if w == 2 {
      assert 2 * before + 2 * n <= 2 * size;
    } else if w == 4 {
      assert 4 * before + 4 * n <= 4 * size;
    } else if w == 8 {
      assert 8 * before + 8 * n <= 8 * size;
    }
  }

  /** Different takes get regions that do not meet. */
  lemma RegionsDisjoint(size: Sizes, rs: seq<Request>, i: nat, j: nat)
    requires i < j < |rs| && NonNegative(rs) && IsSize(size) && AtMost(Totals(rs), size)
    ensures RegionAt(size, rs, i).end <= RegionAt(size, rs, j).start || RegionAt(size, rs, j).end <= RegionAt(size, rs, i).start
  {
    var a, b := rs[i].kind, rs[j].kind;
    TotalsOf(rs, a);
    TotalsOf(rs, b);
    RegionWithin(size, rs, i);
    RegionWithin(size, rs, j);
    if a == b {
      TotalMonotone(rs[..j], i + 1, a);
      assert rs[..j][..i + 1] == rs[..i + 1];
      assert rs[..i + 1][..i] == rs[..i];
      assert rs[..j][..j] == rs[..j];
      TotalMonotone(rs[..j], j, a);
    } else if Before(a, b) {
      RegionsOrdered(size, a, b);
    } else {
      RegionsOrdered(size, b, a);
    }
  }

  /** The arena: what is left of each region starts where the taken elements end. */
  class Pool {
    const size: Sizes
    var taken: Sizes

    constructor (sizes: Sizes)
      ensures size == sizes && taken == NOTHING
    {
      size := sizes;
      taken := NOTHING;
    }

    /** Takes n elements; an amount that is not left is out of range. */
    method Take(r: Request, ghost rs: seq<Request>) returns (ok: bool, region: Region)
      requires taken == Totals(rs)
      modifies this
      ensures ok <==> 0 <= r.n <= Of(size, r.kind) - Total(rs, r.kind)
      ensures ok ==> taken == Totals(rs + [r]) && region == RegionAt(size, rs + [r], |rs|)
      ensures !ok ==> taken == old(taken)
    {
      assert (rs + [r])[..|rs|] == rs;
      TotalsOf(rs, r.kind);
      TotalsSnoc(rs, r);
      var start := Offset(size, r.kind) + Width(r.kind) * Of(taken, r.kind);
      ok := 0 <= r.n <= Of(size, r.kind) - Of(taken, r.kind);
      region := Region(start, start + Width(r.kind) * r.n);
      if ok {
        taken := Plus(taken, r.kind, r.n);
      }
    }

    /** Takes a whole list. Every take is in range if the totals are within the sizes. */
    method TakeAll(rs: seq<Request>) returns (ok: bool, regions: seq<Region>)
      requires taken == NOTHING
      modifies this
      ensures NonNegative(rs) && AtMost(Totals(rs), size) ==> ok
      ensures ok ==> taken == Totals(rs) && |regions| == |rs|
      ensures ok ==> forall i | 0 <= i < |rs| :: regions[i] == RegionAt(size, rs, i)
    {
      regions := [];
      assert rs[..0] == [];
      for i := 0 to |rs|
        invariant taken == Totals(rs[..i]) && |regions| == i
        invariant forall j | 0 <= j < i :: regions[j] == RegionAt(size, rs, j)
      {
        var done, region := Take(rs[i], rs[..i]);
        SameRegion(size, rs, i);
        if !done {
          if NonNegative(rs) {
            TotalAt(rs, i);
            TotalsOf(rs, rs[i].kind);
          }
          return false, regions;
        }
        regions := regions + [region];
      }
      assert rs[..|rs|] == rs;
      return true, regions;
    }
  }

  lemma SameRegion(size: Sizes, rs: seq<Request>, i: nat)
    requires i < |rs|
    ensures rs[..i] + [rs[i]] == rs[..i + 1] && RegionAt(size, rs[..i + 1], i) == RegionAt(size, rs, i)
  {
    assert rs[..i + 1][..i] == rs[..i];
  }
}
