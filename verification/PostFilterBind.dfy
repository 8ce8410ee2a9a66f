/**
 Flat scratch for the post filter: lengths are reported for a frame, and binding cuts the arenas into the parts that
 the stages use.
 */
module PostFilterBind {
  import opened Numbers

  // ----- needs ------------------------------------------------------------------------------

  /** What the stages of one frame need; lists go by plane. */
  datatype Need = Need(
    edges: int, schedule: int, directions: int, variances: int,
    samples: seq<int>, dst: seq<int>, input: int, unitDst: int,
    coded: seq<int>, upscaled: seq<int>, upscaledFrame: int,
    data: int, restored: int, wiener: int, above: int, below: int, projections: int,
    grainFrame: int, lumaGrain: int, chromaGrain: seq<int>, lumaSamples: int, chromaSamples: seq<int>)

  predicate Shaped(n: Need) {
    && |n.samples| == |n.dst| == |n.coded| == |n.upscaled| == 3
    && |n.chromaGrain| == |n.chromaSamples| == 2
  }

  /** One length for each arena. */
  datatype Lengths = Lengths(
    edges: int, schedule: int, directions: int, variances: int, bytes: int, uint16s: int, int16s: int, int32s: int)

  predicate AtMost(a: Lengths, b: Lengths) {
    && a.edges <= b.edges && a.schedule <= b.schedule && a.directions <= b.directions && a.variances <= b.variances
    && a.bytes <= b.bytes && a.uint16s <= b.uint16s && a.int16s <= b.int16s && a.int32s <= b.int32s
  }

  function Max(a: Lengths, b: Lengths): Lengths {
    Lengths(Larger(a.edges, b.edges), Larger(a.schedule, b.schedule), Larger(a.directions, b.directions),
            Larger(a.variances, b.variances), Larger(a.bytes, b.bytes), Larger(a.uint16s, b.uint16s),
            Larger(a.int16s, b.int16s), Larger(a.int32s, b.int32s))
  }

  /** The reported lengths, added up plane by plane. */
  function Reported(n: Need): Lengths
    requires Shaped(n)
  {
    var planes := (n.samples[0] + n.dst[0] + n.coded[0] + n.upscaled[0])
                  + (n.samples[1] + n.dst[1] + n.coded[1] + n.upscaled[1])
                  + (n.samples[2] + n.dst[2] + n.coded[2] + n.upscaled[2]);
    Lengths(n.edges, n.schedule, n.directions, n.variances,
            n.upscaledFrame + n.grainFrame,
            planes + n.input + n.unitDst + n.data + n.restored + n.wiener + n.above + n.below
            + n.lumaSamples + n.chromaSamples[0] + n.chromaSamples[1],
            n.lumaGrain + n.chromaGrain[0] + n.chromaGrain[1],
            n.projections)
  }

  // ----- binding ----------------------------------------------------------------------------

  /** The parts of each arena, in the order in which they are cut. */
  function Words(n: Need): seq<int> {
    n.samples + n.dst + [n.input, n.unitDst] + n.coded + n.upscaled
    + [n.data, n.restored, n.wiener, n.above, n.below] + [n.lumaSamples] + n.chromaSamples
  }

  function Frames(n: Need): seq<int> {
    [n.upscaledFrame, n.grainFrame]
  }

  function Grains(n: Need): seq<int> {
    [n.lumaGrain] + n.chromaGrain
  }

  /** Which part is where: directional enhancement's planes, input and unit; super-resolution's coded and upscaled planes;
      restoration's five buffers; film grain's samples. Then the frame and grain arenas. */
  lemma PartsAre(n: Need)
    requires Shaped(n)
    ensures |Words(n)| == 22 && |Frames(n)| == 2 && |Grains(n)| == 3
    ensures forall p | 0 <= p < 3 ::
              Words(n)[p] == n.samples[p] && Words(n)[3 + p] == n.dst[p] && Words(n)[8 + p] == n.coded[p] && Words(n)[11 + p] == n.upscaled[p]
    ensures Words(n)[6] == n.input && Words(n)[7] == n.unitDst
    ensures Words(n)[14] == n.data && Words(n)[15] == n.restored && Words(n)[16] == n.wiener
    ensures Words(n)[17] == n.above && Words(n)[18] == n.below
    ensures Words(n)[19] == n.lumaSamples && Words(n)[20] == n.chromaSamples[0] && Words(n)[21] == n.chromaSamples[1]
    ensures Frames(n)[0] == n.upscaledFrame && Frames(n)[1] == n.grainFrame
    ensures Grains(n)[0] == n.lumaGrain && Grains(n)[1] == n.chromaGrain[0] && Grains(n)[2] == n.chromaGrain[1]
  {
  }

  predicate NonNegative(s: seq<int>) {
    forall i | 0 <= i < |s| :: s[i] >= 0
  }

  lemma SumTwo(a: int, b: int)
    ensures Sum([a, b]) == a + b
  {
    var s := [a, b];
    assert s[..1] == [a] && [a][..0] == [];
    assert Sum([a]) == Sum([]) + a && Sum(s) == Sum(s[..1]) + b;
  }

  lemma SumThree(s: seq<int>)
    requires |s| == 3
    ensures Sum(s) == s[0] + s[1] + s[2]
  {
    assert s[..2][..1] == s[..1] && s[..1][..0] == [];
    assert Sum(s[..2]) == Sum(s[..1]) + s[1] && Sum(s[..1]) == Sum([]) + s[0];
  }

  lemma SumFive(a: int, b: int, c: int, d: int, e: int)
    ensures Sum([a, b, c, d, e]) == a + b + c + d + e
  {
    assert [a, b, c, d, e] == [a, b] + [c, d, e];
    SumConcat([a, b], [c, d, e]);
    SumTwo(a, b);
    SumThree([c, d, e]);
  }

  /** What is reported, plane by plane, is what the parts add up to, stage by stage. */
  lemma ReportedIsSum(n: Need)
    requires Shaped(n)
    ensures Reported(n).uint16s == Sum(Words(n)) && Reported(n).bytes == Sum(Frames(n)) && Reported(n).int16s == Sum(Grains(n))
  {
    var cdef, rest := [n.input, n.unitDst], [n.data, n.restored, n.wiener, n.above, n.below];
    var a1 := n.samples + n.dst;
    var a2 := a1 + cdef;
    var a3 := a2 + n.coded;
    var a4 := a3 + n.upscaled;
    var a5 := a4 + rest;
    var a6 := a5 + [n.lumaSamples];
    SumConcat(n.samples, n.dst);
    SumConcat(a1, cdef);
    SumConcat(a2, n.coded);
    SumConcat(a3, n.upscaled);
    SumConcat(a4, rest);
    SumConcat(a5, [n.lumaSamples]);
    SumConcat(a6, n.chromaSamples);
    SumThree(n.samples);
    SumThree(n.dst);
    SumThree(n.coded);
    SumThree(n.upscaled);
    SumTwo(n.input, n.unitDst);
    SumFive(n.data, n.restored, n.wiener, n.above, n.below);
    SumTwo(0, n.lumaSamples);
    assert [0, n.lumaSamples] == [0] + [n.lumaSamples];
    SumConcat([0], [n.lumaSamples]);
    assert [0][..0] == [] && Sum([0]) == 0;
    assert n.chromaSamples == [n.chromaSamples[0], n.chromaSamples[1]];
    SumTwo(n.chromaSamples[0], n.chromaSamples[1]);
    SumTwo(n.upscaledFrame, n.grainFrame);
    assert Grains(n) == [n.lumaGrain, n.chromaGrain[0], n.chromaGrain[1]];
    SumThree(Grains(n));
  }

  datatype Part = Part(start: int, end: int)

  /** The parts follow each other and fill the arena up to their sum. */
  predicate Partition(parts: seq<Part>, needs: seq<int>) {
    && |parts| == |needs|
    && forall i | 0 <= i < |parts| :: parts[i] == Part(Sum(needs[..i]), Sum(needs[..i]) + needs[i])
  }

  lemma {:induction false} SumPrefix(s: seq<int>, k: nat)
    requires k <= |s| && NonNegative(s)
    ensures 0 <= Sum(s[..k]) <= Sum(s)
    decreases |s|
  {
    if k == |s| {
      assert s[..k] == s;
      if k > 0 {
        SumPrefix(s[..k - 1], k - 1);
        assert s[..k - 1][..k - 1] == s[..k - 1];
      }
    } else {
      SumPrefix(s[..|s| - 1], k);
      assert s[..|s| - 1][..k] == s[..k];
    }
  }

  /** Different parts do not meet. */
  lemma PartsDisjoint(parts: seq<Part>, needs: seq<int>, i: nat, j: nat)
    requires Partition(parts, needs) && NonNegative(needs) && i < j < |parts|
    ensures parts[i].end <= parts[j].start && parts[j].end <= Sum(needs)
  {
    SumPrefix(needs[..j], i + 1);
    assert needs[..j][..i + 1] == needs[..i + 1];
    assert needs[..i + 1][..i] == needs[..i];
    SumPrefix(needs, j + 1);
    assert needs[..j + 1][..j] == needs[..j];
  }

  /** Cuts an arena: each part from the front of what remains. It succeeds exactly if no part is negative and their
      sum fits. */
  method Cut(length: nat, needs: seq<int>) returns (ok: bool, parts: seq<Part>)
    ensures ok <==> NonNegative(needs) && Sum(needs) <= length
    ensures ok ==> Partition(parts, needs)
  {
    parts := [];
    var start: int := 0;
    for i := 0 to |needs|
      invariant NonNegative(needs[..i]) && 0 <= start == Sum(needs[..i]) <= length && |parts| == i
      invariant forall k | 0 <= k < i :: parts[k] == Part(Sum(needs[..k]), Sum(needs[..k]) + needs[k])
    {
      assert needs[..i + 1][..i] == needs[..i];
      if needs[i] < 0 || length - start < needs[i] {
        if NonNegative(needs) {
          SumPrefix(needs, i + 1);
        }
        return false, [];
      }
      parts := parts + [Part(start, start + needs[i])];
      start := start + needs[i];
    }
    assert needs[..|needs|] == needs;
    return true, parts;
  }

  predicate Sensible(n: Need) {
    && Shaped(n) && n.edges >= 0 && n.schedule >= 0 && n.directions >= 0 && n.variances >= 0 && n.projections >= 0
    && NonNegative(Words(n)) && NonNegative(Frames(n)) && NonNegative(Grains(n))
  }

  datatype Bound = Bound(words: seq<Part>, frames: seq<Part>, grains: seq<Part>)

  /** Binding succeeds exactly if no size is negative and every arena has the reported length; the parts then
      partition that prefix of each arena. */
  method Bind(n: Need, scratch: Lengths) returns (ok: bool, bound: Bound)
    requires Shaped(n) && AtMost(Lengths(0, 0, 0, 0, 0, 0, 0, 0), scratch)
    ensures ok <==> Sensible(n) && AtMost(Reported(n), scratch)
    ensures ok ==> Partition(bound.words, Words(n)) && Partition(bound.frames, Frames(n)) && Partition(bound.grains, Grains(n))
  {
    ReportedIsSum(n);
    bound := Bound([], [], []);
    if n.edges < 0 || scratch.edges < n.edges || n.schedule < 0 || scratch.schedule < n.schedule
      || n.directions < 0 || scratch.directions < n.directions || n.variances < 0 || scratch.variances < n.variances
      || n.projections < 0 || scratch.int32s < n.projections {
      return false, bound;
    }
    var wordsOk, words := Cut(scratch.uint16s, Words(n));
    var framesOk, frames := Cut(scratch.bytes, Frames(n));
    var grainsOk, grains := Cut(scratch.int16s, Grains(n));
    ok := wordsOk && framesOk && grainsOk;
    bound := Bound(words, frames, grains);
  }

  // ----- the reusable runner ----------------------------------------------------------------

  /** Scratch that grows to the largest lengths met. */
  class ReusableRunner {
    var size: Lengths
    var scratch: Lengths
    /** The lengths served so far. */
    ghost var served: seq<Lengths>

    /** The scratch dominates everything it has served. */
    ghost predicate Valid()
      reads this
    {
      && scratch == size && AtMost(Lengths(0, 0, 0, 0, 0, 0, 0, 0), size)
      && forall i | 0 <= i < |served| :: AtMost(served[i], scratch)
    }

    constructor ()
      ensures Valid() && served == []
    {
      size, scratch, served := Lengths(0, 0, 0, 0, 0, 0, 0, 0), Lengths(0, 0, 0, 0, 0, 0, 0, 0), [];
    }

    /** Serves a frame: the arenas grow if one is too small, and never shrink, so binding always succeeds. */
    method Apply(n: Need) returns (ok: bool, bound: Bound)
      requires Valid() && Sensible(n)
      modifies this
      ensures Valid() && served == old(served) + [Reported(n)] && AtMost(old(scratch), scratch)
      ensures scratch == if AtMost(Reported(n), old(scratch)) then old(scratch) else Max(old(scratch), Reported(n))
      ensures ok && Partition(bound.words, Words(n)) && Partition(bound.frames, Frames(n)) && Partition(bound.grains, Grains(n))
    {
      var arena := Reported(n);
      if !AtMost(arena, scratch) {
        size := Max(size, arena);
        scratch := size;
      }
      served := served + [arena];
      ok, bound := Bind(n, scratch);
    }
  }
}
