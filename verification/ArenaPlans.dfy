/**
 What the decoder's constructor and the frame pipeline ask of their arenas, and what they take.
 */
module ArenaPlans {
  import opened Values
  import opened Numbers
  import opened Arena

  datatype Side = Side(cdefIndex: int, cdefRead: int, above: int, below: int, masks: int)
  datatype Runner = Runner(int32s: int, int16s: int)
  datatype Post = Post(bytes: int, uint16s: int, int16s: int, int32s: int)

  /** The sizes a decoder is built from; with external output there is a second frame pool. */
  datatype Plan = Plan(
    surfaces: int,
    backing: int,
    external: bool,
    outputBacking: int,
    runner: Runner,
    side: Side,
    post: Post,
    rtpBuffer: int,
    payload: int)

  function Multiply(a: int, b: nat): Option<int> {
    if a < 0 || (b != 0 && a > MAX_INT / b) then None else Some(a * b)
  }

  /** The buffers for skip masks and tile edges; an impossible size counts as none. */
  function NoSkip(s: Side): int {
    if Multiply(s.cdefIndex, 8).Some? then Multiply(s.cdefIndex, 8).value else 0
  }

  function TileEdges(s: Side): int {
    if Multiply(s.masks, 256).Some? then Multiply(s.masks, 256).value else 0
  }

  // ----- requests ---------------------------------------------------------------------------

  function PoolRequests(backing: int, surfaces: int): seq<Request> {
    [Request(Bytes, backing), Request(Ints, surfaces), Request(Bools, surfaces)]
  }

  function RunnerRequests(r: Runner): seq<Request> {
    [Request(Int32s, r.int32s), Request(Int16s, r.int16s)]
  }

  function PostRequests(p: Post): seq<Request> {
    [Request(Bytes, p.bytes), Request(Uint16s, p.uint16s), Request(Int16s, p.int16s), Request(Int32s, p.int32s)]
  }

  /** The sizing pass counts both boundaries at once; they are taken one by one. */
  function SideAdds(s: Side): seq<Request> {
    [Request(Bytes, s.cdefIndex), Request(Bools, s.cdefRead), Request(Uint16s, s.above + s.below)]
  }

  function SideTakes(s: Side): seq<Request> {
    [Request(Bytes, s.cdefIndex), Request(Bools, s.cdefRead), Request(Uint16s, s.above), Request(Uint16s, s.below)]
  }

  function ByteRequest(n: int): seq<Request> {
    [Request(Bytes, n)]
  }

  function Masks(s: Side): seq<Request> {
    [Request(Bytes, NoSkip(s)), Request(Bytes, TileEdges(s))]
  }

  function OutputPool(p: Plan): seq<Request> {
    if p.external then PoolRequests(p.outputBacking, p.surfaces) else []
  }

  function PostCopies(p: Plan): seq<Request> {
    if p.external then PostRequests(p.post) + PostRequests(p.post) else PostRequests(p.post)
  }

  /** The requests of the sizing pass, in its order. */
  function Adds(p: Plan): seq<Request> {
    PoolRequests(p.backing, p.surfaces) + OutputPool(p)
    + (ByteRequest(p.rtpBuffer) + (RunnerRequests(p.runner) + SideAdds(p.side)) + SideAdds(p.side))
    + (ByteRequest(NoSkip(p.side)) + Masks(p.side)) + PostCopies(p) + ByteRequest(p.payload)
  }

  /** The takes of the constructor, in its order. */
  function Takes(p: Plan): seq<Request> {
    PoolRequests(p.backing, p.surfaces) + OutputPool(p) + ByteRequest(p.payload)
    + ((RunnerRequests(p.runner) + SideTakes(p.side)) + SideTakes(p.side) + ByteRequest(p.rtpBuffer))
    + (ByteRequest(NoSkip(p.side)) + Masks(p.side)) + PostCopies(p)
  }

  /** The sizing pass succeeds. */
  ghost predicate Fits(p: Plan) {
    && AddTwo(p.side.above, p.side.below).Some? && Multiply(p.side.cdefIndex, 8).Some?
    && Sized(Adds(p))
  }

  lemma TotalPrefix(rs: seq<Request>, k: Kind)
    requires rs != []
    ensures Total(rs, k) == Total(rs[..|rs| - 1], k) + if rs[|rs| - 1].kind == k then rs[|rs| - 1].n else 0
  {
  }

  /** Taking the boundaries one by one takes what was counted. */
  lemma SideExact(s: Side, k: Kind)
    ensures Total(SideTakes(s), k) == Total(SideAdds(s), k)
  {
    var a, t := SideAdds(s), SideTakes(s);
    assert a[..2] == t[..2];
    assert t[..3][..2] == t[..2];
    assert t[..3][2] == t[2];
    TotalPrefix(t, k);
    TotalPrefix(t[..3], k);
    TotalPrefix(a, k);
  }

  lemma AddsTotal(p: Plan, k: Kind)
    ensures Total(Adds(p), k) ==
              Total(PoolRequests(p.backing, p.surfaces), k) + Total(OutputPool(p), k) + Total(ByteRequest(p.rtpBuffer), k)
              + Total(RunnerRequests(p.runner), k) + 2 * Total(SideAdds(p.side), k) + Total(ByteRequest(NoSkip(p.side)), k)
              + Total(Masks(p.side), k) + Total(PostCopies(p), k) + Total(ByteRequest(p.payload), k)
  {
    var pool, out, rtp, run, side := PoolRequests(p.backing, p.surfaces), OutputPool(p), ByteRequest(p.rtpBuffer), RunnerRequests(p.runner), SideAdds(p.side);
    var skip, masks, post, payload := ByteRequest(NoSkip(p.side)), Masks(p.side), PostCopies(p), ByteRequest(p.payload);
    var stream := rtp + (run + side) + side;
    TotalConcat(run, side, k);
    TotalConcat(rtp, run + side, k);
    TotalConcat(rtp + (run + side), side, k);
    TotalConcat(skip, masks, k);
    TotalConcat(pool, out, k);
    TotalConcat(pool + out, stream, k);
    TotalConcat(pool + out + stream, skip + masks, k);
    TotalConcat(pool + out + stream + (skip + masks), post, k);
    TotalConcat(pool + out + stream + (skip + masks) + post, payload, k);
  }

  lemma TakesTotal(p: Plan, k: Kind)
    ensures Total(Takes(p), k) ==
              Total(PoolRequests(p.backing, p.surfaces), k) + Total(OutputPool(p), k) + Total(ByteRequest(p.rtpBuffer), k)
              + Total(RunnerRequests(p.runner), k) + 2 * Total(SideTakes(p.side), k) + Total(ByteRequest(NoSkip(p.side)), k)
              + Total(Masks(p.side), k) + Total(PostCopies(p), k) + Total(ByteRequest(p.payload), k)
  {
    var pool, out, rtp, run, side := PoolRequests(p.backing, p.surfaces), OutputPool(p), ByteRequest(p.rtpBuffer), RunnerRequests(p.runner), SideTakes(p.side);
    var skip, masks, post, payload := ByteRequest(NoSkip(p.side)), Masks(p.side), PostCopies(p), ByteRequest(p.payload);
    var stream := (run + side) + side + rtp;
    TotalConcat(run, side, k);
    TotalConcat(run + side, side, k);
    TotalConcat((run + side) + side, rtp, k);
    TotalConcat(skip, masks, k);
    TotalConcat(pool, out, k);
    TotalConcat(pool + out, payload, k);
    TotalConcat(pool + out + payload, stream, k);
    TotalConcat(pool + out + payload + stream, skip + masks, k);
    TotalConcat(pool + out + payload + stream + (skip + masks), post, k);
  }

  /** The constructor spends the arena exactly, with external output or without. */
  lemma ConstructorExact(p: Plan, k: Kind)
    ensures Total(Takes(p), k) == Total(Adds(p), k)
  {
    AddsTotal(p, k);
    TakesTotal(p, k);
    SideExact(p.side, k);
  }

  lemma TotalFew(rs: seq<Request>, k: Kind)
    requires |rs| <= 4
    ensures Total(rs, k) ==
              (if |rs| > 0 && rs[0].kind == k then rs[0].n else 0) + (if |rs| > 1 && rs[1].kind == k then rs[1].n else 0)
              + (if |rs| > 2 && rs[2].kind == k then rs[2].n else 0) + (if |rs| > 3 && rs[3].kind == k then rs[3].n else 0)
  {
    if |rs| > 1 {
      TotalFew(rs[..|rs| - 1], k);
    }
  }

  /** How many elements of a kind a plan asks for: two maps and two sets of boundaries, one frame pool or two, skip masks
      twice, tile edges, and post-filter scratch once or twice. */
  function Asked(p: Plan, k: Kind): int {
    var copies := if p.external then 2 else 1;
    match k
    case Ints => copies * p.surfaces
    case Int32s => p.runner.int32s + copies * p.post.int32s
    case Uint16s => 2 * (p.side.above + p.side.below) + copies * p.post.uint16s
    case Int16s => p.runner.int16s + copies * p.post.int16s
    case Bytes =>
      p.backing + (if p.external then p.outputBacking else 0) + p.rtpBuffer + 2 * p.side.cdefIndex
      + 2 * (8 * p.side.cdefIndex) + 256 * p.side.masks + copies * p.post.bytes + p.payload
    case Bools => copies * p.surfaces + 2 * p.side.cdefRead
  }

  lemma PostTotal(p: Plan, k: Kind)
    ensures Total(PostCopies(p), k) == (if p.external then 2 else 1) * Total(PostRequests(p.post), k)
  {
    TotalConcat(PostRequests(p.post), PostRequests(p.post), k);
  }

  /** What is sized, and so what is taken, is that. */
  lemma AskedExactly(p: Plan, k: Kind)
    requires Multiply(p.side.cdefIndex, 8).Some? && Multiply(p.side.masks, 256).Some?
    ensures Total(Adds(p), k) == Total(Takes(p), k) == Asked(p, k)
  {
    ConstructorExact(p, k);
    AddsTotal(p, k);
    PostTotal(p, k);
    TotalFew(PoolRequests(p.backing, p.surfaces), k);
    TotalFew(OutputPool(p), k);
    TotalFew(ByteRequest(p.rtpBuffer), k);
    TotalFew(RunnerRequests(p.runner), k);
    TotalFew(SideAdds(p.side), k);
    TotalFew(ByteRequest(NoSkip(p.side)), k);
    TotalFew(Masks(p.side), k);
    TotalFew(PostRequests(p.post), k);
    TotalFew(ByteRequest(p.payload), k);
  }

  // ----- the frame pipeline -----------------------------------------------------------------

  function ContextAdds(p: Plan): seq<Request> {
    (RunnerRequests(p.runner) + SideAdds(p.side)) + SideAdds(p.side) + PostRequests(p.post) + Masks(p.side)
  }

  function ContextTakes(p: Plan): seq<Request> {
    (RunnerRequests(p.runner) + SideTakes(p.side)) + SideTakes(p.side) + Masks(p.side) + PostRequests(p.post)
  }

  function Repeat(rs: seq<Request>, n: nat): seq<Request> {
    if n == 0 then [] else Repeat(rs, n - 1) + rs
  }

  lemma {:induction false} RepeatTotal(a: seq<Request>, b: seq<Request>, n: nat, k: Kind)
    requires Total(a, k) == Total(b, k)
    ensures Total(Repeat(a, n), k) == Total(Repeat(b, n), k)
  {
    if n > 0 {
      RepeatTotal(a, b, n - 1, k);
      TotalConcat(Repeat(a, n - 1), a, k);
      TotalConcat(Repeat(b, n - 1), b, k);
    }
  }

  lemma ContextExact(p: Plan, k: Kind)
    ensures Total(ContextTakes(p), k) == Total(ContextAdds(p), k)
  {
    var run, adds, takes, post, masks := RunnerRequests(p.runner), SideAdds(p.side), SideTakes(p.side), PostRequests(p.post), Masks(p.side);
    SideExact(p.side, k);
    TotalConcat(run, adds, k);
    TotalConcat(run + adds, adds, k);
    TotalConcat(run + adds + adds, post, k);
    TotalConcat(run + adds + adds + post, masks, k);
    TotalConcat(run, takes, k);
    TotalConcat(run + takes, takes, k);
    TotalConcat(run + takes + takes, masks, k);
    TotalConcat(run + takes + takes + masks, post, k);
  }

  /** How many elements of a kind each context asks for. */
  function ContextAsked(p: Plan, k: Kind): int {
    match k
    case Ints => 0
    case Int32s => p.runner.int32s + p.post.int32s
    case Uint16s => 2 * (p.side.above + p.side.below) + p.post.uint16s
    case Int16s => p.runner.int16s + p.post.int16s
    case Bytes => 2 * p.side.cdefIndex + 8 * p.side.cdefIndex + 256 * p.side.masks + p.post.bytes
    case Bools => 2 * p.side.cdefRead
  }

  lemma ContextTotal(p: Plan, k: Kind)
    requires Multiply(p.side.cdefIndex, 8).Some? && Multiply(p.side.masks, 256).Some?
    ensures Total(ContextAdds(p), k) == ContextAsked(p, k)
  {
    var run, adds, post, masks := RunnerRequests(p.runner), SideAdds(p.side), PostRequests(p.post), Masks(p.side);
    TotalConcat(run, adds, k);
    TotalConcat(run + adds, adds, k);
    TotalConcat(run + adds + adds, post, k);
    TotalConcat(run + adds + adds + post, masks, k);
    TotalFew(run, k);
    TotalFew(adds, k);
    TotalFew(post, k);
    TotalFew(masks, k);
  }

  lemma {:induction false} RepeatIs(rs: seq<Request>, n: nat, k: Kind)
    ensures Total(Repeat(rs, n), k) == n * Total(rs, k)
  {
    if n > 0 {
      RepeatIs(rs, n - 1, k);
      TotalConcat(Repeat(rs, n - 1), rs, k);
      assert n * Total(rs, k) == (n - 1) * Total(rs, k) + Total(rs, k);
    }
  }

  /** What n contexts are sized for, and so what they take. */
  lemma PipelineAsked(p: Plan, n: nat, k: Kind)
    requires Multiply(p.side.cdefIndex, 8).Some? && Multiply(p.side.masks, 256).Some?
    ensures Total(Repeat(ContextAdds(p), n), k) == Total(Repeat(ContextTakes(p), n), k) == n * ContextAsked(p, k)
  {
    PipelineExact(p, n, k);
    RepeatIs(ContextAdds(p), n, k);
    ContextTotal(p, k);
  }

  /** The pipeline spends its own arena exactly, for any number of contexts. */
  lemma PipelineExact(p: Plan, n: nat, k: Kind)
    ensures Total(Repeat(ContextTakes(p), n), k) == Total(Repeat(ContextAdds(p), n), k)
  {
    ContextExact(p, k);
    RepeatTotal(ContextTakes(p), ContextAdds(p), n, k);
  }

  // ----- building ---------------------------------------------------------------------------

  lemma AllParts(a: seq<Request>, b: seq<Request>)
    ensures NonNegative(a + b) <==> NonNegative(a) && NonNegative(b)
  {
    assert forall i | 0 <= i < |a| :: (a + b)[i] == a[i];
    assert forall i | 0 <= i < |b| :: (a + b)[|a| + i] == b[i];
  }

  lemma TakesNonNegative(p: Plan)
    requires NonNegative(Adds(p)) && p.side.above >= 0 && p.side.below >= 0
    ensures NonNegative(Takes(p))
  {
    var pool, out, rtp, run, adds := PoolRequests(p.backing, p.surfaces), OutputPool(p), ByteRequest(p.rtpBuffer), RunnerRequests(p.runner), SideAdds(p.side);
    var takes, skip, masks, post, payload := SideTakes(p.side), ByteRequest(NoSkip(p.side)), Masks(p.side), PostCopies(p), ByteRequest(p.payload);
    var stream := rtp + (run + adds) + adds;
    AllParts(pool + out + stream + (skip + masks) + post, payload);
    AllParts(pool + out + stream + (skip + masks), post);
    AllParts(pool + out + stream, skip + masks);
    AllParts(pool + out, stream);
    AllParts(rtp + (run + adds), adds);
    AllParts(rtp, run + adds);
    AllParts(run, adds);
    assert adds[0].n >= 0 && adds[1].n >= 0;
    assert NonNegative(takes);
    var taken := (run + takes) + takes + rtp;
    AllParts(run, takes);
    AllParts(run + takes, takes);
    AllParts((run + takes) + takes, rtp);
    AllParts(pool + out, payload);
    AllParts(pool + out + payload, taken);
    AllParts(pool + out + payload + taken, skip + masks);
    AllParts(pool + out + payload + taken + (skip + masks), post);
  }

  lemma TotalsExact(p: Plan)
    ensures Totals(Takes(p)) == Totals(Adds(p))
  {
    ConstructorExact(p, Ints);
    ConstructorExact(p, Int32s);
    ConstructorExact(p, Uint16s);
    ConstructorExact(p, Int16s);
    ConstructorExact(p, Bytes);
    ConstructorExact(p, Bools);
  }

  /** The regions are aligned for their kinds, inside the allocation, and do not meet. */
  ghost predicate Separate(size: Sizes, rs: seq<Request>, regions: seq<Region>) {
    && |regions| == |rs|
    && (forall i, j | 0 <= i < j < |regions| :: Apart(regions[i], regions[j]))
    && forall i | 0 <= i < |regions| :: Inside(regions[i], size, rs[i].kind)
  }

  predicate Apart(a: Region, b: Region) {
    a.end <= b.start || b.end <= a.start
  }

  predicate Inside(r: Region, size: Sizes, k: Kind) {
    0 <= r.start <= r.end <= EndOf(size) && r.start % Width(k) == 0
  }

  /** The regions lie inside what was allocated. */
  predicate Covered(size: Sizes, regions: seq<Region>) {
    && BackingWords(size).Some?
    && forall i | 0 <= i < |regions| :: 0 <= regions[i].start <= regions[i].end <= 8 * BackingWords(size).value
  }

  lemma RegionsSeparate(size: Sizes, rs: seq<Request>, regions: seq<Region>)
    requires NonNegative(rs) && IsSize(size) && AtMost(Totals(rs), size) && |regions| == |rs|
    requires forall i | 0 <= i < |rs| :: regions[i] == RegionAt(size, rs, i)
    ensures Separate(size, rs, regions)
  {
    forall i, j | 0 <= i < j < |regions|
      ensures Apart(regions[i], regions[j])
    {
      RegionsDisjoint(size, rs, i, j);
    }
    forall i | 0 <= i < |regions|
      ensures Inside(regions[i], size, rs[i].kind)
    {
      TotalsOf(rs, rs[i].kind);
      RegionWithin(size, rs, i);
      RegionInside(size, rs[i].kind);
    }
  }

  lemma {:induction false} TotalsNonNegative(rs: seq<Request>)
    requires NonNegative(rs)
    ensures AtMost(NOTHING, Totals(rs))
  {
    if rs != [] {
      var front := rs[..|rs| - 1];
      TotalsNonNegative(front);
      assert front + [rs[|rs| - 1]] == rs;
      TotalsSnoc(front, rs[|rs| - 1]);
    }
  }

  /** Sizes an arena by one list and spends it by another with the same totals: no take is out of range, nothing
      is left, and the regions are aligned and do not meet. They lie inside what was allocated exactly if the byte
      total is a length too, which the sizing pass does not ask. */
  method Spend(adds: seq<Request>, takes: seq<Request>)
    returns (ok: bool, backed: bool, regions: seq<Region>, size: Sizes, spent: Sizes)
    requires Totals(takes) == Totals(adds) && (NonNegative(adds) ==> NonNegative(takes))
    ensures ok <==> Sized(adds)
    ensures backed <==> ok && EndOf(Totals(adds)) <= MAX_INT - 7
    ensures backed ==> Covered(size, regions)
    ensures ok ==> size == Totals(adds) == spent && Separate(size, takes, regions)
  {
    backed, regions, size, spent := false, [], NOTHING, NOTHING;
    var counters := new Counters();
    ok := counters.AddAll(adds);
    if !ok {
      return;
    }
    size := counters.sizes;
    TotalsNonNegative(takes);
    var pool := new Pool(size);
    ok, regions := pool.TakeAll(takes);
    RegionsSeparate(size, takes, regions);
    backed, spent := Backed(size), pool.taken;
    BackedIff(size);
  }

  /** Builds a decoder's arena and takes everything from it. */
  method Build(p: Plan) returns (ok: bool, backed: bool, regions: seq<Region>, size: Sizes, spent: Sizes)
    ensures ok <==> Fits(p)
    ensures backed <==> Fits(p) && EndOf(Totals(Adds(p))) <= MAX_INT - 7
    ensures backed ==> Covered(size, regions)
    ensures ok ==> size == Totals(Adds(p)) == spent && Separate(size, Takes(p), regions)
  {
    ok, backed, regions, size, spent := false, false, [], NOTHING, NOTHING;
    if AddTwo(p.side.above, p.side.below).None? || Multiply(p.side.cdefIndex, 8).None? {
      return;
    }
    if NonNegative(Adds(p)) {
      TakesNonNegative(p);
      TotalsExact(p);
      ok, backed, regions, size, spent := Spend(Adds(p), Takes(p));
    }
  }

  lemma {:induction false} TotalOne(rs: seq<Request>, j: nat, k: Kind)
    requires j < |rs| && forall i | 0 <= i < |rs| && i != j :: rs[i].n == 0
    ensures Total(rs, k) == if rs[j].kind == k then rs[j].n else 0
  {
    var front := rs[..|rs| - 1];
    if j < |front| {
      TotalOne(front, j, k);
    } else if front != [] {
      TotalOne(front, 0, k);
    }
  }

  /** Runner scratch of 2^62 - 1 numbers of four bytes each, and nothing else. */
  const HUGE: Plan :=
    Plan(0, 0, false, 0, Runner(0x3fff_ffff_ffff_ffff, 0), Side(0, 0, 0, 0, 0), Post(0, 0, 0, 0), 0, 0)

  lemma HugeTotal(k: Kind)
    ensures Total(Adds(HUGE), k) == if k == Int32s then 0x3fff_ffff_ffff_ffff else 0
  {
    AddsTotal(HUGE, k);
    TotalOne(PoolRequests(0, 0), 0, k);
    TotalOne(ByteRequest(0), 0, k);
    TotalOne(RunnerRequests(HUGE.runner), 0, k);
    TotalOne(SideAdds(HUGE.side), 0, k);
    TotalOne(Masks(HUGE.side), 0, k);
    TotalOne(PostRequests(HUGE.post), 0, k);
  }

  /** Its sizing pass succeeds although its byte total does not fit. */
  lemma SizedNotBacked()
    ensures Fits(HUGE) && !Backed(Totals(Adds(HUGE)))
  {
    HugeTotal(Ints);
    HugeTotal(Int32s);
    HugeTotal(Uint16s);
    HugeTotal(Int16s);
    HugeTotal(Bytes);
    HugeTotal(Bools);
    BackedIff(Totals(Adds(HUGE)));
  }

  lemma ContextNonNegative(p: Plan)
    requires NonNegative(ContextAdds(p)) && p.side.above >= 0 && p.side.below >= 0
    ensures NonNegative(ContextTakes(p))
  {
    var run, adds, takes, post, masks := RunnerRequests(p.runner), SideAdds(p.side), SideTakes(p.side), PostRequests(p.post), Masks(p.side);
    AllParts(run + adds + adds + post, masks);
    AllParts(run + adds + adds, post);
    AllParts(run + adds, adds);
    AllParts(run, adds);
    assert adds[0].n >= 0 && adds[1].n >= 0;
    assert NonNegative(takes);
    AllParts(run, takes);
    AllParts(run + takes, takes);
    AllParts(run + takes + takes, masks);
    AllParts(run + takes + takes + masks, post);
  }

  lemma {:induction false} RepeatNonNegative(rs: seq<Request>, n: nat)
    ensures NonNegative(Repeat(rs, n)) <==> n == 0 || NonNegative(rs)
  {
    if n > 0 {
      RepeatNonNegative(rs, n - 1);
      AllParts(Repeat(rs, n - 1), rs);
    }
  }

  lemma PipelineTotals(p: Plan, n: nat)
    ensures Totals(Repeat(ContextTakes(p), n)) == Totals(Repeat(ContextAdds(p), n))
  {
    PipelineExact(p, n, Ints);
    PipelineExact(p, n, Int32s);
    PipelineExact(p, n, Uint16s);
    PipelineExact(p, n, Int16s);
    PipelineExact(p, n, Bytes);
    PipelineExact(p, n, Bools);
  }

  /** Builds the arena of a pipeline with n contexts and takes everything from it. */
  method BuildPipeline(p: Plan, n: nat) returns (ok: bool, backed: bool, regions: seq<Region>, size: Sizes, spent: Sizes)
    ensures backed <==> ok && EndOf(Totals(Repeat(ContextAdds(p), n))) <= MAX_INT - 7
    ensures backed ==> Covered(size, regions)
    ensures ok <==> (n == 0 || AddTwo(p.side.above, p.side.below).Some?) && Sized(Repeat(ContextAdds(p), n))
    ensures ok ==> size == Totals(Repeat(ContextAdds(p), n)) == spent && Separate(size, Repeat(ContextTakes(p), n), regions)
  {
    ok, backed, regions, size, spent := false, false, [], NOTHING, NOTHING;
    if n > 0 && AddTwo(p.side.above, p.side.below).None? {
      return;
    }
    RepeatNonNegative(ContextAdds(p), n);
    RepeatNonNegative(ContextTakes(p), n);
    if n > 0 && NonNegative(ContextAdds(p)) {
      ContextNonNegative(p);
    }
    PipelineTotals(p, n);
    ok, backed, regions, size, spent := Spend(Repeat(ContextAdds(p), n), Repeat(ContextTakes(p), n));
  }
}
