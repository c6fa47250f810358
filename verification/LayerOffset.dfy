/** Where each pipeline stage's layers start, and that every layer has one place. */
module LayerOffset {
  import opened Arithmetic
  import opened Options
  import opened PipelineShards

  /** The part of the model's parallel configuration that places layers. `first` and `last` set the
      sizes of the first and last stages; `virtual` is the number of model chunks a stage holds. */
  datatype Config = Config(stages: nat, layers: nat, first: Option<nat>, last: Option<nat>, virtual: Option<nat>,
                           embedding: bool, loss: bool)
  {
    function FirstLayers(): nat {
      if first.Some? then first.value else 0
    }

    function LastLayers(): nat {
      if last.Some? then last.value else 0
    }

    function Uneven(): bool {
      first.Some? || last.Some?
    }

    /** Stages that share the layers not given to the first or the last. */
    function MiddleStages(): int {
      stages - (if first.Some? then 1 else 0) - (if last.Some? then 1 else 0)
    }

    function MiddleLayers(): int {
      layers - FirstLayers() - LastLayers()
    }

    /** Layers counted for an even split: the embedding and the loss may take a layer's place each. */
    function Slots(): nat {
      layers + (if embedding then 1 else 0) + (if loss then 1 else 0)
    }

    /** Whether the offset of stage `rank` divides by no zero. */
    predicate HasOffset(rank: nat) {
      stages > 1 && virtual.Some? ==> virtual.value > 0 && (Uneven() && rank > 0 ==> MiddleStages() > 0)
    }

    predicate Splittable() {
      && (virtual.Some? ==> virtual.value > 0)
      && (virtual.Some? && stages > 1 && Uneven() ==> MiddleStages() > 0)
    }
  }

  datatype Error = NoChunkGiven | DivisionByZero

  /** The first layer of model chunk `chunk` of stage `rank`; without virtual stages there is one
      chunk. `isFirst` tells whether this is the very first chunk of the model. */
  function Offset(c: Config, rank: nat, chunk: nat, isFirst: bool): int
    requires c.HasOffset(rank)
  {
    if c.stages <= 1 then 0
    else if c.Uneven() then
      if c.virtual.Some? then
        var v := c.virtual.value;
        var firstChunk, lastChunk, middleChunk := c.FirstLayers() / v, c.LastLayers() / v, c.MiddleLayers() / v;
        var all := firstChunk + middleChunk + lastChunk;
        if rank == 0 then chunk * all
        else chunk * all + firstChunk + (rank - 1) * (middleChunk / c.MiddleStages())
      else
        var perRank := if c.MiddleStages() > 0 then c.MiddleLayers() / c.MiddleStages() else 0;
        var middleRank := if c.first.None? then rank else rank - 1;
        if rank == 0 then 0 else middleRank * perRank + c.FirstLayers()
    else
      var perRank := c.Slots() / c.stages;
      var start :=
        if c.virtual.Some?
        then chunk * (c.Slots() / c.virtual.value) + rank * (perRank / c.virtual.value)
        else rank * perRank;
      if c.embedding && !isFirst then start - 1 else start
  }

  /** Interleaving needs a chunk and a number of chunks; with both end sizes set and no stage between
      them, every stage but the first divides by zero. */
  function GetTransformerLayerOffset(c: Config, rank: nat, chunk: Option<nat>, isFirst: bool): (r: Result<int, Error>)
    ensures r.Err? <==>
      && c.stages > 1 && c.virtual.Some?
      && (chunk.None? || c.virtual == Some(0) || (rank > 0 && c.stages == 2 && c.first.Some? && c.last.Some?))
    ensures r.Err? ==> r.error == if chunk.None? then NoChunkGiven else DivisionByZero
    ensures r.Ok? && c.virtual.Some? && c.stages > 1 ==> r.value == Offset(c, rank, chunk.value, isFirst)
    ensures r.Ok? && (c.virtual.None? || c.stages <= 1) ==> r.value == Offset(c, rank, 0, isFirst)
  {
    if c.stages <= 1 then Ok(0)
    else if c.virtual.Some? && chunk.None? then Err(NoChunkGiven)
    else if !c.HasOffset(rank) then Err(DivisionByZero)
    else Ok(Offset(c, rank, if c.virtual.Some? then chunk.value else 0, isFirst))
  }

  /** Every stage has an offset exactly when no division by zero lies in wait for some stage. */
  lemma AllStagesHaveOffsets(c: Config)
    requires c.stages > 1
    ensures (forall rank: nat | rank < c.stages :: c.HasOffset(rank)) <==> c.Splittable()
  {
    if forall rank: nat | rank < c.stages :: c.HasOffset(rank) {
      assert c.HasOffset(1);
    }
  }

  /** Runs of layers laid end to end. */

  ghost predicate Tiles(starts: seq<int>, sizes: seq<int>, total: int) {
    && |starts| == |sizes|
    && (forall i :: 0 <= i < |sizes| ==> sizes[i] >= 0)
    && (forall i :: 0 <= i < |starts| ==> starts[i] == Sum(sizes[..i]))
    && Sum(sizes) == total
  }

  lemma {:induction false} SumPrefixMonotone(sizes: seq<int>, i: nat, j: nat)
    requires i <= j <= |sizes| && forall k :: 0 <= k < |sizes| ==> sizes[k] >= 0
    ensures Sum(sizes[..i]) <= Sum(sizes[..j])
    decreases j
  {
    if i < j {
      assert sizes[..j][..j - 1] == sizes[..j - 1];
      SumPrefixMonotone(sizes, i, j - 1);
    }
  }

  lemma {:induction false} FindRun(sizes: seq<int>, n: nat, x: int) returns (i: nat)
    requires n <= |sizes| && 0 <= x < Sum(sizes[..n])
    ensures i < n && Sum(sizes[..i]) <= x < Sum(sizes[..i]) + sizes[i]
  {
    assert sizes[..n][..n - 1] == sizes[..n - 1];
    if x < Sum(sizes[..n - 1]) {
      i := FindRun(sizes, n - 1, x);
    } else {
      i := n - 1;
    }
  }

  ghost predicate Holds(starts: seq<int>, sizes: seq<int>, i: nat, x: int)
    requires |starts| == |sizes|
  {
    i < |starts| && starts[i] <= x < starts[i] + sizes[i]
  }

  /** In a tiling every layer is in one run and no other: numbering a stage's layers from its start
      gives each layer one number. */
  lemma TilesPlaceOnce(starts: seq<int>, sizes: seq<int>, total: int, x: int) returns (i: nat)
    requires Tiles(starts, sizes, total) && 0 <= x < total
    ensures Holds(starts, sizes, i, x)
    ensures forall j: nat :: Holds(starts, sizes, j, x) ==> j == i
  {
    assert sizes[..|sizes|] == sizes;
    i := FindRun(sizes, |sizes|, x);
    RunEnds(sizes, i);
    forall j: nat | Holds(starts, sizes, j, x)
      ensures j == i
    {
      RunEnds(sizes, j);
      if i < j {
        SumPrefixMonotone(sizes, i + 1, j);
      } else if j < i {
        SumPrefixMonotone(sizes, j + 1, i);
      }
    }
  }

  /** No run of a tiling reaches outside the layers. */
  lemma TilesStayInside(starts: seq<int>, sizes: seq<int>, total: int, i: nat)
    requires Tiles(starts, sizes, total) && i < |starts|
    ensures 0 <= starts[i] && starts[i] + sizes[i] <= total
  {
    assert sizes[..|sizes|] == sizes;
    RunEnds(sizes, i);
    SumPrefixMonotone(sizes, 0, i);
    SumPrefixMonotone(sizes, i + 1, |sizes|);
  }

  lemma RunEnds(sizes: seq<int>, i: nat)
    requires i < |sizes|
    ensures Sum(sizes[..i + 1]) == Sum(sizes[..i]) + sizes[i]
  {
    assert sizes[..i + 1][..i] == sizes[..i];
  }

  /** Starts that each begin where the run before ends make a tiling. */
  lemma {:induction false} ChainTiles(starts: seq<int>, sizes: seq<int>, n: nat)
    requires |starts| == |sizes| && n < |starts| && starts[0] == 0
    requires forall i :: 0 <= i < |sizes| - 1 ==> starts[i + 1] == starts[i] + sizes[i]
    ensures starts[n] == Sum(sizes[..n])
  {
    if n > 0 {
      ChainTiles(starts, sizes, n - 1);
      RunEnds(sizes, n - 1);
    }
  }

  lemma TilesFromChain(starts: seq<int>, sizes: seq<int>, total: int)
    requires |starts| == |sizes| > 0 && starts[0] == 0
    requires forall i :: 0 <= i < |sizes| ==> sizes[i] >= 0
    requires forall i :: 0 <= i < |sizes| - 1 ==> starts[i + 1] == starts[i] + sizes[i]
    requires starts[|starts| - 1] + sizes[|sizes| - 1] == total
    ensures Tiles(starts, sizes, total)
  {
    forall i | 0 <= i < |starts|
      ensures starts[i] == Sum(sizes[..i])
    {
      ChainTiles(starts, sizes, i);
    }
    RunEnds(sizes, |sizes| - 1);
    assert sizes[..|sizes|] == sizes;
  }

  /** The split of the merger: the sizes of the first and the last stage are passed on, where there
      are stages besides them. */
  function MergerConfig(shards: seq<int>, layers: nat): Config
    requires forall i :: 0 <= i < |shards| ==> shards[i] > 0
  {
    Config(|shards|, layers,
           if |shards| > 1 then Some(shards[0]) else None,
           if |shards| > 2 then Some(shards[|shards| - 1]) else None,
           None, false, false)
  }

  function RankOffsets(c: Config): (r: seq<int>)
    requires c.Splittable()
    ensures |r| == c.stages
  {
    seq(c.stages, rank requires 0 <= rank < c.stages => Offset(c, rank, 0, rank == 0))
  }

  /** The merger numbers a stage's layers from the sizes of the stages before it. */
  function LayersCum(shards: seq<int>, rank: nat): int
    requires rank <= |shards|
  {
    Sum(shards[..rank])
  }

  ghost predicate IsSearchedSplit(shards: seq<int>, layers: nat) {
    && |shards| >= 1 && Sum(shards) == layers
    && (forall i :: 0 <= i < |shards| ==> shards[i] > 0)
    && (|shards| >= 3 ==> forall i :: 1 <= i < |shards| - 1 ==> shards[i] == shards[1])
  }

  lemma {:induction false} MiddleSum(shards: seq<int>, m: int, rank: nat)
    requires 1 <= rank < |shards| && forall i :: 1 <= i < |shards| - 1 ==> shards[i] == m
    ensures Sum(shards[..rank]) == shards[0] + (rank - 1) * m
    decreases rank
  {
    RunEnds(shards, rank - 1);
    if rank == 1 {
      assert shards[..0] == [];
    } else {
      MiddleSum(shards, m, rank - 1);
      MulSucc(rank - 2, m);
    }
  }

  lemma MiddleStage(c: Config, m: int)
    requires c.MiddleStages() > 0 && c.MiddleLayers() == c.MiddleStages() * m
    ensures c.MiddleLayers() / c.MiddleStages() == m
  {
    DivModMul(m, c.MiddleStages());
  }

  lemma OffsetOfStage(shards: seq<int>, layers: nat, rank: nat)
    requires IsSearchedSplit(shards, layers) && rank < |shards|
    ensures Offset(MergerConfig(shards, layers), rank, 0, rank == 0) == LayersCum(shards, rank)
  {
    var c, p := MergerConfig(shards, layers), |shards|;
    if rank > 0 {
      var m := if p >= 3 then shards[1] else 0;
      MiddleSum(shards, m, rank);
      MiddleSum(shards, m, p - 1);
      RunEnds(shards, p - 1);
      assert shards[..p] == shards;
      if p >= 3 {
        MiddleStage(c, m);
      }
    }
  }

  /** For every split the search can produce, the offset of a stage is the sum of the stages before
      it, which is where the merger starts numbering; so stages tile the layers. */
  lemma PlacementAgrees(shards: seq<int>, layers: nat)
    requires IsSearchedSplit(shards, layers)
    ensures forall rank :: 0 <= rank < |shards| ==>
      Offset(MergerConfig(shards, layers), rank, 0, rank == 0) == LayersCum(shards, rank)
    ensures Tiles(RankOffsets(MergerConfig(shards, layers)), shards, layers)
  {
    hide Offset;
    forall rank | 0 <= rank < |shards|
      ensures Offset(MergerConfig(shards, layers), rank, 0, rank == 0) == LayersCum(shards, rank)
    {
      OffsetOfStage(shards, layers, rank);
    }
    var starts := RankOffsets(MergerConfig(shards, layers));
    forall i | 0 <= i < |starts|
      ensures starts[i] == Sum(shards[..i])
    {
      assert starts[i] == Offset(MergerConfig(shards, layers), i, 0, i == 0);
      OffsetOfStage(shards, layers, i);
    }
  }

  /** The search produces such splits. */
  lemma SearchGivesSplits(layers: nat, stages: nat, shards: seq<int>)
    requires stages >= 1 && |shards| == stages && Sum(shards) == layers && forall i :: 0 <= i < stages ==> shards[i] > 0
    requires forall i :: 0 < i < stages - 1 ==> shards[i] == CeilDiv(layers, stages)
    ensures IsSearchedSplit(shards, layers)
  {
  }

  /** Interleaved stages: run number `t` is chunk `ChunkOf(t)` of stage `RankOf(t)`. */

  function Product(a: nat, b: nat): nat {
    a * b
  }

  function ChunkOf(t: nat, stages: nat): nat
    requires stages > 0
  {
    t / stages
  }

  function RankOf(t: nat, stages: nat): nat
    requires stages > 0
  {
    t % stages
  }

  function ChunkStarts(c: Config, chunks: nat): (r: seq<int>)
    requires c.Splittable() && c.stages > 0
    ensures |r| == Product(chunks, c.stages)
  {
    seq(Product(chunks, c.stages), t requires 0 <= t < Product(chunks, c.stages) =>
      Offset(c, RankOf(t, c.stages), ChunkOf(t, c.stages), t == 0))
  }

  /** The run after the last stage's is the next chunk of the first stage. */
  lemma NextRun(t: nat, p: nat)
    requires p > 0
    ensures RankOf(t, p) < p
    ensures RankOf(t, p) + 1 < p ==> ChunkOf(t + 1, p) == ChunkOf(t, p) && RankOf(t + 1, p) == RankOf(t, p) + 1
    ensures RankOf(t, p) + 1 == p ==> ChunkOf(t + 1, p) == ChunkOf(t, p) + 1 && RankOf(t + 1, p) == 0
    ensures t < p ==> ChunkOf(t, p) == 0 && RankOf(t, p) == t
  {
    if t % p + 1 < p {
      DivModUnique(t + 1, p, t / p, t % p + 1);
    } else {
      MulSucc(t / p, p);
      DivModUnique(t + 1, p, t / p + 1, 0);
    }
    if t < p {
      DivModUnique(t, p, 0, t);
    }
  }

  lemma LastRun(chunks: nat, p: nat)
    requires p > 0 && chunks > 0
    ensures Product(chunks, p) >= p
    ensures ChunkOf(Product(chunks, p) - 1, p) == chunks - 1 && RankOf(Product(chunks, p) - 1, p) == p - 1
  {
    MulSucc(chunks - 1, p);
    MulMonotone(1, chunks, p);
    DivModUnique(chunks * p - 1, p, chunks - 1, p - 1);
  }

  /** Even split: `per` slots for every chunk, the embedding and the loss taking one each. */

  function EvenSizes(c: Config, runs: nat, per: nat): (r: seq<int>)
    ensures |r| == runs
  {
    seq(runs, t requires 0 <= t < runs =>
      per - (if c.embedding && t == 0 then 1 else 0) - (if c.loss && t == runs - 1 then 1 else 0))
  }

  /** The slots divide evenly over all chunks of all stages. */
  ghost predicate EvenDivides(c: Config, chunks: nat, per: nat) {
    && c.stages > 1 && !c.Uneven() && c.Splittable() && chunks > 0
    && (if c.virtual.Some? then c.virtual.value == chunks else chunks == 1)
    && c.Slots() == Product(Product(chunks, c.stages), per)
  }

  lemma EvenQuotients(slots: nat, stages: nat, chunks: nat, per: nat)
    requires stages > 0 && chunks > 0 && slots == chunks * stages * per
    ensures slots / stages == chunks * per && chunks * per / chunks == per && slots / chunks == stages * per
  {
    assert slots == chunks * per * stages;
    DivModMul(chunks * per, stages);
    assert chunks * per == per * chunks;
    DivModMul(per, chunks);
    assert slots == stages * per * chunks;
    DivModMul(stages * per, chunks);
  }

  lemma EvenOffset(c: Config, chunks: nat, per: nat, rank: nat, chunk: nat, isFirst: bool)
    requires c.Splittable() && EvenDivides(c, chunks, per) && (c.virtual.None? ==> chunk == 0)
    ensures Offset(c, rank, chunk, isFirst) ==
      chunk * (c.stages * per) + rank * per - if c.embedding && !isFirst then 1 else 0
  {
    EvenQuotients(c.Slots(), c.stages, chunks, per);
    assert chunks == 1 ==> chunks * per == per;
  }

  lemma Spread(t: nat, p: nat, per: nat)
    requires p > 0
    ensures ChunkOf(t, p) * (p * per) + RankOf(t, p) * per == Product(t, per)
  {
    assert t == t / p * p + t % p;
    assert (t / p * p + t % p) * per == t / p * (p * per) + t % p * per;
  }

  lemma EvenStart(c: Config, chunks: nat, per: nat, t: nat)
    requires c.Splittable() && c.stages > 0 && EvenDivides(c, chunks, per) && t < Product(chunks, c.stages)
    ensures ChunkStarts(c, chunks)[t] == Product(t, per) - if c.embedding && t > 0 then 1 else 0
  {
    assert c.virtual.None? ==> t < c.stages;
    assert ChunkStarts(c, chunks)[t] == Offset(c, RankOf(t, c.stages), ChunkOf(t, c.stages), t == 0);
    hide *;
    NextRun(t, c.stages);
    EvenOffset(c, chunks, per, RankOf(t, c.stages), ChunkOf(t, c.stages), t == 0);
    Spread(t, c.stages, per);
  }

  /** With the layers (and the slots taken by embedding and loss) divisible over all chunks, the
      chunks tile the layers in the order of chunk, then stage. */
  lemma EvenChunksTile(c: Config, chunks: nat, per: nat)
    requires c.Splittable() && c.stages > 0 && EvenDivides(c, chunks, per) && per > 0
    ensures Tiles(ChunkStarts(c, chunks), EvenSizes(c, Product(chunks, c.stages), per), c.layers)
  {
    var n := Product(chunks, c.stages);
    var e, l := if c.embedding then 1 else 0, if c.loss then 1 else 0;
    assert c.layers + e + l == Product(n, per);
    LastRun(chunks, c.stages);
    hide ChunkStarts, Offset, Product;
    forall t | 0 <= t < n
      ensures ChunkStarts(c, chunks)[t] == Product(t, per) - if t > 0 then e else 0
    {
      EvenStart(c, chunks, per, t);
    }
    EvenChain(ChunkStarts(c, chunks), EvenSizes(c, n, per), n, per, e, l, c.layers);
  }

  lemma EvenChain(starts: seq<int>, sizes: seq<int>, n: nat, per: nat, e: nat, l: nat, layers: nat)
    requires |starts| == |sizes| == n >= 2 && per > 0 && e <= 1 && l <= 1 && layers + e + l == Product(n, per)
    requires forall t :: 0 <= t < n ==> starts[t] == Product(t, per) - if t > 0 then e else 0
    requires forall t :: 0 <= t < n ==> sizes[t] == per - (if t == 0 then e else 0) - (if t == n - 1 then l else 0)
    ensures Tiles(starts, sizes, layers)
  {
    forall t | 0 <= t < n - 1
      ensures starts[t + 1] == starts[t] + sizes[t]
    {
      MulSucc(t, per);
    }
    MulSucc(n - 1, per);
    assert Product(0, per) == 0;
    hide Product;
    TilesFromChain(starts, sizes, layers);
  }

  /** Uneven split with interleaved stages: `f`, `m` and `l` layers for a chunk of the first, a
      middle and the last stage. */

  ghost predicate UnevenShares(c: Config, chunks: nat, f: nat, m: nat, l: nat) {
    && c.stages > 1 && c.Uneven() && c.virtual == Some(chunks) && chunks > 0
    && c.FirstLayers() == f * chunks && c.LastLayers() == l * chunks
    && c.MiddleLayers() == c.MiddleStages() * m * chunks
  }

  ghost predicate UnevenDivides(c: Config, chunks: nat, f: nat, m: nat, l: nat) {
    UnevenShares(c, chunks, f, m, l) && c.MiddleStages() > 0
  }

  function UnevenSize(c: Config, f: nat, m: nat, l: nat, rank: nat): int {
    if rank == 0 && c.first.Some? then f
    else if rank + 1 == c.stages && c.last.Some? then l
    else m
  }

  function UnevenSizes(c: Config, chunks: nat, f: nat, m: nat, l: nat): (r: seq<int>)
    requires c.stages > 0
    ensures |r| == Product(chunks, c.stages)
  {
    seq(Product(chunks, c.stages), t requires 0 <= t < Product(chunks, c.stages) =>
      UnevenSize(c, f, m, l, RankOf(t, c.stages)))
  }

  lemma UnevenStart(c: Config, chunks: nat, f: nat, m: nat, l: nat, rank: nat, chunk: nat, isFirst: bool)
    requires UnevenDivides(c, chunks, f, m, l)
    ensures Offset(c, rank, chunk, isFirst) ==
      chunk * (f + c.MiddleStages() * m + l) + if rank == 0 then 0 else f + (rank - 1) * m
  {
    DivModMul(f, chunks);
    DivModMul(l, chunks);
    DivModMul(c.MiddleStages() * m, chunks);
    assert c.MiddleStages() * m == m * c.MiddleStages();
    DivModMul(m, c.MiddleStages());
  }

  /** With the first stage's size set, or middle stages without layers, each chunk starts where the
      one before ends. */
  lemma UnevenNext(c: Config, chunks: nat, f: nat, m: nat, l: nat, rank: nat, chunk: nat)
    requires UnevenDivides(c, chunks, f, m, l) && (c.first.Some? || m == 0) && rank < c.stages
    ensures Offset(c, rank, chunk, false) + UnevenSize(c, f, m, l, rank) ==
      if rank + 1 < c.stages then Offset(c, rank + 1, chunk, false) else Offset(c, 0, chunk + 1, false)
  {
    hide Offset;
    UnevenStart(c, chunks, f, m, l, rank, chunk, false);
    UnevenStart(c, chunks, f, m, l, rank + 1, chunk, false);
    UnevenStart(c, chunks, f, m, l, 0, chunk + 1, false);
    MulSucc(chunk, f + c.MiddleStages() * m + l);
    if rank > 0 {
      MulSucc(rank - 1, m);
    }
    MulSucc(c.stages - 2, m);
  }

  lemma UnevenStep(c: Config, chunks: nat, f: nat, m: nat, l: nat, t: nat)
    requires UnevenDivides(c, chunks, f, m, l) && (c.first.Some? || m == 0) && t + 1 < Product(chunks, c.stages)
    ensures ChunkStarts(c, chunks)[t + 1] == ChunkStarts(c, chunks)[t] + UnevenSizes(c, chunks, f, m, l)[t]
  {
    assert c.stages > 0 && c.Splittable();
    hide *;
    NextRun(t, c.stages);
    UnevenNext(c, chunks, f, m, l, RankOf(t, c.stages), ChunkOf(t, c.stages));
  }

  lemma UnevenEnds(c: Config, chunks: nat, f: nat, m: nat, l: nat)
    requires UnevenDivides(c, chunks, f, m, l) && (c.first.Some? || m == 0)
    ensures var n := Product(chunks, c.stages);
      && n >= c.stages && ChunkStarts(c, chunks)[0] == 0
      && ChunkStarts(c, chunks)[n - 1] + UnevenSizes(c, chunks, f, m, l)[n - 1] == c.layers
  {
    assert c.stages > 1 && c.Splittable();
    LastRun(chunks, c.stages);
    NextRun(0, c.stages);
    UnevenStart(c, chunks, f, m, l, 0, 0, false);
    UnevenStart(c, chunks, f, m, l, 0, chunks, false);
    hide *;
    UnevenNext(c, chunks, f, m, l, c.stages - 1, chunks - 1);
  }

  lemma UnevenChunksTile(c: Config, chunks: nat, f: nat, m: nat, l: nat)
    requires UnevenDivides(c, chunks, f, m, l) && (c.first.Some? || m == 0)
    ensures Tiles(ChunkStarts(c, chunks), UnevenSizes(c, chunks, f, m, l), c.layers)
  {
    var starts, sizes, n := ChunkStarts(c, chunks), UnevenSizes(c, chunks, f, m, l), Product(chunks, c.stages);
    assert forall t :: 0 <= t < n ==> sizes[t] >= 0;
    hide ChunkStarts, UnevenSizes, UnevenDivides, Product, UnevenSize;
    UnevenEnds(c, chunks, f, m, l);
    forall t | 0 <= t < n - 1
      ensures starts[t + 1] == starts[t] + sizes[t]
    {
      UnevenStep(c, chunks, f, m, l, t);
    }
    TilesFromChain(starts, sizes, c.layers);
  }

  /** The interleaved uneven placement is defined and tiles the layers exactly when there are middle
      stages and, unless those are empty, the first stage's size is set. Otherwise stage 1 divides by
      zero, or starts at the same layer as stage 0. */
  lemma UnevenTilesIffFirstIsSet(c: Config, chunks: nat, f: nat, m: nat, l: nat)
    requires UnevenShares(c, chunks, f, m, l)
    ensures (c.Splittable() && Tiles(ChunkStarts(c, chunks), UnevenSizes(c, chunks, f, m, l), c.layers))
      <==> c.MiddleStages() > 0 && (c.first.Some? || m == 0)
  {
    if c.MiddleStages() > 0 {
      if c.first.Some? || m == 0 {
        UnevenChunksTile(c, chunks, f, m, l);
      } else {
        FirstStagesCollide(c, chunks, f, m, l);
      }
    }
  }

  lemma FirstStagesCollide(c: Config, chunks: nat, f: nat, m: nat, l: nat)
    requires UnevenDivides(c, chunks, f, m, l) && m > 0 && c.first.None?
    ensures var starts, sizes := ChunkStarts(c, chunks), UnevenSizes(c, chunks, f, m, l);
      |starts| == |sizes| >= 2 && starts[0] == starts[1] == 0 && sizes[0] > 0
    ensures !Tiles(ChunkStarts(c, chunks), UnevenSizes(c, chunks, f, m, l), c.layers)
  {
    LastRun(chunks, c.stages);
    NextRun(0, c.stages);
    NextRun(1, c.stages);
    UnevenStart(c, chunks, f, m, l, 0, 0, false);
    UnevenStart(c, chunks, f, m, l, 1, 0, false);
    var starts, sizes := ChunkStarts(c, chunks), UnevenSizes(c, chunks, f, m, l);
    assert sizes[0] == m;
    hide ChunkStarts, UnevenSizes, UnevenDivides, Product, Offset;
    RunEnds(sizes, 0);
  }

  /** Uneven split without interleaving: one run of layers for each stage. */

  function StageSizes(c: Config, m: nat): (r: seq<int>)
    ensures |r| == c.stages
  {
    seq(c.stages, rank requires 0 <= rank < c.stages => UnevenSize(c, c.FirstLayers(), m, c.LastLayers(), rank))
  }

  lemma StageStart(c: Config, m: nat, rank: nat)
    requires c.stages > 1 && c.Uneven() && c.virtual.None? && rank < c.stages
    requires c.MiddleLayers() == c.MiddleStages() * m
    ensures Offset(c, rank, 0, rank == 0) ==
      if rank == 0 then 0 else c.FirstLayers() + (if c.first.Some? then rank - 1 else rank) * m
  {
    if c.MiddleStages() > 0 {
      MiddleStage(c, m);
    } else if rank > 0 {
      assert c.first.Some? && rank == 1;
      assert 0 * m == 0;
    }
  }

  /** Whichever of the two sizes is set, stages tile the layers when the others share the rest evenly. */
  lemma UnevenStagesTile(c: Config, m: nat)
    requires c.stages > 1 && c.Uneven() && c.virtual.None? && c.MiddleLayers() == c.MiddleStages() * m
    ensures Tiles(RankOffsets(c), StageSizes(c, m), c.layers)
  {
    var before := if c.first.Some? then 1 else 0;
    forall rank | 0 <= rank < c.stages
      ensures RankOffsets(c)[rank] == if rank == 0 then 0 else c.FirstLayers() + (rank - before) * m
    {
      StageStart(c, m, rank);
    }
    forall rank | 0 <= rank < c.stages - 1
      ensures RankOffsets(c)[rank + 1] == RankOffsets(c)[rank] + StageSizes(c, m)[rank]
    {
      MulSucc(rank - before, m);
    }
    MulSucc(c.stages - 1 - before, m);
    TilesFromChain(RankOffsets(c), StageSizes(c, m), c.layers);
  }
}
