/** The search for how many layers each pipeline stage holds. */
module PipelineShards {
  import opened Arithmetic
  import opened Options

  datatype Error = TooFewLayers | NoStages | NoSplit

  /** With `m` layers on each of the middle stages: what is left for the first and the last. */

  function FirstSize(layers: nat, stages: nat, m: nat): int
    requires stages >= 3
  {
    (layers - m * (stages - 2)) / 2
  }

  function LastSize(layers: nat, stages: nat, m: nat): int
    requires stages >= 3
  {
    layers - m * (stages - 2) - FirstSize(layers, stages, m)
  }

  predicate Accepts(layers: nat, stages: nat, m: nat)
    requires stages >= 3
  {
    0 < FirstSize(layers, stages, m) <= m && 0 < LastSize(layers, stages, m) <= m
  }

  function Abs(d: int): (a: nat)
    ensures a == d || a == -d
  {
    if d >= 0 then d else -d
  }

  function Gap(layers: nat, stages: nat, m: nat): (g: nat)
    requires stages >= 3
  {
    Abs(FirstSize(layers, stages, m) - m)
  }

  function Shards(layers: nat, stages: nat, m: nat): (r: seq<int>)
    requires stages >= 3
    ensures |r| == stages
  {
    [FirstSize(layers, stages, m)] + seq(stages - 2, _ => m) + [LastSize(layers, stages, m)]
  }

  /** An accepted middle size is one that `stages` of them cover the layers, and that leaves two. */
  lemma AcceptsIff(layers: nat, stages: nat, m: nat)
    requires stages >= 3
    ensures Accepts(layers, stages, m) <==> layers <= m * stages && m * (stages - 2) + 2 <= layers
  {
    assert m * stages == m * (stages - 2) + 2 * m;
  }

  lemma AcceptedBelowLayers(layers: nat, stages: nat, m: nat)
    requires stages >= 3 && Accepts(layers, stages, m)
    ensures m < layers
  {
    AcceptsIff(layers, stages, m);
    MulMonotone(1, stages - 2, m);
  }

  lemma ShardsAddUp(layers: nat, stages: nat, m: nat)
    requires stages >= 3
    ensures Sum(Shards(layers, stages, m)) == layers
  {
    var first, middle, last := FirstSize(layers, stages, m), seq(stages - 2, _ => m), LastSize(layers, stages, m);
    assert first + m * (stages - 2) + last == layers;
    assert m * (stages - 2) == (stages - 2) * m;
    assert Shards(layers, stages, m) == [first] + middle + [last];
    SumEqual(stages - 2, m);
    hide FirstSize, LastSize, Shards;
    SumConcat([first] + middle, [last]);
    SumConcat([first], middle);
    assert [first][..0] == [] && [last][..0] == [];
    assert Sum([first]) == first && Sum([last]) == last;
  }

  /** A larger middle size has a larger gap to the first stage. */
  lemma GapIncreases(layers: nat, stages: nat, m: nat, n: nat)
    requires stages >= 3 && m < n && Accepts(layers, stages, m) && Accepts(layers, stages, n)
    ensures Gap(layers, stages, m) < Gap(layers, stages, n)
  {
    MulMonotone(m, n, stages - 2);
  }

  /** The least accepted middle size is the number of layers over the number of stages, rounded up,
      if any is accepted at all. */
  lemma LeastAccepted(layers: nat, stages: nat, m: nat)
    requires stages >= 3 && Accepts(layers, stages, m)
    ensures 0 <= CeilDiv(layers, stages) <= m && Accepts(layers, stages, CeilDiv(layers, stages))
  {
    var c := CeilDiv(layers, stages);
    AcceptsIff(layers, stages, m);
    CeilDivLeast(layers, stages, m);
    if c < 0 {
      MulMonotone(c, -1, stages);
    }
    MulMonotone(c, m, stages - 2);
    AcceptsIff(layers, stages, c);
  }

  datatype Strategy = Strategy(shards: seq<int>, gap: nat)

  /** The strategies the search has collected below `bound`, in increasing middle size. */
  ghost predicate Collected(layers: nat, stages: nat, bound: nat, found: seq<Strategy>, sizes: seq<nat>)
    requires stages >= 3
  {
    && |found| == |sizes|
    && (forall i :: 0 <= i < |sizes| ==> sizes[i] < bound && Accepts(layers, stages, sizes[i]))
    && (forall i, j :: 0 <= i < j < |sizes| ==> sizes[i] < sizes[j])
    && (forall i :: 0 <= i < |sizes| ==>
          found[i] == Strategy(Shards(layers, stages, sizes[i]), Gap(layers, stages, sizes[i])))
    && (forall m :: 0 <= m < bound && Accepts(layers, stages, m) ==> m in sizes)
  }

  /** What the loop computes for middle size `m`. */
  lemma StrategyAt(layers: nat, stages: nat, m: nat)
    requires stages >= 3
    ensures var left := layers - m * (stages - 2); var first, last := left / 2, left - left / 2;
      && (Accepts(layers, stages, m) <==> 0 < first <= m && 0 < last <= m)
      && Shards(layers, stages, m) == [first] + seq(stages - 2, _ => m) + [last]
      && Gap(layers, stages, m) == if first >= m then first - m else m - first
  {
  }

  lemma CollectedNext(layers: nat, stages: nat, m: nat, found: seq<Strategy>, sizes: seq<nat>)
    requires stages >= 3 && Collected(layers, stages, m, found, sizes)
    ensures if Accepts(layers, stages, m)
      then Collected(layers, stages, m + 1,
                     found + [Strategy(Shards(layers, stages, m), Gap(layers, stages, m))], sizes + [m])
      else Collected(layers, stages, m + 1, found, sizes)
  {
    hide Accepts, Shards, Gap;
    assert m in sizes + [m];
  }

  /** The first of the collected strategies has the least gap, and the least middle size. */
  lemma FirstIsBest(layers: nat, stages: nat, found: seq<Strategy>, sizes: seq<nat>)
    requires stages >= 3 && found != [] && Collected(layers, stages, layers, found, sizes)
    ensures 0 <= CeilDiv(layers, stages) == sizes[0]
    ensures forall i :: 0 < i < |found| ==> found[0].gap < found[i].gap
  {
    LeastAccepted(layers, stages, sizes[0]);
    AcceptedBelowLayers(layers, stages, CeilDiv(layers, stages));
    var least := CeilDiv(layers, stages);
    assert least in sizes;
    forall i | 0 < i < |found|
      ensures found[0].gap < found[i].gap
    {
      GapIncreases(layers, stages, sizes[0], sizes[i]);
    }
  }

  /** The head of the strategies sorted by gap, ties kept in order: the first with the least gap. */
  method FirstLeastGap(found: seq<Strategy>) returns (best: nat)
    requires found != []
    ensures best < |found|
    ensures forall i :: 0 <= i < |found| ==> found[best].gap <= found[i].gap
    ensures forall i :: 0 <= i < best ==> found[best].gap < found[i].gap
  {
    best := 0;
    for i := 1 to |found|
      invariant best < i
      invariant forall j :: 0 <= j < i ==> found[best].gap <= found[j].gap
      invariant forall j :: 0 <= j < best ==> found[best].gap < found[j].gap
    {
      if found[i].gap < found[best].gap {
        best := i;
      }
    }
  }

  ghost predicate Feasible(layers: int, stages: int) {
    stages >= 3 ==> CeilDiv(layers, stages) * (stages - 2) + 2 <= layers
  }

  /** Layers per stage. With three stages or more a split exists exactly when `Feasible`; then the
      middle stages hold the average rounded up, and no accepted middle size is closer to the first. */
  method GetDynamicPipelineShards(layerNum: int, ppSize: int) returns (r: Result<seq<int>, Error>)
    ensures r.Ok? <==> 1 <= ppSize <= layerNum && Feasible(layerNum, ppSize)
    ensures r.Ok? ==> |r.value| == ppSize && Sum(r.value) == layerNum && forall i :: 0 <= i < ppSize ==> r.value[i] > 0
    ensures r.Ok? && ppSize == 2 ==> r.value == [layerNum / 2, layerNum - layerNum / 2]
    ensures r.Ok? && ppSize >= 2 ==> r.value[0] <= r.value[ppSize - 1] <= r.value[0] + 1
    ensures r.Ok? ==> forall i :: 0 < i < ppSize - 1 ==> r.value[i] == CeilDiv(layerNum, ppSize)
    ensures r.Ok? && ppSize >= 3 ==>
      && CeilDiv(layerNum, ppSize) >= 0
      && r.value == Shards(layerNum, ppSize, CeilDiv(layerNum, ppSize))
      && Accepts(layerNum, ppSize, CeilDiv(layerNum, ppSize))
      && forall m: nat :: Accepts(layerNum, ppSize, m) ==>
           Gap(layerNum, ppSize, CeilDiv(layerNum, ppSize)) <= Gap(layerNum, ppSize, m)
    ensures r.Ok? && ppSize >= 3 ==>
      r.value[1] >= 0 && Gap(layerNum, ppSize, r.value[1]) == Abs(r.value[0] - r.value[1])
  {
    if layerNum < ppSize {
      return Err(TooFewLayers);
    }
    if ppSize < 1 {
      return Err(NoStages);
    }
    if ppSize == 1 {
      assert Sum([layerNum]) == Sum([layerNum][..0]) + layerNum;
      return Ok([layerNum]);
    }
    if ppSize == 2 {
      var halves := [layerNum / 2, layerNum - layerNum / 2];
      assert halves[..1] == [layerNum / 2] && [layerNum / 2][..0] == [];
      assert Sum([layerNum / 2]) == layerNum / 2;
      return Ok(halves);
    }
    var found: seq<Strategy>, sizes := Search(layerNum, ppSize);
    FeasibleIsFound(layerNum, ppSize, found, sizes);
    if found == [] {
      return Err(NoSplit);
    }
    var best := FirstLeastGap(found);
    FirstIsBest(layerNum, ppSize, found, sizes);
    BestSplit(layerNum, ppSize, sizes[0]);
    r := Ok(found[best].shards);
  }

  method Search(layers: nat, stages: nat) returns (found: seq<Strategy>, ghost sizes: seq<nat>)
    requires stages >= 3
    ensures Collected(layers, stages, layers, found, sizes)
  {
    found, sizes := [], [];
    for m := 0 to layers
      invariant Collected(layers, stages, m, found, sizes)
    {
      CollectedNext(layers, stages, m, found, sizes);
      StrategyAt(layers, stages, m);
      hide *;
      var left := layers - m * (stages - 2);
      var first := left / 2;
      var last := left - left / 2;
      if 0 < first <= m && 0 < last <= m {
        var gap: nat := if first >= m then first - m else m - first;
        found := found + [Strategy([first] + seq(stages - 2, _ => m) + [last], gap)];
        sizes := sizes + [m];
      }
    }
  }

  lemma FeasibleIsFound(layers: nat, stages: nat, found: seq<Strategy>, sizes: seq<nat>)
    requires stages >= 3 && Collected(layers, stages, layers, found, sizes)
    ensures Feasible(layers, stages) ==> found != []
  {
    var c := CeilDiv(layers, stages);
    if Feasible(layers, stages) {
      if c < 0 {
        MulMonotone(c, -1, stages);
      }
      AcceptsIff(layers, stages, c);
      AcceptedBelowLayers(layers, stages, c);
      assert c in sizes;
    }
  }

  /** What an accepted split is worth: it adds up, and with the least middle size it has the least gap. */
  lemma BestSplit(layers: nat, stages: nat, c: nat)
    requires stages >= 3 && Accepts(layers, stages, c)
    ensures Sum(Shards(layers, stages, c)) == layers
    ensures forall i :: 0 <= i < stages ==> Shards(layers, stages, c)[i] > 0
    ensures c == CeilDiv(layers, stages) ==> Feasible(layers, stages)
    ensures c == CeilDiv(layers, stages) ==>
      forall m: nat :: Accepts(layers, stages, m) ==> Gap(layers, stages, c) <= Gap(layers, stages, m)
  {
    AcceptsIff(layers, stages, c);
    ShardsAddUp(layers, stages, c);
    forall m: nat | Accepts(layers, stages, m) && c == CeilDiv(layers, stages)
      ensures Gap(layers, stages, c) <= Gap(layers, stages, m)
    {
      LeastAccepted(layers, stages, m);
      if c < m {
        GapIncreases(layers, stages, c, m);
      }
    }
  }

  /** Five layers cannot be cut for four stages. */
  lemma FiveLayersFourStages()
    ensures !Feasible(5, 4)
  {
    CeilDivLeast(5, 4, 2);
  }
}
