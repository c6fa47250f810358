/** The greedy partitioner: each item goes to a part with the least running sum. */
module GreedyPartition {
  import opened Arithmetic
  import opened Options
  import opened Partitions
  import opened Tensors

  datatype Error = NoPartitions | UnequalSizes

  /** A running sum counts, for every item, its length and the bias. */
  ghost predicate SumsOk(lens: seq<nat>, bias: nat, parts: seq<seq<nat>>, sums: seq<nat>)
    requires AllInRange(parts, |lens|)
  {
    && |sums| == |parts|
    && forall j :: 0 <= j < |parts| ==> sums[j] == Load(lens, parts[j]) + bias * |parts[j]|
  }

  ghost predicate LoadsUpTo(lens: seq<nat>, parts: seq<seq<nat>>, most: nat)
    requires AllInRange(parts, |lens|)
  {
    forall j :: 0 <= j < |parts| ==> Load(lens, parts[j]) <= most
  }

  /** No part has two items more than another. */
  ghost predicate EvenCounts(parts: seq<seq<nat>>) {
    forall a, b :: 0 <= a < |parts| && 0 <= b < |parts| ==> |parts[a]| <= |parts[b]| + 1
  }

  ghost predicate IsLeast(sums: seq<nat>, j: nat) {
    j < |sums| && forall b :: 0 <= b < |sums| ==> sums[j] <= sums[b]
  }

  /** With a bias above every load, comparing sums compares counts first and loads second. */
  lemma BiasComparesCountsFirst(bias: nat, ca: nat, la: nat, cb: nat, lb: nat)
    requires la < bias && lb < bias
    ensures la + bias * ca < lb + bias * cb <==> ca < cb || (ca == cb && la < lb)
  {
    if ca < cb {
      MulStep(ca, cb, bias);
    } else if cb < ca {
      MulStep(cb, ca, bias);
    }
  }

  function Put(parts: seq<seq<nat>>, j: nat, x: nat): (r: seq<seq<nat>>)
    requires j < |parts|
    ensures |r| == |parts|
  {
    parts[j := parts[j] + [x]]
  }

  lemma {:induction false} PutFlat(parts: seq<seq<nat>>, j: nat, x: nat)
    requires j < |parts|
    ensures multiset(Flat<nat>(Put(parts, j, x))) == multiset(Flat<nat>(parts)) + multiset{x}
  {
    if j > 0 {
      assert Put(parts, j, x)[1..] == Put(parts[1..], j - 1, x);
      PutFlat(parts[1..], j - 1, x);
    }
  }

  lemma PutLoads(lens: seq<nat>, parts: seq<seq<nat>>, j: nat, x: nat)
    requires AllInRange(parts, |lens|) && j < |parts| && x < |lens|
    ensures AllInRange(Put(parts, j, x), |lens|)
    ensures forall b :: 0 <= b < |parts| ==>
      Load(lens, Put(parts, j, x)[b]) == Load(lens, parts[b]) + if b == j then lens[x] else 0
  {
    assert (parts[j] + [x])[..|parts[j]|] == parts[j];
  }

  lemma PutSums(lens: seq<nat>, bias: nat, parts: seq<seq<nat>>, sums: seq<nat>, j: nat, x: nat)
    requires AllInRange(parts, |lens|) && SumsOk(lens, bias, parts, sums) && j < |parts| && x < |lens|
    ensures AllInRange(Put(parts, j, x), |lens|)
    ensures SumsOk(lens, bias, Put(parts, j, x), sums[j := sums[j] + lens[x] + bias])
  {
    PutLoads(lens, parts, j, x);
    assert bias * (|parts[j]| + 1) == bias * |parts[j]| + bias;
  }

  /** Filling a least-loaded part keeps loads within the longest item of each other. */
  lemma PutKeepsSpread(lens: seq<nat>, parts: seq<seq<nat>>, sums: seq<nat>, j: nat, x: nat)
    requires AllInRange(parts, |lens|) && SumsOk(lens, 0, parts, sums) && IsLeast(sums, j) && x < |lens|
    requires SpreadAtMost(lens, parts, Longest(lens))
    ensures AllInRange(Put(parts, j, x), |lens|) && SpreadAtMost(lens, Put(parts, j, x), Longest(lens))
  {
    PutLoads(lens, parts, j, x);
    assert lens[x] <= Longest(lens);
    assert forall b :: 0 <= b < |parts| ==> sums[b] == Load(lens, parts[b]);
  }

  /** With the bias, a part with the least sum has the fewest items. */
  lemma LeastHasFewest(lens: seq<nat>, bias: nat, parts: seq<seq<nat>>, sums: seq<nat>, j: nat)
    requires AllInRange(parts, |lens|) && SumsOk(lens, bias, parts, sums) && IsLeast(sums, j)
    requires bias > 0 && LoadsUpTo(lens, parts, bias - 1)
    ensures forall b :: 0 <= b < |parts| ==> |parts[j]| <= |parts[b]|
  {
    forall b | 0 <= b < |parts|
      ensures |parts[j]| <= |parts[b]|
    {
      BiasComparesCountsFirst(bias, |parts[b]|, Load(lens, parts[b]), |parts[j]|, Load(lens, parts[j]));
    }
  }

  lemma {:induction false} SumPrefix(lens: seq<nat>, i: nat)
    requires i <= |lens|
    ensures Sum(lens[..i]) <= Sum(lens)
    ensures i < |lens| ==> Sum(lens[..i + 1]) == Sum(lens[..i]) + lens[i]
    decreases |lens| - i
  {
    if i < |lens| {
      assert lens[..i + 1][..i] == lens[..i];
      SumPrefix(lens, i + 1);
    } else {
      assert lens[..i] == lens;
    }
  }

  lemma NoMultipleBetween(m: nat, k: nat, n: nat)
    requires k > 0 && k * m < n < k * (m + 1)
    ensures n % k != 0
  {
    MulSucc(m, k);
    DivModUnique(n, k, m, n - m * k);
  }

  function Fewest(parts: seq<seq<nat>>): (j: nat)
    requires parts != []
    ensures j < |parts| && forall b :: 0 <= b < |parts| ==> |parts[j]| <= |parts[b]|
  {
    if |parts| == 1 then 0
    else
      var r := Fewest(parts[1..]);
      assert forall b :: 0 < b < |parts| ==> parts[b] == parts[1..][b - 1];
      if |parts[0]| <= |parts[1..][r]| then 0 else r + 1
  }

  /** Even counts that add up to a multiple of the number of parts are equal. */
  lemma EvenCountsAreEqual(parts: seq<seq<nat>>, n: nat)
    requires parts != [] && EvenCounts(parts) && |Flat<nat>(parts)| == n && n % |parts| == 0
    ensures forall j :: 0 <= j < |parts| ==> |parts[j]| * |parts| == n
  {
    var f := Fewest(parts);
    forall j | 0 <= j < |parts|
      ensures |parts[j]| == |parts[f]|
    {
      NoneHasMore(parts, n, f, j);
    }
    CountAtLeast(parts, |parts[f]|, 0);
    CountAtMost(parts, |parts[f]|, 0);
    hide Flat, Fewest;
    assert |parts| * |parts[f]| == |parts[f]| * |parts|;
  }

  lemma NoneHasMore(parts: seq<seq<nat>>, n: nat, f: nat, j: nat)
    requires parts != [] && EvenCounts(parts) && |Flat<nat>(parts)| == n && n % |parts| == 0
    requires f < |parts| && j < |parts| && forall b :: 0 <= b < |parts| ==> |parts[f]| <= |parts[b]|
    ensures |parts[j]| == |parts[f]|
  {
    var m := |parts[f]|;
    if |parts[j]| > m {
      CountAtLeast(parts, m, j);
      CountAtMost(parts, m + 1, f);
      hide Flat, EvenCounts;
      NoMultipleBetween(m, |parts|, n);
    }
  }

  /** The first part with the least sum, if there is any part. */
  method LeastIndex(sums: seq<nat>) returns (minIdx: Option<nat>)
    ensures minIdx == None <==> sums == []
    ensures minIdx.Some? ==> IsLeast(sums, minIdx.value)
    ensures minIdx.Some? ==> forall b :: 0 <= b < minIdx.value ==> sums[minIdx.value] < sums[b]
  {
    minIdx := None;
    for b := 0 to |sums|
      invariant minIdx == None <==> b == 0
      invariant minIdx.Some? ==>
        && minIdx.value < b
        && (forall c :: 0 <= c < b ==> sums[minIdx.value] <= sums[c])
        && forall c :: 0 <= c < minIdx.value ==> sums[minIdx.value] < sums[c]
    {
      if minIdx == None || sums[b] < sums[minIdx.value] {
        minIdx := Some(b);
      }
    }
  }

  /** What the loop keeps, with and without the bias. */
  ghost predicate Balanced(lens: seq<nat>, equalSize: bool, i: nat, parts: seq<seq<nat>>)
    requires i <= |lens|
  {
    && multiset(Flat<nat>(parts)) == multiset(Range(i))
    && AllInRange(parts, |lens|)
    && LoadsUpTo(lens, parts, Sum(lens[..i]))
    && (if equalSize then EvenCounts(parts) else SpreadAtMost(lens, parts, Longest(lens)))
  }

  function Bias(lens: seq<nat>, equalSize: bool): nat {
    if equalSize then Sum(lens) + 1 else 0
  }

  lemma PutBalanced(lens: seq<nat>, equalSize: bool, i: nat, parts: seq<seq<nat>>, sums: seq<nat>, j: nat)
    requires i < |lens| && Balanced(lens, equalSize, i, parts)
    requires SumsOk(lens, Bias(lens, equalSize), parts, sums) && IsLeast(sums, j)
    ensures Balanced(lens, equalSize, i + 1, Put(parts, j, i))
  {
    PutFlat(parts, j, i);
    assert Range(i + 1) == Range(i) + [i];
    SumPrefix(lens, i);
    hide Flat, Load, Range, Sum, Longest, SpreadAtMost, Put, LoadsUpTo, AllInRange, EvenCounts, IsLeast, SumsOk;
    PutLoadsUpTo(lens, parts, j, i, Sum(lens[..i]));
    if equalSize {
      LoadsWeaken(lens, parts, Sum(lens[..i]), Sum(lens));
      LeastHasFewest(lens, Bias(lens, equalSize), parts, sums, j);
      PutEvens(parts, j, i);
    } else {
      PutKeepsSpread(lens, parts, sums, j, i);
    }
  }

  lemma PutLoadsUpTo(lens: seq<nat>, parts: seq<seq<nat>>, j: nat, x: nat, most: nat)
    requires AllInRange(parts, |lens|) && j < |parts| && x < |lens| && LoadsUpTo(lens, parts, most)
    ensures AllInRange(Put(parts, j, x), |lens|) && LoadsUpTo(lens, Put(parts, j, x), most + lens[x])
  {
    PutLoads(lens, parts, j, x);
  }

  lemma LoadsWeaken(lens: seq<nat>, parts: seq<seq<nat>>, most: nat, more: nat)
    requires AllInRange(parts, |lens|) && LoadsUpTo(lens, parts, most) && most <= more
    ensures LoadsUpTo(lens, parts, more)
  {
  }

  lemma PutEvens(parts: seq<seq<nat>>, j: nat, x: nat)
    requires EvenCounts(parts) && j < |parts| && forall b :: 0 <= b < |parts| ==> |parts[j]| <= |parts[b]|
    ensures EvenCounts(Put(parts, j, x))
  {
  }

  lemma StartBalanced(lens: seq<nat>, equalSize: bool, k: nat)
    ensures Balanced(lens, equalSize, 0, seq(k, _ => []))
    ensures SumsOk(lens, Bias(lens, equalSize), seq(k, _ => []), seq(k, _ => 0))
  {
    EmptyFlat(seq(k, _ => []));
  }

  lemma {:induction false} EmptyFlat(parts: seq<seq<nat>>)
    requires forall j :: 0 <= j < |parts| ==> parts[j] == []
    ensures Flat<nat>(parts) == []
  {
    if parts != [] {
      EmptyFlat(parts[1..]);
    }
  }

  /** With parts of equal size the final check passes exactly when the sizes can be equal. */
  lemma SizesChecked(lens: seq<nat>, parts: seq<seq<nat>>)
    requires parts != [] && Balanced(lens, true, |lens|, parts)
    ensures (forall j :: 0 <= j < |parts| ==> |parts[j]| * |parts| == |lens|) <==> |lens| % |parts| == 0
  {
    assert |Flat<nat>(parts)| == |multiset(Flat<nat>(parts))| == |multiset(Range(|lens|))| == |Range(|lens|)|;
    if |lens| % |parts| == 0 {
      EvenCountsAreEqual(parts, |lens|);
    } else if forall j :: 0 <= j < |parts| ==> |parts[j]| * |parts| == |lens| {
      assert |parts[0]| * |parts| == |lens|;
      DivModMul(|parts[0]|, |parts|);
    }
  }

  method GreedyPartition(lens: seq<nat>, k: nat, equalSize: bool) returns (r: Result<seq<seq<nat>>, Error>)
    ensures r.Err? <==> if k == 0 then lens != [] else equalSize && |lens| % k != 0
    ensures r.Err? ==> r.error == if k == 0 then NoPartitions else UnequalSizes
    ensures r.Ok? ==> |r.value| == k && Covers(r.value, |lens|) && AllInRange(r.value, |lens|)
    ensures r.Ok? && !equalSize ==> SpreadAtMost(lens, r.value, Longest(lens))
    ensures r.Ok? && equalSize ==> forall j :: 0 <= j < k ==> |r.value[j]| * k == |lens|
  {
    hide SumsOk, SpreadAtMost, EvenCounts, LoadsUpTo, Longest, Sum;
    var bias := Bias(lens, equalSize);
    var partitions: seq<seq<nat>> := seq(k, _ => []);
    var partitionSums: seq<nat> := seq(k, _ => 0);
    StartBalanced(lens, equalSize, k);
    for i := 0 to |lens|
      invariant |partitions| == |partitionSums| == k
      invariant Balanced(lens, equalSize, i, partitions) && SumsOk(lens, bias, partitions, partitionSums)
    {
      var minIdx := LeastIndex(partitionSums);
      if minIdx == None {
        return Err(NoPartitions);
      }
      var j := minIdx.value;
      PutBalanced(lens, equalSize, i, partitions, partitionSums, j);
      PutSums(lens, bias, partitions, partitionSums, j, i);
      partitions := partitions[j := partitions[j] + [i]];
      partitionSums := partitionSums[j := partitionSums[j] + lens[i] + bias];
    }
    if equalSize {
      if k > 0 {
        SizesChecked(lens, partitions);
      }
      for j := 0 to |partitions|
        invariant forall b :: 0 <= b < j ==> |partitions[b]| * k == |lens|
      {
        if |partitions[j]| * k != |lens| {
          return Err(UnequalSizes);
        }
      }
    }
    r := Ok(partitions);
  }
}
