/** Dynamic batching: how many micro-batches, which rows go where, and how results come back. */
module MicroBatches {
  import opened Arithmetic
  import opened Options
  import opened Partitions
  import opened Tensors
  import opened BalancedPartitions

  /** The least multiple of `b` that reaches `a`. */
  function RoundupDivisible(a: int, b: int): (r: int)
    requires b > 0
    ensures a <= r < a + b && r % b == 0
  {
    DivModMul(FloorDiv(a + b - 1, b), b);
    FloorDiv(a + b - 1, b) * b
  }

  function Max(a: int, b: int): int {
    if a >= b then a else b
  }

  /** How many micro-batches a rank asks for. `others` is the largest count asked for by the other
      ranks, when the counts are synchronised. */
  function MicroBatchCount(total: nat, rows: nat, maxTokenLen: nat, atLeast: Option<nat>, others: Option<nat>,
                           dividedBy: Option<nat>): (n: nat)
    requires maxTokenLen > 0 && (dividedBy.Some? ==> dividedBy.value > 0)
  {
    var own := CeilDiv(total, maxTokenLen);
    var n0 := if rows <= own then rows else own;
    var n1 := if atLeast.Some? then Max(atLeast.value, n0) else n0;
    var n2 := if others.Some? then Max(n1, others.value) else n1;
    if dividedBy.Some? then RoundupDivisible(n2, dividedBy.value) else n2
  }

  lemma {:induction false} SumBound(lens: seq<nat>, most: nat)
    requires forall i :: 0 <= i < |lens| ==> lens[i] <= most
    ensures Sum(lens) <= |lens| * most
  {
    if lens != [] {
      SumBound(lens[..|lens| - 1], most);
      MulSucc(|lens| - 1, most);
    }
  }

  /** The batch size never limits the count: as many micro-batches as the tokens need always have
      a row each. The later steps can only raise the count. */
  lemma CountIsEnough(lens: seq<nat>, maxTokenLen: nat, atLeast: Option<nat>, others: Option<nat>,
                      dividedBy: Option<nat>)
    requires maxTokenLen > 0 && (dividedBy.Some? ==> dividedBy.value > 0)
    requires forall i :: 0 <= i < |lens| ==> lens[i] <= maxTokenLen
    ensures MicroBatchCount(Sum(lens), |lens|, maxTokenLen, None, None, None) == CeilDiv(Sum(lens), maxTokenLen)
    ensures CeilDiv(Sum(lens), maxTokenLen) <= |lens|
    ensures Sum(lens) <= MicroBatchCount(Sum(lens), |lens|, maxTokenLen, atLeast, others, dividedBy) * maxTokenLen
    ensures MicroBatchCount(Sum(lens), |lens|, maxTokenLen, None, None, None)
         <= MicroBatchCount(Sum(lens), |lens|, maxTokenLen, atLeast, others, dividedBy)
  {
    SumBound(lens, maxTokenLen);
    CeilDivLeast(Sum(lens), maxTokenLen, |lens|);
    var least := CeilDiv(Sum(lens), maxTokenLen);
    var n := MicroBatchCount(Sum(lens), |lens|, maxTokenLen, atLeast, others, dividedBy);
    assert least <= n;
    MulMonotone(least, n, maxTokenLen);
  }

  /** What the number of micro-batches is asked to meet: room for all tokens, the minimum, the other
      ranks, and the divisor. */
  ghost predicate Suffices(n: nat, total: nat, maxTokenLen: nat, atLeast: Option<nat>, others: Option<nat>,
                           dividedBy: Option<nat>)
  {
    && total <= n * maxTokenLen
    && (atLeast.Some? ==> atLeast.value <= n)
    && (others.Some? ==> others.value <= n)
    && (dividedBy.Some? ==> exists q: nat :: n == q * dividedBy.value)
  }

  ghost predicate IsLeastCount(n: nat, total: nat, maxTokenLen: nat, atLeast: Option<nat>, others: Option<nat>,
                               dividedBy: Option<nat>)
  {
    && Suffices(n, total, maxTokenLen, atLeast, others, dividedBy)
    && forall m: nat | Suffices(m, total, maxTokenLen, atLeast, others, dividedBy) :: n <= m
  }

  /** The least multiple, in terms of products. */
  lemma RoundupIsLeast(a: nat, b: nat, q: nat)
    requires b > 0 && a <= q * b
    ensures RoundupDivisible(a, b) <= q * b
  {
    var r := RoundupDivisible(a, b);
    assert r == r / b * b;
    if q * b < r {
      MulStepBack(q, r / b, b);
    }
  }

  lemma RoundupIsMultiple(a: nat, b: nat)
    requires b > 0
    ensures exists q: nat :: RoundupDivisible(a, b) == q * b
  {
    var q := RoundupDivisible(a, b) / b;
    assert RoundupDivisible(a, b) == q * b;
    if q < 0 {
      MulMonotone(q, -1, b);
    }
  }

  lemma MulStepBack(p: int, q: int, b: nat)
    requires b > 0 && p * b < q * b
    ensures p * b + b <= q * b
  {
    if q <= p {
      MulMonotone(q, p, b);
    } else {
      MulStep(p, q, b);
    }
  }

  /** The count is the least number that meets all that is asked of it. */
  lemma CountIsLeast(lens: seq<nat>, maxTokenLen: nat, atLeast: Option<nat>, others: Option<nat>,
                     dividedBy: Option<nat>)
    requires maxTokenLen > 0 && (dividedBy.Some? ==> dividedBy.value > 0)
    requires forall i :: 0 <= i < |lens| ==> lens[i] <= maxTokenLen
    ensures IsLeastCount(MicroBatchCount(Sum(lens), |lens|, maxTokenLen, atLeast, others, dividedBy),
                         Sum(lens), maxTokenLen, atLeast, others, dividedBy)
  {
    var n := MicroBatchCount(Sum(lens), |lens|, maxTokenLen, atLeast, others, dividedBy);
    CountIsEnough(lens, maxTokenLen, atLeast, others, dividedBy);
    if dividedBy.Some? {
      RoundupIsMultiple(MicroBatchCount(Sum(lens), |lens|, maxTokenLen, atLeast, others, None), dividedBy.value);
    }
    hide RoundupDivisible, CeilDiv;
    forall m: nat | Suffices(m, Sum(lens), maxTokenLen, atLeast, others, dividedBy)
      ensures n <= m
    {
      CeilDivLeast(Sum(lens), maxTokenLen, m);
      if dividedBy.Some? {
        var q: nat :| m == q * dividedBy.value;
        RoundupIsLeast(MicroBatchCount(Sum(lens), |lens|, maxTokenLen, atLeast, others, None), dividedBy.value, q);
      }
    }
  }

  /** Loads of a good split. */

  lemma {:induction false} OneHighLoad(lens: seq<nat>, parts: seq<seq<nat>>, i: nat, high: nat, d: nat)
    requires forall j :: 0 <= j < |parts| ==> InRange(parts[j], |lens|) && high <= Load(lens, parts[j]) + d
    requires i < |parts| && Load(lens, parts[i]) == high
    ensures |parts| * high <= LoadsFrom(lens, parts) + (|parts| - 1) * d
  {
    assert forall j :: 0 <= j < |parts[1..]| ==> parts[1..][j] == parts[j + 1];
    var k := |parts| - 1;
    MulSucc(k, high);
    if i == 0 {
      LoadsBound(lens, parts[1..], high, d);
    } else {
      OneHighLoad(lens, parts[1..], i - 1, high, d);
      MulSucc(k - 1, d);
    }
  }

  /** No micro-batch exceeds the average by more than the longest row: `k` loads of its size are at
      most the total and `k - 1` longest rows. */
  lemma LoadAgainstAverage(lens: seq<nat>, k: nat, parts: seq<seq<nat>>, i: nat)
    requires k > 0 && lens != [] && i < k && GoodSplit(lens, k, StartSpread(lens, k, false), false, parts)
    ensures k * Load(lens, parts[i]) <= Sum(lens) + (k - 1) * Longest(lens)
  {
    LoadsAddUp(lens, parts);
    OneHighLoad(lens, parts, i, Load(lens, parts[i]), Longest(lens));
  }

  /** The bound a caller can rely on: the limit plus the longest row, and strictly below twice the
      limit. */
  lemma LoadWithinLimits(lens: seq<nat>, k: nat, parts: seq<seq<nat>>, i: nat, maxTokenLen: nat)
    requires k > 0 && lens != [] && i < k && GoodSplit(lens, k, StartSpread(lens, k, false), false, parts)
    requires Longest(lens) <= maxTokenLen && Sum(lens) <= k * maxTokenLen && maxTokenLen > 0
    ensures Load(lens, parts[i]) <= maxTokenLen + Longest(lens)
    ensures Load(lens, parts[i]) < 2 * maxTokenLen
  {
    LoadAgainstAverage(lens, k, parts, i);
    AverageBound(Load(lens, parts[i]), k, maxTokenLen, Longest(lens));
  }

  lemma AverageBound(load: nat, k: nat, limit: nat, longest: nat)
    requires k > 0 && limit > 0 && longest <= limit
    requires k * load <= k * limit + (k - 1) * longest
    ensures load <= limit + longest && load < 2 * limit
  {
    MulSucc(k - 1, longest);
    MulMonotone(longest, limit, k - 1);
    MulSucc(k - 1, limit);
    RoomBelow(load, k, 2 * limit);
  }

  lemma RoomBelow(load: nat, k: nat, limit: nat)
    requires k * load < k * limit
    ensures load < limit
  {
    if load >= limit {
      MulMonotone(limit, load, k);
    }
  }

  /** When the rows leave room for it, the limit itself is kept. */
  lemma LimitKeptWithRoom(lens: seq<nat>, k: nat, parts: seq<seq<nat>>, i: nat, maxTokenLen: nat)
    requires k > 0 && lens != [] && i < k && GoodSplit(lens, k, StartSpread(lens, k, false), false, parts)
    requires Sum(lens) + (k - 1) * Longest(lens) < k * (maxTokenLen + 1)
    ensures Load(lens, parts[i]) <= maxTokenLen
  {
    LoadAgainstAverage(lens, k, parts, i);
    RoomBelow(Load(lens, parts[i]), k, maxTokenLen + 1);
  }

  /** Rows of one length. */

  ghost predicate AllEqual(lens: seq<nat>, m: nat) {
    forall i :: 0 <= i < |lens| ==> lens[i] == m
  }

  lemma {:induction false} LoadOfEqual(lens: seq<nat>, m: nat, part: seq<nat>)
    requires InRange(part, |lens|) && AllEqual(lens, m)
    ensures Load(lens, part) == |part| * m
  {
    if part != [] {
      LoadOfEqual(lens, m, part[..|part| - 1]);
      MulSucc(|part| - 1, m);
    }
  }

  /** In a good split of rows of one length no part has two rows more than another. */
  lemma EqualRowsSpread(lens: seq<nat>, m: nat, parts: seq<seq<nat>>, a: nat, b: nat)
    requires m > 0 && AllEqual(lens, m) && AllInRange(parts, |lens|) && a < |parts| && b < |parts|
    requires Load(lens, parts[a]) - Load(lens, parts[b]) <= m
    ensures |parts[a]| <= |parts[b]| + 1
  {
    LoadOfEqual(lens, m, parts[a]);
    LoadOfEqual(lens, m, parts[b]);
    MulSucc(|parts[b]|, m);
    if |parts[a]| > |parts[b]| + 1 {
      MulStep(|parts[b]| + 1, |parts[a]|, m);
    }
  }

  /** Counts that are even and add up to `n` have the average rounded up as their maximum. */
  lemma EvenCountsReachAverage(parts: seq<seq<nat>>, n: nat) returns (fullest: nat)
    requires parts != [] && |Flat<nat>(parts)| == n
    requires forall a, b :: 0 <= a < |parts| && 0 <= b < |parts| ==> |parts[a]| <= |parts[b]| + 1
    ensures fullest < |parts| && |parts[fullest]| == CeilDiv(n, |parts|)
    ensures forall i :: 0 <= i < |parts| ==> |parts[i]| <= CeilDiv(n, |parts|)
  {
    var k := |parts|;
    fullest := Fullest(parts);
    var most := |parts[fullest]|;
    CountAtMost(parts, most, 0);
    if most > 0 {
      CountAtLeast(parts, most - 1, fullest);
    }
    assert most * k == k * most && (most - 1) * k == k * (most - 1);
    MulSucc(most - 1, k);
    CeilDivUnique(n, k, most);
  }

  function Fullest(parts: seq<seq<nat>>): (j: nat)
    requires parts != []
    ensures j < |parts| && forall i :: 0 <= i < |parts| ==> |parts[i]| <= |parts[j]|
  {
    if |parts| == 1 then 0
    else
      var r := Fullest(parts[1..]);
      assert forall i :: 0 < i < |parts| ==> parts[i] == parts[1..][i - 1];
      if |parts[0]| >= |parts[1..][r]| then 0 else r + 1
  }

  /** For rows of one length, of which 2, 2, 2 is a case, the limit is kept exactly when the rows of the
      fullest micro-batch, the average rounded up, fit in it. */
  lemma EqualRowsKeepLimitIff(lens: seq<nat>, m: nat, k: nat, parts: seq<seq<nat>>, maxTokenLen: nat)
    requires k > 0 && lens != [] && AllEqual(lens, m)
    requires GoodSplit(lens, k, StartSpread(lens, k, false), false, parts)
    ensures (forall i :: 0 <= i < k ==> Load(lens, parts[i]) <= maxTokenLen) <==> CeilDiv(|lens|, k) * m <= maxTokenLen
  {
    forall i | 0 <= i < k
      ensures Load(lens, parts[i]) == |parts[i]| * m
    {
      LoadOfEqual(lens, m, parts[i]);
    }
    if m == 0 {
      assert CeilDiv(|lens|, k) * m == 0;
    } else {
      var fullest := FullestOfEqual(lens, m, k, parts);
      forall i | 0 <= i < k
        ensures Load(lens, parts[i]) <= CeilDiv(|lens|, k) * m
      {
        MulMonotone(|parts[i]|, CeilDiv(|lens|, k), m);
      }
    }
  }

  lemma FullestOfEqual(lens: seq<nat>, m: nat, k: nat, parts: seq<seq<nat>>) returns (fullest: nat)
    requires k > 0 && lens != [] && AllEqual(lens, m) && m > 0
    requires GoodSplit(lens, k, StartSpread(lens, k, false), false, parts)
    ensures fullest < k && |parts[fullest]| == CeilDiv(|lens|, k)
    ensures forall i :: 0 <= i < k ==> |parts[i]| <= CeilDiv(|lens|, k)
  {
    CoverSize(parts, |lens|);
    assert Longest(lens) == m;
    forall a, b | 0 <= a < k && 0 <= b < k
      ensures |parts[a]| <= |parts[b]| + 1
    {
      EqualRowsSpread(lens, m, parts, a, b);
    }
    fullest := EvenCountsReachAverage(parts, |lens|);
  }

  /** The limit is not kept in general: three rows of two tokens under a limit of three are cut into
      two micro-batches, one of which has four tokens. */
  lemma LimitCanBeExceeded(parts: seq<seq<nat>>)
    requires Covers(parts, 3) && |parts| == MicroBatchCount(6, 3, 3, None, None, None)
    requires forall i :: 0 <= i < |parts| ==> InRange(parts[i], 3)
    ensures |parts| == 2
    ensures exists i :: 0 <= i < 2 && Load([2, 2, 2], parts[i]) > 3
  {
    var lens := [2, 2, 2];
    assert CeilDiv(6, 3) == 2 by { CeilDivLeast(6, 3, 2); }
    LoadsAddUp(lens, parts);
    assert Sum(lens) == 6 by {
      assert lens[..2] == [2, 2] && [2, 2][..1] == [2] && [2][..0] == [];
      assert Sum([2]) == 2 && Sum([2, 2]) == 4;
    }
    assert parts == [parts[0]] + [parts[1]];
    assert LoadsFrom(lens, parts) == Load(lens, parts[0]) + Load(lens, parts[1]) by {
      var last := parts[1..];
      assert last == [parts[1]] && last[1..] == [];
      assert LoadsFrom(lens, last) == Load(lens, last[0]) + LoadsFrom(lens, last[1..]);
    }
    EvenLoad(parts[0]);
    EvenLoad(parts[1]);
  }

  lemma {:induction false} EvenLoad(part: seq<nat>)
    requires InRange(part, 3)
    ensures Load([2, 2, 2], part) % 2 == 0
  {
    if part != [] {
      EvenLoad(part[..|part| - 1]);
    }
  }

  /** Attention work grows with the square of a row's length. */

  function Workload(lens: seq<nat>, part: seq<nat>): nat
    requires InRange(part, |lens|)
  {
    if part == [] then 0
    else Workload(lens, part[..|part| - 1]) + lens[part[|part| - 1]] * lens[part[|part| - 1]]
  }

  function LeastIndexOf(part: seq<nat>): (least: nat)
    ensures part == [] ==> least == 0
    ensures part != [] ==> least in part && forall i :: 0 <= i < |part| ==> least <= part[i]
  {
    if part == [] then 0
    else if |part| == 1 then part[0]
    else
      var rest := LeastIndexOf(part[1..]);
      assert forall i :: 0 < i < |part| ==> part[i] == part[1..][i - 1];
      if part[0] <= rest then part[0] else rest
  }

  predicate Heavier(lens: seq<nat>, a: seq<nat>, b: seq<nat>)
    requires InRange(a, |lens|) && InRange(b, |lens|)
  {
    var wa, wb := Workload(lens, a), Workload(lens, b);
    wa > wb || (wa == wb && LeastIndexOf(a) > LeastIndexOf(b))
  }

  function InsertByWorkload(lens: seq<nat>, x: seq<nat>, parts: seq<seq<nat>>): (r: seq<seq<nat>>)
    requires InRange(x, |lens|) && AllInRange(parts, |lens|)
    ensures |r| == |parts| + 1 && multiset(r) == multiset{x} + multiset(parts)
    ensures AllInRange(r, |lens|)
    ensures multiset(Flat<nat>(r)) == multiset(x) + multiset(Flat<nat>(parts))
  {
    if parts == [] || !Heavier(lens, parts[0], x) then
      assert ([x] + parts)[1..] == parts;
      [x] + parts
    else
      assert parts == [parts[0]] + parts[1..];
      var rest := InsertByWorkload(lens, x, parts[1..]);
      assert ([parts[0]] + rest)[1..] == rest;
      [parts[0]] + rest
  }

  /** Heaviest micro-batch first. */
  function SortByWorkload(lens: seq<nat>, parts: seq<seq<nat>>): (r: seq<seq<nat>>)
    requires AllInRange(parts, |lens|)
    ensures |r| == |parts| && multiset(r) == multiset(parts) && AllInRange(r, |lens|)
    ensures multiset(Flat<nat>(r)) == multiset(Flat<nat>(parts))
  {
    if parts == [] then []
    else
      assert parts == [parts[0]] + parts[1..];
      InsertByWorkload(lens, parts[0], SortByWorkload(lens, parts[1..]))
  }

  ghost predicate WorkloadsFall(lens: seq<nat>, parts: seq<seq<nat>>)
    requires AllInRange(parts, |lens|)
  {
    forall i, j :: 0 <= i < j < |parts| ==> !Heavier(lens, parts[j], parts[i])
  }

  lemma {:induction false} InsertWorkloadsFall(lens: seq<nat>, x: seq<nat>, parts: seq<seq<nat>>)
    requires InRange(x, |lens|) && AllInRange(parts, |lens|) && WorkloadsFall(lens, parts)
    ensures WorkloadsFall(lens, InsertByWorkload(lens, x, parts))
  {
    if parts != [] && Heavier(lens, parts[0], x) {
      InsertWorkloadsFall(lens, x, parts[1..]);
      var r := InsertByWorkload(lens, x, parts[1..]);
      forall i | 0 <= i < |r|
        ensures !Heavier(lens, r[i], parts[0])
      {
        assert r[i] in multiset(r);
        assert r[i] == x || r[i] in parts[1..];
      }
    }
  }

  lemma {:induction false} SortWorkloadsFall(lens: seq<nat>, parts: seq<seq<nat>>)
    requires AllInRange(parts, |lens|)
    ensures WorkloadsFall(lens, SortByWorkload(lens, parts))
  {
    if parts != [] {
      SortWorkloadsFall(lens, parts[1..]);
      InsertWorkloadsFall(lens, parts[0], SortByWorkload(lens, parts[1..]));
    }
  }

  /** The squared lengths of the rows in a part. */
  function Squares(lens: seq<nat>, part: seq<nat>): seq<nat>
    requires InRange(part, |lens|)
  {
    seq(|part|, i requires 0 <= i < |part| => lens[part[i]] * lens[part[i]])
  }

  lemma {:induction false} WorkloadIsSquareSum(lens: seq<nat>, part: seq<nat>)
    requires InRange(part, |lens|)
    ensures Workload(lens, part) == Sum(Squares(lens, part))
  {
    if part != [] {
      WorkloadIsSquareSum(lens, part[..|part| - 1]);
      assert Squares(lens, part)[..|part| - 1] == Squares(lens, part[..|part| - 1]);
    }
  }

  /** The sums of squared lengths never rise; among equal ones the least index never rises. */
  ghost predicate HeaviestFirst(lens: seq<nat>, parts: seq<seq<nat>>)
    requires AllInRange(parts, |lens|)
  {
    forall i, j :: 0 <= i < j < |parts| ==>
      var x, y := Sum(Squares(lens, parts[i])), Sum(Squares(lens, parts[j]));
      x > y || (x == y && LeastIndexOf(parts[i]) >= LeastIndexOf(parts[j]))
  }

  lemma SortHeaviestFirst(lens: seq<nat>, parts: seq<seq<nat>>)
    requires AllInRange(parts, |lens|)
    ensures HeaviestFirst(lens, SortByWorkload(lens, parts))
  {
    SortWorkloadsFall(lens, parts);
    var r := SortByWorkload(lens, parts);
    hide Sum, Squares, Workload, SortByWorkload, LeastIndexOf;
    forall i, j | 0 <= i < j < |r|
      ensures var x, y := Sum(Squares(lens, r[i])), Sum(Squares(lens, r[j]));
        x > y || (x == y && LeastIndexOf(r[i]) >= LeastIndexOf(r[j]))
    {
      assert !Heavier(lens, r[j], r[i]);
      WorkloadIsSquareSum(lens, r[i]);
      WorkloadIsSquareSum(lens, r[j]);
    }
  }

  /** Reordering micro-batches keeps the cover, the loads and that none is empty. */
  lemma SortKeepsSplit(lens: seq<nat>, k: nat, d: nat, parts: seq<seq<nat>>)
    requires GoodSplit(lens, k, d, false, parts)
    ensures GoodSplit(lens, k, d, false, SortByWorkload(lens, parts))
  {
    hide Load, SortByWorkload, Flat;
    var r := SortByWorkload(lens, parts);
    forall i | 0 <= i < |r|
      ensures r[i] in parts
    {
      assert r[i] in multiset(r);
    }
  }

  datatype Error = LimitBelowRow | NoLimit | NoDivisor | NoMicroBatch | TooManyMicroBatches

  /** `lens` are the token counts of the rows: sums of attention masks `maxSeqLen` wide. */
  method RearrangeMicroBatches<T>(rows: seq<T>, lens: seq<nat>, maxSeqLen: nat, maxTokenLen: nat,
                                  atLeast: Option<nat>, others: Option<nat>, dividedBy: Option<nat>, balance: bool)
    returns (r: Result<(seq<seq<T>>, seq<seq<nat>>), Error>)
    requires |rows| == |lens| && forall i :: 0 <= i < |lens| ==> lens[i] <= maxSeqLen
    ensures r.Err? <==>
      maxTokenLen < maxSeqLen || maxTokenLen == 0 || dividedBy == Some(0) ||
      !exists n: nat :: 0 < n <= |lens| && IsLeastCount(n, Sum(lens), maxTokenLen, atLeast, others, dividedBy)
    ensures r.Ok? ==>
      var (batches, idx) := r.value;
      && Covers(idx, |lens|) && AllInRange(idx, |lens|)
      && IsLeastCount(|idx|, Sum(lens), maxTokenLen, atLeast, others, dividedBy)
      && (forall i :: 0 <= i < |idx| ==> idx[i] != [])
      && (forall i :: 0 <= i < |idx| ==> Load(lens, idx[i]) <= maxTokenLen + Longest(lens))
      && (forall i :: 0 <= i < |idx| ==> Load(lens, idx[i]) < 2 * maxTokenLen)
      && SpreadAtMost(lens, idx, Longest(lens))
      && (balance ==> HeaviestFirst(lens, idx))
      && |batches| == |idx| && forall i :: 0 <= i < |idx| ==> batches[i] == Pick(rows, idx[i])
  {
    hide StartSpread, Longest, HeaviestFirst, SpreadAtMost, SortByWorkload, Pick, RoundupDivisible, CeilDiv;
    if maxTokenLen < maxSeqLen {
      return Err(LimitBelowRow);
    }
    if maxTokenLen == 0 {
      return Err(NoLimit);
    }
    if dividedBy == Some(0) {
      return Err(NoDivisor);
    }
    var count := MicroBatchCount(Sum(lens), |lens|, maxTokenLen, atLeast, others, dividedBy);
    CountIsLeast(lens, maxTokenLen, atLeast, others, dividedBy);
    hide Suffices;
    if |lens| < count {
      return Err(TooManyMicroBatches);
    }
    var split := GetSeqlenBalancedPartitions(lens, count, false);
    if split.Err? {
      return Err(NoMicroBatch);
    }
    var idx := split.value;
    if balance {
      SortHeaviestFirst(lens, idx);
      SortKeepsSplit(lens, count, StartSpread(lens, count, false), idx);
      idx := SortByWorkload(lens, idx);
    }
    CountIsEnough(lens, maxTokenLen, atLeast, others, dividedBy);
    hide MicroBatchCount;
    forall i | 0 <= i < |idx|
      ensures Load(lens, idx[i]) <= maxTokenLen + Longest(lens) && Load(lens, idx[i]) < 2 * maxTokenLen
    {
      LoadWithinLimits(lens, count, idx, i, maxTokenLen);
    }
    var batches: seq<seq<T>> := [];
    for i := 0 to |idx|
      invariant |batches| == i && forall j :: 0 <= j < i ==> batches[j] == Pick(rows, idx[j])
    {
      batches := batches + [Pick(rows, idx[i])];
    }
    PlainSpread(lens, count);
    r := Ok((batches, idx));
  }

  lemma PlainSpread(lens: seq<nat>, k: nat)
    requires k > 0
    ensures StartSpread(lens, k, false) == Longest(lens)
  {
  }
}
