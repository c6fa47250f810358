/** The differencing queue and the balanced partitions built from it. */
module BalancedPartitions {
  import opened Arithmetic
  import opened Options
  import opened Partitions
  import opened Tensors
  import opened Differencing

  /** The items in increasing order of length, then of index. */

  predicate ItemLess(a: Item, b: Item) {
    a.len < b.len || (a.len == b.len && a.idx < b.idx)
  }

  function InsertItem(x: Item, s: seq<Item>): (r: seq<Item>)
    ensures multiset(r) == multiset{x} + multiset(s)
    ensures |r| == |s| + 1
  {
    if s == [] || !ItemLess(s[0], x) then [x] + s
    else
      assert s == [s[0]] + s[1..];
      [s[0]] + InsertItem(x, s[1..])
  }

  function SortItems(s: seq<Item>): (r: seq<Item>)
    ensures multiset(r) == multiset(s)
    ensures |r| == |s|
  {
    if s == [] then []
    else
      assert s == [s[0]] + s[1..];
      InsertItem(s[0], SortItems(s[1..]))
  }

  ghost predicate Increasing(s: seq<Item>) {
    forall i, j :: 0 <= i < j < |s| ==> s[i].len <= s[j].len
  }

  lemma {:induction false} InsertIncreasing(x: Item, s: seq<Item>)
    requires Increasing(s)
    ensures Increasing(InsertItem(x, s))
  {
    if s != [] && ItemLess(s[0], x) {
      InsertIncreasing(x, s[1..]);
      var r := InsertItem(x, s[1..]);
      forall i | 0 <= i < |r|
        ensures s[0].len <= r[i].len
      {
        assert r[i] in multiset(r);
        assert r[i] == x || r[i] in s[1..];
      }
    }
  }

  lemma {:induction false} SortIncreasing(s: seq<Item>)
    ensures Increasing(SortItems(s))
  {
    if s != [] {
      SortIncreasing(s[1..]);
      InsertIncreasing(s[0], SortItems(s[1..]));
    }
  }

  function Enumerate(lens: seq<nat>): seq<Item> {
    seq(|lens|, i requires 0 <= i < |lens| => Item(i, lens[i]))
  }

  ghost predicate ItemsOk(lens: seq<nat>, items: seq<Item>) {
    forall i :: 0 <= i < |items| ==> items[i].idx < |lens| && items[i].len == lens[items[i].idx]
  }

  /** Indices as multisets. */

  ghost function IndexBag(items: seq<Item>): multiset<nat> {
    multiset(Indices(items))
  }

  lemma IndexBagRemoved(s: seq<Item>, i: nat)
    requires i < |s|
    ensures IndexBag(s) == IndexBag(s[..i] + s[i + 1..]) + multiset{s[i].idx}
  {
    RemovedAt(Indices(s), i);
    assert Indices(s[..i] + s[i + 1..]) == Indices(s)[..i] + Indices(s)[i + 1..];
  }

  lemma {:induction false} IndexBagPermutation(a: seq<Item>, b: seq<Item>)
    requires multiset(a) == multiset(b)
    ensures IndexBag(a) == IndexBag(b)
    decreases |a|
  {
    assert |a| == |multiset(a)| == |multiset(b)| == |b|;
    if a != [] {
      hide IndexBag;
      var x := a[0];
      assert x in multiset(b);
      var j :| 0 <= j < |b| && b[j] == x;
      SameRest(a, b, 0, j);
      IndexBagPermutation(a[..0] + a[1..], b[..j] + b[j + 1..]);
      IndexBagRemoved(a, 0);
      IndexBagRemoved(b, j);
    } else {
      assert b == [];
    }
  }

  lemma SortedItems(lens: seq<nat>)
    ensures ItemsOk(lens, SortItems(Enumerate(lens))) && Increasing(SortItems(Enumerate(lens)))
    ensures IndexBag(SortItems(Enumerate(lens))) == multiset(Range(|lens|))
  {
    var s := SortItems(Enumerate(lens));
    SortIncreasing(Enumerate(lens));
    forall i | 0 <= i < |s|
      ensures s[i].idx < |lens| && s[i].len == lens[s[i].idx]
    {
      assert s[i] in multiset(s);
      assert s[i] in Enumerate(lens);
    }
    IndexBagPermutation(s, Enumerate(lens));
    assert Indices(Enumerate(lens)) == Range(|lens|);
  }

  /** The largest difference between the last and first lengths of a group of `k` consecutive items. */
  function WidestGroup(items: seq<Item>, k: nat): (d: nat)
    requires k > 0
    decreases |items|
    ensures |items| >= k ==> items[k - 1].len - items[0].len <= d && WidestGroup(items[k..], k) <= d
  {
    if |items| < k then 0
    else
      var rest := WidestGroup(items[k..], k);
      var first := items[k - 1].len - items[0].len;
      if first >= rest then first else rest
  }

  lemma {:induction false} WidestGroupBound(lens: seq<nat>, items: seq<Item>, k: nat)
    requires k > 0 && Increasing(items) && ItemsOk(lens, items) && lens != []
    ensures WidestGroup(items, k) <= Longest(lens) - Shortest(lens)
    decreases |items|
  {
    if |items| >= k {
      WidestGroupBound(lens, items[k..], k);
    }
  }

  /** The spread each start of the queue allows. */
  ghost function StartSpread(lens: seq<nat>, k: nat, equalSize: bool): nat
    requires k > 0
  {
    if equalSize then WidestGroup(SortItems(Enumerate(lens)), k) else Longest(lens)
  }

  /** A new state. */

  function InitialSets(items: seq<Item>, k: nat): (r: seq<Bucket>)
    ensures |r| == k
  {
    seq(k, i requires 0 <= i < k => if i < |items| then EMPTY.Add(items[i]) else EMPTY)
  }

  lemma {:induction false} InitialCounts(items: seq<Item>, k: nat)
    requires |items| <= k
    ensures Bag(InitialSets(items, k)) == IndexBag(items)
    ensures NonEmpty(InitialSets(items, k)) == |items|
  {
    if k > 0 {
      var s := InitialSets(items, k);
      var rest := if items == [] then [] else items[1..];
      assert s[1..] == InitialSets(rest, k - 1);
      InitialCounts(rest, k - 1);
      if items != [] {
        assert Indices(items) == Indices([items[0]]) + Indices(rest);
        assert s[0].items == [items[0]];
      }
      hide InitialSets, Indices;
    }
  }

  lemma InitialBuckets(lens: seq<nat>, items: seq<Item>, k: nat)
    requires |items| <= k && ItemsOk(lens, items)
    ensures forall i :: 0 <= i < k ==> BucketOk(lens, InitialSets(items, k)[i])
    ensures forall i :: 0 <= i < k ==> InitialSets(items, k)[i].sum == if i < |items| then items[i].len else 0
    ensures |items| == k ==> SameSize(InitialSets(items, k), 1)
  {
    var s := InitialSets(items, k);
    forall i | 0 <= i < k
      ensures BucketOk(lens, s[i])
    {
      if i < |items| {
        assert s[i].items == [items[i]];
        assert Total([items[i]]) == Total([items[i]][..0]) + items[i].len;
      }
    }
  }

  lemma InitialStateOk(lens: seq<nat>, items: seq<Item>, k: nat, d: nat)
    requires 1 <= |items| <= k && ItemsOk(lens, items)
    requires SpreadWithin(InitialSets(items, k), d)
    ensures StateOk(lens, k, d, SortDesc(InitialSets(items, k)))
    ensures Bag(SortDesc(InitialSets(items, k))) == IndexBag(items)
    ensures |items| == k ==> SameSize(SortDesc(InitialSets(items, k)), 1)
  {
    InitialBuckets(lens, items, k);
    InitialCounts(items, k);
    assert |Indices(items)| == |items|;
    SortStateOk(lens, k, d, InitialSets(items, k));
    SortSpread(InitialSets(items, k), d, 1);
  }

  lemma OneItemFits(lens: seq<nat>, item: Item, k: nat, d: nat, equalSize: bool)
    requires k > 0 && ItemsOk(lens, [item]) && item.len <= d && !equalSize
    ensures StateFits(lens, k, d, equalSize, SortDesc(InitialSets([item], k)))
    ensures Bag(SortDesc(InitialSets([item], k))) == IndexBag([item])
  {
    InitialBuckets(lens, [item], k);
    InitialStateOk(lens, [item], k, d);
  }

  lemma GroupFits(lens: seq<nat>, items: seq<Item>, k: nat, d: nat, equalSize: bool)
    requires |items| == k > 0 && ItemsOk(lens, items) && Increasing(items) && items[k - 1].len - items[0].len <= d
    ensures StateFits(lens, k, d, equalSize, SortDesc(InitialSets(items, k)))
    ensures Bag(SortDesc(InitialSets(items, k))) == IndexBag(items)
  {
    InitialBuckets(lens, items, k);
    forall i, j | 0 <= i < k && 0 <= j < k
      ensures items[i].len - items[j].len <= d
    {
      assert i < k - 1 ==> items[i].len <= items[k - 1].len;
      assert 0 < j ==> items[0].len <= items[j].len;
    }
    InitialStateOk(lens, items, k, d);
  }

  class State {
    const k: nat
    var sets: seq<Bucket>

    constructor (items: seq<Item>, k: nat)
      requires |items| == 1 || |items| == k
      requires k > 0
      ensures this.k == k && sets == SortDesc(InitialSets(items, k))
    {
      this.k := k;
      var sets := seq(k, _ => EMPTY);
      for i := 0 to |items|
        invariant sets == InitialSets(items[..i], k)
      {
        sets := sets[i := sets[i].Add(items[i])];
      }
      assert items[..|items|] == items;
      this.sets := SortDesc(sets);
    }

    method Merge(other: State)
      requires other != this && other.k == k == |sets| == |other.sets|
      requires forall i :: 0 <= i < k ==> other.sets[i].sum == Total(other.sets[i].items)
      modifies this
      ensures sets == SortDesc(MergedSets(old(sets), other.sets))
    {
      var merged := sets;
      for i := 0 to k
        invariant |merged| == k
        invariant forall j :: 0 <= j < i ==> merged[j] == MergedSets(old(sets), other.sets)[j]
        invariant forall j :: i <= j < k ==> merged[j] == old(sets)[j]
      {
        var bucket := MergeBuckets(merged[i], other.sets[k - 1 - i]);
        merged := merged[i := bucket];
      }
      assert merged == MergedSets(old(sets), other.sets);
      sets := SortDesc(merged);
    }

    method GetPartitions() returns (partitions: seq<seq<nat>>)
      ensures partitions == Parts(sets)
    {
      partitions := [];
      for i := 0 to |sets|
        invariant partitions == Parts(sets)[..i]
      {
        partitions := partitions + [Indices(sets[i].items)];
      }
    }
  }

  function Parts(sets: seq<Bucket>): seq<seq<nat>> {
    seq(|sets|, i requires 0 <= i < |sets| => Indices(sets[i].items))
  }

  /** Adds the items of `other` to a bucket, one at a time. */
  method MergeBuckets(b: Bucket, other: Bucket) returns (r: Bucket)
    ensures r == Merged(b, other)
  {
    r := b;
    for i := 0 to |other.items|
      invariant r == Merged(b, Bucket(0, other.items[..i]))
    {
      assert other.items[..i + 1][..i] == other.items[..i];
      r := r.Add(other.items[i]);
    }
    assert other.items[..|other.items|] == other.items;
  }

  /** The queue of states. */

  ghost function UnionBag(queue: seq<seq<Bucket>>): multiset<nat> {
    if queue == [] then multiset{} else Bag(queue[0]) + UnionBag(queue[1..])
  }

  lemma {:induction false} UnionBagConcat(a: seq<seq<Bucket>>, b: seq<seq<Bucket>>)
    ensures UnionBag(a + b) == UnionBag(a) + UnionBag(b)
  {
    if a == [] {
      assert a + b == b;
    } else {
      assert (a + b)[1..] == a[1..] + b;
      UnionBagConcat(a[1..], b);
    }
  }

  lemma UnionBagOne(v: seq<Bucket>)
    ensures UnionBag([v]) == Bag(v)
  {
    assert [v][1..] == [];
  }

  lemma UnionBagMiddle(lo: seq<seq<Bucket>>, v: seq<Bucket>, hi: seq<seq<Bucket>>)
    ensures UnionBag(lo + [v] + hi) == UnionBag(lo + hi) + Bag(v)
  {
    UnionBagConcat(lo + [v], hi);
    UnionBagConcat(lo, [v]);
    UnionBagConcat(lo, hi);
    UnionBagOne(v);
  }

  lemma UnionBagRemove(queue: seq<seq<Bucket>>, i: nat)
    requires i < |queue|
    ensures UnionBag(queue) == UnionBag(queue[..i] + queue[i + 1..]) + Bag(queue[i])
  {
    UnionBagMiddle(queue[..i], queue[i], queue[i + 1..]);
    RemovedAt(queue, i);
  }

  ghost predicate StateFits(lens: seq<nat>, k: nat, d: nat, equalSize: bool, sets: seq<Bucket>)
    requires k > 0
  {
    StateOk(lens, k, d, sets) && (equalSize ==> SameSize(sets, |sets[0].items|))
  }

  /** Every state fits, and the states hold the indices in `all`. */
  ghost predicate QueueOk(lens: seq<nat>, k: nat, d: nat, equalSize: bool, queue: seq<seq<Bucket>>, all: multiset<nat>)
    requires k > 0
  {
    (forall i :: 0 <= i < |queue| ==> StateFits(lens, k, d, equalSize, queue[i])) && UnionBag(queue) == all
  }

  lemma PushFits(lens: seq<nat>, k: nat, d: nat, equalSize: bool, queue: seq<seq<Bucket>>, all: multiset<nat>,
                 v: seq<Bucket>)
    requires k > 0 && QueueOk(lens, k, d, equalSize, queue, all) && StateFits(lens, k, d, equalSize, v)
    ensures QueueOk(lens, k, d, equalSize, queue + [v], all + Bag(v))
  {
    UnionBagConcat(queue, [v]);
    UnionBagOne(v);
  }

  lemma PopFits(lens: seq<nat>, k: nat, d: nat, equalSize: bool, queue: seq<seq<Bucket>>, all: multiset<nat>, i: nat)
    requires k > 0 && QueueOk(lens, k, d, equalSize, queue, all) && i < |queue|
    ensures StateFits(lens, k, d, equalSize, queue[i])
    ensures QueueOk(lens, k, d, equalSize, queue[..i] + queue[i + 1..], all - Bag(queue[i]))
    ensures Bag(queue[i]) <= all
  {
    hide StateFits, UnionBag, Bag;
    UnionBagRemove(queue, i);
  }

  lemma MergeFits(lens: seq<nat>, k: nat, d: nat, equalSize: bool, a: seq<Bucket>, b: seq<Bucket>)
    requires k > 0 && StateFits(lens, k, d, equalSize, a) && StateFits(lens, k, d, equalSize, b)
    ensures StateFits(lens, k, d, equalSize, SortDesc(MergedSets(a, b)))
    ensures Bag(SortDesc(MergedSets(a, b))) == Bag(a) + Bag(b)
  {
    MergeStateOk(lens, k, d, a, b);
    if equalSize {
      MergeSameSize(a, b, |a[0].items|, |b[0].items|);
    }
  }

  /** What a split of the lengths into `k` parts guarantees. */
  ghost predicate GoodSplit(lens: seq<nat>, k: nat, d: nat, equalSize: bool, parts: seq<seq<nat>>) {
    && |parts| == k
    && Covers(parts, |lens|)
    && (forall i :: 0 <= i < k ==> InRange(parts[i], |lens|))
    && SpreadAtMost(lens, parts, d)
    && (equalSize ==> forall i :: 0 <= i < k ==> |parts[i]| * k == |lens|)
    && (|lens| >= k ==> forall i :: 0 <= i < k ==> parts[i] != [])
  }

  /** From the last state to its partitions. */

  lemma {:induction false} FlatParts(sets: seq<Bucket>)
    ensures multiset(Flat<nat>(Parts(sets))) == Bag(sets)
  {
    if sets != [] {
      assert Parts(sets)[1..] == Parts(sets[1..]);
      FlatParts(sets[1..]);
    }
  }

  lemma {:induction false} LoadIsTotal(lens: seq<nat>, items: seq<Item>)
    requires ItemsOk(lens, items)
    ensures InRange(Indices(items), |lens|) && Load(lens, Indices(items)) == Total(items)
  {
    if items != [] {
      LoadIsTotal(lens, items[..|items| - 1]);
      assert Indices(items)[..|items| - 1] == Indices(items[..|items| - 1]);
    }
  }

  lemma {:induction false} BagSize(sets: seq<Bucket>, c: nat)
    requires SameSize(sets, c)
    ensures |Bag(sets)| == |sets| * c
  {
    if sets != [] {
      assert SameSize(sets[1..], c);
      BagSize(sets[1..], c);
      assert |Indices(sets[0].items)| == c;
      MulSucc(|sets[1..]|, c);
    }
  }

  lemma FinalSizes(lens: seq<nat>, k: nat, equalSize: bool, sets: seq<Bucket>)
    requires |sets| == k > 0 && |Bag(sets)| == |lens| && (equalSize ==> SameSize(sets, |sets[0].items|))
    requires Ranked(sets) && NonEmpty(sets) == Min(k, |lens|)
    ensures equalSize ==> forall i :: 0 <= i < k ==> |Parts(sets)[i]| * k == |lens|
    ensures |lens| >= k ==> forall i :: 0 <= i < k ==> Parts(sets)[i] != []
  {
    hide Bag, NonEmpty, Ranked;
    NonEmptyFirst(sets);
    assert forall i :: 0 <= i < k ==> |Parts(sets)[i]| == |sets[i].items|;
    if equalSize {
      var c := |sets[0].items|;
      BagSize(sets, c);
      assert forall i :: 0 <= i < k ==> |Parts(sets)[i]| == c;
    }
  }

  lemma FinalSplit(lens: seq<nat>, k: nat, d: nat, equalSize: bool, sets: seq<Bucket>)
    requires k > 0 && StateFits(lens, k, d, equalSize, sets) && Bag(sets) == multiset(Range(|lens|))
    ensures GoodSplit(lens, k, d, equalSize, Parts(sets))
  {
    FlatParts(sets);
    assert |Range(|lens|)| == |lens|;
    FinalSizes(lens, k, equalSize, sets);
    forall i | 0 <= i < k
      ensures InRange(Parts(sets)[i], |lens|) && Load(lens, Parts(sets)[i]) == sets[i].sum
    {
      LoadIsTotal(lens, sets[i].items);
    }
  }

  lemma LastState(lens: seq<nat>, k: nat, d: nat, equalSize: bool, values: seq<seq<Bucket>>)
    requires k > 0 && |values| == 1 && QueueOk(lens, k, d, equalSize, values, multiset(Range(|lens|)))
    ensures GoodSplit(lens, k, d, equalSize, Parts(values[0]))
  {
    UnionBagOne(values[0]);
    assert values == [values[0]];
    FinalSplit(lens, k, d, equalSize, values[0]);
  }

  datatype Error = NoPartitions | NoItems | NotDivisible | TooFewItems

  /** Takes some state off the queue. The program takes the one with the largest spread; nothing
      proved below depends on which one it is. */
  method Pop(queue: seq<State>) returns (state: State, rest: seq<State>, ghost at: nat)
    requires queue != []
    ensures at < |queue| && state == queue[at] && rest == queue[..at] + queue[at + 1..]
  {
    var i :| 0 <= i < |queue|;
    state, rest, at := queue[i], queue[..i] + queue[i + 1..], i;
  }

  ghost predicate Holds(queue: seq<State>, k: nat, values: seq<seq<Bucket>>)
    reads queue
  {
    && |queue| == |values|
    && (forall i :: 0 <= i < |queue| ==> queue[i].sets == values[i] && queue[i].k == k)
    && (forall i, j :: 0 <= i < j < |queue| ==> queue[i] != queue[j])
  }

  method KarmarkarKarp(lens: seq<nat>, k: nat, equalSize: bool) returns (r: Result<seq<seq<nat>>, Error>)
    ensures r.Err? <==> k == 0 || lens == [] || (equalSize && |lens| % k != 0)
    ensures r.Ok? ==> GoodSplit(lens, k, StartSpread(lens, k, equalSize), equalSize, r.value)
  {
    hide QueueOk, GoodSplit, SortDesc, StartSpread;
    if k == 0 {
      return Err(NoPartitions);
    }
    if equalSize && |lens| % k != 0 {
      return Err(NotDivisible);
    }
    if lens == [] {
      return Err(NoItems);
    }
    var queue, values := StartQueue(lens, k, equalSize);
    ghost var d, all := StartSpread(lens, k, equalSize), multiset(Range(|lens|));
    while |queue| > 1
      invariant queue != [] && Holds(queue, k, values) && QueueOk(lens, k, d, equalSize, values, all)
      invariant fresh(set s | s in queue)
    {
      queue, values := MergeTwo(lens, k, d, equalSize, queue, values, all);
    }
    var partitions := queue[0].GetPartitions();
    LastState(lens, k, d, equalSize, values);
    r := Ok(partitions);
  }

  /** Taking two states off the queue and putting their merge back keeps the queue fit. */
  lemma TwoForOne(lens: seq<nat>, k: nat, d: nat, equalSize: bool, values: seq<seq<Bucket>>, all: multiset<nat>,
                  at0: nat, at1: nat)
    requires k > 0 && QueueOk(lens, k, d, equalSize, values, all) && at0 < |values| && at1 < |values| - 1
    ensures var rest := values[..at0] + values[at0 + 1..];
      var a, b := values[at0], rest[at1];
      && |a| == |b| == k
      && (forall i :: 0 <= i < k ==> BucketOk(lens, b[i]))
      && QueueOk(lens, k, d, equalSize, rest[..at1] + rest[at1 + 1..] + [SortDesc(MergedSets(a, b))], all)
  {
    var rest := values[..at0] + values[at0 + 1..];
    var a, b := values[at0], rest[at1];
    PopFits(lens, k, d, equalSize, values, all, at0);
    PopFits(lens, k, d, equalSize, rest, all - Bag(a), at1);
    MergeFits(lens, k, d, equalSize, a, b);
    PushFits(lens, k, d, equalSize, rest[..at1] + rest[at1 + 1..], all - Bag(a) - Bag(b), SortDesc(MergedSets(a, b)));
    assert all - Bag(a) - Bag(b) + (Bag(a) + Bag(b)) == all;
  }

  lemma PopHolds(queue: seq<State>, k: nat, values: seq<seq<Bucket>>, at: nat)
    requires Holds(queue, k, values) && at < |queue|
    ensures Holds(queue[..at] + queue[at + 1..], k, values[..at] + values[at + 1..])
    ensures queue[at].sets == values[at] && queue[at].k == k && queue[at] !in queue[..at] + queue[at + 1..]
    ensures forall s | s in queue[..at] + queue[at + 1..] :: s in queue
  {
  }

  method MergeTwo(ghost lens: seq<nat>, ghost k: nat, ghost d: nat, ghost equalSize: bool,
                  queue: seq<State>, ghost values: seq<seq<Bucket>>, ghost all: multiset<nat>)
    returns (next: seq<State>, ghost nextValues: seq<seq<Bucket>>)
    requires |queue| > 1 && k > 0 && Holds(queue, k, values) && QueueOk(lens, k, d, equalSize, values, all)
    modifies set s | s in queue
    ensures |next| == |queue| - 1 && Holds(next, k, nextValues)
    ensures QueueOk(lens, k, d, equalSize, nextValues, all)
    ensures forall s | s in next :: s in queue
  {
    hide QueueOk, SortDesc, MergedSets;
    var state0, rest0, at0 := Pop(queue);
    PopHolds(queue, k, values, at0);
    ghost var values0 := values[..at0] + values[at0 + 1..];
    var state1, rest1, at1 := Pop(rest0);
    PopHolds(rest0, k, values0, at1);
    TwoForOne(lens, k, d, equalSize, values, all, at0, at1);
    nextValues := values0[..at1] + values0[at1 + 1..] + [SortDesc(MergedSets(values[at0], values0[at1]))];
    state0.Merge(state1);
    next := rest1 + [state0];
  }

  /** One state per item, or one per group of `k` items. */
  method StartQueue(lens: seq<nat>, k: nat, equalSize: bool) returns (queue: seq<State>, ghost values: seq<seq<Bucket>>)
    requires k > 0 && lens != [] && (equalSize ==> |lens| % k == 0)
    ensures queue != [] && Holds(queue, k, values) && forall s | s in queue :: fresh(s)
    ensures QueueOk(lens, k, StartSpread(lens, k, equalSize), equalSize, values, multiset(Range(|lens|)))
  {
    hide *;
    StartFacts(lens, k, equalSize);
    var sorted := SortItems(Enumerate(lens));
    if equalSize {
      queue, values := QueueGroups(lens, k, sorted, WidestGroup(sorted, k), |lens| / k);
    } else {
      queue, values := QueueItems(lens, k, sorted);
    }
  }

  /** The number of items in `n` groups of `k`. */
  function Groups(n: nat, k: nat): nat {
    n * k
  }

  lemma NextOfGroups(left: nat, k: nat)
    requires Groups(left, k) > 0
    ensures left > 0 && Groups(left, k) == Groups(left - 1, k) + k
  {
    MulSucc(left - 1, k);
  }

  lemma StartFacts(lens: seq<nat>, k: nat, equalSize: bool)
    requires k > 0 && lens != [] && (equalSize ==> |lens| % k == 0)
    ensures var sorted := SortItems(Enumerate(lens));
      && sorted != [] && ItemsOk(lens, sorted) && Increasing(sorted)
      && IndexBag(sorted) == multiset(Range(|lens|))
      && (equalSize ==> |sorted| == Groups(|lens| / k, k))
      && StartSpread(lens, k, equalSize) == if equalSize then WidestGroup(sorted, k) else Longest(lens)
  {
    hide SortItems, WidestGroup, ItemsOk, Increasing, IndexBag;
    SortedItems(lens);
  }

  method QueueGroups(ghost lens: seq<nat>, k: nat, sorted: seq<Item>, ghost d: nat, ghost groups: nat)
    returns (queue: seq<State>, ghost values: seq<seq<Bucket>>)
    requires k > 0 && sorted != [] && |sorted| == Groups(groups, k) && Increasing(sorted) && ItemsOk(lens, sorted)
    requires WidestGroup(sorted, k) <= d
    ensures queue != [] && Holds(queue, k, values) && forall s | s in queue :: fresh(s)
    ensures QueueOk(lens, k, d, true, values, IndexBag(sorted))
  {
    hide QueueOk, SortDesc, InitialSets, WidestGroup, ItemsOk, Increasing, IndexBag, Groups;
    queue, values := [], [];
    EmptyQueueFits(lens, k, d, true, sorted);
    var offset := 0;
    ghost var left := groups;
    assert sorted[0..] == sorted;
    while offset < |sorted|
      invariant 0 <= offset <= |sorted| && |sorted| - offset == Groups(left, k) && (offset > 0 ==> queue != [])
      invariant WidestGroup(sorted[offset..], k) <= d
      invariant Holds(queue, k, values) && forall s | s in queue :: fresh(s)
      invariant QueueOk(lens, k, d, true, values, IndexBag(sorted[..offset]))
    {
      NextOfGroups(left, k);
      var items := sorted[offset..offset + k];
      NextGroup(lens, sorted, offset, k, d, values);
      var state := new State(items, k);
      queue, values := queue + [state], values + [state.sets];
      offset, left := offset + k, left - 1;
    }
    assert sorted[..offset] == sorted;
  }

  method QueueItems(ghost lens: seq<nat>, k: nat, sorted: seq<Item>)
    returns (queue: seq<State>, ghost values: seq<seq<Bucket>>)
    requires k > 0 && sorted != [] && ItemsOk(lens, sorted)
    ensures queue != [] && Holds(queue, k, values) && forall s | s in queue :: fresh(s)
    ensures QueueOk(lens, k, Longest(lens), false, values, IndexBag(sorted))
  {
    hide QueueOk, SortDesc, InitialSets, ItemsOk, IndexBag, Longest;
    queue, values := [], [];
    EmptyQueueFits(lens, k, Longest(lens), false, sorted);
    for i := 0 to |sorted|
      invariant i > 0 ==> queue != []
      invariant Holds(queue, k, values) && forall s | s in queue :: fresh(s)
      invariant QueueOk(lens, k, Longest(lens), false, values, IndexBag(sorted[..i]))
    {
      NextItem(lens, sorted, i, k, Longest(lens), values);
      var state := new State([sorted[i]], k);
      queue, values := queue + [state], values + [state.sets];
    }
    assert sorted[..|sorted|] == sorted;
  }

  lemma EmptyQueueFits(lens: seq<nat>, k: nat, d: nat, equalSize: bool, sorted: seq<Item>)
    requires k > 0
    ensures QueueOk(lens, k, d, equalSize, [], IndexBag(sorted[..0]))
  {
    assert Indices(sorted[..0]) == [];
  }

  lemma AppendState(lens: seq<nat>, k: nat, d: nat, equalSize: bool, values: seq<seq<Bucket>>,
                    before: seq<Item>, items: seq<Item>, v: seq<Bucket>)
    requires k > 0 && QueueOk(lens, k, d, equalSize, values, IndexBag(before))
    requires StateFits(lens, k, d, equalSize, v) && Bag(v) == IndexBag(items)
    ensures QueueOk(lens, k, d, equalSize, values + [v], IndexBag(before + items))
  {
    hide QueueOk, StateFits;
    PushFits(lens, k, d, equalSize, values, IndexBag(before), v);
    IndicesConcat(before, items);
  }

  lemma NextSlice(lens: seq<nat>, sorted: seq<Item>, offset: nat, k: nat, d: nat)
    requires k > 0 && offset + k <= |sorted| && Increasing(sorted) && ItemsOk(lens, sorted)
    requires WidestGroup(sorted[offset..], k) <= d
    ensures var items := sorted[offset..offset + k];
      && Increasing(items) && ItemsOk(lens, items) && items[k - 1].len - items[0].len <= d
      && WidestGroup(sorted[offset + k..], k) <= d
      && sorted[..offset] + items == sorted[..offset + k]
  {
    hide WidestGroup;
    assert sorted[offset..offset + k] == sorted[offset..][..k];
    assert sorted[offset..][k..] == sorted[offset + k..];
  }

  lemma NextGroup(lens: seq<nat>, sorted: seq<Item>, offset: nat, k: nat, d: nat, values: seq<seq<Bucket>>)
    requires k > 0 && offset + k <= |sorted| && Increasing(sorted) && ItemsOk(lens, sorted)
    requires WidestGroup(sorted[offset..], k) <= d
    requires QueueOk(lens, k, d, true, values, IndexBag(sorted[..offset]))
    ensures WidestGroup(sorted[offset + k..], k) <= d
    ensures QueueOk(lens, k, d, true, values + [SortDesc(InitialSets(sorted[offset..offset + k], k))],
                    IndexBag(sorted[..offset + k]))
  {
    hide *;
    var items := sorted[offset..offset + k];
    NextSlice(lens, sorted, offset, k, d);
    GroupFits(lens, items, k, d, true);
    AppendState(lens, k, d, true, values, sorted[..offset], items, SortDesc(InitialSets(items, k)));
  }

  lemma NextSingle(lens: seq<nat>, sorted: seq<Item>, i: nat, d: nat)
    requires i < |sorted| && ItemsOk(lens, sorted) && Longest(lens) <= d
    ensures ItemsOk(lens, [sorted[i]]) && sorted[i].len <= d && sorted[..i] + [sorted[i]] == sorted[..i + 1]
  {
    assert lens[sorted[i].idx] <= Longest(lens);
  }

  lemma NextItem(lens: seq<nat>, sorted: seq<Item>, i: nat, k: nat, d: nat, values: seq<seq<Bucket>>)
    requires k > 0 && i < |sorted| && ItemsOk(lens, sorted) && Longest(lens) <= d
    requires QueueOk(lens, k, d, false, values, IndexBag(sorted[..i]))
    ensures QueueOk(lens, k, d, false, values + [SortDesc(InitialSets([sorted[i]], k))], IndexBag(sorted[..i + 1]))
  {
    hide *;
    NextSingle(lens, sorted, i, d);
    OneItemFits(lens, sorted[i], k, d, false);
    AppendState(lens, k, d, false, values, sorted[..i], [sorted[i]], SortDesc(InitialSets([sorted[i]], k)));
  }

  /** The balanced partitions: checked, and each in increasing order. */

  function InsertNat(x: nat, s: seq<nat>): (r: seq<nat>)
    ensures multiset(r) == multiset{x} + multiset(s)
  {
    if s == [] || x <= s[0] then [x] + s
    else
      assert s == [s[0]] + s[1..];
      [s[0]] + InsertNat(x, s[1..])
  }

  function SortNats(s: seq<nat>): (r: seq<nat>)
    ensures multiset(r) == multiset(s)
  {
    if s == [] then []
    else
      assert s == [s[0]] + s[1..];
      InsertNat(s[0], SortNats(s[1..]))
  }

  ghost predicate Ordered(s: seq<nat>) {
    forall i, j :: 0 <= i < j < |s| ==> s[i] <= s[j]
  }

  lemma {:induction false} InsertNatOrdered(x: nat, s: seq<nat>)
    requires Ordered(s)
    ensures Ordered(InsertNat(x, s))
  {
    if s != [] && s[0] < x {
      InsertNatOrdered(x, s[1..]);
      var r := InsertNat(x, s[1..]);
      forall i | 0 <= i < |r|
        ensures s[0] <= r[i]
      {
        assert r[i] in multiset(r);
        assert r[i] == x || r[i] in s[1..];
      }
    }
  }

  lemma {:induction false} SortNatsOrdered(s: seq<nat>)
    ensures Ordered(SortNats(s))
  {
    if s != [] {
      SortNatsOrdered(s[1..]);
      InsertNatOrdered(s[0], SortNats(s[1..]));
    }
  }

  function SortEach(parts: seq<seq<nat>>): (r: seq<seq<nat>>)
    ensures |r| == |parts|
  {
    seq(|parts|, i requires 0 <= i < |parts| => SortNats(parts[i]))
  }

  lemma {:induction false} SortEachFlat(parts: seq<seq<nat>>)
    ensures multiset(Flat<nat>(SortEach(parts))) == multiset(Flat<nat>(parts))
  {
    if parts != [] {
      assert SortEach(parts)[1..] == SortEach(parts[1..]);
      SortEachFlat(parts[1..]);
    }
  }

  /** Sorting the parts keeps the split good. */
  lemma SortEachGood(lens: seq<nat>, k: nat, d: nat, equalSize: bool, parts: seq<seq<nat>>)
    requires GoodSplit(lens, k, d, equalSize, parts)
    ensures GoodSplit(lens, k, d, equalSize, SortEach(parts))
    ensures forall i :: 0 <= i < k ==> Ordered(SortEach(parts)[i])
  {
    SortEachFlat(parts);
    CoversInRange(SortEach(parts), |lens|);
    forall i | 0 <= i < k
      ensures Load(lens, SortEach(parts)[i]) == Load(lens, parts[i])
      ensures |SortEach(parts)[i]| == |parts[i]| && Ordered(SortEach(parts)[i])
    {
      assert SortEach(parts)[i] == SortNats(parts[i]);
      LoadPermutation(lens, SortNats(parts[i]), parts[i]);
      SortNatsOrdered(parts[i]);
      assert |multiset(SortNats(parts[i]))| == |multiset(parts[i])|;
    }
  }

  /** The indices seen in an exact cover are all of them. */
  lemma CoverSees(parts: seq<seq<nat>>, n: nat, seen: set<nat>)
    requires Covers(parts, n) && seen == set x | x in Flat<nat>(parts)
    ensures seen == set x | x in Range(n)
  {
    forall x
      ensures x in seen <==> x in Range(n)
    {
      assert x in multiset(Flat<nat>(parts)) <==> x in multiset(Range(n));
    }
  }

  method GetSeqlenBalancedPartitions(lens: seq<nat>, k: nat, equalSize: bool)
    returns (r: Result<seq<seq<nat>>, Error>)
    ensures r.Err? <==> k == 0 || |lens| < k || (equalSize && |lens| % k != 0)
    ensures r.Ok? ==> GoodSplit(lens, k, StartSpread(lens, k, equalSize), equalSize, r.value)
    ensures r.Ok? ==> forall i :: 0 <= i < k ==> Ordered(r.value[i])
  {
    hide StartSpread, SortNats, Ordered, SpreadAtMost;
    if |lens| < k {
      return Err(TooFewItems);
    }
    var split := KarmarkarKarp(lens, k, equalSize);
    if split.Err? {
      return split;
    }
    var partitions := split.value;
    assert |partitions| == k;
    var seen: set<nat>, sorted: seq<seq<nat>> := {}, [];
    for i := 0 to |partitions|
      invariant seen == set x | x in Flat<nat>(partitions[..i])
      invariant sorted == SortEach(partitions)[..i]
    {
      assert partitions[i] != [];
      assert partitions[..i + 1] == partitions[..i] + [partitions[i]];
      FlatConcat(partitions[..i], [partitions[i]]);
      FlatOne(partitions[i]);
      seen := seen + (set x | x in partitions[i]);
      sorted := sorted + [SortNats(partitions[i])];
    }
    assert partitions[..|partitions|] == partitions;
    assert sorted == SortEach(partitions);
    CoverSees(partitions, |lens|, seen);
    assert seen == set x | x in Range(|lens|);
    SortEachGood(lens, k, StartSpread(lens, k, equalSize), equalSize, partitions);
    r := Ok(sorted);
  }

  /** Loads differ by no more than the longest length, and with parts of equal size by no more
      than the longest less the shortest. */
  lemma SplitSpread(lens: seq<nat>, k: nat, equalSize: bool)
    requires k > 0 && lens != []
    ensures StartSpread(lens, k, equalSize) <= if equalSize then Longest(lens) - Shortest(lens) else Longest(lens)
  {
    SortedItems(lens);
    WidestGroupBound(lens, SortItems(Enumerate(lens)), k);
  }
}
