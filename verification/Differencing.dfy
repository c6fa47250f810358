/** Largest differencing: splits lengths into `k` sets of indices with nearly equal sums. */
module Differencing {
  import opened Arithmetic

  /** An index together with its length. */
  datatype Item = Item(idx: nat, len: nat)

  /** A set of items with its running sum. */
  datatype Bucket = Bucket(sum: nat, items: seq<Item>) {
    function Add(item: Item): Bucket {
      Bucket(sum + item.len, items + [item])
    }
  }

  const EMPTY := Bucket(0, [])

  function Total(items: seq<Item>): nat {
    if items == [] then 0 else Total(items[..|items| - 1]) + items[|items| - 1].len
  }

  lemma {:induction false} TotalConcat(a: seq<Item>, b: seq<Item>)
    ensures Total(a + b) == Total(a) + Total(b)
  {
    if b == [] {
      assert a + b == a;
    } else {
      assert (a + b)[..|a + b| - 1] == a + b[..|b| - 1];
      TotalConcat(a, b[..|b| - 1]);
    }
  }

  function Merged(a: Bucket, b: Bucket): Bucket {
    Bucket(a.sum + Total(b.items), a.items + b.items)
  }

  /** Order of buckets: by sum, then by number of items, then item by item. */

  predicate LessItems(a: seq<Item>, b: seq<Item>) {
    if b == [] then false
    else if a == [] then true
    else if a[0] != b[0] then a[0].idx < b[0].idx || (a[0].idx == b[0].idx && a[0].len < b[0].len)
    else LessItems(a[1..], b[1..])
  }

  predicate Less(a: Bucket, b: Bucket) {
    if a.sum != b.sum then a.sum < b.sum
    else if |a.items| != |b.items| then |a.items| < |b.items|
    else LessItems(a.items, b.items)
  }

  function InsertDesc(x: Bucket, s: seq<Bucket>): (r: seq<Bucket>)
    ensures |r| == |s| + 1
    ensures multiset(r) == multiset{x} + multiset(s)
  {
    if s == [] || !Less(x, s[0]) then [x] + s
    else
      assert s == [s[0]] + s[1..];
      [s[0]] + InsertDesc(x, s[1..])
  }

  /** The stable decreasing order. */
  function SortDesc(s: seq<Bucket>): (r: seq<Bucket>)
    ensures |r| == |s|
    ensures multiset(r) == multiset(s)
  {
    if s == [] then []
    else
      assert s == [s[0]] + s[1..];
      InsertDesc(s[0], SortDesc(s[1..]))
  }

  /** What the sets of a state hold. */

  ghost predicate BucketOk(lens: seq<nat>, b: Bucket) {
    && b.sum == Total(b.items)
    && forall i :: 0 <= i < |b.items| ==> b.items[i].idx < |lens| && b.items[i].len == lens[b.items[i].idx]
  }

  function Indices(items: seq<Item>): seq<nat> {
    seq(|items|, i requires 0 <= i < |items| => items[i].idx)
  }

  ghost function Bag(sets: seq<Bucket>): multiset<nat> {
    if sets == [] then multiset{} else multiset(Indices(sets[0].items)) + Bag(sets[1..])
  }

  ghost function NonEmpty(sets: seq<Bucket>): nat {
    if sets == [] then 0 else (if sets[0].items == [] then 0 else 1) + NonEmpty(sets[1..])
  }

  /** Sums decrease, and no empty set comes before a non-empty one. */
  ghost predicate Ranked(sets: seq<Bucket>) {
    forall i, j :: 0 <= i < j < |sets| ==>
      sets[i].sum >= sets[j].sum && (sets[i].items == [] ==> sets[j].items == [])
  }

  ghost predicate SpreadWithin(sets: seq<Bucket>, d: nat) {
    forall i, j :: 0 <= i < |sets| && 0 <= j < |sets| ==> sets[i].sum - sets[j].sum <= d
  }

  ghost predicate SameSize(sets: seq<Bucket>, c: nat) {
    forall i :: 0 <= i < |sets| ==> |sets[i].items| == c
  }

  /** Sorting. */

  ghost predicate EmptyIsZero(b: Bucket) {
    b.items == [] ==> b.sum == 0
  }

  lemma InsertMembers(x: Bucket, s: seq<Bucket>, i: nat)
    requires i < |s| + 1
    ensures InsertDesc(x, s)[i] == x || InsertDesc(x, s)[i] in s
  {
    assert InsertDesc(x, s)[i] in multiset(InsertDesc(x, s));
  }

  lemma {:induction false} InsertRanked(x: Bucket, s: seq<Bucket>)
    requires Ranked(s) && EmptyIsZero(x) && forall i :: 0 <= i < |s| ==> EmptyIsZero(s[i])
    ensures Ranked(InsertDesc(x, s))
  {
    if s != [] {
      if Less(x, s[0]) {
        InsertRanked(x, s[1..]);
        var r := InsertDesc(x, s[1..]);
        forall i | 0 <= i < |r|
          ensures s[0].sum >= r[i].sum && (r[i].items != [] ==> s[0].items != [])
        {
          InsertMembers(x, s[1..], i);
        }
      }
    }
  }

  lemma InsertOk(lens: seq<nat>, x: Bucket, s: seq<Bucket>)
    requires BucketOk(lens, x) && forall i :: 0 <= i < |s| ==> BucketOk(lens, s[i])
    ensures forall i :: 0 <= i < |s| + 1 ==> BucketOk(lens, InsertDesc(x, s)[i])
  {
    hide BucketOk, InsertDesc;
    forall i | 0 <= i < |s| + 1
      ensures BucketOk(lens, InsertDesc(x, s)[i])
    {
      InsertMembers(x, s, i);
    }
  }

  lemma {:induction false} SortRanked(lens: seq<nat>, s: seq<Bucket>)
    requires forall i :: 0 <= i < |s| ==> BucketOk(lens, s[i])
    ensures Ranked(SortDesc(s))
    ensures forall i :: 0 <= i < |s| ==> BucketOk(lens, SortDesc(s)[i])
  {
    if s != [] {
      SortRanked(lens, s[1..]);
      assert forall i :: 0 <= i < |s| - 1 ==> BucketOk(lens, SortDesc(s[1..])[i]);
      InsertRanked(s[0], SortDesc(s[1..]));
      InsertOk(lens, s[0], SortDesc(s[1..]));
    }
  }

  lemma {:induction false} InsertCounts(x: Bucket, s: seq<Bucket>)
    ensures Bag(InsertDesc(x, s)) == Bag([x] + s)
    ensures NonEmpty(InsertDesc(x, s)) == NonEmpty([x] + s)
  {
    assert ([x] + s)[1..] == s;
    if s != [] && Less(x, s[0]) {
      InsertCounts(x, s[1..]);
      assert ([x] + s[1..])[1..] == s[1..];
      assert InsertDesc(x, s)[1..] == InsertDesc(x, s[1..]);
    }
  }

  lemma {:induction false} SortCounts(s: seq<Bucket>)
    ensures Bag(SortDesc(s)) == Bag(s) && NonEmpty(SortDesc(s)) == NonEmpty(s)
  {
    if s != [] {
      SortCounts(s[1..]);
      InsertCounts(s[0], SortDesc(s[1..]));
      assert ([s[0]] + SortDesc(s[1..]))[1..] == SortDesc(s[1..]);
    }
  }

  lemma SortSpread(s: seq<Bucket>, d: nat, c: nat)
    ensures SpreadWithin(s, d) ==> SpreadWithin(SortDesc(s), d)
    ensures SameSize(s, c) ==> SameSize(SortDesc(s), c)
  {
    var r := SortDesc(s);
    forall i | 0 <= i < |r|
      ensures r[i] in s
    {
      assert r[i] in multiset(r);
    }
  }

  /** Merging two states: largest with smallest. */

  function MergedSets(a: seq<Bucket>, b: seq<Bucket>): (r: seq<Bucket>)
    requires |a| == |b|
    ensures |r| == |a|
  {
    seq(|a|, i requires 0 <= i < |a| => Merged(a[i], b[|b| - 1 - i]))
  }

  lemma MergedBucketsOk(lens: seq<nat>, a: seq<Bucket>, b: seq<Bucket>)
    requires |a| == |b|
    requires forall i :: 0 <= i < |a| ==> BucketOk(lens, a[i]) && BucketOk(lens, b[i])
    ensures forall i :: 0 <= i < |a| ==> BucketOk(lens, MergedSets(a, b)[i])
    ensures forall i :: 0 <= i < |a| ==> MergedSets(a, b)[i].sum == a[i].sum + b[|b| - 1 - i].sum
  {
    forall i | 0 <= i < |a|
      ensures BucketOk(lens, MergedSets(a, b)[i])
      ensures MergedSets(a, b)[i].sum == a[i].sum + b[|b| - 1 - i].sum
    {
      var x, y := a[i], b[|b| - 1 - i];
      TotalConcat(x.items, y.items);
      assert BucketOk(lens, y);
    }
  }

  /** The differencing step: pairing in reverse never widens the spread. */
  lemma MergeKeepsSpread(lens: seq<nat>, a: seq<Bucket>, b: seq<Bucket>, d: nat)
    requires |a| == |b| && Ranked(a) && Ranked(b) && SpreadWithin(a, d) && SpreadWithin(b, d)
    requires forall i :: 0 <= i < |a| ==> MergedSets(a, b)[i].sum == a[i].sum + b[|b| - 1 - i].sum
    ensures SpreadWithin(MergedSets(a, b), d)
  {
    var m, k := MergedSets(a, b), |a|;
    forall i, j | 0 <= i < k && 0 <= j < k
      ensures m[i].sum - m[j].sum <= d
    {
      assert a[i].sum - a[j].sum <= d && b[k - 1 - i].sum - b[k - 1 - j].sum <= d;
      if i < j {
        assert b[k - 1 - j].sum >= b[k - 1 - i].sum;
      } else if j < i {
        assert a[j].sum >= a[i].sum;
      }
    }
  }

  lemma {:induction false} BagSnoc(s: seq<Bucket>)
    requires s != []
    ensures Bag(s) == Bag(s[..|s| - 1]) + multiset(Indices(s[|s| - 1].items))
  {
    if |s| > 1 {
      BagSnoc(s[1..]);
      var front, rest := s[..|s| - 1], s[1..];
      assert front[1..] == rest[..|rest| - 1] && front[0] == s[0] && rest[|rest| - 1] == s[|s| - 1];
      hide Indices;
      assert Bag(front) == multiset(Indices(s[0].items)) + Bag(front[1..]);
    }
  }

  lemma IndicesConcat(a: seq<Item>, b: seq<Item>)
    ensures multiset(Indices(a + b)) == multiset(Indices(a)) + multiset(Indices(b))
  {
    assert Indices(a + b) == Indices(a) + Indices(b);
  }

  lemma {:induction false} MergeBag(a: seq<Bucket>, b: seq<Bucket>)
    requires |a| == |b|
    ensures Bag(MergedSets(a, b)) == Bag(a) + Bag(b)
  {
    if a != [] {
      var k := |a|;
      var rest := b[..k - 1];
      var m := MergedSets(a, b);
      assert m[1..] == MergedSets(a[1..], rest);
      assert m[0].items == a[0].items + b[k - 1].items;
      hide MergedSets, Indices;
      BagSnoc(b);
      MergeBag(a[1..], rest);
      IndicesConcat(a[0].items, b[k - 1].items);
    }
  }

  /** The non-empty sets of a ranked state are its first ones. */
  lemma {:induction false} NonEmptyFirst(sets: seq<Bucket>)
    requires Ranked(sets)
    ensures NonEmpty(sets) <= |sets|
    ensures forall i :: 0 <= i < |sets| ==> (sets[i].items != [] <==> i < NonEmpty(sets))
  {
    if sets != [] {
      var rest := sets[1..];
      assert forall i :: 0 <= i < |rest| ==> rest[i] == sets[i + 1];
      NonEmptyFirst(rest);
      assert sets[0].items == [] && rest != [] ==> rest[0].items == [];
    }
  }

  lemma {:induction false} NonEmptySnoc(s: seq<Bucket>)
    requires s != []
    ensures NonEmpty(s) == NonEmpty(s[..|s| - 1]) + if s[|s| - 1].items == [] then 0 else 1
  {
    if |s| > 1 {
      NonEmptySnoc(s[1..]);
      assert s[1..][..|s| - 2] == s[..|s| - 1][1..];
    }
  }

  /** Merging fills empty sets first: the counts of non-empty sets add up, as far as there is room. */
  lemma {:induction false} MergeNonEmpty(m: seq<Bucket>, k: nat, ea: nat, eb: nat)
    requires |m| <= k && ea <= k && eb <= k
    requires forall i :: 0 <= i < |m| ==> (m[i].items != [] <==> i < ea || k - 1 - i < eb)
    ensures NonEmpty(m) == Min(|m|, ea) + if |m| <= ea || |m| <= k - eb then 0
                                          else |m| - (if ea >= k - eb then ea else k - eb)
  {
    if m != [] {
      NonEmptySnoc(m);
      MergeNonEmpty(m[..|m| - 1], k, ea, eb);
    }
  }

  /** What every state of the queue satisfies. */
  ghost predicate StateOk(lens: seq<nat>, k: nat, d: nat, sets: seq<Bucket>) {
    && |sets| == k
    && (forall i :: 0 <= i < k ==> BucketOk(lens, sets[i]))
    && Ranked(sets)
    && SpreadWithin(sets, d)
    && NonEmpty(sets) == Min(k, |Bag(sets)|)
  }

  lemma MergedNonEmpty(k: nat, a: seq<Bucket>, b: seq<Bucket>, ea: nat, eb: nat)
    requires |a| == |b| == k && Ranked(a) && Ranked(b)
    requires ea == NonEmpty(a) && eb == NonEmpty(b)
    ensures NonEmpty(MergedSets(a, b)) == Min(k, ea + eb)
  {
    NonEmptyFirst(a);
    NonEmptyFirst(b);
    forall i | 0 <= i < k
      ensures MergedSets(a, b)[i].items != [] <==> i < ea || k - 1 - i < eb
    {
    }
    MergeNonEmpty(MergedSets(a, b), k, ea, eb);
  }

  lemma MergeCounts(k: nat, a: seq<Bucket>, b: seq<Bucket>)
    requires |a| == |b| == k && Ranked(a) && Ranked(b)
    requires NonEmpty(a) == Min(k, |Bag(a)|) && NonEmpty(b) == Min(k, |Bag(b)|)
    ensures NonEmpty(MergedSets(a, b)) == Min(k, |Bag(MergedSets(a, b))|)
  {
    MergedNonEmpty(k, a, b, NonEmpty(a), NonEmpty(b));
    MergeBag(a, b);
  }

  lemma SortStateOk(lens: seq<nat>, k: nat, d: nat, s: seq<Bucket>)
    requires |s| == k && SpreadWithin(s, d) && NonEmpty(s) == Min(k, |Bag(s)|)
    requires forall i :: 0 <= i < k ==> BucketOk(lens, s[i])
    ensures StateOk(lens, k, d, SortDesc(s)) && Bag(SortDesc(s)) == Bag(s)
  {
    SortRanked(lens, s);
    SortCounts(s);
    SortSpread(s, d, 0);
  }

  /** Merging keeps every state property and loses no index. */
  lemma MergeStateOk(lens: seq<nat>, k: nat, d: nat, a: seq<Bucket>, b: seq<Bucket>)
    requires StateOk(lens, k, d, a) && StateOk(lens, k, d, b)
    ensures StateOk(lens, k, d, SortDesc(MergedSets(a, b)))
    ensures Bag(SortDesc(MergedSets(a, b))) == Bag(a) + Bag(b)
  {
    MergedBucketsOk(lens, a, b);
    MergeKeepsSpread(lens, a, b, d);
    MergeBag(a, b);
    MergeCounts(k, a, b);
    SortStateOk(lens, k, d, MergedSets(a, b));
  }

  lemma MergeSameSize(a: seq<Bucket>, b: seq<Bucket>, ca: nat, cb: nat)
    requires |a| == |b| && SameSize(a, ca) && SameSize(b, cb)
    ensures SameSize(SortDesc(MergedSets(a, b)), ca + cb)
  {
    assert SameSize(MergedSets(a, b), ca + cb);
    SortSpread(MergedSets(a, b), 0, ca + cb);
  }
}
