/** Splitting a fused query-key-value weight into its three parts, whole or tensor-parallel. */
module QkvSplit {
  import opened Arithmetic
  import opened Options
  import opened Tensors

  /** A query group: `a` query rows, then `d` key rows, then `d` value rows. */

  function Queries<T>(groups: seq<seq<T>>, a: nat): seq<seq<T>>
    requires forall i :: 0 <= i < |groups| ==> a <= |groups[i]|
  {
    seq(|groups|, i requires 0 <= i < |groups| => groups[i][..a])
  }

  function Keys<T>(groups: seq<seq<T>>, a: nat, d: nat): seq<seq<T>>
    requires forall i :: 0 <= i < |groups| ==> a + d <= |groups[i]|
  {
    seq(|groups|, i requires 0 <= i < |groups| => groups[i][a..a + d])
  }

  function Values<T>(groups: seq<seq<T>>, a: nat, d: nat): seq<seq<T>>
    requires forall i :: 0 <= i < |groups| ==> a + d <= |groups[i]|
  {
    seq(|groups|, i requires 0 <= i < |groups| => groups[i][a + d..])
  }

  datatype Qkv<T> = Qkv(q: seq<T>, k: seq<T>, v: seq<T>)

  /** What splitting means: the queries of all groups, then their keys, then their values. */
  function Split<T>(groups: seq<seq<T>>, a: nat, d: nat): Qkv<T>
    requires forall i :: 0 <= i < |groups| ==> a + d <= |groups[i]|
  {
    Qkv(Flat(Queries(groups, a)), Flat(Keys(groups, a, d)), Flat(Values(groups, a, d)))
  }

  function Join<T>(x: Qkv<T>, y: Qkv<T>): Qkv<T> {
    Qkv(x.q + y.q, x.k + y.k, x.v + y.v)
  }

  /** Splitting shard by shard and concatenating is splitting the concatenation. */
  lemma SplitConcat<T>(x: seq<seq<T>>, y: seq<seq<T>>, a: nat, d: nat)
    requires AllSize(x, a + 2 * d) && AllSize(y, a + 2 * d)
    ensures Split(x + y, a, d) == Join(Split(x, a, d), Split(y, a, d))
  {
    assert Queries(x + y, a) == Queries(x, a) + Queries(y, a);
    assert Keys(x + y, a, d) == Keys(x, a, d) + Keys(y, a, d);
    assert Values(x + y, a, d) == Values(x, a, d) + Values(y, a, d);
    FlatConcat(Queries(x, a), Queries(y, a));
    FlatConcat(Keys(x, a, d), Keys(y, a, d));
    FlatConcat(Values(x, a, d), Values(y, a, d));
  }

  /** Putting the three parts back, group by group. */
  function Interleave<T>(s: Qkv<T>, n: nat, a: nat, d: nat): seq<T>
    decreases n
  {
    if n == 0 || |s.q| < a || |s.k| < d || |s.v| < d then []
    else s.q[..a] + s.k[..d] + s.v[..d] + Interleave(Qkv(s.q[a..], s.k[d..], s.v[d..]), n - 1, a, d)
  }

  lemma SplitHead<T>(groups: seq<seq<T>>, a: nat, d: nat)
    requires groups != [] && AllSize(groups, a + 2 * d)
    ensures AllSize(groups[1..], a + 2 * d)
    ensures Split(groups, a, d) ==
      Join(Qkv(groups[0][..a], groups[0][a..a + d], groups[0][a + d..]), Split(groups[1..], a, d))
  {
    assert Queries(groups, a)[1..] == Queries(groups[1..], a);
    assert Keys(groups, a, d)[1..] == Keys(groups[1..], a, d);
    assert Values(groups, a, d)[1..] == Values(groups[1..], a, d);
  }

  /** Every row lands exactly once: interleaving the parts recovers the fused weight. */
  lemma {:induction false} SplitLosesNothing<T>(groups: seq<seq<T>>, a: nat, d: nat)
    requires AllSize(groups, a + 2 * d)
    ensures Interleave(Split(groups, a, d), |groups|, a, d) == Flat(groups)
  {
    if groups != [] {
      var g, rest := groups[0], Split(groups[1..], a, d);
      SplitHead(groups, a, d);
      SplitLosesNothing(groups[1..], a, d);
      InterleaveNext(Qkv(g[..a], g[a..a + d], g[a + d..]), rest, |groups| - 1, a, d);
      hide Interleave, Split;
      assert g[..a] + g[a..a + d] + g[a + d..] == g;
    }
  }

  lemma InterleaveNext<T>(x: Qkv<T>, y: Qkv<T>, n: nat, a: nat, d: nat)
    requires |x.q| == a && |x.k| == d && |x.v| == d
    ensures Interleave(Join(x, y), n + 1, a, d) == x.q + x.k + x.v + Interleave(y, n, a, d)
  {
    var s := Join(x, y);
    assert s.q[..a] == x.q && s.q[a..] == y.q;
    assert s.k[..d] == x.k && s.k[d..] == y.k;
    assert s.v[..d] == x.v && s.v[d..] == y.v;
  }

  /** The sizes the code computes from the row count are those of a group. */
  lemma GroupSizes(n: nat, perKv: nat, d: nat)
    requires n > 0
    ensures n * d * perKv / n == perKv * d && n * d / n == d
    ensures n * d * (perKv + 2) == n * (perKv * d + 2 * d)
  {
    assert n * d * perKv == perKv * d * n;
    DivModMul(perKv * d, n);
    assert n * d == d * n;
    DivModMul(d, n);
  }

  function PerGroup(rows: nat, groups: nat): nat
    requires groups > 0
  {
    rows / groups
  }

  lemma PerGroupDivides(rows: nat, n: nat)
    requires n > 0 && rows % n == 0
    ensures rows == n * PerGroup(rows, n)
  {
  }

  /** Sizes that fill a chunk make up whole groups: nothing was lost to rounding. */
  lemma NothingRounded(kv: nat, perKv: nat, n: nat)
    requires n > 0 && PerGroup(kv * perKv, n) + 2 * PerGroup(kv, n) == CeilDiv(kv * (perKv + 2), n)
    ensures kv % n == 0
  {
    var a, d, c := PerGroup(kv * perKv, n), PerGroup(kv, n), CeilDiv(kv * (perKv + 2), n);
    assert kv * perKv == a * n + kv * perKv % n && kv == d * n + kv % n;
    assert c * n == a * n + 2 * (d * n);
    assert kv * (perKv + 2) == kv * perKv + 2 * kv;
  }

  /** Where the key rows divide among the groups, the chunks are equal sections of the split sizes. */
  lemma WholeChunks<T>(tensor: seq<T>, perKv: nat, n: nat, d: nat)
    requires n > 0 && |tensor| == n * d * (perKv + 2)
    ensures PerGroup(n * d * perKv, n) == perKv * d && PerGroup(n * d, n) == d && n * d % n == 0
    ensures |tensor| % n == 0 && |tensor| / n == perKv * d + 2 * d && Chunk(tensor, n) == Sections(tensor, n)
  {
    GroupSizes(n, perKv, d);
    SectionSize(n, d);
    SectionSize(n, perKv * d + 2 * d);
    FlatOfSections(tensor, n);
    hide Chunk, Flat;
    ChunkFlat(Sections(tensor, n), perKv * d + 2 * d);
  }

  /** The split sizes fit all chunks exactly when the key rows divide among the groups. */
  lemma ChunksFitIff<T>(tensor: seq<T>, kv: nat, perKv: nat, n: nat)
    requires n > 0 && |tensor| == kv * (perKv + 2)
    ensures AllSize(Chunk(tensor, n), PerGroup(kv * perKv, n) + 2 * PerGroup(kv, n)) <==> kv % n == 0
    ensures kv % n == 0 ==>
      && PerGroup(kv * perKv, n) == perKv * PerGroup(kv, n)
      && |tensor| % n == 0 && |tensor| / n == perKv * PerGroup(kv, n) + 2 * PerGroup(kv, n)
      && Chunk(tensor, n) == Sections(tensor, n)
  {
    FirstChunk(tensor, n);
    if kv % n == 0 {
      PerGroupDivides(kv, n);
    }
    hide Chunk, CeilDiv, Sections, PerGroup;
    if kv % n == 0 {
      WholeChunks(tensor, perKv, n, PerGroup(kv, n));
    } else if AllSize(Chunk(tensor, n), PerGroup(kv * perKv, n) + 2 * PerGroup(kv, n)) {
      NothingRounded(kv, perKv, n);
    }
  }

  datatype Error = NoGroups | HeadsDoNotDivide | RowsDoNotDivide | SizesDoNotAddUp

  /** Takes the chunks of one tensor apart, unless the sizes do not add up to a chunk. */
  method SplitChunks<T>(tensor: seq<T>, n: nat, a: nat, d: nat)
    returns (ok: bool, qLst: seq<seq<T>>, kLst: seq<seq<T>>, vLst: seq<seq<T>>)
    requires n > 0
    ensures ok <==> AllSize(Chunk(tensor, n), a + 2 * d)
    ensures ok ==> qLst == Queries(Chunk(tensor, n), a)
    ensures ok ==> kLst == Keys(Chunk(tensor, n), a, d) && vLst == Values(Chunk(tensor, n), a, d)
  {
    var chunks := Chunk(tensor, n);
    hide Chunk;
    qLst, kLst, vLst := [], [], [];
    for i := 0 to |chunks|
      invariant AllSize(chunks[..i], a + 2 * d)
      invariant qLst == Queries(chunks[..i], a)
      invariant kLst == Keys(chunks[..i], a, d) && vLst == Values(chunks[..i], a, d)
    {
      var chunk := chunks[i];
      if |chunk| != a + d + d {
        return false, [], [], [];
      }
      qLst := qLst + [chunk[..a]];
      kLst := kLst + [chunk[a..a + d]];
      vLst := vLst + [chunk[a + d..]];
    }
    assert chunks[..|chunks|] == chunks;
    ok := true;
  }

  /** A weight of `n` groups, with `perKv` query heads for each key-value head. */
  predicate WholeGroups(rows: nat, n: nat, perKv: nat) {
    n > 0 && rows % (perKv + 2) == 0 && PerGroup(rows, perKv + 2) % n == 0
  }

  /** The rows of one head. */
  function HeadRows(rows: nat, n: nat, perKv: nat): nat
    requires n > 0
  {
    PerGroup(PerGroup(rows, perKv + 2), n)
  }

  lemma WholeGroupSizes(rows: nat, n: nat, perKv: nat)
    requires WholeGroups(rows, n, perKv)
    ensures var d := HeadRows(rows, n, perKv);
      rows % n == 0 && rows / n == perKv * d + 2 * d
  {
    var d := HeadRows(rows, n, perKv);
    PerGroupDivides(rows, perKv + 2);
    PerGroupDivides(PerGroup(rows, perKv + 2), n);
    GroupSizes(n, perKv, d);
    hide *;
    SectionSize(n, perKv * d + 2 * d);
  }

  /** What splitting a weight of `n` groups means. */
  ghost function SplitWhole<T>(tensor: seq<T>, n: nat, perKv: nat): Qkv<T>
    requires WholeGroups(|tensor|, n, perKv)
  {
    WholeGroupSizes(|tensor|, n, perKv);
    var d := HeadRows(|tensor|, n, perKv);
    Split(Sections(tensor, n), perKv * d, d)
  }

  /** The split of a whole fused weight, one group for each key-value head. */
  method SplitTensors<T>(tensor: seq<T>, heads: nat, kvHeads: nat) returns (s: Result<Qkv<T>, Error>)
    ensures s.Ok? <==> kvHeads > 0 && heads % kvHeads == 0 && WholeGroups(|tensor|, kvHeads, heads / kvHeads)
    ensures s.Ok? ==> s.value == SplitWhole(tensor, kvHeads, heads / kvHeads)
  {
    if kvHeads == 0 {
      return Err(NoGroups);
    }
    if heads % kvHeads != 0 {
      return Err(HeadsDoNotDivide);
    }
    var perKv := heads / kvHeads;
    if |tensor| % (perKv + 2) != 0 {
      return Err(RowsDoNotDivide);
    }
    var kvSize := PerGroup(|tensor|, perKv + 2);
    PerGroupDivides(|tensor|, perKv + 2);
    ChunksFitIff(tensor, kvSize, perKv, kvHeads);
    var a, d := PerGroup(kvSize * perKv, kvHeads), PerGroup(kvSize, kvHeads);
    hide Chunk, Sections, Queries, Keys, Values, Flat;
    var ok, qLst, kLst, vLst := SplitChunks(tensor, kvHeads, a, d);
    if !ok {
      return Err(SizesDoNotAddUp);
    }
    s := Ok(Qkv(Flat(qLst), Flat(kLst), Flat(vLst)));
  }

  /** Tensor-parallel shards: each holds a run of consecutive groups. */

  function Shards<T>(shardGroups: seq<seq<seq<T>>>): seq<seq<T>> {
    seq(|shardGroups|, i requires 0 <= i < |shardGroups| => Flat(shardGroups[i]))
  }

  ghost predicate Sharded<T>(shardGroups: seq<seq<seq<T>>>, heads: nat, kvHeads: nat, tp: nat, d: nat) {
    && tp > 0 && kvHeads > 0 && d > 0 && heads % kvHeads == 0 && kvHeads % tp == 0
    && |shardGroups| == tp
    && forall i :: 0 <= i < tp ==>
         |shardGroups[i]| == kvHeads / tp && AllSize(shardGroups[i], (heads / kvHeads + 2) * d)
  }

  lemma {:induction false} FlatAllSize<T>(shardGroups: seq<seq<seq<T>>>, size: nat)
    requires forall i :: 0 <= i < |shardGroups| ==> AllSize(shardGroups[i], size)
    ensures AllSize(Flat(shardGroups), size)
  {
    if shardGroups != [] {
      FlatAllSize(shardGroups[1..], size);
    }
  }

  /** The shards laid end to end are the rows of all groups. */
  lemma {:induction false} ShardsFlat<T>(shardGroups: seq<seq<seq<T>>>)
    ensures Flat(Shards(shardGroups)) == Flat(Flat(shardGroups))
  {
    if shardGroups != [] {
      assert Shards(shardGroups)[1..] == Shards(shardGroups[1..]);
      ShardsFlat(shardGroups[1..]);
      FlatConcat(shardGroups[0], Flat(shardGroups[1..]));
    }
  }

  function JoinAll<T>(parts: seq<Qkv<T>>): Qkv<T> {
    if parts == [] then Qkv([], [], []) else Join(parts[0], JoinAll(parts[1..]))
  }

  ghost function SplitEach<T>(shardGroups: seq<seq<seq<T>>>, a: nat, d: nat): (r: seq<Qkv<T>>)
    requires forall i :: 0 <= i < |shardGroups| ==> AllSize(shardGroups[i], a + 2 * d)
    ensures |r| == |shardGroups|
  {
    seq(|shardGroups|, i requires 0 <= i < |shardGroups| =>
      (assert AllSize(shardGroups[i], a + 2 * d); Split(shardGroups[i], a, d)))
  }

  /** Splitting every shard and joining the parts gives the split of the joined shards. */
  lemma {:induction false} ShardwiseSplit<T>(shardGroups: seq<seq<seq<T>>>, a: nat, d: nat)
    requires forall i :: 0 <= i < |shardGroups| ==> AllSize(shardGroups[i], a + 2 * d)
    ensures AllSize(Flat(shardGroups), a + 2 * d)
    ensures Split(Flat(shardGroups), a, d) ==
      JoinAll(SplitEach(shardGroups, a, d))
  {
    FlatAllSize(shardGroups, a + 2 * d);
    if shardGroups != [] {
      var rest := shardGroups[1..];
      ShardwiseSplit(rest, a, d);
      assert SplitEach(shardGroups, a, d)[1..] == SplitEach(rest, a, d);
      SplitConcat(shardGroups[0], Flat(rest), a, d);
    }
  }

  lemma FlatNext<T>(shardGroups: seq<seq<seq<T>>>, i: nat)
    requires i < |shardGroups|
    ensures Flat(shardGroups[..i + 1]) == Flat(shardGroups[..i]) + shardGroups[i]
  {
    assert shardGroups[..i + 1] == shardGroups[..i] + [shardGroups[i]];
    FlatConcat(shardGroups[..i], [shardGroups[i]]);
    FlatOne(shardGroups[i]);
  }

  lemma PartsNext<T>(before: seq<seq<T>>, groups: seq<seq<T>>, a: nat, d: nat)
    requires AllSize(before, a + 2 * d) && AllSize(groups, a + 2 * d)
    ensures Queries(before + groups, a) == Queries(before, a) + Queries(groups, a)
    ensures Keys(before + groups, a, d) == Keys(before, a, d) + Keys(groups, a, d)
    ensures Values(before + groups, a, d) == Values(before, a, d) + Values(groups, a, d)
  {
  }

  ghost function Cuts<T>(shards: seq<seq<T>>, n: nat, rows: nat): (r: seq<seq<seq<T>>>)
    requires n > 0 && rows % n == 0 && AllSize(shards, rows)
    ensures |r| == |shards| && forall i :: 0 <= i < |shards| ==> |r[i]| == n && AllSize(r[i], rows / n)
  {
    seq(|shards|, i requires 0 <= i < |shards| => Sections(shards[i], n))
  }

  /** The groups of all shards are the equal sections of the joined weight. */
  lemma CutsAreSections<T>(shards: seq<seq<T>>, n: nat, rows: nat, m: nat)
    requires n > 0 && rows % n == 0 && AllSize(shards, rows) && shards != [] && m == |shards| * n
    ensures m > 0 && |Flat(shards)| % m == 0 && Flat(Cuts(shards, n, rows)) == Sections(Flat(shards), m)
  {
    var cuts := Cuts(shards, n, rows);
    forall i | 0 <= i < |shards|
      ensures Flat(cuts[i]) == shards[i]
    {
      FlatOfSections(shards[i], n);
    }
    assert Shards(cuts) == shards;
    ShardsFlat(cuts);
    FlatAllSize(cuts, rows / n);
    FlatSize(cuts, n);
    MulMonotone(1, |shards|, n);
    SectionOfFlat(Flat(cuts), rows / n, 0);
    var groups := Flat(cuts);
    hide Flat, Cuts, Sections, Shards;
    forall j | 0 <= j < |groups|
      ensures groups[j] == Section(Flat(groups), |groups|, j)
    {
      SectionOfFlat(groups, rows / n, j);
    }
    SectionsAt(Flat(shards), m, groups);
  }

  lemma SectionsAt<T>(whole: seq<T>, n: nat, groups: seq<seq<T>>)
    requires n > 0 && |whole| % n == 0 && |groups| == n
    requires forall j :: 0 <= j < n ==> groups[j] == Section(whole, n, j)
    ensures groups == Sections(whole, n)
  {
  }

  /** Shards of whole groups joined are a weight of whole groups, with heads of the same size. */
  lemma JoinedGroups(count: nat, rows: nat, n: nat, perKv: nat)
    requires count > 0 && WholeGroups(rows, n, perKv)
    ensures WholeGroups(count * rows, count * n, perKv)
    ensures count * n > 0 && HeadRows(count * rows, count * n, perKv) == HeadRows(rows, n, perKv)
  {
    var d, m := HeadRows(rows, n, perKv), count * n;
    MulMonotone(1, count, n);
    PerGroupDivides(rows, perKv + 2);
    PerGroupDivides(PerGroup(rows, perKv + 2), n);
    assert rows == n * d * (perKv + 2);
    assert count * rows == m * d * (perKv + 2);
    DivModMul(m * d, perKv + 2);
    SectionSize(m, d);
  }

  /** Gathers the shards of all tensor-parallel ranks, splitting each. With fewer key-value heads than
      ranks a shard has no whole group to be cut into. */
  method DefaultTpConcat<T>(inferParams: seq<seq<T>>, heads: nat, kvHeads: nat, tp: nat, ghost rows: nat)
    returns (s: Result<Qkv<T>, Error>)
    requires tp > 0 && inferParams != [] && AllSize(inferParams, rows)
    ensures s.Ok? <==> kvHeads > 0 && heads % kvHeads == 0 && WholeGroups(rows, kvHeads / tp, heads / kvHeads)
    ensures s.Ok? ==> |Flat(inferParams)| == |inferParams| * rows
    ensures s.Ok? ==> WholeGroups(|Flat(inferParams)|, |inferParams| * (kvHeads / tp), heads / kvHeads)
    ensures s.Ok? ==>
      s.value == SplitWhole(Flat(inferParams), |inferParams| * (kvHeads / tp), heads / kvHeads)
  {
    if kvHeads == 0 {
      return Err(NoGroups);
    }
    if heads % kvHeads != 0 {
      return Err(HeadsDoNotDivide);
    }
    var perKv, n := heads / kvHeads, kvHeads / tp;
    if |inferParams[0]| % (perKv + 2) != 0 {
      return Err(RowsDoNotDivide);
    }
    if n == 0 {
      return Err(NoGroups);
    }
    var kvSizePerTp := PerGroup(|inferParams[0]|, perKv + 2);
    PerGroupDivides(rows, perKv + 2);
    FlatSize(inferParams, rows);
    hide PerGroup, Flat, Cuts, SplitWhole, Split;
    s := ConcatShards(inferParams, perKv, n, kvSizePerTp);
    if s.Ok? {
      SplitOfShards(inferParams, rows, n, perKv, |inferParams| * n);
    }
  }

  /** The split of the joined weight is that of the groups of all shards. */
  lemma SplitOfShards<T>(shards: seq<seq<T>>, rows: nat, n: nat, perKv: nat, m: nat)
    requires shards != [] && AllSize(shards, rows) && WholeGroups(rows, n, perKv) && m == |shards| * n
    ensures WholeGroups(|Flat(shards)|, m, perKv) && rows % n == 0
    ensures var d := HeadRows(rows, n, perKv);
      && AllSize(Flat(Cuts(shards, n, rows)), perKv * d + 2 * d)
      && SplitWhole(Flat(shards), m, perKv) == Split(Flat(Cuts(shards, n, rows)), perKv * d, d)
  {
    FlatSize(shards, rows);
    JoinedGroups(|shards|, rows, n, perKv);
    WholeGroupSizes(rows, n, perKv);
    CutsAreSections(shards, n, rows, m);
    WholeIsSplit(Flat(shards), m, perKv, HeadRows(rows, n, perKv));
  }

  lemma WholeIsSplit<T>(tensor: seq<T>, m: nat, perKv: nat, d: nat)
    requires WholeGroups(|tensor|, m, perKv) && d == HeadRows(|tensor|, m, perKv)
    ensures |tensor| % m == 0 && |tensor| / m == perKv * d + 2 * d
    ensures SplitWhole(tensor, m, perKv) == Split(Sections(tensor, m), perKv * d, d)
  {
    WholeGroupSizes(|tensor|, m, perKv);
  }

  lemma GroupsPerRank(kvHeads: nat, tp: nat)
    requires tp > 0
    ensures kvHeads / tp == 0 <==> kvHeads < tp
  {
    if kvHeads < tp {
      DivModUnique(kvHeads, tp, 0, kvHeads);
    } else {
      DivAtLeast(kvHeads, tp, 1);
    }
  }

  /** The loop over the shards. */
  method ConcatShards<T>(inferParams: seq<seq<T>>, perKv: nat, n: nat, kvSizePerTp: nat)
    returns (s: Result<Qkv<T>, Error>)
    requires n > 0 && inferParams != [] && AllSize(inferParams, kvSizePerTp * (perKv + 2))
    ensures s.Ok? <==> kvSizePerTp % n == 0
    ensures s.Ok? ==> var rows, d := kvSizePerTp * (perKv + 2), PerGroup(kvSizePerTp, n);
      && rows % n == 0 && rows / n == perKv * d + 2 * d
      && AllSize(Flat(Cuts(inferParams, n, rows)), perKv * d + 2 * d)
      && s.value == Split(Flat(Cuts(inferParams, n, rows)), perKv * d, d)
  {
    var rows, a, d := kvSizePerTp * (perKv + 2), PerGroup(kvSizePerTp * perKv, n), PerGroup(kvSizePerTp, n);
    ChunksFitIff(inferParams[0], kvSizePerTp, perKv, n);
    hide PerGroup, Chunk, Sections, Flat, Cuts, Queries, Keys, Values;
    ghost var groups: seq<seq<T>> := [];
    var qLst: seq<seq<T>>, kLst: seq<seq<T>>, vLst: seq<seq<T>> := [], [], [];
    for i := 0 to |inferParams|
      invariant i > 0 ==> kvSizePerTp % n == 0
      invariant kvSizePerTp % n == 0 ==> groups == Flat(Cuts(inferParams, n, rows)[..i])
      invariant AllSize(groups, a + 2 * d)
      invariant qLst == Queries(groups, a) && kLst == Keys(groups, a, d) && vLst == Values(groups, a, d)
    {
      ChunksFitIff(inferParams[i], kvSizePerTp, perKv, n);
      var ok, q, k, v := SplitChunks(inferParams[i], n, a, d);
      if !ok {
        return Err(SizesDoNotAddUp);
      }
      FlatNext(Cuts(inferParams, n, rows), i);
      PartsNext(groups, Chunk(inferParams[i], n), a, d);
      groups := groups + Chunk(inferParams[i], n);
      qLst, kLst, vLst := qLst + q, kLst + k, vLst + v;
    }
    assert Cuts(inferParams, n, rows)[..|inferParams|] == Cuts(inferParams, n, rows);
    s := Ok(Qkv(Flat(qLst), Flat(kLst), Flat(vLst)));
  }

  /** The sizes the converter computes from the head counts. */
  lemma ShardSizes(d: nat, heads: nat, kvHeads: nat, tp: nat)
    requires tp > 0 && kvHeads > 0 && heads % kvHeads == 0 && kvHeads % tp == 0 && kvHeads / tp > 0
    ensures var perKv, n := heads / kvHeads, kvHeads / tp;
      && d * heads / tp == perKv * d * n && d * kvHeads / tp == d * n
      && perKv * d * n / n == perKv * d && d * n / n == d
      && perKv * d * n + 2 * (d * n) == n * ((perKv + 2) * d)
  {
    var perKv, n := heads / kvHeads, kvHeads / tp;
    assert kvHeads == n * tp && heads == perKv * kvHeads;
    assert d * heads == perKv * d * n * tp;
    assert d * kvHeads == d * n * tp;
    DivModMul(perKv * d * n, tp);
    DivModMul(d * n, tp);
    DivModMul(perKv * d, n);
    DivModMul(d, n);
  }

  /** The rows of `heads` heads that one rank holds, and the rows of one of its groups. */

  function PerRank(headDim: nat, heads: nat, tp: nat): nat
    requires tp > 0
  {
    headDim * heads / tp
  }

  /** Cuts the gathered weight into shards by position, then splits each. With fewer key-value heads than
      ranks the sizes are divided by a group count of zero. */
  method ConvertQkvShard<T>(full: seq<T>, headDim: nat, heads: nat, kvHeads: nat, tp: nat,
                            ghost shardGroups: seq<seq<seq<T>>>)
    returns (s: Result<Qkv<T>, Error>)
    requires tp > 0
    requires kvHeads >= tp ==> Sharded(shardGroups, heads, kvHeads, tp, headDim) && full == Flat(Flat(shardGroups))
    ensures s.Err? <==> kvHeads < tp
    ensures s.Ok? ==> AllSize(Flat(shardGroups), heads / kvHeads * headDim + 2 * headDim)
    ensures s.Ok? ==> s.value == Split(Flat(shardGroups), heads / kvHeads * headDim, headDim)
  {
    GroupsPerRank(kvHeads, tp);
    if kvHeads / tp == 0 {
      return Err(NoGroups);
    }
    ShardFacts(shardGroups, heads, kvHeads, tp, headDim);
    hide *;
    var qSizeTp, kvSizeTp := PerRank(headDim, heads, tp), PerRank(headDim, kvHeads, tp);
    var totalSize, n := qSizeTp + 2 * kvSizeTp, kvHeads / tp;
    var a, d := PerGroup(qSizeTp, n), PerGroup(kvSizeTp, n);
    FlatAllSize(shardGroups, a + 2 * d);
    var cut := CutShards(full, tp, n, a, d, totalSize, shardGroups);
    s := Ok(cut);
  }

  method CutShards<T>(full: seq<T>, tp: nat, n: nat, a: nat, d: nat, totalSize: nat,
                      ghost shardGroups: seq<seq<seq<T>>>)
    returns (s: Qkv<T>)
    requires n > 0 && d > 0 && totalSize == n * (a + 2 * d) && |shardGroups| == tp && full == Flat(Flat(shardGroups))
    requires forall i :: 0 <= i < tp ==> |shardGroups[i]| == n && AllSize(shardGroups[i], a + 2 * d)
    requires AllSize(Flat(shardGroups), a + 2 * d)
    ensures s == Split(Flat(shardGroups), a, d)
  {
    hide Flat, Queries, Keys, Values, Shards;
    var qLst: seq<seq<T>>, kLst: seq<seq<T>>, vLst: seq<seq<T>> := [], [], [];
    NoParts<T>(a, d);
    assert shardGroups[..0] == [];
    for i := 0 to tp
      invariant AllSize(Flat(shardGroups[..i]), a + 2 * d)
      invariant qLst == Queries(Flat(shardGroups[..i]), a)
      invariant kLst == Keys(Flat(shardGroups[..i]), a, d)
      invariant vLst == Values(Flat(shardGroups[..i]), a, d)
    {
      ShardAt(shardGroups, n, a + 2 * d, i, totalSize);
      var part := full[i * totalSize..(i + 1) * totalSize];
      var q, k, v := CutChunks(part, a, d, n, shardGroups[i]);
      FlatNext(shardGroups, i);
      PartsNext(Flat(shardGroups[..i]), shardGroups[i], a, d);
      qLst, kLst, vLst := qLst + q, kLst + k, vLst + v;
    }
    assert shardGroups[..tp] == shardGroups;
    s := Qkv(Flat(qLst), Flat(kLst), Flat(vLst));
  }

  lemma NoParts<T>(a: nat, d: nat)
    ensures Flat<seq<T>>([]) == [] && AllSize<T>([], a + 2 * d)
    ensures Queries<T>([], a) == [] && Keys<T>([], a, d) == [] && Values<T>([], a, d) == []
  {
  }

  lemma ShardFacts<T>(shardGroups: seq<seq<seq<T>>>, heads: nat, kvHeads: nat, tp: nat, headDim: nat)
    requires Sharded(shardGroups, heads, kvHeads, tp, headDim) && kvHeads / tp > 0
    ensures |shardGroups| == tp > 0
    ensures var qSizeTp, kvSizeTp, n := PerRank(headDim, heads, tp), PerRank(headDim, kvHeads, tp), kvHeads / tp;
      var a, d := PerGroup(qSizeTp, n), PerGroup(kvSizeTp, n);
      && a == heads / kvHeads * headDim && d == headDim > 0 && qSizeTp + 2 * kvSizeTp == n * (a + 2 * d)
      && (forall i :: 0 <= i < tp ==> |shardGroups[i]| == n && AllSize(shardGroups[i], a + 2 * d))
  {
    ShardSizes(headDim, heads, kvHeads, tp);
  }

  lemma ShardAt<T>(shardGroups: seq<seq<seq<T>>>, n: nat, size: nat, i: nat, totalSize: nat)
    requires i < |shardGroups| && totalSize == n * size
    requires forall j :: 0 <= j < |shardGroups| ==> |shardGroups[j]| == n && AllSize(shardGroups[j], size)
    ensures 0 <= i * totalSize <= (i + 1) * totalSize <= |Flat(Flat(shardGroups))|
    ensures Flat(Flat(shardGroups))[i * totalSize..(i + 1) * totalSize] == Flat(shardGroups[i])
  {
    ShardsFlat(shardGroups);
    ShardsAllSize(shardGroups, n, size);
    SliceFlat(Shards(shardGroups), totalSize, i);
    MulSucc(i, totalSize);
  }

  lemma ShardsAllSize<T>(shardGroups: seq<seq<seq<T>>>, n: nat, size: nat)
    requires forall i :: 0 <= i < |shardGroups| ==> |shardGroups[i]| == n && AllSize(shardGroups[i], size)
    ensures AllSize(Shards(shardGroups), n * size)
  {
    forall i | 0 <= i < |shardGroups|
      ensures |Shards(shardGroups)[i]| == n * size
    {
      FlatSize(shardGroups[i], size);
    }
  }

  method CutChunks<T>(part: seq<T>, a: nat, d: nat, n: nat, ghost groups: seq<seq<T>>)
    returns (qLst: seq<seq<T>>, kLst: seq<seq<T>>, vLst: seq<seq<T>>)
    requires n > 0 && d > 0 && |groups| == n && AllSize(groups, a + 2 * d) && part == Flat(groups)
    ensures qLst == Queries(groups, a) && kLst == Keys(groups, a, d) && vLst == Values(groups, a, d)
  {
    ChunkFlat(groups, a + 2 * d);
    var chunks := Chunk(part, n);
    qLst, kLst, vLst := [], [], [];
    for i := 0 to |chunks|
      invariant qLst == Queries(groups, a)[..i]
      invariant kLst == Keys(groups, a, d)[..i] && vLst == Values(groups, a, d)[..i]
    {
      qLst := qLst + [chunks[i][..a]];
      kLst := kLst + [chunks[i][a..a + d]];
      vLst := vLst + [chunks[i][a + d..]];
    }
  }
}
