/** Sequence parallelism: exchanging sequence shards for head shards, and back. */
module Ulysses {
  import opened Arithmetic
  import opened Tensors

  /** A tensor on one rank: a row for every position, a column for every head. */
  type Tensor<T> = seq<seq<T>>

  datatype Dim = Seq | Head

  ghost predicate Shaped<T>(x: Tensor<T>, rows: nat, cols: nat) {
    |x| == rows && AllSize(x, cols)
  }

  ghost predicate AllShaped<T>(xs: seq<Tensor<T>>, rows: nat, cols: nat) {
    forall i :: 0 <= i < |xs| ==> Shaped(xs[i], rows, cols)
  }

  /** Cutting and joining along either dimension. */

  function Part<T>(x: Tensor<T>, dim: Dim, n: nat, j: nat): Tensor<T>
    requires j < n && (dim.Seq? ==> |x| % n == 0)
    requires dim.Head? ==> forall i :: 0 <= i < |x| ==> |x[i]| % n == 0
  {
    if dim.Seq? then Section(x, n, j)
    else seq(|x|, i requires 0 <= i < |x| => Section(x[i], n, j))
  }

  /** Row `i` of tensors joined side by side. */
  function RowOf<T>(xs: seq<Tensor<T>>, i: nat): (r: seq<seq<T>>)
    requires forall j :: 0 <= j < |xs| ==> i < |xs[j]|
    ensures |r| == |xs|
  {
    seq(|xs|, j requires 0 <= j < |xs| => xs[j][i])
  }

  function Cat<T>(xs: seq<Tensor<T>>, dim: Dim): Tensor<T>
    requires xs != [] && forall j :: 0 <= j < |xs| ==> |xs[j]| == |xs[0]|
  {
    if dim.Seq? then Flat(xs)
    else seq(|xs[0]|, i requires 0 <= i < |xs[0]| => Flat(RowOf(xs, i)))
  }

  ghost predicate Divides<T>(x: Tensor<T>, dim: Dim, n: nat, rows: nat, cols: nat) {
    n > 0 && (if dim.Seq? then Shaped(x, n * rows, cols) else Shaped(x, rows, n * cols))
  }

  lemma PartShape<T>(x: Tensor<T>, dim: Dim, n: nat, j: nat, rows: nat, cols: nat)
    requires Divides(x, dim, n, rows, cols) && j < n
    ensures dim.Seq? ==> |x| % n == 0
    ensures dim.Head? ==> forall i :: 0 <= i < |x| ==> |x[i]| % n == 0
    ensures Shaped(Part(x, dim, n, j), rows, cols)
  {
    SectionSize(n, rows);
    SectionSize(n, cols);
    if dim.Seq? {
      SectionBounds(|x|, n, j);
    }
  }

  function Parts<T>(x: Tensor<T>, dim: Dim, n: nat): (r: seq<Tensor<T>>)
    requires n > 0 && (dim.Seq? ==> |x| % n == 0)
    requires dim.Head? ==> forall i :: 0 <= i < |x| ==> |x[i]| % n == 0
    ensures |r| == n
  {
    seq(n, j requires 0 <= j < n => Part(x, dim, n, j))
  }

  /** Joining the parts of a tensor gives the tensor. */
  lemma CatOfParts<T>(x: Tensor<T>, dim: Dim, n: nat, rows: nat, cols: nat)
    requires Divides(x, dim, n, rows, cols)
    ensures dim.Seq? ==> |x| % n == 0
    ensures dim.Head? ==> forall i :: 0 <= i < |x| ==> |x[i]| % n == 0
    ensures AllShaped(Parts(x, dim, n), rows, cols) && Cat(Parts(x, dim, n), dim) == x
  {
    PartShape(x, dim, n, 0, rows, cols);
    forall j | 0 <= j < n
      ensures Shaped(Parts(x, dim, n)[j], rows, cols)
    {
      PartShape(x, dim, n, j, rows, cols);
    }
    if dim.Seq? {
      FlatOfSections(x, n);
      assert Parts(x, dim, n) == Sections(x, n);
    } else {
      forall i | 0 <= i < rows
        ensures Flat(RowOf(Parts(x, dim, n), i)) == x[i]
      {
        FlatOfSections(x[i], n);
        assert RowOf(Parts(x, dim, n), i) == Sections(x[i], n);
      }
    }
  }

  /** A part of joined tensors is the tensor that was joined in. */
  lemma PartOfCat<T>(xs: seq<Tensor<T>>, dim: Dim, rows: nat, cols: nat, j: nat)
    requires AllShaped(xs, rows, cols) && j < |xs|
    ensures Divides(Cat(xs, dim), dim, |xs|, rows, cols)
    ensures dim.Seq? ==> |Cat(xs, dim)| % |xs| == 0
    ensures dim.Head? ==> forall i :: 0 <= i < |Cat(xs, dim)| ==> |Cat(xs, dim)[i]| % |xs| == 0
    ensures Part(Cat(xs, dim), dim, |xs|, j) == xs[j]
  {
    CatShape(xs, dim, rows, cols);
    PartShape(Cat(xs, dim), dim, |xs|, j, rows, cols);
    if dim.Seq? {
      SectionOfFlat(xs, rows, j);
    } else {
      forall i | 0 <= i < rows
        ensures Section(Cat(xs, dim)[i], |xs|, j) == xs[j][i]
      {
        SectionOfFlat(RowOf(xs, i), cols, j);
      }
    }
  }

  lemma CatShape<T>(xs: seq<Tensor<T>>, dim: Dim, rows: nat, cols: nat)
    requires AllShaped(xs, rows, cols) && xs != []
    ensures Divides(Cat(xs, dim), dim, |xs|, rows, cols)
  {
    if dim.Seq? {
      FlatSize(xs, rows);
      FlatRowSize(xs, rows, cols);
    } else {
      forall i | 0 <= i < rows
        ensures |Cat(xs, dim)[i]| == |xs| * cols
      {
        FlatSize(RowOf(xs, i), cols);
      }
    }
  }

  lemma {:induction false} FlatRowSize<T>(xs: seq<Tensor<T>>, rows: nat, cols: nat)
    requires AllShaped(xs, rows, cols)
    ensures AllSize(Flat(xs), cols)
  {
    if xs != [] {
      FlatRowSize(xs[1..], rows, cols);
    }
  }

  /** The exchange, on all ranks together: each rank cuts its tensor, sends a part to every rank,
      and joins what it receives. */
  function AllToAll<T>(xs: seq<Tensor<T>>, scatter: Dim, gather: Dim): (r: seq<Tensor<T>>)
    requires Exchangeable(xs, scatter)
    ensures |r| == |xs|
  {
    seq(|xs|, rank requires 0 <= rank < |xs| => Cat(Received(xs, scatter, rank), gather))
  }

  /** All ranks hold tensors of one shape that divides into as many parts as there are ranks. */
  ghost predicate Uniform<T>(xs: seq<Tensor<T>>, dim: Dim, rows: nat, cols: nat) {
    xs != [] && forall i :: 0 <= i < |xs| ==> Divides(xs[i], dim, |xs|, rows, cols)
  }

  predicate Exchangeable<T>(xs: seq<Tensor<T>>, dim: Dim) {
    && xs != []
    && (forall i :: 0 <= i < |xs| ==> |xs[i]| == |xs[0]|)
    && (dim.Seq? ==> |xs[0]| % |xs| == 0)
    && (dim.Head? ==> forall i, p :: 0 <= i < |xs| && 0 <= p < |xs[i]| ==> |xs[i][p]| % |xs| == 0)
  }

  function Received<T>(xs: seq<Tensor<T>>, scatter: Dim, rank: nat): (r: seq<Tensor<T>>)
    requires Exchangeable(xs, scatter) && rank < |xs|
    ensures |r| == |xs| && forall j :: 0 <= j < |r| ==> |r[j]| == |r[0]|
  {
    seq(|xs|, j requires 0 <= j < |xs| => Part(xs[j], scatter, |xs|, rank))
  }

  lemma UniformExchanges<T>(xs: seq<Tensor<T>>, dim: Dim, rows: nat, cols: nat)
    requires Uniform(xs, dim, rows, cols)
    ensures Exchangeable(xs, dim)
    ensures forall rank :: 0 <= rank < |xs| ==> AllShaped(Received(xs, dim, rank), rows, cols)
  {
    forall i | 0 <= i < |xs|
      ensures dim.Seq? ==> |xs[i]| % |xs| == 0
      ensures dim.Head? ==> forall p :: 0 <= p < |xs[i]| ==> |xs[i][p]| % |xs| == 0
    {
      PartShape(xs[i], dim, |xs|, 0, rows, cols);
    }
    forall rank, j | 0 <= rank < |xs| && 0 <= j < |xs|
      ensures Shaped(Part(xs[j], dim, |xs|, rank), rows, cols)
    {
      PartShape(xs[j], dim, |xs|, rank, rows, cols);
    }
  }

  /** The exchanged tensors divide along the dimension that was gathered. */
  lemma ExchangeShape<T>(xs: seq<Tensor<T>>, scatter: Dim, gather: Dim, rows: nat, cols: nat)
    requires Uniform(xs, scatter, rows, cols)
    ensures Exchangeable(xs, scatter) && Uniform(AllToAll(xs, scatter, gather), gather, rows, cols)
  {
    UniformExchanges(xs, scatter, rows, cols);
    forall rank | 0 <= rank < |xs|
      ensures Divides(AllToAll(xs, scatter, gather)[rank], gather, |xs|, rows, cols)
    {
      CatShape(Received(xs, scatter, rank), gather, rows, cols);
    }
  }

  /** Exchanging with the dimensions swapped undoes an exchange. It is also what the backward pass
      of an exchange does with its gradient. */
  lemma ExchangeInverts<T>(xs: seq<Tensor<T>>, scatter: Dim, gather: Dim, rows: nat, cols: nat)
    requires Uniform(xs, scatter, rows, cols)
    ensures Exchangeable(xs, scatter) && Exchangeable(AllToAll(xs, scatter, gather), gather)
    ensures AllToAll(AllToAll(xs, scatter, gather), gather, scatter) == xs
  {
    ExchangeShape(xs, scatter, gather, rows, cols);
    var ys, n := AllToAll(xs, scatter, gather), |xs|;
    UniformExchanges(ys, gather, rows, cols);
    UniformExchanges(xs, scatter, rows, cols);
    var zs := AllToAll(ys, gather, scatter);
    forall j | 0 <= j < n
      ensures zs[j] == xs[j]
    {
      forall r | 0 <= r < n
        ensures Received(ys, gather, j)[r] == Part(xs[j], scatter, n, r)
      {
        PartOfCat(Received(xs, scatter, r), gather, rows, cols, j);
      }
      CatOfParts(xs[j], scatter, n, rows, cols);
      assert Received(ys, gather, j) == Parts(xs[j], scatter, n);
    }
  }

  /** Padding the sequence so that it divides among the ranks. */

  /** The other way the padding is written comes to the same. */
  lemma PadSizesAgree(len: nat, n: nat)
    requires n > 0
    ensures (n - len % n) % n == PadSize(len, n)
  {
    if len % n == 0 {
      DivModUnique(n, n, 1, 0);
    } else {
      DivModUnique(n - len % n, n, 0, n - len % n);
    }
  }

  function PadTensor<T>(x: Tensor<T>, size: nat, cols: nat, zero: T): Tensor<T> {
    x + seq(size, _ => seq(cols, _ => zero))
  }

  /** Drops the last `size` rows; written as a slice ending at `-size`, it keeps nothing when
      `size` is zero. */
  function UnpadTensor<T>(x: Tensor<T>, size: nat): Tensor<T> {
    if size == 0 || |x| < size then [] else x[..|x| - size]
  }

  /** Before attention: all positions, some heads. `unpadded` is the true length, 0 if unknown. */
  function GatherSeqScatterHeads<T>(xs: seq<Tensor<T>>, unpadded: nat): (r: seq<Tensor<T>>)
    requires Exchangeable(xs, Head)
    requires forall y :: y in AllToAll(xs, Head, Seq) ==> unpadded <= |y|
    ensures |r| == |xs|
  {
    var ys := AllToAll(xs, Head, Seq);
    if unpadded != 0 && unpadded % |xs| != 0
    then seq(|ys|, r requires 0 <= r < |ys| => UnpadTensor(ys[r], |ys[r]| - unpadded))
    else ys
  }

  /** After attention: some positions, all heads. */
  function GatherHeadsScatterSeq<T>(xs: seq<Tensor<T>>, cols: nat, zero: T): seq<Tensor<T>>
    requires xs != [] && forall i :: 0 <= i < |xs| ==> |xs[i]| == |xs[0]|
  {
    PaddedDivides(|xs[0]|, |xs|);
    AllToAll(PadEach(xs, cols, zero), Seq, Head)
  }

  function PadEach<T>(xs: seq<Tensor<T>>, cols: nat, zero: T): (r: seq<Tensor<T>>)
    requires xs != []
    ensures |r| == |xs| && forall i :: 0 <= i < |r| ==> |r[i]| == |xs[i]| + PadSize(|xs[i]|, |xs|)
  {
    seq(|xs|, i requires 0 <= i < |xs| => PadTensor(xs[i], PadSize(|xs[i]|, |xs|), cols, zero))
  }

  /** Cutting heads commutes with laying positions end to end. */
  lemma {:induction false} HeadsOfFlat<T>(xs: seq<Tensor<T>>, n: nat, r: nat, rows: nat, cols: nat)
    requires r < n && AllShaped(xs, rows, n * cols) && n * cols % n == 0
    ensures forall p :: 0 <= p < |Flat(xs)| ==> |Flat(xs)[p]| % n == 0
    ensures Part(Flat(xs), Head, n, r) == Flat(seq(|xs|, j requires 0 <= j < |xs| => HeadPart(xs[j], n, r, rows, cols)))
  {
    FlatRowSize(xs, rows, n * cols);
    if xs != [] {
      var parts := seq(|xs|, j requires 0 <= j < |xs| => HeadPart(xs[j], n, r, rows, cols));
      var rest := xs[1..];
      HeadsOfFlat(rest, n, r, rows, cols);
      assert parts[1..] == seq(|rest|, j requires 0 <= j < |rest| => HeadPart(rest[j], n, r, rows, cols));
      assert Part(Flat(xs), Head, n, r) == parts[0] + Part(Flat(rest), Head, n, r);
    }
  }

  ghost function HeadPart<T>(x: Tensor<T>, n: nat, r: nat, rows: nat, cols: nat): Tensor<T>
    requires r < n && Shaped(x, rows, n * cols) && n * cols % n == 0
  {
    Part(x, Head, n, r)
  }

  /** What the exchange means for the whole tensor: sequence shards become head shards. */
  lemma SeqShardsToHeadShards<T>(x: Tensor<T>, n: nat, rows: nat, cols: nat)
    requires n > 0 && Shaped(x, n * rows, n * cols)
    ensures |x| % n == 0 && (forall i :: 0 <= i < |x| ==> |x[i]| % n == 0)
    ensures Uniform(Parts(x, Seq, n), Head, rows, cols) && Exchangeable(Parts(x, Seq, n), Head)
    ensures AllToAll(Parts(x, Seq, n), Head, Seq) == Parts(x, Head, n)
  {
    SectionSize(n, rows);
    SectionSize(n, cols);
    CatOfParts(x, Seq, n, rows, n * cols);
    var xs := Parts(x, Seq, n);
    UniformExchanges(xs, Head, rows, cols);
    forall r | 0 <= r < n
      ensures AllToAll(xs, Head, Seq)[r] == Parts(x, Head, n)[r]
    {
      HeadsOfFlat(xs, n, r, rows, cols);
      assert Received(xs, Head, r) == seq(|xs|, j requires 0 <= j < |xs| => HeadPart(xs[j], n, r, rows, cols));
    }
  }

  lemma HeadShardsToSeqShards<T>(x: Tensor<T>, n: nat, rows: nat, cols: nat)
    requires n > 0 && Shaped(x, n * rows, n * cols)
    ensures |x| % n == 0 && (forall i :: 0 <= i < |x| ==> |x[i]| % n == 0)
    ensures Exchangeable(Parts(x, Head, n), Seq)
    ensures AllToAll(Parts(x, Head, n), Seq, Head) == Parts(x, Seq, n)
  {
    SeqShardsToHeadShards(x, n, rows, cols);
    ExchangeInverts(Parts(x, Seq, n), Head, Seq, rows, cols);
  }

  /** The head parts of the padded tensor are the padded head parts of the tensor. */
  lemma PaddedHeads<T>(x: Tensor<T>, n: nat, cols: nat, size: nat, zero: T)
    requires n > 0 && AllSize(x, n * cols)
    ensures forall i :: 0 <= i < |x| ==> |x[i]| % n == 0
    ensures var padded := PadTensor(x, size, n * cols, zero);
      && (forall i :: 0 <= i < |padded| ==> |padded[i]| % n == 0)
      && (forall r :: 0 <= r < n ==> Parts(padded, Head, n)[r] == PadTensor(Parts(x, Head, n)[r], size, cols, zero))
      && (forall r :: 0 <= r < n ==> |Parts(padded, Head, n)[r]| == |x| + size)
  {
    SectionSize(n, cols);
    forall r | 0 <= r < n
      ensures Parts(PadTensor(x, size, n * cols, zero), Head, n)[r] == PadTensor(Parts(x, Head, n)[r], size, cols, zero)
    {
      PadThenCut(x, n, r, cols, size, zero);
    }
  }

  ghost predicate PaddedTo<T>(x: Tensor<T>, n: nat, rows: nat, cols: nat) {
    n > 0 && AllSize(x, n * cols) && |x| + PadSize(|x|, n) == n * rows
  }

  ghost function Padded<T>(x: Tensor<T>, n: nat, cols: nat, zero: T): Tensor<T>
    requires n > 0
  {
    PadTensor(x, PadSize(|x|, n), n * cols, zero)
  }

  lemma PaddedShape<T>(x: Tensor<T>, n: nat, rows: nat, cols: nat, zero: T)
    requires PaddedTo(x, n, rows, cols)
    ensures Shaped(Padded(x, n, cols, zero), n * rows, n * cols)
    ensures |Padded(x, n, cols, zero)| % n == 0
  {
    SectionSize(n, rows);
  }

  /** Shard `r` of the padded sequence holds the positions from `r * rows` on, and zeros beyond the end. */
  lemma PaddedShardAt<T>(x: Tensor<T>, n: nat, rows: nat, cols: nat, zero: T, r: nat, i: nat)
    requires PaddedTo(x, n, rows, cols) && r < n && i < rows
    ensures |Padded(x, n, cols, zero)| % n == 0 && |Parts(Padded(x, n, cols, zero), Seq, n)[r]| == rows
    ensures Parts(Padded(x, n, cols, zero), Seq, n)[r][i] ==
      if 0 <= r * rows + i < |x| then x[r * rows + i] else seq(n * cols, _ => zero)
  {
    PaddedShape(x, n, rows, cols, zero);
    SectionSize(n, rows);
    EntryOfSection(Padded(x, n, cols, zero), n, rows, r, i);
    hide Section;
  }

  /** Before attention each rank gathers exactly the true positions of its heads. */
  lemma GatheredAreTruePositions<T>(x: Tensor<T>, n: nat, rows: nat, cols: nat, zero: T)
    requires PaddedTo(x, n, rows, cols)
    ensures |Padded(x, n, cols, zero)| % n == 0 && (forall i :: 0 <= i < |x| ==> |x[i]| % n == 0)
    ensures var shards := Parts(Padded(x, n, cols, zero), Seq, n);
      && Exchangeable(shards, Head)
      && (forall y :: y in AllToAll(shards, Head, Seq) ==> |x| <= |y|)
      && GatherSeqScatterHeads(shards, |x|) == Parts(x, Head, n)
  {
    var size, padded := PadSize(|x|, n), Padded(x, n, cols, zero);
    PaddedShape(x, n, rows, cols, zero);
    PaddedHeads(x, n, cols, size, zero);
    SeqShardsToHeadShards(padded, n, rows, cols);
    var heads := Parts(padded, Head, n);
    PaddingNeeded(|x|, n);
    UnpaddedParts(heads, Parts(x, Head, n), |x|, size, cols, zero);
    hide Parts, Part, AllToAll, Exchangeable, Padded, Uniform, PadSize, PadTensor, UnpadTensor, PaddedTo;
  }

  lemma UnpaddedParts<T>(heads: seq<Tensor<T>>, parts: seq<Tensor<T>>, len: nat, size: nat, cols: nat, zero: T)
    requires |heads| == |parts|
    requires forall r :: 0 <= r < |parts| ==> |parts[r]| == len && heads[r] == PadTensor(parts[r], size, cols, zero)
    ensures forall r :: 0 <= r < |parts| ==>
      && |heads[r]| == len + size
      && parts[r] == if size > 0 then UnpadTensor(heads[r], |heads[r]| - len) else heads[r]
  {
  }

  lemma PaddingNeeded(len: nat, n: nat)
    requires n > 0
    ensures len % n != 0 ==> len != 0
    ensures PadSize(len, n) > 0 <==> len % n != 0
  {
  }

  /** After attention, sending those back restores the sharded padded sequence. */
  lemma ScatteredAreSequenceShards<T>(x: Tensor<T>, n: nat, rows: nat, cols: nat, zero: T)
    requires PaddedTo(x, n, rows, cols)
    ensures |Padded(x, n, cols, zero)| % n == 0 && (forall i :: 0 <= i < |x| ==> |x[i]| % n == 0)
    ensures (forall r :: 0 <= r < n ==> |Parts(x, Head, n)[r]| == |Parts(x, Head, n)[0]|)
    ensures GatherHeadsScatterSeq(Parts(x, Head, n), cols, zero) == Parts(Padded(x, n, cols, zero), Seq, n)
  {
    var padded := Padded(x, n, cols, zero);
    PaddedShape(x, n, rows, cols, zero);
    PaddedHeads(x, n, cols, PadSize(|x|, n), zero);
    HeadShardsToSeqShards(padded, n, rows, cols);
    assert forall r :: 0 <= r < n ==> |Parts(x, Head, n)[r]| == |x|;
    assert PadEach(Parts(x, Head, n), cols, zero) == Parts(padded, Head, n);
  }

  /** The attention round trip, for every length and number of ranks. */
  lemma AttentionRoundTrip<T>(x: Tensor<T>, n: nat, cols: nat, zero: T)
    requires n > 0 && AllSize(x, n * cols)
    ensures |Padded(x, n, cols, zero)| % n == 0
    ensures var shards := Parts(Padded(x, n, cols, zero), Seq, n);
      && Exchangeable(shards, Head)
      && (forall y :: y in AllToAll(shards, Head, Seq) ==> |x| <= |y|)
      && var gathered := GatherSeqScatterHeads(shards, |x|);
      && (forall i :: 0 <= i < |x| ==> |x[i]| % n == 0)
      && gathered == Parts(x, Head, n)
      && (forall r :: 0 <= r < n ==> |gathered[r]| == |x|)
      && GatherHeadsScatterSeq(gathered, cols, zero) == shards
  {
    PaddedDivides(|x|, n);
    var rows := (|x| + PadSize(|x|, n)) / n;
    GatheredAreTruePositions(x, n, rows, cols, zero);
    ScatteredAreSequenceShards(x, n, rows, cols, zero);
    forall r | 0 <= r < n
      ensures |Parts(x, Head, n)[r]| == |x|
    {
    }
  }

  /** Without a true length, the way attention calls the exchange, ranks keep all positions that were
      sharded: for a length that divides among the ranks, exactly those of their heads. */
  lemma WholeRoundTrip<T>(x: Tensor<T>, n: nat, rows: nat, cols: nat, zero: T)
    requires n > 0 && Shaped(x, n * rows, n * cols)
    ensures |x| % n == 0 && (forall i :: 0 <= i < |x| ==> |x[i]| % n == 0)
    ensures var shards := Parts(x, Seq, n);
      && Exchangeable(shards, Head)
      && var gathered := GatherSeqScatterHeads(shards, 0);
      && gathered == Parts(x, Head, n)
      && (forall r :: 0 <= r < n ==> |gathered[r]| == |x|)
      && GatherHeadsScatterSeq(gathered, cols, zero) == shards
  {
    SeqShardsToHeadShards(x, n, rows, cols);
    SectionSize(n, rows);
    ScatteredAreSequenceShards(x, n, rows, cols, zero);
    hide AllToAll, Exchangeable;
    assert Padded(x, n, cols, zero) == x;
    forall r | 0 <= r < n
      ensures |Parts(x, Head, n)[r]| == |x|
    {
    }
  }

  /** Attention works on each head by itself, over all positions. */

  function Column<T>(x: Tensor<T>, h: nat): (c: seq<T>)
    requires forall i :: 0 <= i < |x| ==> h < |x[i]|
    ensures |c| == |x|
  {
    seq(|x|, i requires 0 <= i < |x| => x[i][h])
  }

  ghost predicate KeepsLength<S(!new), T(!new)>(f: (nat, seq<S>) -> seq<T>) {
    forall h, s :: |f(h, s)| == |s|
  }

  /** Heads `first`, `first + 1` and so on, `cols` of them. */
  ghost function Attend<S(!new), T(!new)>(f: (nat, seq<S>) -> seq<T>, first: nat, x: Tensor<S>, cols: nat)
    : (y: Tensor<T>)
    requires KeepsLength(f) && AllSize(x, cols)
    ensures Shaped(y, |x|, cols)
  {
    seq(|x|, i requires 0 <= i < |x| => seq(cols, h requires 0 <= h < cols => f(first + h, Column(x, h))[i]))
  }

  lemma EntryOfSection<T>(row: seq<T>, n: nat, cols: nat, r: nat, h: nat)
    requires r < n && |row| == n * cols && n * cols % n == 0 && n * cols / n == cols && h < cols
    ensures 0 <= r * cols + h < n * cols && |Section(row, n, r)| == cols && Section(row, n, r)[h] == row[r * cols + h]
  {
    SectionBounds(n * cols, n, r);
  }

  lemma ColumnOfPart<T>(x: Tensor<T>, n: nat, cols: nat, r: nat, h: nat)
    requires r < n && AllSize(x, n * cols) && n * cols % n == 0 && n * cols / n == cols && h < cols
    ensures 0 <= r * cols + h < n * cols && AllSize(Part(x, Head, n, r), cols)
    ensures Column(Part(x, Head, n, r), h) == Column(x, r * cols + h)
  {
    EntryOfSection(seq(n * cols, _ => 0), n, cols, r, h);
    hide Section;
    forall i | 0 <= i < |x|
      ensures |Part(x, Head, n, r)[i]| == cols && Part(x, Head, n, r)[i][h] == x[i][r * cols + h]
    {
      EntryOfSection(x[i], n, cols, r, h);
    }
  }

  lemma PartsAt<T>(x: Tensor<T>, n: nat, cols: nat, r: nat)
    requires r < n && AllSize(x, n * cols)
    ensures n * cols % n == 0 && n * cols / n == cols && forall i :: 0 <= i < |x| ==> |x[i]| % n == 0
    ensures Parts(x, Head, n)[r] == Part(x, Head, n, r) && Shaped(Parts(x, Head, n)[r], |x|, cols)
  {
    SectionSize(n, cols);
    SectionBounds(n * cols, n, r);
  }

  /** What a rank computes from its heads is its part of the work on all heads. */
  lemma AttendShard<S(!new), T(!new)>(f: (nat, seq<S>) -> seq<T>, x: Tensor<S>, n: nat, cols: nat, r: nat)
    requires r < n && KeepsLength(f) && AllSize(x, n * cols)
    requires forall i :: 0 <= i < |x| ==> |x[i]| % n == 0
    ensures AllSize(Parts(x, Head, n)[r], cols)
    ensures forall i :: 0 <= i < |Attend(f, 0, x, n * cols)| ==> |Attend(f, 0, x, n * cols)[i]| % n == 0
    ensures Attend(f, r * cols, Parts(x, Head, n)[r], cols) == Parts(Attend(f, 0, x, n * cols), Head, n)[r]
  {
    var whole := Attend(f, 0, x, n * cols);
    PartsAt(x, n, cols, r);
    PartsAt(whole, n, cols, r);
    var mine, theirs := Attend(f, r * cols, Part(x, Head, n, r), cols), Part(whole, Head, n, r);
    hide Parts;
    forall i, h | 0 <= i < |x| && 0 <= h < cols
      ensures mine[i][h] == theirs[i][h]
    {
      AttendAt(f, x, n, cols, r, n * cols, r * cols, i, h);
    }
    forall i | 0 <= i < |x|
      ensures mine[i] == theirs[i]
    {
    }
  }

  /** `total` heads in all, of which rank `r` holds `cols`, from head `first` on. */
  lemma AttendAt<S(!new), T(!new)>(f: (nat, seq<S>) -> seq<T>, x: Tensor<S>, n: nat, cols: nat, r: nat,
                                   total: nat, first: nat, i: nat, h: nat)
    requires r < n && total == n * cols && first == r * cols && total % n == 0 && total / n == cols
    requires KeepsLength(f) && AllSize(x, total) && i < |x| && h < cols
    requires Shaped(Part(x, Head, n, r), |x|, cols) && Shaped(Part(Attend(f, 0, x, total), Head, n, r), |x|, cols)
    ensures Attend(f, first, Part(x, Head, n, r), cols)[i][h] == Part(Attend(f, 0, x, total), Head, n, r)[i][h]
  {
    var whole := Attend(f, 0, x, total);
    ColumnOfPart(x, n, cols, r, h);
    EntryOfSection(whole[i], n, cols, r, h);
    hide Section, Column;
  }

  /** What the ranks compute, each from its own heads. */
  ghost function AttendShards<S(!new), T(!new)>(f: (nat, seq<S>) -> seq<T>, parts: seq<Tensor<S>>, rows: nat, cols: nat)
    : (r: seq<Tensor<T>>)
    requires KeepsLength(f) && AllShaped(parts, rows, cols)
    ensures |r| == |parts| && AllShaped(r, rows, cols)
  {
    seq(|parts|, rank requires 0 <= rank < |parts| => Attend(f, rank * cols, parts[rank], cols))
  }

  lemma AttendedAreParts<S(!new), T(!new)>(f: (nat, seq<S>) -> seq<T>, x: Tensor<S>, n: nat, cols: nat)
    requires n > 0 && KeepsLength(f) && AllSize(x, n * cols) && forall i :: 0 <= i < |x| ==> |x[i]| % n == 0
    ensures AllShaped(Parts(x, Head, n), |x|, cols)
    ensures forall i :: 0 <= i < |Attend(f, 0, x, n * cols)| ==> |Attend(f, 0, x, n * cols)[i]| % n == 0
    ensures AttendShards(f, Parts(x, Head, n), |x|, cols) == Parts(Attend(f, 0, x, n * cols), Head, n)
  {
    var y := Attend(f, 0, x, n * cols);
    PartsAt(y, n, cols, 0);
    hide Attend, Parts, KeepsLength;
    forall r | 0 <= r < n
      ensures Shaped(Parts(x, Head, n)[r], |x|, cols)
      ensures Attend(f, r * cols, Parts(x, Head, n)[r], cols) == Parts(y, Head, n)[r]
    {
      PartsAt(x, n, cols, r);
      AttendShard(f, x, n, cols, r);
    }
  }

  /** The ranks, told the true length `unpadded` or 0, can gather `rows` positions of `cols` heads each. */
  ghost predicate Gatherable<T>(shards: seq<Tensor<T>>, unpadded: nat, rows: nat, cols: nat) {
    && shards != [] && Exchangeable(shards, Head)
    && (forall y :: y in AllToAll(shards, Head, Seq) ==> unpadded <= |y|)
    && AllShaped(GatherSeqScatterHeads(shards, unpadded), rows, cols)
  }

  /** Exchange, attend, exchange back. */
  ghost function AttendBetween<S(!new), T(!new)>(f: (nat, seq<S>) -> seq<T>, shards: seq<Tensor<S>>,
                                                 unpadded: nat, rows: nat, cols: nat, blank: T): seq<Tensor<T>>
    requires KeepsLength(f) && Gatherable(shards, unpadded, rows, cols)
  {
    var gathered := GatherSeqScatterHeads(shards, unpadded);
    GatherHeadsScatterSeq(AttendShards(f, gathered, rows, cols), cols, blank)
  }

  /** Between the two exchanges every rank attends with its own heads over all positions. For every
      length and number of ranks, the ranks end with their shards of the unsharded result. */
  lemma ShardedAttention<S(!new), T(!new)>(f: (nat, seq<S>) -> seq<T>, x: Tensor<S>, n: nat, cols: nat,
                                           zero: S, blank: T)
    requires n > 0 && KeepsLength(f) && AllSize(x, n * cols)
    ensures |Padded(x, n, cols, zero)| % n == 0 && |Padded(Attend(f, 0, x, n * cols), n, cols, blank)| % n == 0
    ensures Gatherable(Parts(Padded(x, n, cols, zero), Seq, n), |x|, |x|, cols)
    ensures AttendBetween(f, Parts(Padded(x, n, cols, zero), Seq, n), |x|, |x|, cols, blank) ==
      Parts(Padded(Attend(f, 0, x, n * cols), n, cols, blank), Seq, n)
  {
    AttentionRoundTrip(x, n, cols, zero);
    AttentionRoundTrip(Attend(f, 0, x, n * cols), n, cols, blank);
    hide Attend, Parts, Padded, GatherSeqScatterHeads, GatherHeadsScatterSeq, AttendShards;
    hide AllToAll, Exchangeable, KeepsLength;
    AttendedAreParts(f, x, n, cols);
  }

  /** And so they do without a true length, where the length divides among the ranks. */
  lemma ShardedWholeAttention<S(!new), T(!new)>(f: (nat, seq<S>) -> seq<T>, x: Tensor<S>, n: nat, rows: nat,
                                                cols: nat, zero: S, blank: T)
    requires n > 0 && KeepsLength(f) && Shaped(x, n * rows, n * cols)
    ensures |x| % n == 0 && Gatherable(Parts(x, Seq, n), 0, |x|, cols)
    ensures AttendBetween(f, Parts(x, Seq, n), 0, |x|, cols, blank) == Parts(Attend(f, 0, x, n * cols), Seq, n)
  {
    WholeRoundTrip(x, n, rows, cols, zero);
    WholeRoundTrip(Attend(f, 0, x, n * cols), n, rows, cols, blank);
    hide Attend, Parts, Padded, GatherSeqScatterHeads, GatherHeadsScatterSeq, AttendShards;
    hide AllToAll, Exchangeable, KeepsLength;
    AttendedAreParts(f, x, n, cols);
  }

  lemma PadThenCut<T>(x: Tensor<T>, n: nat, r: nat, cols: nat, size: nat, zero: T)
    requires r < n && AllSize(x, n * cols) && n * cols % n == 0 && n * cols / n == cols
    ensures var padded := PadTensor(x, size, n * cols, zero);
      && (forall i :: 0 <= i < |padded| ==> |padded[i]| % n == 0)
      && Part(padded, Head, n, r) == PadTensor(Part(x, Head, n, r), size, cols, zero)
  {
    SectionBounds(n * cols, n, r);
    assert Section(seq(n * cols, _ => zero), n, r) == seq(cols, _ => zero);
  }

  /** Work on single positions. */

  /** Gathering by rank: what all ranks hold, laid end to end, is cut apart again and joined along
      `dim`. Without rows there is nothing to cut. */
  function Gather<T>(locals: seq<Tensor<T>>, dim: Dim): Tensor<T>
    requires locals != []
  {
    var pieces := if |locals[0]| == 0 then [Flat(locals)] else SplitBy(Flat(locals), |locals[0]|);
    if forall j :: 0 <= j < |pieces| ==> |pieces[j]| == |pieces[0]| then Cat(pieces, dim)
    else []
  }

  /** Gathering joins the ranks' tensors, and its backward pass, where there are rows to split, hands
      each rank its own part. */
  lemma GatherJoins<T>(locals: seq<Tensor<T>>, dim: Dim, rows: nat, cols: nat)
    requires locals != [] && AllShaped(locals, rows, cols)
    ensures Gather(locals, dim) == Cat(locals, dim)
    ensures dim.Seq? ==> |Gather(locals, dim)| % |locals| == 0
    ensures dim.Head? ==> forall i :: 0 <= i < |Gather(locals, dim)| ==> |Gather(locals, dim)[i]| % |locals| == 0
    ensures rows > 0 ==>
      forall rank :: 0 <= rank < |locals| ==> Part(Gather(locals, dim), dim, |locals|, rank) == locals[rank]
  {
    if rows > 0 {
      SplitByFlat(locals, rows);
    } else {
      FlatSize(locals, 0);
      FlatOne(Flat(locals));
    }
    PartOfCat(locals, dim, rows, cols, 0);
    forall rank | 0 <= rank < |locals|
      ensures Part(Cat(locals, dim), dim, |locals|, rank) == locals[rank]
    {
      PartOfCat(locals, dim, rows, cols, rank);
    }
  }

  /** What rank `rank` computes from its slice of the padded tokens. */
  function LocalWork<S, T>(f: S -> T, padded: seq<S>, n: nat, rank: nat): seq<T>
    requires rank < n && |padded| % n == 0
  {
    MapRows(f, Section(padded, n, rank))
  }

  function Unpadded<T>(x: Tensor<T>, padding: nat): Tensor<T> {
    if padding == 0 then x else UnpadTensor(x, padding)
  }

  lemma LocalWorkIsSections<S, T>(f: S -> T, padded: seq<S>, n: nat)
    requires n > 0 && |padded| % n == 0
    ensures seq(n, rank requires 0 <= rank < n => LocalWork(f, padded, n, rank)) == Sections(MapRows(f, padded), n)
  {
    var whole := MapRows(f, padded);
    forall rank | 0 <= rank < n
      ensures LocalWork(f, padded, n, rank) == Section(whole, n, rank)
    {
      SectionBounds(|padded|, n, rank);
    }
  }

  /** Sections of equal work, gathered, are the work. */
  lemma GatherSections<T>(whole: Tensor<T>, n: nat, rows: nat, cols: nat)
    requires n > 0 && |whole| == n * rows && AllSize(whole, cols)
    ensures |whole| % n == 0
    ensures Gather(Sections(whole, n), Seq) == whole
  {
    SectionSize(n, rows);
    var locals := Sections(whole, n);
    forall j | 0 <= j < n
      ensures Shaped(locals[j], rows, cols)
    {
      SectionBounds(|whole|, n, j);
    }
    GatherJoins(locals, Seq, rows, cols);
    FlatOfSections(whole, n);
  }

  /** For every length and number of ranks: padding the tokens with anything, slicing, working on each
      token, gathering and dropping the padding is working on the tokens. */
  lemma PaddedWorkRoundTrip<S, T>(f: S -> seq<T>, tokens: seq<S>, padding: seq<S>, n: nat, cols: nat)
    requires n > 0 && |padding| == PadSize(|tokens|, n)
    requires forall s :: |f(s)| == cols
    ensures |tokens + padding| % n == 0
    ensures var locals := seq(n, rank requires 0 <= rank < n => LocalWork(f, tokens + padding, n, rank));
      Unpadded(Gather(locals, Seq), |padding|) == MapRows(f, tokens)
  {
    PaddedDivides(|tokens|, n);
    var padded := tokens + padding;
    var rows := |padded| / n;
    LocalWorkIsSections(f, padded, n);
    GatherSections(MapRows(f, padded), n, rows, cols);
    assert MapRows(f, padded)[..|tokens|] == MapRows(f, tokens);
  }
}
