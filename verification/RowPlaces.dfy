/** Which rows a slice takes, and how rows are cut into chunks. */
module RowPlaces {
  import opened Arithmetic
  import opened Options
  import opened Tensors

  predicate Inside(idx: seq<nat>, n: nat) {
    forall i :: 0 <= i < |idx| ==> idx[i] < n
  }

  /** Slicing: bounds count from the end when negative, and are clipped to what a slice in that
      direction can reach. */

  function Clip(bound: int, n: nat, forwards: bool): (r: int)
    ensures if forwards then 0 <= r <= n else -1 <= r < n
  {
    var place := if bound < 0 then bound + n else bound;
    if forwards then (if place < 0 then 0 else Min(place, n))
    else if place < -1 then -1 else Min(place, n - 1)
  }

  function First(start: Option<int>, n: nat, forwards: bool): (r: int)
    ensures if forwards then 0 <= r <= n else -1 <= r < n
  {
    if start.Some? then Clip(start.value, n, forwards) else if forwards then 0 else n - 1
  }

  function Last(stop: Option<int>, n: nat, forwards: bool): (r: int)
    ensures if forwards then 0 <= r <= n else -1 <= r < n
  {
    if stop.Some? then Clip(stop.value, n, forwards) else if forwards then n else -1
  }

  function Steps(lo: nat, hi: nat, step: nat): (r: seq<nat>)
    requires step > 0
    ensures Inside(r, hi)
    decreases hi - lo
  {
    if lo >= hi then [] else [lo] + Steps(lo + step, hi, step)
  }

  function StepsDown(hi: int, lo: int, step: nat, n: nat): (r: seq<nat>)
    requires step > 0 && hi < n && -1 <= lo
    ensures Inside(r, n)
    decreases hi - lo
  {
    if hi <= lo then [] else [hi] + StepsDown(hi - step, lo, step, n)
  }

  function SliceIndices(start: Option<int>, stop: Option<int>, step: int, n: nat): (r: seq<nat>)
    requires step != 0
    ensures Inside(r, n)
  {
    if step > 0 then Steps(First(start, n, true), Last(stop, n, true), step)
    else StepsDown(First(start, n, false), Last(stop, n, false), -step, n)
  }

  /** A slice takes the first bound and goes on in steps. */
  lemma {:induction false} StepsAt(lo: nat, hi: nat, step: nat, i: nat)
    requires step > 0 && i < |Steps(lo, hi, step)|
    ensures Steps(lo, hi, step)[i] == lo + i * step
    decreases hi - lo
  {
    if i > 0 {
      StepsAt(lo + step, hi, step, i - 1);
      MulSucc(i - 1, step);
    }
  }

  lemma {:induction false} StepsDownAt(hi: int, lo: int, step: nat, n: nat, i: nat)
    requires step > 0 && hi < n && -1 <= lo && i < |StepsDown(hi, lo, step, n)|
    ensures StepsDown(hi, lo, step, n)[i] == hi - i * step
    decreases hi - lo
  {
    if i > 0 {
      StepsDownAt(hi - step, lo, step, n, i - 1);
      MulSucc(i - 1, step);
    }
  }

  lemma OneStepLess(d: int, step: nat)
    requires step > 0
    ensures d % step == (d - step) % step
    ensures 0 < d < step ==> d % step != 0
  {
    MulSucc(d / step - 1, step);
    DivModUnique(d - step, step, d / step - 1, d % step);
    if 0 < d < step {
      DivModUnique(d, step, 0, d);
    }
  }

  /** A slice takes exactly the places from the first bound on, in steps, that lie before the second. */
  lemma {:induction false} StepsTake(lo: nat, hi: nat, step: nat, place: nat)
    requires step > 0
    ensures place in Steps(lo, hi, step) <==> lo <= place < hi && (place - lo) % step == 0
    decreases hi - lo
  {
    if lo < hi {
      StepsTake(lo + step, hi, step, place);
      OneStepLess(place - lo, step);
      if place == lo {
        DivModUnique(0, step, 0, 0);
      }
    }
  }

  /** Downwards it takes exactly those from the first bound on that lie above the second. */
  lemma {:induction false} StepsDownTake(hi: int, lo: int, step: nat, n: nat, place: nat)
    requires step > 0 && hi < n && -1 <= lo
    ensures place in StepsDown(hi, lo, step, n) <==> lo < place <= hi && (hi - place) % step == 0
    decreases hi - lo
  {
    if lo < hi {
      StepsDownTake(hi - step, lo, step, n, place);
      OneStepLess(hi - place, step);
      if place == hi {
        DivModUnique(0, step, 0, 0);
      }
    }
  }

  /** A bound counted from the start of `n` rows: negative ones count from the end. */
  function FromStart(bound: int, n: nat): int {
    if bound >= 0 then bound else n + bound
  }

  /** Which places a slice forwards takes: those from the start to before the stop, where there are
      any such bounds, a whole number of steps from the first. */
  lemma ForwardsTakes(start: Option<int>, stop: Option<int>, step: nat, n: nat, place: nat)
    requires step > 0
    ensures place in SliceIndices(start, stop, step, n) <==>
      && place < n
      && (start.Some? ==> FromStart(start.value, n) <= place)
      && (stop.Some? ==> place < FromStart(stop.value, n))
      && (place - (if start.Some? && FromStart(start.value, n) > 0 then FromStart(start.value, n) else 0)) % step == 0
  {
    var lo, hi := First(start, n, true), Last(stop, n, true);
    StepsTake(lo, hi, step, place);
    if start.Some? && FromStart(start.value, n) > n {
      assert lo == n;
    }
  }

  /** And backwards: from the start down to above the stop. */
  lemma BackwardsTakes(start: Option<int>, stop: Option<int>, step: nat, n: nat, place: nat)
    requires step > 0
    ensures place in SliceIndices(start, stop, 0 - step, n) <==>
      && place < n
      && (start.Some? ==> place <= FromStart(start.value, n))
      && (stop.Some? ==> FromStart(stop.value, n) < place)
      && var first := if start.Some? && FromStart(start.value, n) < n then FromStart(start.value, n) else n - 1;
      (first - place) % step == 0
  {
    var hi, lo := First(start, n, false), Last(stop, n, false);
    StepsDownTake(hi, lo, step, n, place);
  }

  /** Places come in the direction of the step, none twice. */
  lemma PlacesInOrder(start: Option<int>, stop: Option<int>, step: int, n: nat, i: nat, j: nat)
    requires step != 0 && i < j < |SliceIndices(start, stop, step, n)|
    ensures var places := SliceIndices(start, stop, step, n);
      places[j] == places[i] + (j - i) * step
  {
    var lo, hi := First(start, n, step > 0), Last(stop, n, step > 0);
    if step > 0 {
      StepsAt(lo, hi, step, i);
      StepsAt(lo, hi, step, j);
      assert j * step - i * step == (j - i) * step;
    } else {
      StepsDownAt(lo, hi, -step, n, i);
      StepsDownAt(lo, hi, -step, n, j);
      assert i * -step - j * -step == (j - i) * step;
    }
  }

  function Stretch(lo: nat, hi: nat): (r: seq<nat>)
    requires lo <= hi
    ensures Inside(r, hi) && |r| == hi - lo
  {
    seq(hi - lo, i requires 0 <= i < hi - lo => lo + i)
  }

  lemma {:induction false} SingleSteps(lo: nat, hi: nat)
    requires lo <= hi
    ensures Steps(lo, hi, 1) == Stretch(lo, hi)
    decreases hi - lo
  {
    if lo < hi {
      SingleSteps(lo + 1, hi);
    }
  }

  /** With bounds from the start, in order, a slice in single steps is the stretch between them, as far
      as there are rows. */
  lemma PickBetween<T>(rows: seq<T>, a: nat, b: nat)
    requires a <= b
    ensures Min(a, |rows|) >= 0 && |SliceIndices(Some(a), Some(b), 1, |rows|)| == Min(b, |rows|) - Min(a, |rows|)
    ensures Pick(rows, SliceIndices(Some(a), Some(b), 1, |rows|)) == rows[Min(a, |rows|)..Min(b, |rows|)]
  {
    PickSlice(rows, Some(a), Some(b));
  }

  /** A bound `-k` is one `k` rows before the end, or the start where there are fewer. */
  lemma NegativeBounds(start: Option<int>, stop: Option<int>, step: int, n: nat, k: nat)
    requires step > 0 && k > 0
    ensures var place := if k <= n then n - k else 0;
      && SliceIndices(Some(0 - k), stop, step, n) == SliceIndices(Some(place), stop, step, n)
      && SliceIndices(start, Some(0 - k), step, n) == SliceIndices(start, Some(place), step, n)
  {
  }

  /** A slice in single steps is the stretch between its bounds. */
  lemma PickSlice<T>(rows: seq<T>, start: Option<int>, stop: Option<int>)
    requires First(start, |rows|, true) <= Last(stop, |rows|, true)
    ensures Pick(rows, SliceIndices(start, stop, 1, |rows|)) ==
      rows[First(start, |rows|, true)..Last(stop, |rows|, true)]
    ensures |SliceIndices(start, stop, 1, |rows|)| == Last(stop, |rows|, true) - First(start, |rows|, true)
  {
    SingleSteps(First(start, |rows|, true), Last(stop, |rows|, true));
  }

  /** The slice from end to start in steps of -1 reverses. */
  lemma PickReversed<T>(rows: seq<T>, i: nat)
    requires i < |rows|
    ensures |SliceIndices(None, None, -1, |rows|)| == |rows|
    ensures Pick(rows, SliceIndices(None, None, -1, |rows|))[i] == rows[|rows| - 1 - i]
  {
    AllDown(|rows| - 1, |rows|);
    StepsDownAt(|rows| - 1, -1, 1, |rows|, i);
  }

  lemma {:induction false} AllDown(hi: int, n: nat)
    requires -1 <= hi < n
    ensures |StepsDown(hi, -1, 1, n)| == hi + 1
    decreases hi
  {
    if hi >= 0 {
      AllDown(hi - 1, n);
    }
  }

  /** Chunking: how many rows each piece gets. Tensors are cut into pieces of one size, the last one
      shorter; without tensors the first pieces get one row more than the others. */

  function TensorSizes(n: nat, size: nat): (r: seq<nat>)
    requires size > 0
  {
    if n <= size then [n] else [size] + TensorSizes(n - size, size)
  }

  function ArraySizes(n: nat, chunks: nat): (r: seq<nat>)
    requires chunks > 0
    ensures |r| == chunks
  {
    Shares(n / chunks, n % chunks, chunks)
  }

  /** `r` of the pieces get one more. */
  function Shares(q: nat, r: nat, chunks: nat): (s: seq<nat>)
    requires r <= chunks
    ensures |s| == chunks
  {
    seq(r, _ => q + 1) + seq(chunks - r, _ => q)
  }

  function ChunkSizes(hasTensors: bool, n: nat, chunks: nat): (r: seq<nat>)
    requires chunks > 0
  {
    if hasTensors && n > 0 then TensorSizes(n, CeilDiv(n, chunks)) else ArraySizes(n, chunks)
  }

  lemma SumFirst(sizes: seq<nat>)
    requires sizes != []
    ensures Sum(sizes) == sizes[0] + Sum(sizes[1..])
  {
    assert sizes == [sizes[0]] + sizes[1..];
    SumConcat([sizes[0]], sizes[1..]);
    assert [sizes[0]][..0] == [];
  }

  /** There are as many pieces as whole or part sizes in the rows. */
  lemma {:induction false} TensorSizesAddUp(n: nat, size: nat)
    requires size > 0 && n > 0
    ensures Sum(TensorSizes(n, size)) == n && |TensorSizes(n, size)| == CeilDiv(n, size)
  {
    var sizes := TensorSizes(n, size);
    SumFirst(sizes);
    if n <= size {
      CeilDivUnique(n, size, 1);
    } else {
      TensorSizesAddUp(n - size, size);
      assert sizes[1..] == TensorSizes(n - size, size);
      var q := CeilDiv(n - size, size);
      MulSucc(q, size);
      CeilDivUnique(n, size, q + 1);
    }
  }

  lemma ArraySizesAddUp(n: nat, chunks: nat)
    requires chunks > 0
    ensures Sum(ArraySizes(n, chunks)) == n
  {
    SharesAddUp(n / chunks, n % chunks, chunks);
    DivModWhole(n, chunks);
    hide Sum, Shares;
  }

  lemma SharesAddUp(q: nat, r: nat, chunks: nat)
    requires r <= chunks
    ensures Sum(Shares(q, r, chunks)) == q * chunks + r
  {
    SumConcat(seq(r, _ => q + 1), seq(chunks - r, _ => q));
    SumEqual(r, q + 1);
    SumEqual(chunks - r, q);
    hide Sum;
    assert r * (q + 1) + (chunks - r) * q == q * chunks + r;
  }

  lemma ChunkSizesAddUp(hasTensors: bool, n: nat, chunks: nat)
    requires chunks > 0
    ensures Sum(ChunkSizes(hasTensors, n, chunks)) == n
    ensures hasTensors && n > 0 ==> |ChunkSizes(hasTensors, n, chunks)| == CeilDiv(n, CeilDiv(n, chunks))
  {
    if hasTensors && n > 0 {
      TensorSizesAddUp(n, CeilDiv(n, chunks));
    } else {
      ArraySizesAddUp(n, chunks);
    }
  }

  /** Tensor pieces are of one size, the last one of what is left. */
  lemma {:induction false} TensorSizeAt(n: nat, size: nat, i: nat)
    requires size > 0 && i < |TensorSizes(n, size)|
    ensures 0 <= i * size <= n && TensorSizes(n, size)[i] == Min(size, n - i * size)
    ensures i + 1 < |TensorSizes(n, size)| ==> TensorSizes(n, size)[i] == size
    decreases n
  {
    if i > 0 {
      TensorSizeAt(n - size, size, i - 1);
      MulSucc(i - 1, size);
    }
  }

  /** Of the other columns the first pieces get one row more, as many as there are rows left over. */
  lemma ArraySizeAt(n: nat, chunks: nat, i: nat)
    requires i < chunks
    ensures ArraySizes(n, chunks)[i] == n / chunks + if i < n % chunks then 1 else 0
  {
  }

  ghost predicate AllAre(sizes: seq<nat>, size: nat) {
    forall i :: 0 <= i < |sizes| ==> sizes[i] == size
  }

  lemma {:induction false} WholeSizes(count: nat, size: nat)
    requires size > 0 && count > 0
    ensures count * size > 0 && AllAre(TensorSizes(count * size, size), size)
    ensures |TensorSizes(count * size, size)| == count
  {
    MulSucc(count - 1, size);
    MulMonotone(0, count - 1, size);
    if count > 1 {
      WholeSizes(count - 1, size);
    }
  }

  /** Where the number of pieces divides the rows, both ways cut evenly. */
  lemma EvenChunkSizes(hasTensors: bool, n: nat, chunks: nat)
    requires chunks > 0 && n % chunks == 0
    ensures |ChunkSizes(hasTensors, n, chunks)| == chunks && AllAre(ChunkSizes(hasTensors, n, chunks), n / chunks)
  {
    if hasTensors && n > 0 {
      var q := n / chunks;
      assert n == chunks * q;
      CeilDivExact(chunks, q);
      WholeSizes(chunks, q);
    }
  }

  /** Rows cut at the running sums of the sizes. */
  ghost function Pieces<T>(rows: seq<T>, sizes: seq<nat>): (r: seq<seq<T>>)
    requires Sum(sizes) == |rows|
    ensures |r| == |sizes|
  {
    if sizes == [] then []
    else
      SumFirst(sizes);
      [rows[..sizes[0]]] + Pieces(rows[sizes[0]..], sizes[1..])
  }

  lemma NextPiece<T>(rows: seq<T>, sizes: seq<nat>)
    requires Sum(sizes) == |rows| && sizes != []
    ensures 0 <= sizes[0] <= |rows| && Sum(sizes[1..]) == |rows| - sizes[0]
    ensures Pieces(rows, sizes) == [rows[..sizes[0]]] + Pieces(rows[sizes[0]..], sizes[1..])
  {
    SumFirst(sizes);
  }

  /** No row is lost: the pieces have their sizes and, laid end to end, are the rows. */
  lemma {:induction false} PiecesJoin<T>(rows: seq<T>, sizes: seq<nat>)
    requires Sum(sizes) == |rows|
    ensures Flat(Pieces(rows, sizes)) == rows
    ensures forall i :: 0 <= i < |sizes| ==> |Pieces(rows, sizes)[i]| == sizes[i]
  {
    if sizes != [] {
      SumFirst(sizes);
      PiecesJoin(rows[sizes[0]..], sizes[1..]);
      assert Pieces(rows, sizes)[1..] == Pieces(rows[sizes[0]..], sizes[1..]);
    }
  }

  /** Even pieces are sections. */
  lemma EvenPieces<T>(rows: seq<T>, sizes: seq<nat>)
    requires Sum(sizes) == |rows| && |sizes| > 0 && |rows| % |sizes| == 0 && AllAre(sizes, |rows| / |sizes|)
    ensures Pieces(rows, sizes) == Sections(rows, |sizes|)
  {
    PiecesJoin(rows, sizes);
    FlatOfSections(rows, |sizes|);
    var pieces, sections, q := Pieces(rows, sizes), Sections(rows, |sizes|), |rows| / |sizes|;
    hide Pieces, Sections, Flat, Sum;
    assert AllSize(pieces, q);
    forall i | 0 <= i < |sizes|
      ensures pieces[i] == sections[i]
    {
      SliceFlat(pieces, q, i);
      SliceFlat(sections, q, i);
    }
  }
}
