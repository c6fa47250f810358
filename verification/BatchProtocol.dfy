/** Batches of rows exchanged with workers: padding, chunking, concatenating and undoing them. */
module BatchProtocol {
  import opened Arithmetic
  import opened Options
  import opened RowPlaces
  import opened Tensors

  type Value = int
  type Columns = map<string, seq<Value>>

  /** A tensor batch knows its size even without columns. */
  datatype TensorBatch = TensorBatch(size: nat, columns: Columns)

  /** A batch: tensor columns, where there are any, and columns of other data. */
  datatype DataProto = DataProto(batch: Option<TensorBatch>, nonTensor: Columns)

  ghost predicate ColumnsOf(columns: Columns, n: nat) {
    forall key | key in columns :: |columns[key]| == n
  }

  /** All columns have `n` rows; without any tensors or columns there are none. */
  ghost predicate HasLength(d: DataProto, n: nat) {
    && (d.batch.Some? ==> d.batch.value.size == n && ColumnsOf(d.batch.value.columns, n))
    && ColumnsOf(d.nonTensor, n)
    && (d.batch.None? && d.nonTensor == map[] ==> n == 0)
  }

  /** What the consistency check demands: where there are tensors, all columns have their size. */
  predicate CheckConsistency(d: DataProto) {
    d.batch.Some? ==> forall key | key in d.nonTensor :: |d.nonTensor[key]| == d.batch.value.size
  }

  /** Row `i` across all columns. Rows are what a batch means. */
  datatype Row = Row(tensors: map<string, Value>, others: map<string, Value>)

  function RowOfColumns(columns: Columns, i: nat): map<string, Value>
    requires forall key | key in columns :: i < |columns[key]|
  {
    map key | key in columns :: columns[key][i]
  }

  ghost function TensorColumns(d: DataProto): Columns {
    if d.batch.Some? then d.batch.value.columns else map[]
  }

  ghost function ColumnRows(columns: Columns, n: nat): (r: seq<map<string, Value>>)
    requires ColumnsOf(columns, n)
    ensures |r| == n
  {
    seq(n, i requires 0 <= i < n => RowOfColumns(columns, i))
  }

  function Zip(tensors: seq<map<string, Value>>, others: seq<map<string, Value>>): (r: seq<Row>)
    requires |tensors| == |others|
    ensures |r| == |tensors|
  {
    seq(|tensors|, i requires 0 <= i < |tensors| => Row(tensors[i], others[i]))
  }

  ghost function RowsOf(d: DataProto, n: nat): (r: seq<Row>)
    requires HasLength(d, n)
    ensures |r| == n
  {
    Zip(ColumnRows(TensorColumns(d), n), ColumnRows(d.nonTensor, n))
  }

  /** With tensors present the check says exactly that all columns have one length. */
  lemma ConsistentIffAligned(d: DataProto)
    requires d.batch.Some? && ColumnsOf(d.batch.value.columns, d.batch.value.size)
    ensures CheckConsistency(d) <==> exists n: nat :: HasLength(d, n)
  {
    if CheckConsistency(d) {
      assert HasLength(d, d.batch.value.size);
    }
  }

  /** A batch has one length. */
  lemma LengthIsUnique(d: DataProto, m: nat, n: nat)
    requires HasLength(d, m) && HasLength(d, n)
    ensures m == n
  {
    if d.batch.None? && d.nonTensor != map[] {
      var key :| key in d.nonTensor;
    }
  }

  /** Taking rows by their places. */

  function PickColumn(column: seq<Value>, idx: seq<nat>): seq<Value>
    requires Inside(idx, |column|)
  {
    Pick(column, idx)
  }

  function PickColumns(columns: Columns, idx: seq<nat>): Columns
    requires forall key | key in columns :: Inside(idx, |columns[key]|)
  {
    map key | key in columns :: PickColumn(columns[key], idx)
  }

  predicate Pickable(d: DataProto, idx: seq<nat>) {
    && (d.batch.Some? ==> forall key | key in d.batch.value.columns :: Inside(idx, |d.batch.value.columns[key]|))
    && forall key | key in d.nonTensor :: Inside(idx, |d.nonTensor[key]|)
  }

  function PickRows(d: DataProto, idx: seq<nat>): (r: DataProto)
    requires Pickable(d, idx)
    ensures SameKeys(d, r)
  {
    DataProto(
      if d.batch.None? then None
      else Some(TensorBatch(|idx|, PickColumns(d.batch.value.columns, idx))),
      PickColumns(d.nonTensor, idx))
  }

  lemma PickedColumns(columns: Columns, n: nat, idx: seq<nat>)
    requires ColumnsOf(columns, n) && Inside(idx, n)
    ensures ColumnsOf(PickColumns(columns, idx), |idx|)
    ensures ColumnRows(PickColumns(columns, idx), |idx|) == Pick(ColumnRows(columns, n), idx)
  {
    var s := PickColumns(columns, idx);
    forall i | 0 <= i < |idx|
      ensures ColumnRows(s, |idx|)[i] == ColumnRows(columns, n)[idx[i]]
    {
      assert RowOfColumns(s, i) == RowOfColumns(columns, idx[i]);
    }
  }

  /** A batch that holds at least one column, or no row at all, can give rows only from within. */
  lemma PickKeepsLength(d: DataProto, n: nat, idx: seq<nat>)
    requires HasLength(d, n) && Inside(idx, n)
    ensures Pickable(d, idx) && HasLength(PickRows(d, idx), |idx|)
    ensures PickRows(d, idx).nonTensor == PickColumns(d.nonTensor, idx)
  {
    if d.batch.None? {
      assert idx != [] ==> idx[0] < n;
      if d.nonTensor != map[] {
        var key :| key in d.nonTensor;
        assert key in PickColumns(d.nonTensor, idx);
      }
    }
  }

  /** Every row comes along whole, tensor and other columns alike. */
  lemma PickedRows(d: DataProto, n: nat, idx: seq<nat>)
    requires HasLength(d, n) && Inside(idx, n)
    ensures Pickable(d, idx) && HasLength(PickRows(d, idx), |idx|)
    ensures RowsOf(PickRows(d, idx), |idx|) == Pick(RowsOf(d, n), idx)
  {
    PickKeepsLength(d, n, idx);
    PickedColumns(d.nonTensor, n, idx);
    PickedColumns(TensorColumns(d), n, idx);
    var s := PickRows(d, idx);
    assert TensorColumns(s) == PickColumns(TensorColumns(d), idx);
    hide PickColumns, ColumnRows, ColumnsOf, TensorColumns, PickRows, HasLength;
  }

  datatype Error = BadStep | UnequalChunks | TooFewPieces

  /** A slice takes the places between its bounds, in steps, from every column. Tensors refuse steps
      backwards, and no column can be stepped through in steps of zero. */
  method Slice(d: DataProto, n: nat, start: Option<int>, stop: Option<int>, step: int)
    returns (r: Result<DataProto, Error>)
    requires HasLength(d, n)
    ensures r.Err? <==>
      || (step < 0 && d.batch.Some? && d.batch.value.columns != map[])
      || (step == 0 && (d.batch.Some? || d.nonTensor != map[]))
    ensures r.Ok? && step == 0 ==> n == 0 && r.value == d
    ensures r.Ok? && step != 0 ==> var idx := SliceIndices(start, stop, step, n);
      && SameKeys(d, r.value) && HasLength(r.value, |idx|)
      && RowsOf(r.value, |idx|) == Pick(RowsOf(d, n), idx)
    ensures step == 1 && start.Some? && stop.Some? && 0 <= start.value <= stop.value ==>
      var a, b := Min(start.value, n), Min(stop.value, n);
      0 <= a <= b <= n && HasLength(r.value, b - a) && RowsOf(r.value, b - a) == RowsOf(d, n)[a..b]
  {
    if step < 0 && d.batch.Some? && d.batch.value.columns != map[] {
      return Err(BadStep);
    }
    if step == 0 {
      return if d.batch.Some? || d.nonTensor != map[] then Err(BadStep) else Ok(d);
    }
    var idx := SliceIndices(start, stop, step, n);
    PickedRows(d, n, idx);
    if start.Some? && stop.Some? && 0 <= start.value <= stop.value {
      PickBetween(RowsOf(d, n), start.value, stop.value);
    }
    hide *;
    r := Ok(PickRows(d, idx));
  }

  /** `piece` holds the rows of `d` from `lo` to before `hi`. */
  ghost predicate IsPiece(piece: DataProto, d: DataProto, n: nat, lo: int, hi: int)
    requires HasLength(d, n)
  {
    && SameKeys(piece, d) && 0 <= lo <= hi <= n
    && HasLength(piece, hi - lo) && RowsOf(piece, hi - lo) == RowsOf(d, n)[lo..hi]
  }

  lemma SliceIsPiece(d: DataProto, n: nat, lo: nat, hi: nat, piece: DataProto)
    requires HasLength(d, n) && SameKeys(d, piece) && lo <= n && lo <= hi
    requires HasLength(piece, Min(hi, n) - lo) && RowsOf(piece, Min(hi, n) - lo) == RowsOf(d, n)[lo..Min(hi, n)]
    ensures IsPiece(piece, d, n, lo, Min(hi, n))
  {
  }

  /** Cuts off `size` rows at a time; the last piece takes what is left. */
  method Split(d: DataProto, n: nat, size: nat) returns (pieces: seq<DataProto>)
    requires HasLength(d, n) && size > 0
    ensures |pieces| == CeilDiv(n, size)
    ensures forall i :: 0 <= i < |pieces| ==> IsPiece(pieces[i], d, n, i * size, Min(i * size + size, n))
  {
    hide HasLength, RowsOf, SameKeys, IsPiece;
    pieces := [];
    var i := 0;
    while i < n
      invariant i == |pieces| * size && i < n + size
      invariant forall j :: 0 <= j < |pieces| ==> IsPiece(pieces[j], d, n, j * size, Min(j * size + size, n))
      decreases n + size - i
    {
      var piece := Slice(d, n, Some(i), Some(i + size), 1);
      SliceIsPiece(d, n, i, i + size, piece.value);
      MulSucc(|pieces|, size);
      pieces, i := pieces + [piece.value], i + size;
    }
    CeilDivUnique(n, size, |pieces|);
  }

  /** The stretch of rows between two bounds. */
  lemma StretchRows(d: DataProto, n: nat, lo: nat, hi: nat)
    requires HasLength(d, n) && lo <= hi <= n
    ensures Pickable(d, Stretch(lo, hi)) && HasLength(PickRows(d, Stretch(lo, hi)), hi - lo)
    ensures RowsOf(PickRows(d, Stretch(lo, hi)), hi - lo) == RowsOf(d, n)[lo..hi]
  {
    PickedRows(d, n, Stretch(lo, hi));
  }

  /** Concatenating. */

  predicate SameKeys(a: DataProto, b: DataProto) {
    && a.nonTensor.Keys == b.nonTensor.Keys
    && (a.batch.Some? <==> b.batch.Some?)
    && (a.batch.Some? ==> a.batch.value.columns.Keys == b.batch.value.columns.Keys)
  }

  function JoinColumns(a: Columns, b: Columns): Columns
    requires a.Keys == b.Keys
  {
    map key | key in a :: a[key] + b[key]
  }

  function Join(a: DataProto, b: DataProto): (r: DataProto)
    requires SameKeys(a, b)
    ensures SameKeys(a, r)
  {
    DataProto(
      if a.batch.None? then None
      else Some(TensorBatch(a.batch.value.size + b.batch.value.size,
                            JoinColumns(a.batch.value.columns, b.batch.value.columns))),
      JoinColumns(a.nonTensor, b.nonTensor))
  }

  lemma JoinedColumns(a: Columns, b: Columns, m: nat, n: nat)
    requires a.Keys == b.Keys && ColumnsOf(a, m) && ColumnsOf(b, n)
    ensures ColumnsOf(JoinColumns(a, b), m + n)
    ensures ColumnRows(JoinColumns(a, b), m + n) == ColumnRows(a, m) + ColumnRows(b, n)
  {
    var j := JoinColumns(a, b);
    forall i | 0 <= i < m + n
      ensures ColumnRows(j, m + n)[i] == (ColumnRows(a, m) + ColumnRows(b, n))[i]
    {
      assert RowOfColumns(j, i) == if i < m then RowOfColumns(a, i) else RowOfColumns(b, i - m);
    }
  }

  lemma JoinRows(a: DataProto, b: DataProto, m: nat, n: nat)
    requires SameKeys(a, b) && HasLength(a, m) && HasLength(b, n)
    ensures HasLength(Join(a, b), m + n)
    ensures RowsOf(Join(a, b), m + n) == RowsOf(a, m) + RowsOf(b, n)
  {
    JoinKeepsLength(a, b, m, n);
    JoinedColumns(a.nonTensor, b.nonTensor, m, n);
    JoinedColumns(TensorColumns(a), TensorColumns(b), m, n);
    var j := Join(a, b);
    assert TensorColumns(j) == JoinColumns(TensorColumns(a), TensorColumns(b));
    hide JoinColumns, ColumnRows, ColumnsOf, TensorColumns, Join, HasLength, SameKeys;
  }

  lemma JoinKeepsLength(a: DataProto, b: DataProto, m: nat, n: nat)
    requires SameKeys(a, b) && HasLength(a, m) && HasLength(b, n)
    ensures HasLength(Join(a, b), m + n)
    ensures Join(a, b).nonTensor == JoinColumns(a.nonTensor, b.nonTensor)
  {
    if a.nonTensor != map[] {
      var key :| key in a.nonTensor;
      assert key in b.nonTensor && key in JoinColumns(a.nonTensor, b.nonTensor);
    } else {
      assert b.nonTensor == map[];
    }
  }

  ghost predicate AllSameKeys(ds: seq<DataProto>, d: DataProto) {
    forall i :: 0 <= i < |ds| ==> SameKeys(d, ds[i])
  }

  /** The rows of several batches, one after the other. */
  ghost predicate RowsAre(ds: seq<DataProto>, rows: seq<seq<Row>>) {
    |ds| == |rows| && forall i :: 0 <= i < |ds| ==> HasLength(ds[i], |rows[i]|) && RowsOf(ds[i], |rows[i]|) == rows[i]
  }

  method Concat(ds: seq<DataProto>, ghost rows: seq<seq<Row>>) returns (r: DataProto)
    requires ds != [] && AllSameKeys(ds, ds[0]) && RowsAre(ds, rows)
    ensures SameKeys(ds[0], r) && HasLength(r, |Flat(rows)|) && RowsOf(r, |Flat(rows)|) == Flat(rows)
  {
    hide HasLength, RowsOf, Join;
    r := ds[0];
    assert rows[..1] == [rows[0]];
    FlatOne(rows[0]);
    for i := 1 to |ds|
      invariant SameKeys(ds[0], r) && HasLength(r, |Flat(rows[..i])|)
      invariant RowsOf(r, |Flat(rows[..i])|) == Flat(rows[..i])
    {
      assert rows[..i + 1] == rows[..i] + [rows[i]];
      FlatConcat(rows[..i], [rows[i]]);
      FlatOne(rows[i]);
      JoinRows(r, ds[i], |Flat(rows[..i])|, |rows[i]|);
      r := Join(r, ds[i]);
    }
    assert rows[..|ds|] == rows;
  }

  /** Padding repeats the rows from the start. */

  function Around(i: nat, n: nat): (r: nat)
    requires n > 0
    ensures r < n
  {
    i % n
  }

  ghost function Cycle(rows: seq<Row>, m: nat): (r: seq<Row>)
    requires m > 0 ==> rows != []
    ensures |r| == m
  {
    seq(m, i requires 0 <= i < m => rows[Around(i, |rows|)])
  }

  lemma AroundAfter(n: nat, turns: nat, i: nat)
    requires turns * n <= i < turns * n + n
    ensures Around(i, n) == i - turns * n
  {
    DivModUnique(i, n, turns, i - turns * n);
  }

  /** After whole turns the cycle goes on with the first rows. */
  lemma CycleNext(rows: seq<Row>, turns: nat, done: nat, take: nat)
    requires rows != [] && take <= |rows| && done == turns * |rows|
    ensures Cycle(rows, done + take) == Cycle(rows, done) + rows[..take]
  {
    forall i | done <= i < done + take
      ensures Around(i, |rows|) == i - done
    {
      AroundAfter(|rows|, turns, i);
    }
  }

  /** The padding batches, each of at most the rows there are. */
  method Paddings(d: DataProto, n: nat, padSize: nat) returns (pads: seq<DataProto>, ghost rows: seq<seq<Row>>)
    requires HasLength(d, n) && n > 0
    ensures AllSameKeys(pads, d) && RowsAre(pads, rows) && Flat(rows) == Cycle(RowsOf(d, n), padSize)
  {
    hide HasLength, RowsOf, Cycle;
    pads, rows := [], [];
    var remaining := padSize;
    ghost var turns := 0;
    while remaining > 0
      invariant 0 <= remaining <= padSize && AllSameKeys(pads, d) && RowsAre(pads, rows)
      invariant Flat(rows) == Cycle(RowsOf(d, n), padSize - remaining)
      invariant remaining > 0 ==> padSize - remaining == turns * n
    {
      var take := Min(remaining, n);
      ghost var first := RowsOf(d, n)[0..take];
      var part := Slice(d, n, None, Some(take), 1);
      PickSlice(RowsOf(d, n), None, Some(take));
      CycleNext(RowsOf(d, n), turns, padSize - remaining, take);
      FlatConcat(rows, [first]);
      FlatOne(first);
      MulSucc(turns, n);
      pads, rows := pads + [part.value], rows + [first];
      remaining, turns := remaining - take, turns + 1;
    }
  }

  method PadToDivisor(d: DataProto, n: nat, divisor: nat) returns (padded: DataProto, padSize: nat)
    requires HasLength(d, n) && divisor > 0
    ensures padSize == PadSize(n, divisor) && SameKeys(d, padded) && HasLength(padded, n + padSize)
    ensures padSize > 0 ==> n > 0
    ensures RowsOf(padded, n + padSize) == Cycle(RowsOf(d, n), n + padSize)
    ensures forall i :: 0 <= i < n + padSize ==> RowsOf(padded, n + padSize)[i] == RowsOf(d, n)[i % n]
  {
    hide HasLength, RowsOf, Cycle, CeilDiv, Join;
    if n % divisor != 0 {
      padSize := divisor - n % divisor;
      var pads, rows := Paddings(d, n, padSize);
      FlatConcat([RowsOf(d, n)], rows);
      FlatOne(RowsOf(d, n));
      padded := Concat([d] + pads, [RowsOf(d, n)] + rows);
      PaddedRows(RowsOf(d, n), padSize);
    } else {
      padSize, padded := 0, d;
      CycleOnce(RowsOf(d, n));
    }
    CycleAt(RowsOf(d, n), n + padSize);
  }

  lemma CycleAt(rows: seq<Row>, m: nat)
    requires m > 0 ==> rows != []
    ensures forall i :: 0 <= i < m ==> Cycle(rows, m)[i] == rows[i % |rows|]
  {
  }

  lemma CycleOnce(rows: seq<Row>)
    ensures Cycle(rows, |rows|) == rows
  {
    if rows != [] {
      CycleNext(rows, 0, 0, |rows|);
    }
  }

  lemma AroundOnce(n: nat, i: nat)
    requires n > 0
    ensures i < n ==> Around(i, n) == i
    ensures Around(n + i, n) == Around(i, n)
  {
    var q := i / n;
    MulSucc(q, n);
    AroundAfter(n, q, i);
    AroundAfter(n, q + 1, n + i);
    if i < n {
      AroundAfter(n, 0, i);
    }
  }

  lemma PaddedRows(rows: seq<Row>, padSize: nat)
    requires rows != []
    ensures rows + Cycle(rows, padSize) == Cycle(rows, |rows| + padSize)
  {
    hide Around;
    forall i | 0 <= i < |rows| + padSize
      ensures (rows + Cycle(rows, padSize))[i] == Cycle(rows, |rows| + padSize)[i]
    {
      AroundOnce(|rows|, if i < |rows| then i else i - |rows|);
    }
  }

  /** Drops the last `padSize` rows, or all of them when there are fewer. */
  method Unpad(d: DataProto, n: nat, padSize: nat) returns (r: DataProto)
    requires HasLength(d, n)
    ensures var kept: nat := if padSize <= n then n - padSize else 0;
      SameKeys(d, r) && HasLength(r, kept) && RowsOf(r, kept) == RowsOf(d, n)[..kept]
  {
    var kept := if padSize <= n then n - padSize else 0;
    if padSize != 0 {
      var stop: int := padSize;
      PickSlice(RowsOf(d, n), None, Some(-stop));
      var part := Slice(d, n, None, Some(-stop), 1);
      r := part.value;
    } else {
      r := d;
    }
  }

  /** Cuts all columns at the same rows. Unless padding is enabled the chunks have to be equal; then,
      too, cutting tensors can give fewer pieces than asked for, which fails. */
  method Chunk(d: DataProto, n: nat, chunks: nat, paddingEnabled: bool) returns (output: Result<seq<DataProto>, Error>)
    requires HasLength(d, n) && chunks > 0
    ensures Sum(ChunkSizes(d.batch.Some?, n, chunks)) == n
    ensures output.Err? <==>
      (!paddingEnabled && n % chunks != 0) || |ChunkSizes(d.batch.Some?, n, chunks)| != chunks
    ensures output.Ok? ==> |output.value| == chunks && AllSameKeys(output.value, d)
    ensures output.Ok? ==> RowsAre(output.value, Pieces(RowsOf(d, n), ChunkSizes(d.batch.Some?, n, chunks)))
  {
    ChunkSizesAddUp(d.batch.Some?, n, chunks);
    if !paddingEnabled && n % chunks != 0 {
      return Err(UnequalChunks);
    }
    var sizes := ChunkSizes(d.batch.Some?, n, chunks);
    if |sizes| != chunks {
      return Err(TooFewPieces);
    }
    var parts := CutRows(d, n, sizes);
    output := Ok(parts);
  }

  /** Cuts every column at the running sums of the sizes. */
  method CutRows(d: DataProto, n: nat, sizes: seq<nat>) returns (parts: seq<DataProto>)
    requires HasLength(d, n) && Sum(sizes) == n
    ensures AllSameKeys(parts, d) && RowsAre(parts, Pieces(RowsOf(d, n), sizes))
  {
    hide HasLength, RowsOf, PickRows, Sum, Stretch, Pickable, Pieces, SameKeys;
    ghost var rows, done := RowsOf(d, n), [];
    parts := [];
    var lo: nat := 0;
    assert rows[0..] == rows && sizes[0..] == sizes;
    for i := 0 to |sizes|
      invariant |parts| == i && AllSameKeys(parts, d) && RowsAre(parts, done)
      invariant lo <= n && Sum(sizes[i..]) == n - lo && Pieces(rows, sizes) == done + Pieces(rows[lo..], sizes[i..])
    {
      NextPiece(rows[lo..], sizes[i..]);
      StretchRows(d, n, lo, lo + sizes[i]);
      assert rows[lo..][..sizes[i]] == rows[lo..lo + sizes[i]] && rows[lo..][sizes[i]..] == rows[lo + sizes[i]..];
      assert sizes[i..][1..] == sizes[i + 1..];
      parts, done := parts + [PickRows(d, Stretch(lo, lo + sizes[i]))], done + [rows[lo..lo + sizes[i]]];
      lo := lo + sizes[i];
    }
  }

  function MapAll<S, T>(f: S -> T, s: seq<seq<S>>): (r: seq<seq<T>>)
    ensures |r| == |s|
  {
    seq(|s|, i requires 0 <= i < |s| => MapRows(f, s[i]))
  }

  lemma {:induction false} MapFlat<S, T>(f: S -> T, s: seq<seq<S>>)
    ensures Flat(MapAll(f, s)) == MapRows(f, Flat(s))
  {
    if s != [] {
      MapFlat(f, s[1..]);
      assert MapAll(f, s)[1..] == MapAll(f, s[1..]);
    }
  }

  /** A worker whose output row depends on its input row alone, with columns that depend on the input's columns. */
  ghost predicate RowWise(worker: DataProto -> DataProto, f: Row -> Row) {
    && (forall d, n | HasLength(d, n) :: HasLength(worker(d), n) && RowsOf(worker(d), n) == MapRows(f, RowsOf(d, n)))
    && forall a, b | SameKeys(a, b) :: SameKeys(worker(a), worker(b))
  }

  method RunWorkers(worker: DataProto -> DataProto, ghost f: Row -> Row, parts: seq<DataProto>,
                    ghost rows: seq<seq<Row>>)
    returns (outputs: seq<DataProto>)
    requires RowWise(worker, f) && RowsAre(parts, rows) && parts != [] && AllSameKeys(parts, parts[0])
    ensures |outputs| == |parts| && AllSameKeys(outputs, outputs[0]) && RowsAre(outputs, MapAll(f, rows))
  {
    outputs := [];
    for i := 0 to |parts|
      invariant |outputs| == i && forall j :: 0 <= j < i ==> outputs[j] == worker(parts[j])
    {
      outputs := outputs + [worker(parts[i])];
    }
    hide HasLength, RowsOf, SameKeys;
  }

  /** Pad, cut for the workers, run them, join and unpad: the map over the original rows, in their order. */
  method Dispatch(d: DataProto, n: nat, workers: nat, worker: DataProto -> DataProto, ghost f: Row -> Row)
    returns (result: DataProto)
    requires HasLength(d, n) && workers > 0 && RowWise(worker, f)
    ensures HasLength(result, n) && RowsOf(result, n) == MapRows(f, RowsOf(d, n))
  {
    hide HasLength, RowsOf, Cycle, SameKeys, RowWise, Sections, Pieces, Flat, Sum, ChunkSizes;
    var padded, padSize := PadToDivisor(d, n, workers);
    PaddedDivides(n, workers);
    ghost var rows := RowsOf(padded, n + padSize);
    var chunked := Chunk(padded, n + padSize, workers, false);
    EvenChunkSizes(padded.batch.Some?, n + padSize, workers);
    EvenPieces(rows, ChunkSizes(padded.batch.Some?, n + padSize, workers));
    var parts := chunked.value;
    SameKeysWithin(parts, padded);
    var outputs := RunWorkers(worker, f, parts, Sections(rows, workers));
    MapFlat(f, Sections(rows, workers));
    FlatOfSections(rows, workers);
    var joined := Concat(outputs, MapAll(f, Sections(rows, workers)));
    result := Unpad(joined, n + padSize, padSize);
    CyclePrefix(RowsOf(d, n), padSize);
  }

  lemma SameKeysWithin(ds: seq<DataProto>, d: DataProto)
    requires ds != [] && AllSameKeys(ds, d)
    ensures AllSameKeys(ds, ds[0])
  {
    assert SameKeys(d, ds[0]);
  }

  lemma CyclePrefix(rows: seq<Row>, padSize: nat)
    requires padSize > 0 ==> rows != []
    ensures Cycle(rows, |rows| + padSize)[..|rows|] == rows
  {
    if rows != [] {
      PaddedRows(rows, padSize);
    }
  }

  /** A worker that changes nothing is row-wise. */
  lemma IdentityIsRowWise()
    ensures RowWise((d: DataProto) => d, (r: Row) => r)
  {
  }
}
