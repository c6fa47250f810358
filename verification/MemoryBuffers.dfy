/** Flat buffers that hold the tensors of a module, one buffer for each element type. */
module MemoryBuffers {
  import opened Arithmetic
  import opened Options

  type Value = int

  datatype Dtype = Float64 | Float32 | Float16 | BFloat16 | Float8 {
    function Bits(): nat {
      match this
      case Float64 => 64
      case Float32 => 32
      case Float16 => 16
      case BFloat16 => 16
      case Float8 => 8
    }

    /** Elements in 128 bits. */
    function Alignment(): (a: nat)
      ensures a > 0 && a * Bits() == 128
    {
      128 / Bits()
    }
  }

  /** What is known of a tensor before it has a place: its number of elements and their type. */
  datatype Meta = Meta(numel: nat, dtype: Dtype)

  function CalcPaddedNumel(meta: Meta): nat {
    var align := meta.dtype.Alignment();
    (meta.numel + align - 1) / align * align
  }

  predicate Aligned(n: nat, t: Dtype) {
    n % t.Alignment() == 0
  }

  /** The padded size is the least aligned one that holds the elements. */
  lemma PaddedIsLeast(meta: Meta)
    ensures Aligned(CalcPaddedNumel(meta), meta.dtype)
    ensures meta.numel <= CalcPaddedNumel(meta)
    ensures forall n: nat | Aligned(n, meta.dtype) && meta.numel <= n :: CalcPaddedNumel(meta) <= n
  {
    var a := meta.dtype.Alignment();
    hide Dtype.Alignment;
    var q := (meta.numel + a - 1) / a;
    DivModMul(q, a);
    assert meta.numel <= q * a < meta.numel + a;
    forall n: nat | Aligned(n, meta.dtype) && meta.numel <= n
      ensures q * a <= n
    {
      PaddedBelow(meta.numel, a, q, n / a);
    }
  }

  lemma PaddedBelow(count: nat, a: nat, q: nat, k: nat)
    requires q * a < count + a && count <= k * a
    ensures q * a <= k * a
  {
    if k < q {
      MulStep(k, q, a);
    }
    MulMonotone(q, if k < q then q else k, a);
  }

  /** What a tensor takes in the buffer of type `t`. */
  function Taken(meta: Meta, t: Dtype): nat {
    if meta.dtype == t then CalcPaddedNumel(meta) else 0
  }

  /** What all of them take there. */
  function Extent(metas: seq<Meta>, t: Dtype): nat {
    if metas == [] then 0
    else Extent(metas[..|metas| - 1], t) + Taken(metas[|metas| - 1], t)
  }

  /** Where tensor `i` starts in the buffer of its type. */
  function Start(metas: seq<Meta>, i: nat): nat
    requires i < |metas|
  {
    Extent(metas[..i], metas[i].dtype)
  }

  function End(metas: seq<Meta>, i: nat): nat
    requires i < |metas|
  {
    Start(metas, i) + CalcPaddedNumel(metas[i])
  }

  lemma ExtentNext(metas: seq<Meta>, i: nat, t: Dtype)
    requires i < |metas|
    ensures Extent(metas[..i + 1], t) == Extent(metas[..i], t) + Taken(metas[i], t)
  {
    assert metas[..i + 1][..i] == metas[..i];
  }

  lemma ExtentsNext(metas: seq<Meta>, i: nat)
    requires i < |metas|
    ensures forall t :: Extent(metas[..i + 1], t) == Extent(metas[..i], t) + Taken(metas[i], t)
  {
    forall t
      ensures Extent(metas[..i + 1], t) == Extent(metas[..i], t) + Taken(metas[i], t)
    {
      ExtentNext(metas, i, t);
    }
  }

  lemma {:induction false} ExtentGrows(metas: seq<Meta>, i: nat, j: nat, t: Dtype)
    requires i <= j <= |metas|
    ensures Extent(metas[..i], t) <= Extent(metas[..j], t)
  {
    if i < j {
      ExtentGrows(metas, i, j - 1, t);
      ExtentNext(metas, j - 1, t);
    }
  }

  lemma {:induction false} ExtentAligned(metas: seq<Meta>, t: Dtype)
    ensures Aligned(Extent(metas, t), t)
  {
    if metas != [] {
      var n := |metas| - 1;
      ExtentAligned(metas[..n], t);
      PaddedIsLeast(metas[n]);
      if metas[n].dtype == t {
        AlignedSum(Extent(metas[..n], t), CalcPaddedNumel(metas[n]), t);
      }
    }
  }

  lemma AlignedSum(m: nat, n: nat, t: Dtype)
    requires Aligned(m, t) && Aligned(n, t)
    ensures Aligned(m + n, t)
  {
    MultiplesAdd(m, n, t.Alignment());
  }

  lemma MultiplesAdd(m: nat, n: nat, a: nat)
    requires a > 0 && m % a == 0 && n % a == 0
    ensures (m + n) % a == 0
  {
    var p, q := m / a, n / a;
    assert (p + q) * a == p * a + q * a;
    DivModUnique(m + n, a, p + q, 0);
  }

  /** Every tensor starts aligned and stays, padding and all, inside the buffer of its type. */
  lemma TensorsInRange(metas: seq<Meta>, i: nat)
    requires i < |metas|
    ensures Aligned(Start(metas, i), metas[i].dtype)
    ensures Start(metas, i) + metas[i].numel <= End(metas, i) <= Extent(metas, metas[i].dtype)
  {
    ExtentAligned(metas[..i], metas[i].dtype);
    PaddedIsLeast(metas[i]);
    ExtentNext(metas, i, metas[i].dtype);
    ExtentGrows(metas, i + 1, |metas|, metas[i].dtype);
    assert metas[..|metas|] == metas;
  }

  /** Tensors of one type do not overlap. */
  lemma TensorsDisjoint(metas: seq<Meta>, i: nat, j: nat)
    requires i < j < |metas| && metas[i].dtype == metas[j].dtype
    ensures End(metas, i) <= Start(metas, j)
  {
    ExtentNext(metas, i, metas[i].dtype);
    ExtentGrows(metas, i + 1, j, metas[i].dtype);
  }

  ghost predicate Holds(metas: seq<Meta>, t: Dtype, at: nat, i: nat) {
    i < |metas| && metas[i].dtype == t && Start(metas, i) <= at < End(metas, i)
  }

  /** The padded tensors of a type fill its buffer: every place in it belongs to one of them and to no other. */
  lemma TensorsFillBuffer(metas: seq<Meta>, t: Dtype, at: nat)
    ensures at < Extent(metas, t) <==> exists i: nat :: Holds(metas, t, at, i)
    ensures forall i: nat, j: nat | Holds(metas, t, at, i) && Holds(metas, t, at, j) :: i == j
  {
    assert metas[..|metas|] == metas;
    if at < Extent(metas, t) {
      ghost var i := Owner(metas, t, at, |metas|);
    }
    forall i: nat | Holds(metas, t, at, i)
      ensures at < Extent(metas, t)
    {
      TensorsInRange(metas, i);
    }
    forall i: nat, j: nat | Holds(metas, t, at, i) && Holds(metas, t, at, j)
      ensures i >= j
    {
      if i < j {
        TensorsDisjoint(metas, i, j);
      }
    }
  }

  lemma {:induction false} Owner(metas: seq<Meta>, t: Dtype, at: nat, n: nat) returns (i: nat)
    requires n <= |metas| && at < Extent(metas[..n], t)
    ensures Holds(metas, t, at, i)
  {
    ExtentNext(metas, n - 1, t);
    if at < Extent(metas[..n - 1], t) {
      i := Owner(metas, t, at, n - 1);
    } else {
      i := n - 1;
    }
  }

  /** A stretch of some storage. */
  datatype View = View(store: array<Value>, start: nat, numel: nat) {
    ghost predicate InRange() {
      start + numel <= store.Length
    }

    ghost function Contents(): seq<Value>
      requires InRange()
      reads store
    {
      store[..][start..start + numel]
    }
  }

  class MemoryBuffer {
    const numel: nat
    const data: array<Value>

    constructor (numel: nat)
      ensures this.numel == numel && data.Length == numel && fresh(data)
      ensures forall k :: 0 <= k < numel ==> data[k] == 0
    {
      this.numel := numel;
      data := new Value[numel](_ => 0);
    }

    /** The stretch from `start`, refused where it would leave the buffer. */
    function Get(count: nat, start: nat): (r: Option<View>)
      ensures r == None <==> start + count > numel
      ensures r.Some? ==> r.value == View(data, start, count)
    {
      if start + count <= numel then Some(View(data, start, count)) else None
    }
  }

  type Buffers = map<Dtype, MemoryBuffer>

  function DtypesOf(metas: seq<Meta>): set<Dtype> {
    set m | m in metas :: m.dtype
  }

  /** Buffers hold as many elements as they say, and none shares storage with another. */
  ghost predicate Separate(buffers: Buffers) {
    && (forall t | t in buffers :: buffers[t].numel == buffers[t].data.Length)
    && forall t, u | t in buffers && u in buffers && t != u :: buffers[t].data != buffers[u].data
  }

  /** One buffer of the right size for each element type. */
  ghost predicate Fits(metas: seq<Meta>, buffers: Buffers) {
    && Separate(buffers)
    && buffers.Keys == DtypesOf(metas)
    && forall t | t in buffers :: buffers[t].numel == Extent(metas, t)
  }

  /** First pass: the size each element type needs. Then one buffer of zeros for each. */
  method BuildMemoryBuffer(metas: seq<Meta>) returns (buffers: Buffers)
    ensures Fits(metas, buffers)
    ensures forall t | t in buffers :: fresh(buffers[t]) && fresh(buffers[t].data)
    ensures forall t | t in buffers :: forall k :: 0 <= k < buffers[t].numel ==> buffers[t].data[k] == 0
  {
    var totals := TotalNumels(metas);
    buffers := map[];
    var todo := totals.Keys;
    while todo != {}
      invariant todo <= totals.Keys && buffers.Keys == totals.Keys - todo
      invariant forall t | t in buffers :: buffers[t].numel == buffers[t].data.Length == totals[t]
      invariant forall t, u | t in buffers && u in buffers && t != u :: buffers[t].data != buffers[u].data
      invariant forall t | t in buffers :: fresh(buffers[t]) && fresh(buffers[t].data)
      invariant forall t | t in buffers :: forall k :: 0 <= k < buffers[t].numel ==> buffers[t].data[k] == 0
    {
      var t :| t in todo;
      var buffer := new MemoryBuffer(totals[t]);
      buffers := buffers[t := buffer];
      todo := todo - {t};
    }
  }

  method TotalNumels(metas: seq<Meta>) returns (totals: map<Dtype, nat>)
    ensures totals.Keys == DtypesOf(metas)
    ensures forall t | t in totals :: totals[t] == Extent(metas, t)
  {
    totals := map[];
    for i := 0 to |metas|
      invariant totals.Keys == DtypesOf(metas[..i])
      invariant forall t :: Extent(metas[..i], t) == if t in totals then totals[t] else 0
    {
      var t := metas[i].dtype;
      ExtentsNext(metas, i);
      assert metas[..i + 1] == metas[..i] + [metas[i]];
      if t !in totals {
        totals := totals[t := 0];
      }
      totals := totals[t := totals[t] + CalcPaddedNumel(metas[i])];
    }
    assert metas[..|metas|] == metas;
  }

  /** Tensor `i` finds a buffer of its type with room at its place. */
  predicate HasRoom(metas: seq<Meta>, buffers: Buffers, i: nat)
    requires i < |metas|
  {
    metas[i].dtype in buffers && Start(metas, i) + metas[i].numel <= buffers[metas[i].dtype].numel
  }

  function ViewOf(metas: seq<Meta>, buffers: Buffers, i: nat): View
    requires i < |metas| && metas[i].dtype in buffers
  {
    View(buffers[metas[i].dtype].data, Start(metas, i), metas[i].numel)
  }

  /** In buffers built for the tensors every one has its place. */
  lemma FittingBuffersHaveRoom(metas: seq<Meta>, buffers: Buffers, i: nat)
    requires i < |metas| && Fits(metas, buffers)
    ensures HasRoom(metas, buffers, i) && ViewOf(metas, buffers, i).InRange()
  {
    TensorsInRange(metas, i);
    assert metas[i].dtype in DtypesOf(metas);
  }

  /** The starts, type by type, once the first `i` tensors have their places. */
  ghost predicate StartsAre(starts: map<Dtype, nat>, metas: seq<Meta>, i: nat) {
    i <= |metas| && forall t | t in starts :: starts[t] == Extent(metas[..i], t)
  }

  /** Moves the start for the type of tensor `i` past it. */
  function NextStarts(metas: seq<Meta>, i: nat, starts: map<Dtype, nat>): (r: map<Dtype, nat>)
    requires i < |metas| && metas[i].dtype in starts && StartsAre(starts, metas, i)
    ensures r.Keys == starts.Keys && StartsAre(r, metas, i + 1)
  {
    ExtentsNext(metas, i);
    starts[metas[i].dtype := starts[metas[i].dtype] + CalcPaddedNumel(metas[i])]
  }

  /** Hands out the views in order; it fails exactly when some tensor finds no buffer or no room in it. */
  method BuildMemoryReference(metas: seq<Meta>, buffers: Buffers) returns (views: Option<seq<View>>)
    ensures views.Some? <==> forall i :: 0 <= i < |metas| ==> HasRoom(metas, buffers, i)
    ensures views.Some? ==> |views.value| == |metas|
    ensures views.Some? ==>
      forall i :: 0 <= i < |metas| ==> HasRoom(metas, buffers, i) && views.value[i] == ViewOf(metas, buffers, i)
  {
    var startIdx: map<Dtype, nat> := map t | t in buffers :: 0;
    var done: seq<View> := [];
    for i := 0 to |metas|
      invariant |done| == i && startIdx.Keys == buffers.Keys
      invariant StartsAre(startIdx, metas, i)
      invariant forall j :: 0 <= j < i ==> HasRoom(metas, buffers, j) && done[j] == ViewOf(metas, buffers, j)
    {
      var t := metas[i].dtype;
      if t !in buffers {
        assert !HasRoom(metas, buffers, i);
        return None;
      }
      var view := buffers[t].Get(metas[i].numel, startIdx[t]);
      if view == None {
        assert !HasRoom(metas, buffers, i);
        return None;
      }
      startIdx := NextStarts(metas, i, startIdx);
      done := done + [view.value];
    }
    views := Some(done);
  }

  /** A module's parameter: its data is a view that can be pointed elsewhere. */
  class Parameter {
    const meta: Meta
    var data: View

    constructor (meta: Meta, data: View)
      requires data.numel == meta.numel
      ensures this.meta == meta && this.data == data
    {
      this.meta := meta;
      this.data := data;
    }
  }

  function MetasOf(params: seq<Parameter>): (r: seq<Meta>)
    ensures |r| == |params|
  {
    seq(|params|, i requires 0 <= i < |params| => params[i].meta)
  }

  function StoresOf(buffers: Buffers): set<array<Value>> {
    set t | t in buffers :: buffers[t].data
  }

  /** A stretch of a sequence overwritten. */
  function Spliced(s: seq<Value>, start: nat, c: seq<Value>): (r: seq<Value>)
    requires start + |c| <= |s|
    ensures |r| == |s|
  {
    s[..start] + c + s[start + |c|..]
  }

  lemma SplicedElsewhere(s: seq<Value>, start: nat, c: seq<Value>, lo: nat, hi: nat)
    requires start + |c| <= |s| && lo <= hi <= |s| && (hi <= start || start + |c| <= lo)
    ensures Spliced(s, start, c)[lo..hi] == s[lo..hi]
    ensures Spliced(s, start, c)[start..start + |c|] == c
  {
  }

  /** Two views without a common place. */
  ghost predicate Apart(v: View, w: View) {
    v.store != w.store || v.start + v.numel <= w.start || w.start + w.numel <= v.start
  }

  /** Copying a view to one apart from it, or onto itself. */
  method CopyInto(to: View, from: View)
    requires to.InRange() && from.InRange() && to.numel == from.numel && (Apart(to, from) || to == from)
    modifies to.store
    ensures to.store[..] == Spliced(old(to.store[..]), to.start, old(from.Contents()))
  {
    ghost var before, contents := to.store[..], from.Contents();
    for k := 0 to to.numel
      invariant to.store[..] == Spliced(before, to.start, contents[..k])
      invariant from.Contents() == contents
    {
      assert from.Contents()[k] == from.store[from.start + k];
      to.store[to.start + k] := from.store[from.start + k];
      assert to.store[..] == Spliced(before, to.start, contents[..k])[to.start + k := contents[k]];
    }
    assert contents[..to.numel] == contents;
  }

  /** A view whose contents are still there when tensor `i` is moved: apart from the places written
      before, and from its own place unless it is there already. */
  ghost predicate Copyable(metas: seq<Meta>, buffers: Buffers, i: nat, from: View)
    requires i < |metas|
  {
    && from.InRange() && from.numel == metas[i].numel
    && (forall j :: 0 <= j < i && HasRoom(metas, buffers, j) ==> Apart(from, ViewOf(metas, buffers, j)))
    && (HasRoom(metas, buffers, i) ==>
          Apart(from, ViewOf(metas, buffers, i)) || from == ViewOf(metas, buffers, i))
  }

  /** Two tensors never touch each other's places. */
  lemma PlacesApart(metas: seq<Meta>, buffers: Buffers, i: nat, j: nat)
    requires i < |metas| && j < |metas| && i != j && Separate(buffers)
    requires HasRoom(metas, buffers, i) && HasRoom(metas, buffers, j)
    ensures Apart(ViewOf(metas, buffers, i), ViewOf(metas, buffers, j))
  {
    if metas[i].dtype == metas[j].dtype {
      TensorsInRange(metas, i);
      TensorsInRange(metas, j);
      if i < j {
        TensorsDisjoint(metas, i, j);
      } else {
        TensorsDisjoint(metas, j, i);
      }
    }
  }

  lemma PlaceKept(metas: seq<Meta>, buffers: Buffers, i: nat, j: nat, s: seq<Value>, c: seq<Value>)
    requires i < |metas| && j < |metas| && i != j && Separate(buffers)
    requires HasRoom(metas, buffers, i) && HasRoom(metas, buffers, j)
    requires ViewOf(metas, buffers, i).store == ViewOf(metas, buffers, j).store
    requires |c| == metas[i].numel && |s| == ViewOf(metas, buffers, i).store.Length
    ensures var start, w := ViewOf(metas, buffers, i).start, ViewOf(metas, buffers, j);
      start + |c| <= |s| && w.start + w.numel <= |s| &&
      Spliced(s, start, c)[w.start..w.start + w.numel] == s[w.start..w.start + w.numel]
  {
    PlacesApart(metas, buffers, i, j);
    var start, w := ViewOf(metas, buffers, i).start, ViewOf(metas, buffers, j);
    SplicedElsewhere(s, start, c, w.start, w.start + w.numel);
  }

  /** Writing a tensor at its place leaves all other places alone. */
  method CopyToPlace(metas: seq<Meta>, buffers: Buffers, i: nat, from: View)
    requires Separate(buffers) && i < |metas| && HasRoom(metas, buffers, i) && Copyable(metas, buffers, i, from)
    modifies ViewOf(metas, buffers, i).store
    ensures ViewOf(metas, buffers, i).InRange() && ViewOf(metas, buffers, i).Contents() == old(from.Contents())
    ensures ViewOf(metas, buffers, i).store[..] ==
      Spliced(old(ViewOf(metas, buffers, i).store[..]), ViewOf(metas, buffers, i).start, old(from.Contents()))
    ensures forall j :: 0 <= j < |metas| && j != i && HasRoom(metas, buffers, j) ==>
      ViewOf(metas, buffers, j).InRange() &&
      ViewOf(metas, buffers, j).Contents() == old(ViewOf(metas, buffers, j).Contents())
  {
    var to := ViewOf(metas, buffers, i);
    ghost var before, contents := to.store[..], from.Contents();
    CopyInto(to, from);
    SplicedElsewhere(before, to.start, contents, 0, 0);
    forall j | 0 <= j < |metas| && j != i && HasRoom(metas, buffers, j)
      ensures ViewOf(metas, buffers, j).InRange() &&
        ViewOf(metas, buffers, j).Contents() == old(ViewOf(metas, buffers, j).Contents())
    {
      var w := ViewOf(metas, buffers, j);
      hide Spliced, Start, Extent, StoresOf;
      if w.store == to.store {
        PlaceKept(metas, buffers, i, j, before, contents);
      }
    }
  }

  ghost function DataOf(params: seq<Parameter>): (r: seq<View>)
    reads params
    ensures |r| == |params|
  {
    seq(|params|, i requires 0 <= i < |params| reads params => params[i].data)
  }

  /** The views hold these weights. */
  ghost predicate Hold(views: seq<View>, weights: seq<seq<Value>>)
    reads set v | v in views :: v.store
  {
    && |views| == |weights|
    && forall i :: 0 <= i < |views| ==> views[i].InRange() && views[i].Contents() == weights[i]
  }

  ghost function WeightsOf(views: seq<View>): (r: seq<seq<Value>>)
    requires forall i :: 0 <= i < |views| ==> views[i].InRange()
    reads set v | v in views :: v.store
    ensures Hold(views, r)
  {
    seq(|views|, i requires 0 <= i < |views| reads set v | v in views :: v.store =>
      assert views[i] in views; views[i].Contents())
  }

  ghost function StoredIn(buffers: Buffers): map<Dtype, seq<Value>>
    reads StoresOf(buffers)
  {
    map t | t in buffers :: buffers[t].data[..]
  }

  ghost predicate Distinct(params: seq<Parameter>) {
    forall i, j :: 0 <= i < j < |params| ==> params[i] != params[j]
  }

  /** No weights are overwritten before they are moved. */
  ghost predicate Movable(datas: seq<View>, metas: seq<Meta>, buffers: Buffers) {
    |datas| == |metas| && forall i :: 0 <= i < |datas| ==> Copyable(metas, buffers, i, datas[i])
  }

  /** The first `i` views are at their places. */
  ghost predicate AtPlaces(datas: seq<View>, metas: seq<Meta>, buffers: Buffers, i: nat) {
    && i <= |metas| == |datas|
    && forall j :: 0 <= j < i ==> HasRoom(metas, buffers, j) && datas[j] == ViewOf(metas, buffers, j)
  }

  /** Writes tensor `i` at its place. All views keep what they hold, and so does the place. */
  method FillPlace(metas: seq<Meta>, buffers: Buffers, i: nat, from: View, ghost datas: seq<View>,
                   ghost weights: seq<seq<Value>>)
    requires Separate(buffers) && i < |metas| && HasRoom(metas, buffers, i) && Movable(datas, metas, buffers)
    requires AtPlaces(datas, metas, buffers, i) && datas[i] == from && Hold(datas, weights)
    modifies ViewOf(metas, buffers, i).store
    ensures Hold(datas[i := ViewOf(metas, buffers, i)], weights)
  {
    assert Copyable(metas, buffers, i, datas[i]);
    var to := ViewOf(metas, buffers, i);
    ghost var before, contents := to.store[..], from.Contents();
    CopyToPlace(metas, buffers, i, from);
    forall j | 0 <= j < |datas| && j != i
      ensures datas[j].InRange() && datas[j].Contents() == weights[j]
    {
      OthersApart(metas, buffers, i, datas, j);
      hide Spliced, Start, Extent, Movable, AtPlaces, Copyable, HasRoom;
      if datas[j].store == to.store {
        SplicedElsewhere(before, to.start, contents, datas[j].start, datas[j].start + datas[j].numel);
      }
    }
  }

  /** The views of the other tensors, moved or not, stay clear of the place of tensor `i`. */
  lemma OthersApart(metas: seq<Meta>, buffers: Buffers, i: nat, datas: seq<View>, j: nat)
    requires Separate(buffers) && i < |metas| && HasRoom(metas, buffers, i) && Movable(datas, metas, buffers)
    requires AtPlaces(datas, metas, buffers, i) && j < |datas| && j != i
    ensures datas[j].InRange() && Apart(datas[j], ViewOf(metas, buffers, i))
  {
    assert Copyable(metas, buffers, j, datas[j]);
    if j < i {
      PlacesApart(metas, buffers, j, i);
    }
  }

  /** A tensor at its place is clear of those written before. */
  lemma CopyableAtPlace(metas: seq<Meta>, buffers: Buffers, i: nat)
    requires Separate(buffers) && i < |metas| && HasRoom(metas, buffers, i)
    ensures Copyable(metas, buffers, i, ViewOf(metas, buffers, i))
  {
    forall j | 0 <= j < i && HasRoom(metas, buffers, j)
      ensures Apart(ViewOf(metas, buffers, i), ViewOf(metas, buffers, j))
    {
      PlacesApart(metas, buffers, i, j);
    }
  }

  /** Points one parameter at its place, copying its weights there where asked. All parameters keep
      theirs. */
  method MoveParameter(params: seq<Parameter>, metas: seq<Meta>, buffers: Buffers, i: nat, view: View,
                       maintainWeight: bool, ghost weights: seq<seq<Value>>)
    requires Separate(buffers) && i < |params| == |metas|
    requires HasRoom(metas, buffers, i) && view == ViewOf(metas, buffers, i)
    requires Distinct(params) && AtPlaces(DataOf(params), metas, buffers, i)
    requires maintainWeight ==> Movable(DataOf(params), metas, buffers) && Hold(DataOf(params), weights)
    modifies params[i], view.store
    ensures DataOf(params) == old(DataOf(params))[i := view]
    ensures maintainWeight ==> Movable(DataOf(params), metas, buffers) && Hold(DataOf(params), weights)
    ensures !maintainWeight ==> StoredIn(buffers) == old(StoredIn(buffers))
  {
    if maintainWeight {
      FillPlace(metas, buffers, i, params[i].data, DataOf(params), weights);
    }
    CopyableAtPlace(metas, buffers, i);
    params[i].data := view;
  }

  /** The first `i` views are at their places, the others where they were. */
  ghost predicate Progress(now: seq<View>, metas: seq<Meta>, buffers: Buffers, datas: seq<View>, i: nat) {
    && |now| == |datas| && AtPlaces(now, metas, buffers, i)
    && forall j :: i <= j < |now| ==> now[j] == datas[j]
  }

  lemma ProgressNext(now: seq<View>, metas: seq<Meta>, buffers: Buffers, datas: seq<View>, i: nat)
    requires Progress(now, metas, buffers, datas, i) && i < |metas| && HasRoom(metas, buffers, i)
    ensures |now| == |metas| && Progress(now[i := ViewOf(metas, buffers, i)], metas, buffers, datas, i + 1)
  {
  }

  /** Points each parameter at its place in the buffers, in order, taking its weights along where
      asked; it stops at the first one that finds no buffer or no room. */
  method BuildMemoryReferenceFromModule(params: seq<Parameter>, buffers: Buffers, maintainWeight: bool,
                                        ghost weights: seq<seq<Value>>)
    returns (moved: nat)
    requires Distinct(params) && Separate(buffers)
    requires maintainWeight ==> Movable(DataOf(params), MetasOf(params), buffers) && Hold(DataOf(params), weights)
    modifies params, StoresOf(buffers)
    ensures Progress(DataOf(params), MetasOf(params), buffers, old(DataOf(params)), moved)
    ensures moved < |params| ==> !HasRoom(MetasOf(params), buffers, moved)
    ensures maintainWeight ==> Hold(DataOf(params), weights)
    ensures !maintainWeight ==> StoredIn(buffers) == old(StoredIn(buffers))
  {
    var metas := MetasOf(params);
    ghost var datas := DataOf(params);
    var startIndex: map<Dtype, nat> := map t | t in buffers :: 0;
    assert StartsAre(startIndex, metas, 0) && Progress(datas, metas, buffers, datas, 0);
    assert forall i :: 0 <= i < |metas| ==> HasRoom(metas, buffers, i) ==> metas[i].dtype in buffers;
    hide *;
    for i := 0 to |params|
      invariant startIndex.Keys == buffers.Keys && StartsAre(startIndex, metas, i)
      invariant Progress(DataOf(params), metas, buffers, datas, i)
      invariant maintainWeight ==> Movable(DataOf(params), metas, buffers) && Hold(DataOf(params), weights)
      invariant !maintainWeight ==> StoredIn(buffers) == old(StoredIn(buffers))
    {
      var t := metas[i].dtype;
      if t !in buffers {
        return i;
      }
      var view := buffers[t].Get(metas[i].numel, startIndex[t]);
      if view == None {
        return i;
      }
      startIndex := NextStarts(metas, i, startIndex);
      ProgressNext(DataOf(params), metas, buffers, datas, i);
      MoveParameter(params, metas, buffers, i, view.value, maintainWeight, weights);
    }
    moved := |params|;
  }

  /** The wrapper builds the buffers for a module's parameters and moves them in: every parameter ends
      at its place, and all weights stay as they were. */
  method WrapModule(params: seq<Parameter>) returns (buffers: Buffers)
    requires Distinct(params) && Movable(DataOf(params), MetasOf(params), map[])
    modifies params
    ensures Fits(MetasOf(params), buffers)
    ensures Progress(DataOf(params), MetasOf(params), buffers, old(DataOf(params)), |params|)
    ensures Hold(DataOf(params), old(WeightsOf(DataOf(params))))
  {
    ghost var weights := WeightsOf(DataOf(params));
    buffers := BuildMemoryBuffer(MetasOf(params));
    var moved := BuildMemoryReferenceFromModule(params, buffers, true, weights);
    if moved < |params| {
      FittingBuffersHaveRoom(MetasOf(params), buffers, moved);
      assert false;
    }
  }
}
