/** Inverse index maps, and putting dynamically batched results back in order. */
module DynamicBatch {
  import opened Options
  import opened Partitions
  import opened Tensors

  ghost predicate IsPermutation(idx: seq<nat>) {
    multiset(idx) == multiset(Range(|idx|))
  }

  /** Each index below the length occurs, and at one place only. */
  lemma {:induction false} NoRepeats<T>(s: seq<T>, i: nat, j: nat)
    requires i < j < |s| && s[i] == s[j]
    ensures multiset(s)[s[i]] >= 2
  {
    assert s == s[..i] + [s[i]] + s[i + 1..j] + [s[j]] + s[j + 1..];
  }

  lemma RangeOnce(n: nat, x: nat)
    requires x < n
    ensures multiset(Range(n))[x] == 1
  {
    assert Range(n) == Range(x) + [x] + seq(n - x - 1, i => x + 1 + i);
  }

  lemma PermutationIsBijective(idx: seq<nat>)
    requires IsPermutation(idx)
    ensures forall i :: 0 <= i < |idx| ==> idx[i] < |idx|
    ensures forall i, j :: 0 <= i < j < |idx| ==> idx[i] != idx[j]
    ensures forall x :: 0 <= x < |idx| ==> x in idx
  {
    forall i | 0 <= i < |idx|
      ensures idx[i] < |idx|
    {
      assert idx[i] in multiset(idx);
      assert idx[i] in Range(|idx|);
    }
    forall i, j | 0 <= i < j < |idx|
      ensures idx[i] != idx[j]
    {
      if idx[i] == idx[j] {
        NoRepeats(idx, i, j);
        RangeOnce(|idx|, idx[i]);
      }
    }
    forall x | 0 <= x < |idx|
      ensures x in idx
    {
      assert Range(|idx|)[x] == x;
      assert x in multiset(idx);
    }
  }

  /** Index `i` names place `x` of `n`: negative indices count from the end. */
  predicate Names(i: int, x: int, n: nat) {
    i == x || i == x - n
  }

  /** The last of the indices that names place `x` of `n`. */
  ghost predicate LastNaming(idx: seq<int>, n: nat, x: int, at: int) {
    && 0 <= at < |idx| && Names(idx[at], x, n)
    && forall j :: at < j < |idx| ==> !Names(idx[j], x, n)
  }

  ghost predicate IsNamed(idx: seq<int>, n: nat, x: int) {
    exists j :: 0 <= j < |idx| && Names(idx[j], x, n)
  }

  /** Copies the map, then overwrites it: where the map sends something to `x`, entry `x` ends as
      the last place that does; elsewhere the copy stays. It fails exactly on an index out of range. */
  method GetReverseIdx(idxMap: seq<int>) returns (reverse: Option<array<int>>)
    ensures reverse.Some? <==> forall i :: 0 <= i < |idxMap| ==> -|idxMap| <= idxMap[i] < |idxMap|
    ensures reverse.Some? ==> fresh(reverse.value) && IsReverse(idxMap, reverse.value[..])
  {
    var copy := new int[|idxMap|](i requires 0 <= i < |idxMap| => idxMap[i]);
    for i := 0 to |idxMap|
      invariant forall j :: 0 <= j < i ==> -|idxMap| <= idxMap[j] < |idxMap|
      invariant forall x :: 0 <= x < |idxMap| ==>
        if IsNamed(idxMap[..i], |idxMap|, x) then LastNaming(idxMap[..i], |idxMap|, x, copy[x])
        else copy[x] == idxMap[x]
    {
      if idxMap[i] < -|idxMap| || |idxMap| <= idxMap[i] {
        return None;
      }
      copy[if idxMap[i] < 0 then idxMap[i] + |idxMap| else idxMap[i]] := i;
      assert idxMap[..i + 1] == idxMap[..i] + [idxMap[i]];
    }
    assert idxMap[..|idxMap|] == idxMap;
    reverse := Some(copy);
  }

  ghost predicate IsReverse(idx: seq<int>, reverse: seq<int>) {
    && |reverse| == |idx|
    && forall x :: 0 <= x < |idx| ==>
         if IsNamed(idx, |idx|, x) then LastNaming(idx, |idx|, x, reverse[x]) else reverse[x] == idx[x]
  }

  /** The reverse of a permutation is its inverse from both sides. */
  lemma ReverseInverts(idx: seq<nat>, reverse: seq<int>)
    requires IsPermutation(idx) && IsReverse(idx, reverse)
    ensures forall x :: 0 <= x < |idx| ==> 0 <= reverse[x] < |idx| && idx[reverse[x]] == x
    ensures forall i :: 0 <= i < |idx| ==> idx[i] < |idx| && reverse[idx[i]] == i
  {
    PermutationIsBijective(idx);
    forall x | 0 <= x < |idx|
      ensures 0 <= reverse[x] < |idx| && idx[reverse[x]] == x
    {
      assert x in idx;
      var j :| 0 <= j < |idx| && idx[j] == x;
      assert Names(idx[j], x, |idx|);
      assert LastNaming(idx, |idx|, x, reverse[x]);
    }
    forall i | 0 <= i < |idx|
      ensures reverse[idx[i]] == i
    {
      assert Names(idx[i], idx[i], |idx|);
      assert LastNaming(idx, |idx|, idx[i], reverse[idx[i]]);
    }
  }

  method RestoreDynamicBatch<T>(data: seq<T>, idxLists: seq<seq<nat>>) returns (restored: seq<T>)
    requires Covers(idxLists, |data|) && |Flat<nat>(idxLists)| == |data|
    ensures |restored| == |data|
    ensures forall i :: 0 <= i < |data| ==>
      Flat<nat>(idxLists)[i] < |data| && restored[Flat<nat>(idxLists)[i]] == data[i]
  {
    var indices := Flat<nat>(idxLists);
    PermutationIsBijective(indices);
    var reverse := GetReverseIdx(indices);
    ReverseInverts(indices, reverse.value[..]);
    restored := Pick(data, reverse.value[..]);
  }

  /** The results of the micro-batches, one batch after the other. */
  function BatchResults<S, T>(f: S -> T, rows: seq<S>, idxLists: seq<seq<nat>>): seq<T>
    requires forall i :: 0 <= i < |idxLists| ==> InRange(idxLists[i], |rows|)
  {
    if idxLists == [] then []
    else
      assert InRange(idxLists[0], |rows|);
      MapRows(f, Pick(rows, idxLists[0])) + BatchResults(f, rows, idxLists[1..])
  }

  lemma {:induction false} BatchResultsAt<S, T>(f: S -> T, rows: seq<S>, idxLists: seq<seq<nat>>)
    requires forall i :: 0 <= i < |idxLists| ==> InRange(idxLists[i], |rows|)
    ensures |BatchResults(f, rows, idxLists)| == |Flat<nat>(idxLists)|
    ensures forall i :: 0 <= i < |Flat<nat>(idxLists)| ==>
      Flat<nat>(idxLists)[i] < |rows| && BatchResults(f, rows, idxLists)[i] == f(rows[Flat<nat>(idxLists)[i]])
  {
    if idxLists != [] {
      BatchResultsAt(f, rows, idxLists[1..]);
    }
  }

  /** Splitting a batch, working on each micro-batch and restoring gives what working on the batch
      itself gives, for any exact cover in any order. */
  lemma DynamicBatchRoundTrip<S, T>(f: S -> T, rows: seq<S>, idxLists: seq<seq<nat>>, restored: seq<T>)
    requires Covers(idxLists, |rows|) && |restored| == |rows|
    requires forall i :: 0 <= i < |idxLists| ==> InRange(idxLists[i], |rows|)
    requires |Flat<nat>(idxLists)| == |BatchResults(f, rows, idxLists)| == |rows|
    requires forall i :: 0 <= i < |rows| ==>
      Flat<nat>(idxLists)[i] < |rows| && restored[Flat<nat>(idxLists)[i]] == BatchResults(f, rows, idxLists)[i]
    ensures restored == MapRows(f, rows)
  {
    CoverSize(idxLists, |rows|);
    PermutationIsBijective(Flat<nat>(idxLists));
    BatchResultsAt(f, rows, idxLists);
    forall x | 0 <= x < |rows|
      ensures restored[x] == f(rows[x])
    {
      assert x in Flat<nat>(idxLists);
      var i :| 0 <= i < |Flat<nat>(idxLists)| && Flat<nat>(idxLists)[i] == x;
    }
  }

  /** The two halves together: rearranged, worked on and restored. */
  method WorkInMicroBatches<S, T>(f: S -> T, rows: seq<S>, idxLists: seq<seq<nat>>) returns (results: seq<T>)
    requires Covers(idxLists, |rows|) && forall i :: 0 <= i < |idxLists| ==> InRange(idxLists[i], |rows|)
    ensures results == MapRows(f, rows)
  {
    var data: seq<T> := [];
    for i := 0 to |idxLists|
      invariant data + BatchResults(f, rows, idxLists[i..]) == BatchResults(f, rows, idxLists)
    {
      data := data + MapRows(f, Pick(rows, idxLists[i]));
      assert idxLists[i..][1..] == idxLists[i + 1..];
    }
    assert data == BatchResults(f, rows, idxLists);
    BatchResultsAt(f, rows, idxLists);
    CoverSize(idxLists, |rows|);
    results := RestoreDynamicBatch(data, idxLists);
    DynamicBatchRoundTrip(f, rows, idxLists, results);
  }
}
