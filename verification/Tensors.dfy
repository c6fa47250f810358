/** Tensors as sequences of rows: laying pieces end to end and cutting them apart. */
module Tensors {
  import opened Arithmetic

  function Flat<X>(s: seq<seq<X>>): seq<X> {
    if s == [] then [] else s[0] + Flat(s[1..])
  }

  lemma {:induction false} FlatConcat<X>(a: seq<seq<X>>, b: seq<seq<X>>)
    ensures Flat(a + b) == Flat(a) + Flat(b)
  {
    if a == [] {
      assert a + b == b;
    } else {
      assert (a + b)[1..] == a[1..] + b;
      FlatConcat(a[1..], b);
    }
  }

  lemma FlatOne<X>(x: seq<X>)
    ensures Flat([x]) == x
  {
    assert [x][1..] == [];
  }

  ghost predicate AllSize<X>(s: seq<seq<X>>, n: nat) {
    forall i :: 0 <= i < |s| ==> |s[i]| == n
  }

  lemma {:induction false} FlatSize<X>(s: seq<seq<X>>, n: nat)
    requires AllSize(s, n)
    ensures |Flat(s)| == |s| * n
  {
    if s != [] {
      FlatSize(s[1..], n);
      MulSucc(|s| - 1, n);
    }
  }

  /** Consecutive pieces of `size` rows, the last one possibly shorter. */
  function SplitBy<T>(rows: seq<T>, size: nat): seq<seq<T>>
    requires size > 0
  {
    if |rows| <= size then [rows] else [rows[..size]] + SplitBy(rows[size..], size)
  }

  /** Pieces of equal size, rounded up, so that there are at most `n`. No rows make `n` empty pieces. */
  function Chunk<T>(rows: seq<T>, n: nat): seq<seq<T>>
    requires n > 0
  {
    if rows == [] then seq(n, _ => [])
    else
      CeilDivPositive(|rows|, n);
      SplitBy(rows, CeilDiv(|rows|, n))
  }

  lemma {:induction false} SplitByFlat<T>(pieces: seq<seq<T>>, size: nat)
    requires size > 0 && pieces != [] && AllSize(pieces, size)
    ensures SplitBy(Flat(pieces), size) == pieces
  {
    var rows := Flat(pieces);
    if |pieces| == 1 {
      assert pieces == [pieces[0]];
      FlatOne(pieces[0]);
    } else {
      FlatSize(pieces[1..], size);
      MulMonotone(1, |pieces| - 1, size);
      assert rows[..size] == pieces[0] && rows[size..] == Flat(pieces[1..]);
      SplitByFlat(pieces[1..], size);
    }
  }

  /** Cutting loses nothing, and all pieces but the last are full. */
  lemma {:induction false} SplitByJoins<T>(rows: seq<T>, size: nat)
    requires size > 0
    ensures Flat(SplitBy(rows, size)) == rows && SplitBy(rows, size) != []
    ensures forall i :: 0 <= i < |SplitBy(rows, size)| - 1 ==> |SplitBy(rows, size)[i]| == size
    ensures |SplitBy(rows, size)[|SplitBy(rows, size)| - 1]| <= size
    ensures rows != [] ==> SplitBy(rows, size)[|SplitBy(rows, size)| - 1] != []
  {
    if |rows| <= size {
      FlatOne(rows);
    } else {
      SplitByJoins(rows[size..], size);
    }
  }

  /** Rows made of `n` pieces of one size are chunked into those pieces. */
  lemma ChunkFlat<T>(pieces: seq<seq<T>>, size: nat)
    requires pieces != [] && AllSize(pieces, size)
    ensures Chunk(Flat(pieces), |pieces|) == pieces
  {
    hide CeilDiv, Flat, SplitBy;
    FlatSize(pieces, size);
    if size > 0 {
      MulMonotone(1, |pieces|, size);
      CeilDivExact(|pieces|, size);
      SplitByFlat(pieces, size);
    }
  }

  /** The first of the pieces is a full one. */
  lemma FirstChunk<T>(rows: seq<T>, n: nat)
    requires n > 0
    ensures Chunk(rows, n) != [] && |Chunk(rows, n)[0]| == CeilDiv(|rows|, n)
  {
    if rows == [] {
      CeilDivUnique(0, n, 0);
    } else {
      CeilDivLeast(|rows|, n, |rows|);
    }
  }

  lemma {:induction false} SliceFlat<T>(pieces: seq<seq<T>>, n: nat, i: nat)
    requires AllSize(pieces, n) && i < |pieces|
    ensures 0 <= i * n && i * n + n <= |Flat(pieces)| && Flat(pieces)[i * n..i * n + n] == pieces[i]
  {
    if i == 0 {
      assert 0 * n == 0;
      assert Flat(pieces)[..n] == pieces[0];
    } else {
      SliceFlat(pieces[1..], n, i - 1);
      MulSucc(i - 1, n);
    }
  }

  /** Section `j` of `n` equal sections. */
  function Section<T>(s: seq<T>, n: nat, j: nat): (r: seq<T>)
    requires j < n && |s| % n == 0
    ensures |r| == |s| / n
  {
    SectionBounds(|s|, n, j);
    s[j * (|s| / n)..(j + 1) * (|s| / n)]
  }

  lemma SectionBounds(len: nat, n: nat, j: nat)
    requires j < n && len % n == 0
    ensures 0 <= j * (len / n) <= (j + 1) * (len / n) <= len
    ensures (j + 1) * (len / n) == j * (len / n) + len / n
  {
    MulSucc(j, len / n);
    MulMonotone(j + 1, n, len / n);
  }

  lemma SectionSize(n: nat, size: nat)
    requires n > 0
    ensures n * size % n == 0 && n * size / n == size
  {
    assert n * size == size * n;
    DivModMul(size, n);
  }

  /** A piece is the section at its place among pieces of one size. */
  lemma SectionOfFlat<T>(pieces: seq<seq<T>>, size: nat, j: nat)
    requires AllSize(pieces, size) && j < |pieces|
    ensures |Flat(pieces)| % |pieces| == 0 && Section(Flat(pieces), |pieces|, j) == pieces[j]
  {
    FlatSize(pieces, size);
    SectionSize(|pieces|, size);
    SliceFlat(pieces, size, j);
  }

  function Sections<T>(s: seq<T>, n: nat): (r: seq<seq<T>>)
    requires n > 0 && |s| % n == 0
    ensures |r| == n && AllSize(r, |s| / n)
  {
    seq(n, j requires 0 <= j < n => Section(s, n, j))
  }

  /** The sections laid end to end are the whole. */
  lemma FlatOfSections<T>(s: seq<T>, n: nat)
    requires n > 0 && |s| % n == 0
    ensures Flat(Sections(s, n)) == s
  {
    SectionsPrefix(s, n, n);
    assert Sections(s, n)[..n] == Sections(s, n);
    assert n * (|s| / n) == |s|;
    assert s[..|s|] == s;
  }

  lemma {:induction false} SectionsPrefix<T>(s: seq<T>, n: nat, k: nat)
    requires n > 0 && |s| % n == 0 && k <= n
    ensures k * (|s| / n) <= |s| && Flat(Sections(s, n)[..k]) == s[..k * (|s| / n)]
  {
    var all, size := Sections(s, n), |s| / n;
    if k > 0 {
      SectionsPrefix(s, n, k - 1);
      SectionBounds(|s|, n, k - 1);
      assert all[..k] == all[..k - 1] + [all[k - 1]];
      FlatConcat(all[..k - 1], [all[k - 1]]);
      FlatOne(all[k - 1]);
    }
  }

  function MapRows<S, T>(f: S -> T, s: seq<S>): (r: seq<T>)
    ensures |r| == |s|
  {
    seq(|s|, i requires 0 <= i < |s| => f(s[i]))
  }

  /** The rows at the given places. */
  function Pick<T>(rows: seq<T>, idx: seq<nat>): (r: seq<T>)
    requires forall i :: 0 <= i < |idx| ==> idx[i] < |rows|
    ensures |r| == |idx|
  {
    seq(|idx|, i requires 0 <= i < |idx| => rows[idx[i]])
  }
}
