/** Partitions of the indices of a list of lengths: loads, cover and order. */
module Partitions {
  import opened Arithmetic
  import opened Tensors

  function Longest(lens: seq<nat>): (m: nat)
    ensures forall i :: 0 <= i < |lens| ==> lens[i] <= m
    ensures lens != [] ==> m in lens
  {
    if lens == [] then 0
    else
      var rest := Longest(lens[1..]);
      assert lens == [lens[0]] + lens[1..];
      if lens[0] >= rest then lens[0] else rest
  }

  function Shortest(lens: seq<nat>): (m: nat)
    requires lens != []
    ensures forall i :: 0 <= i < |lens| ==> m <= lens[i]
    ensures m in lens
  {
    assert lens == [lens[0]] + lens[1..];
    if |lens| == 1 then lens[0]
    else
      var rest := Shortest(lens[1..]);
      if lens[0] <= rest then lens[0] else rest
  }

  ghost predicate InRange(part: seq<nat>, n: nat) {
    forall i :: 0 <= i < |part| ==> part[i] < n
  }

  ghost predicate AllInRange(parts: seq<seq<nat>>, n: nat) {
    forall i :: 0 <= i < |parts| ==> InRange(parts[i], n)
  }

  /** The sum of the lengths a part is given. */
  ghost function Load(lens: seq<nat>, part: seq<nat>): nat
    requires InRange(part, |lens|)
  {
    if part == [] then 0 else Load(lens, part[..|part| - 1]) + lens[part[|part| - 1]]
  }

  function Range(n: nat): seq<nat> {
    seq(n, i => i)
  }

  /** Every index below `n` is in one part, once. */
  ghost predicate Covers(parts: seq<seq<nat>>, n: nat) {
    multiset(Flat<nat>(parts)) == multiset(Range(n))
  }

  ghost predicate SpreadAtMost(lens: seq<nat>, parts: seq<seq<nat>>, d: nat)
    requires forall i :: 0 <= i < |parts| ==> InRange(parts[i], |lens|)
  {
    forall i, j :: 0 <= i < |parts| && 0 <= j < |parts| ==> Load(lens, parts[i]) - Load(lens, parts[j]) <= d
  }

  lemma {:induction false} InFlat(parts: seq<seq<nat>>, i: nat, x: nat)
    requires i < |parts| && x in parts[i]
    ensures x in Flat<nat>(parts)
  {
    if i > 0 {
      InFlat(parts[1..], i - 1, x);
    }
  }

  lemma CoverSize(parts: seq<seq<nat>>, n: nat)
    requires Covers(parts, n)
    ensures |Flat<nat>(parts)| == n
  {
    assert |Flat<nat>(parts)| == |multiset(Flat<nat>(parts))| == |multiset(Range(n))| == |Range(n)|;
  }

  lemma CoversInRange(parts: seq<seq<nat>>, n: nat)
    requires Covers(parts, n)
    ensures forall i :: 0 <= i < |parts| ==> InRange(parts[i], n)
  {
    forall i, j | 0 <= i < |parts| && 0 <= j < |parts[i]|
      ensures parts[i][j] < n
    {
      InFlat(parts, i, parts[i][j]);
      assert parts[i][j] in multiset(Flat<nat>(parts));
      assert parts[i][j] in Range(n);
    }
  }

  /** The load of a part does not depend on its order. */
  lemma {:induction false} LoadConcat(lens: seq<nat>, a: seq<nat>, b: seq<nat>)
    requires InRange(a, |lens|) && InRange(b, |lens|)
    ensures Load(lens, a + b) == Load(lens, a) + Load(lens, b)
  {
    if b == [] {
      assert a + b == a;
    } else {
      assert (a + b)[..|a + b| - 1] == a + b[..|b| - 1];
      LoadConcat(lens, a, b[..|b| - 1]);
    }
  }

  lemma RemovedAt<T>(s: seq<T>, i: nat)
    requires i < |s|
    ensures s == s[..i] + [s[i]] + s[i + 1..]
    ensures multiset(s) == multiset(s[..i] + s[i + 1..]) + multiset{s[i]}
  {
    assert s == s[..i] + [s[i]] + s[i + 1..];
  }

  /** Taking the same element off two permutations leaves permutations. */
  lemma SameRest<T>(a: seq<T>, b: seq<T>, i: nat, j: nat)
    requires multiset(a) == multiset(b) && i < |a| && j < |b| && a[i] == b[j]
    ensures multiset(a[..i] + a[i + 1..]) == multiset(b[..j] + b[j + 1..])
  {
    RemovedAt(a, i);
    RemovedAt(b, j);
    assert multiset(a[..i] + a[i + 1..]) == multiset(a) - multiset{a[i]};
    assert multiset(b[..j] + b[j + 1..]) == multiset(b) - multiset{b[j]};
  }

  lemma LoadRemovedAt(lens: seq<nat>, s: seq<nat>, i: nat)
    requires InRange(s, |lens|) && i < |s|
    ensures InRange(s[..i] + s[i + 1..], |lens|)
    ensures Load(lens, s) == Load(lens, s[..i] + s[i + 1..]) + lens[s[i]]
  {
    RemovedAt(s, i);
    LoadConcat(lens, s[..i], s[i + 1..]);
    LoadConcat(lens, s[..i] + [s[i]], s[i + 1..]);
    assert (s[..i] + [s[i]])[..i] == s[..i];
  }

  lemma {:induction false} LoadPermutation(lens: seq<nat>, a: seq<nat>, b: seq<nat>)
    requires InRange(a, |lens|) && InRange(b, |lens|) && multiset(a) == multiset(b)
    ensures Load(lens, a) == Load(lens, b)
    decreases |a|
  {
    assert |a| == |multiset(a)| == |multiset(b)| == |b|;
    if a != [] {
      hide Load, InRange;
      var x := a[0];
      assert x in multiset(b);
      var j :| 0 <= j < |b| && b[j] == x;
      LoadRemovedAt(lens, a, 0);
      LoadRemovedAt(lens, b, j);
      SameRest(a, b, 0, j);
      LoadPermutation(lens, a[..0] + a[1..], b[..j] + b[j + 1..]);
    }
  }

  lemma {:induction false} LoadRange(lens: seq<nat>, n: nat)
    requires n <= |lens|
    ensures Load(lens, Range(n)) == Sum(lens[..n])
  {
    if n > 0 {
      LoadRange(lens, n - 1);
      assert Range(n)[..n - 1] == Range(n - 1);
      assert lens[..n][..n - 1] == lens[..n - 1];
    }
  }

  ghost function LoadsFrom(lens: seq<nat>, parts: seq<seq<nat>>): nat
    requires forall i :: 0 <= i < |parts| ==> InRange(parts[i], |lens|)
  {
    if parts == [] then 0 else Load(lens, parts[0]) + LoadsFrom(lens, parts[1..])
  }

  lemma {:induction false} LoadFlat(lens: seq<nat>, parts: seq<seq<nat>>)
    requires forall i :: 0 <= i < |parts| ==> InRange(parts[i], |lens|)
    requires InRange(Flat<nat>(parts), |lens|)
    ensures Load(lens, Flat<nat>(parts)) == LoadsFrom(lens, parts)
  {
    if parts != [] {
      var rest := Flat<nat>(parts[1..]);
      assert forall i :: 0 <= i < |rest| ==> rest[i] == Flat<nat>(parts)[|parts[0]| + i];
      LoadFlat(lens, parts[1..]);
      LoadConcat(lens, parts[0], Flat<nat>(parts[1..]));
    }
  }

  /** The loads of an exact cover add up to the total length. */
  lemma LoadsAddUp(lens: seq<nat>, parts: seq<seq<nat>>)
    requires Covers(parts, |lens|)
    requires forall i :: 0 <= i < |parts| ==> InRange(parts[i], |lens|)
    ensures LoadsFrom(lens, parts) == Sum(lens)
  {
    forall i | 0 <= i < |Flat<nat>(parts)|
      ensures Flat<nat>(parts)[i] < |lens|
    {
      assert Flat<nat>(parts)[i] in multiset(Flat<nat>(parts));
      assert Flat<nat>(parts)[i] in Range(|lens|);
    }
    LoadFlat(lens, parts);
    LoadPermutation(lens, Flat<nat>(parts), Range(|lens|));
    LoadRange(lens, |lens|);
    assert lens[..|lens|] == lens;
  }

  /** No load exceeds the average by more than the spread: `k` times a load is at most the total
      plus `k - 1` times the spread. */
  lemma {:induction false} LoadsBound(lens: seq<nat>, parts: seq<seq<nat>>, high: nat, d: nat)
    requires forall i :: 0 <= i < |parts| ==> InRange(parts[i], |lens|) && high <= Load(lens, parts[i]) + d
    ensures |parts| * high <= LoadsFrom(lens, parts) + |parts| * d
  {
    if parts != [] {
      assert forall i :: 0 <= i < |parts[1..]| ==> parts[1..][i] == parts[i + 1];
      LoadsBound(lens, parts[1..], high, d);
      assert |parts| == |parts[1..]| + 1;
      assert |parts| * high == |parts[1..]| * high + high;
      assert |parts| * d == |parts[1..]| * d + d;
    }
  }

  /** The number of indices in the parts. */

  lemma {:induction false} CountAtLeast(parts: seq<seq<nat>>, m: nat, i: nat)
    requires forall j :: 0 <= j < |parts| ==> m <= |parts[j]|
    ensures |parts| * m <= |Flat<nat>(parts)|
    ensures i < |parts| && m < |parts[i]| ==> |parts| * m < |Flat<nat>(parts)|
  {
    if parts != [] {
      var rest := parts[1..];
      assert forall j :: 0 <= j < |rest| ==> rest[j] == parts[j + 1];
      CountAtLeast(rest, m, if i == 0 then 0 else i - 1);
      MulSucc(|rest|, m);
    }
  }

  lemma {:induction false} CountAtMost(parts: seq<seq<nat>>, m: nat, i: nat)
    requires forall j :: 0 <= j < |parts| ==> |parts[j]| <= m
    ensures |Flat<nat>(parts)| <= |parts| * m
    ensures i < |parts| && |parts[i]| < m ==> |Flat<nat>(parts)| < |parts| * m
  {
    if parts != [] {
      var rest := parts[1..];
      assert forall j :: 0 <= j < |rest| ==> rest[j] == parts[j + 1];
      CountAtMost(rest, m, if i == 0 then 0 else i - 1);
      MulSucc(|rest|, m);
    }
  }
}
