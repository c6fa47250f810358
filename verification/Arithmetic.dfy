/** Facts about products and Euclidean division that the models share. */
module Arithmetic {
  lemma MulSucc(n: int, c: int)
    ensures (n + 1) * c == n * c + c
  {
  }

  lemma {:induction false} MulMonotone(a: int, b: int, c: nat)
    requires a <= b
    ensures a * c <= b * c
    decreases b - a
  {
    if a < b {
      MulMonotone(a, b - 1, c);
      MulSucc(b - 1, c);
    }
  }

  lemma MulStep(a: int, b: int, c: nat)
    requires a < b
    ensures a * c + c <= b * c
  {
    MulMonotone(a + 1, b, c);
    MulSucc(a, c);
  }

  /** Quotient and remainder are determined by what they multiply out to. */
  lemma DivModUnique(x: int, k: nat, q: int, r: int)
    requires k > 0 && 0 <= r < k && x == q * k + r
    ensures x / k == q && x % k == r
  {
    var p := x / k;
    assert x == p * k + x % k;
    if p < q {
      MulStep(p, q, k);
    } else if q < p {
      MulStep(q, p, k);
    }
  }

  lemma DivModWhole(x: int, k: nat)
    requires k > 0
    ensures x / k * k + x % k == x
  {
  }

  lemma DivModMul(q: int, k: nat)
    requires k > 0
    ensures q * k / k == q && q * k % k == 0
  {
    DivModUnique(q * k, k, q, 0);
  }

  lemma DivAtLeast(a: int, k: nat, q: int)
    requires k > 0 && q * k <= a
    ensures q <= a / k
  {
    if a / k < q {
      MulStep(a / k, q, k);
    }
  }

  /** Division rounding towards minus infinity, for a divisor of either sign. */
  function FloorDiv(a: int, b: int): int
    requires b != 0
  {
    if b > 0 then a / b else (-a) / (-b)
  }

  /** The least number of `b`s that reach `a`. */
  function CeilDiv(a: int, b: int): (q: int)
    requires b > 0
    ensures a <= q * b < a + b
  {
    var d := FloorDiv(a, -b);
    assert -a == (-a) / b * b + (-a) % b;
    assert d == (-a) / b;
    assert (-d) * b == -(d * b);
    -d
  }

  lemma CeilDivLeast(a: int, b: int, q: int)
    requires b > 0 && a <= q * b
    ensures CeilDiv(a, b) <= q
  {
    if q < CeilDiv(a, b) {
      MulStep(q, CeilDiv(a, b), b);
    }
  }

  lemma CeilDivUnique(a: int, b: nat, q: int)
    requires b > 0 && a <= q * b < a + b
    ensures CeilDiv(a, b) == q
  {
    CeilDivLeast(a, b, q);
    if CeilDiv(a, b) < q {
      MulStep(CeilDiv(a, b), q, b);
    }
  }

  lemma CeilDivExact(n: nat, k: nat)
    requires n > 0
    ensures CeilDiv(n * k, n) == k
  {
    CeilDivUnique(n * k, n, k);
  }

  lemma CeilDivPositive(a: int, b: nat)
    requires a > 0 && b > 0
    ensures CeilDiv(a, b) > 0
  {
    if CeilDiv(a, b) <= 0 {
      MulMonotone(CeilDiv(a, b), 0, b);
    }
  }

  function Min(a: int, b: int): (m: int)
    ensures m <= a && m <= b && (m == a || m == b)
  {
    if a <= b then a else b
  }

  /** What is missing from `len` to the next multiple of `n`. */
  function PadSize(len: nat, n: nat): (p: nat)
    requires n > 0
    ensures p < n
  {
    if len % n != 0 then n - len % n else 0
  }

  lemma PaddedDivides(len: nat, n: nat)
    requires n > 0
    ensures (len + PadSize(len, n)) % n == 0
    ensures len + PadSize(len, n) == n * ((len + PadSize(len, n)) / n)
    ensures len > 0 ==> (len + PadSize(len, n)) / n > 0
  {
    var q := len / n;
    assert len == q * n + len % n;
    if len % n != 0 {
      MulSucc(q, n);
      DivModUnique(len + PadSize(len, n), n, q + 1, 0);
    }
  }

  function Sum(s: seq<int>): (r: int)
    ensures (forall i :: 0 <= i < |s| ==> s[i] >= 0) ==> r >= 0
  {
    if s == [] then 0 else Sum(s[..|s| - 1]) + s[|s| - 1]
  }

  lemma {:induction false} SumConcat(a: seq<int>, b: seq<int>)
    ensures Sum(a + b) == Sum(a) + Sum(b)
  {
    if b == [] {
      assert a + b == a;
    } else {
      assert (a + b)[..|a + b| - 1] == a + b[..|b| - 1];
      SumConcat(a, b[..|b| - 1]);
    }
  }

  lemma {:induction false} SumEqual(n: nat, m: int)
    ensures Sum(seq(n, _ => m)) == n * m
  {
    if n > 0 {
      assert seq(n, _ => m)[..n - 1] == seq(n - 1, _ => m);
      SumEqual(n - 1, m);
      MulSucc(n - 1, m);
    }
  }
}
