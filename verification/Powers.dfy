/** Powers of two and aligned addresses, as the buddy allocator uses them. */
module Powers {

  function Pow2(k: nat): (p: nat)
    ensures p >= 1
  {
    if k == 0 then 1 else 2 * Pow2(k - 1)
  }

  lemma {:induction false} Pow2Monotone(j: nat, k: nat)
    requires j <= k
    ensures Pow2(j) <= Pow2(k)
    ensures j < k ==> 2 * Pow2(j) <= Pow2(k)
    decreases k
  {
    if j < k {
      Pow2Monotone(j, k - 1);
    }
  }

  ghost predicate Multiple(o: int, p: int) {
    exists m :: o == m * p
  }

  lemma MultipleBy(o: int, m: int, p: int)
    requires o == m * p
    ensures Multiple(o, p)
  {
  }

  /** A multiple of a power of two is a multiple of every smaller one. */
  lemma {:induction false} MultipleOfSmaller(o: int, j: nat, k: nat)
    requires j <= k && Multiple(o, Pow2(k))
    ensures Multiple(o, Pow2(j))
    decreases k
  {
    if j < k {
      var m :| o == m * Pow2(k);
      assert o == (2 * m) * Pow2(k - 1);
      MultipleBy(o, 2 * m, Pow2(k - 1));
      MultipleOfSmaller(o, j, k - 1);
    }
  }

  /** A nonzero multiple of p is at least p away from zero. */
  lemma {:induction false} ScaleUp(k: int, p: int)
    requires p > 0
    ensures k >= 1 ==> k * p >= p
    ensures k <= -1 ==> k * p <= -p
  {
    if k >= 1 {
      assert k * p == (k - 1) * p + p;
      assert (k - 1) * p >= 0;
    } else if k <= -1 {
      assert k * p == (k + 1) * p - p;
      assert (k + 1) * p <= 0;
    }
  }

  /** Two different multiples of p are at least p apart. */
  lemma MultiplesApart(a: int, b: int, p: int)
    requires p > 0 && Multiple(a, p) && Multiple(b, p) && a < b
    ensures a + p <= b
  {
    var m :| a == m * p;
    var n :| b == n * p;
    var d := n - m;
    assert d * p == b - a;
    if d == 0 {
      assert d * p == 0;
    }
    ScaleUp(d, p);
  }

  lemma Distribute(m: int, n: int, p: int)
    ensures (m + n) * p == m * p + n * p
    ensures (m - n) * p == m * p - n * p
  {
  }

  lemma MultipleSum(a: int, b: int, p: int)
    requires Multiple(a, p) && Multiple(b, p)
    ensures Multiple(a + b, p) && Multiple(a - b, p)
  {
    var m :| a == m * p;
    var n :| b == n * p;
    Distribute(m, n, p);
    MultipleBy(a + b, m + n, p);
    MultipleBy(a - b, m - n, p);
  }

  /** Division recovers the multiplier, whatever less than p is added. */
  lemma QuotientOf(m: int, p: int, r: int)
    requires 0 <= r < p
    ensures (m * p + r) / p == m
  {
    var x := m * p + r;
    var q, t := x / p, x % p;
    var d := m - q;
    assert x == q * p + t by {
      assert x == p * (x / p) + x % p;
    }
    assert d * p == m * p - q * p;
    assert d * p == t - r;
    ScaleUp(d, p);
  }
}
