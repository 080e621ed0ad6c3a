/** Facts about integer division. */
module Division {

  /** Quotient and remainder are unique. */
  lemma DivMod(x: nat, k: nat, q: nat, r: nat)
    requires r < k && x == k * q + r
    ensures x / k == q && x % k == r
  {
    var p, s := x / k, x % k;
    assert x == k * p + s;
    assert k * (q - p) == s - r && k * (p - q) == r - s;
    if p < q {
      AtLeastOnce(k, q - p);
    } else if q < p {
      AtLeastOnce(k, p - q);
    }
  }

  lemma AtLeastOnce(k: nat, n: nat)
    requires n > 0
    ensures k <= k * n
  {
    if n > 1 {
      AtLeastOnce(k, n - 1);
      assert k * n == k * (n - 1) + k;
    }
  }

  /** A number below `k * n` lies in one of the first `n` blocks of `k`. */
  lemma BlockBelow(v: nat, k: nat, n: nat)
    requires k > 0 && v < k * n
    ensures k * (v / k) + k <= k * n
  {
    var q := v / k;
    assert v == k * q + v % k;
    assert k * (n - q) == k * n - k * q;
    AtLeastOnce(k, n - q);
  }
}
