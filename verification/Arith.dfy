/** Division, powers of two and bit masks. */
module Arith {

  lemma {:induction false} Multiple(n: nat, k: nat)
    requires k >= 1
    ensures n * k >= n
  {
    if k > 1 {
      Multiple(n, k - 1);
      assert n * k == n * (k - 1) + n;
    }
  }

  /** Quotient and remainder are unique. */
  lemma {:induction false} DivMod(p: nat, n: nat, q: nat, r: nat)
    requires p == n * q + r && r < n
    ensures p / n == q && p % n == r
  {
    var d, m := p / n, p % n;
    assert p == n * d + m;
    assert n * (q - d) == n * q - n * d && n * (d - q) == n * d - n * q;
    if q > d {
      Multiple(n, q - d);
    } else if q < d {
      Multiple(n, d - q);
    }
  }

  lemma {:induction false} DivMonotone(a: int, b: int, n: nat)
    requires a <= b && n >= 1
    ensures a / n <= b / n
  {
    var p, q := a / n, b / n;
    assert a == n * p + a % n && b == n * q + b % n;
    assert n * (p - q) == n * p - n * q;
    if p > q {
      Multiple(n, p - q);
    }
  }

  predicate PowerOfTwo(n: nat) {
    n == 1 || (n > 1 && n % 2 == 0 && PowerOfTwo(n / 2))
  }

  /** Bitwise conjunction. */
  function And(a: nat, b: nat): nat {
    if a == 0 || b == 0 then 0 else (a % 2) * (b % 2) + 2 * And(a / 2, b / 2)
  }

  /** Masking with a power of two less one is taking the remainder. */
  lemma {:induction false} AndMask(h: nat, n: nat)
    requires PowerOfTwo(n)
    ensures And(h, n - 1) == h % n
    decreases n
  {
    if n > 1 {
      var m := n / 2;
      AndMask(h / 2, m);
      HalfMod(h, m);
      assert (n - 1) / 2 == m - 1 && (n - 1) % 2 == 1;
    }
  }

  lemma {:induction false} HalfMod(h: nat, m: nat)
    requires m >= 1
    ensures h % 2 + 2 * (h / 2 % m) == h % (2 * m)
  {
    var g := h / 2;
    var q, r := g / m, g % m;
    assert g == m * q + r;
    assert (2 * m) * q == 2 * (m * q);
    DivMod(h, 2 * m, q, 2 * r + h % 2);
  }
}
