/** Facts about remainders that wrapping counters and folded checksums rest on. */
module ModArith {

  lemma AtLeastOnce(d: int, c: int)
    requires 0 < c && 1 <= d
    ensures c <= d * c
  {
    assert (d - 1) * c >= 0;
  }

  lemma NoMultipleBetween(d: int, c: int)
    requires 0 < c && -c < d * c < c
    ensures d == 0
  {
    if d > 0 {
      AtLeastOnce(d, c);
    } else if d < 0 {
      AtLeastOnce(-d, c);
    }
  }

  lemma Distribute(a: int, b: int, c: int)
    ensures (a - b) * c == a * c - b * c
  {
  }

  lemma ModUnique(x: int, c: int, q: int, r: int)
    requires 0 < c && 0 <= r < c && x == q * c + r
    ensures x % c == r && x / c == q
  {
    var a, b := x / c, x % c;
    assert x == a * c + b;
    Distribute(a, q, c);
    NoMultipleBetween(a - q, c);
  }

  lemma ModPlusMultiple(x: int, k: int, c: int)
    requires 0 < c
    ensures (x + k * c) % c == x % c
  {
    assert x + k * c == (x / c + k) * c + x % c;
    ModUnique(x + k * c, c, x / c + k, x % c);
  }

  /** Adding less than a full turn wraps at most once. */
  lemma AddMod(x: nat, d: nat, c: nat)
    requires d < c
    ensures (x + d) % c == if x % c + d < c then x % c + d else x % c + d - c
  {
    var q, r := x / c, x % c;
    assert x == q * c + r;
    if r + d < c {
      ModUnique(x + d, c, q, r + d);
    } else {
      assert (q + 1) * c == q * c + c;
      ModUnique(x + d, c, q + 1, r + d - c);
    }
  }

  /** A counter kept modulo `m` still indexes a ring whose size divides `m`. */
  lemma ModNest(x: nat, m: nat, c: nat)
    requires 0 < c <= m && m % c == 0
    ensures (x % m) % c == x % c
  {
    var t := x / m;
    assert m == (m / c) * c;
    assert x == x % m + t * m;
    assert t * m == (t * (m / c)) * c by {
      assert t * ((m / c) * c) == (t * (m / c)) * c;
    }
    ModPlusMultiple(x % m, t * (m / c), c);
  }

  /** The wrapped difference of two wrapped counters is their true difference. */
  lemma DifferenceMod(x: nat, d: nat, m: nat)
    requires d < m
    ensures ((x + d) % m - x % m) % m == d
  {
    AddMod(x, d, m);
    if x % m + d < m {
      ModUnique(d, m, 0, d);
    } else {
      ModUnique(d - m, m, -1, d);
    }
  }
}
