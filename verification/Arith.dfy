/** Division with remainder by a divisor that is not a constant. */
module Arith {

  lemma MulMono(m: nat, a: int, b: int)
    requires a <= b
    ensures m * a <= m * b
  {
  }

  lemma MulEqual(m: nat, a: int, b: int)
    requires m > 0
    ensures m * a == b * m <==> a == b
  {
    if a < b {
      MulMono(m, a + 1, b);
    } else if b < a {
      MulMono(m, b + 1, a);
    }
  }

  /** Quotient and remainder are unique. */
  lemma DivUnique(x: int, m: nat, q: int, r: int)
    requires m > 0 && 0 <= r < m && x == m * q + r
    ensures x / m == q && x % m == r
  {
    var q', r' := x / m, x % m;
    assert x == m * q' + r';
    if q < q' {
      MulMono(m, q + 1, q');
    } else if q' < q {
      MulMono(m, q' + 1, q);
    }
  }

  lemma DivParts(x: int, m: nat) returns (q: int, r: int)
    requires m > 0
    ensures q == x / m && r == x % m && x == m * q + r && 0 <= r < m
  {
    q, r := x / m, x % m;
  }

  lemma ModAdd(a: int, b: int, m: nat)
    requires m > 0 && a % m == 0
    ensures (a + b) % m == b % m && (a + b) / m == a / m + b / m
  {
    var p, r := DivParts(a, m);
    var q, t := DivParts(b, m);
    assert a + b == m * (p + q) + t;
    DivUnique(a + b, m, p + q, t);
  }

  /** Rounding up to a multiple. */
  lemma RoundUp(n: nat, m: nat)
    requires m > 0 && n % m != 0
    ensures (n + (m - n % m)) % m == 0 && (n + (m - n % m)) / m == n / m + 1
  {
    var q, r := DivParts(n, m);
    assert n + (m - r) == m * (q + 1) + 0;
    DivUnique(n + (m - r), m, q + 1, 0);
  }
}
