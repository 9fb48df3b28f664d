/** Products and remainders with a variable divisor, in steps small enough for the verifier. */
module Arithmetic {
  lemma {:induction false} MulSum(a: int, b: int, c: int)
    ensures a * (b + c) == a * b + a * c
  {
  }

  lemma {:induction false} MulSwap(a: int, b: int, c: int)
    ensures a * (b * c) == b * (a * c)
  {
  }

  lemma {:induction false} MulNonNegative(a: nat, b: nat)
    ensures a * b >= 0
  {
  }

  /** A positive multiple is at least the number itself. */
  lemma {:induction false} MulAtLeast(n: nat, k: int)
    requires k >= 1
    ensures n * k >= n
  {
    MulSum(n, k - 1, 1);
    MulNonNegative(n, k - 1);
  }

  lemma {:induction false} MulMonotone(n: nat, a: int, b: int)
    requires a <= b
    ensures n * a <= n * b
  {
    MulSum(n, a, b - a);
    MulNonNegative(n, b - a);
  }

  lemma {:induction false} MulCancel(n: nat, a: int, b: int)
    requires n > 0 && n * a == n * b
    ensures a == b
  {
    MulSum(n, a, b - a);
    MulSum(n, b, a - b);
    if a < b { MulAtLeast(n, b - a); }
    if b < a { MulAtLeast(n, a - b); }
  }

  lemma {:induction false} DivMod(x: int, n: nat)
    requires n > 0
    ensures x == n * (x / n) + x % n && 0 <= x % n < n
  {
  }

  /** Quotient and remainder are determined by the product. */
  lemma {:induction false} DivUnique(x: int, n: nat, q: int, r: int)
    requires n > 0 && x == n * q + r && 0 <= r < n
    ensures x / n == q && x % n == r
  {
    DivMod(x, n);
    Unique(n, q, r, x / n, x % n);
  }

  lemma {:induction false} Unique(n: nat, q: int, r: int, q': int, r': int)
    requires n * q + r == n * q' + r' && 0 <= r < n && 0 <= r' < n
    ensures q == q' && r == r'
  {
    MulSum(n, q, q' - q);
    MulSum(n, q', q - q');
    if q < q' { MulAtLeast(n, q' - q); }
    if q' < q { MulAtLeast(n, q - q'); }
  }

  // ---- divisibility ----

  predicate Divides(n: nat, x: int)
    requires n > 0
  {
    x % n == 0
  }

  lemma {:induction false} Quotient(n: nat, x: int) returns (q: int)
    requires n > 0 && Divides(n, x)
    ensures x == n * q && (x >= 0 ==> q >= 0)
  {
    DivMod(x, n);
    q := x / n;
    if q < 0 { MulAtLeast(n, -q); MulSum(n, q, -q); }
  }

  lemma {:induction false} DividesProduct(n: nat, q: int)
    requires n > 0
    ensures Divides(n, n * q)
  {
    DivUnique(n * q, n, q, 0);
  }

  lemma {:induction false} DividesMultiple(n: nat, x: int, k: int)
    requires n > 0 && Divides(n, x)
    ensures Divides(n, k * x)
  {
    hide Divides;
    var q := Quotient(n, x);
    MulSwap(k, n, q);
    DividesProduct(n, k * q);
  }

  lemma {:induction false} DividesSum(n: nat, x: int, y: int)
    requires n > 0 && Divides(n, x) && Divides(n, y)
    ensures Divides(n, x + y) && Divides(n, x - y)
  {
    hide Divides;
    var p := Quotient(n, x);
    var q := Quotient(n, y);
    MulSum(n, p, q);
    MulSum(n, p - q, q);
    DividesProduct(n, p + q);
    DividesProduct(n, p - q);
  }

  lemma {:induction false} DividesTrans(m: nat, n: nat, x: int)
    requires m > 0 && n > 0 && Divides(m, n) && Divides(n, x)
    ensures Divides(m, x)
  {
    hide Divides;
    var q := Quotient(n, x);
    DividesMultiple(m, n, q);
    assert q * n == n * q;
  }

  /** Multiples of n are at least n apart. */
  lemma {:induction false} MultiplesApart(n: nat, x: int, y: int)
    requires n > 0 && Divides(n, x) && Divides(n, y) && x < y
    ensures x + n <= y
  {
    hide Divides;
    var p := Quotient(n, x);
    var q := Quotient(n, y);
    if q <= p { MulMonotone(n, q, p); }
    MulMonotone(n, p + 1, q);
    MulSum(n, p, 1);
  }
}
