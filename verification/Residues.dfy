/** Arithmetic of quotients and residues, shared by the group and notation models. */
module Residues {
  lemma ModShift(a: int, k: int, n: nat)
    requires n > 0
    ensures (a + k * n) % n == a % n
  {
    var q, r := a / n, a % n;
    assert a + k * n == (q + k) * n + r;
    ModUnique(a + k * n, q + k, r, n);
  }

  lemma ModUnique(a: int, q: int, r: int, n: nat)
    requires n > 0 && 0 <= r < n && a == q * n + r
    ensures a % n == r
  {
    assert (a / n - q) * n == r - a % n;
    SmallMultiple(a / n - q, r - a % n, n);
  }

  lemma SmallMultiple(d: int, x: int, n: nat)
    requires d * n == x && 0 < x + n && x < n
    ensures x == 0
  {
  }

  /** What is taken off modulo n can be put back. */
  lemma ModBack(a: int, b: int, n: nat)
    requires n > 0
    ensures ((a - b) % n + b) % n == a % n
  {
    var k := (a - b) / n;
    assert a == (a - b) % n + b + k * n;
    ModShift((a - b) % n + b, k, n);
  }

  lemma ModAdd(a: int, b: int, n: nat)
    requires n > 0
    ensures (a % n + b) % n == (a + b) % n
  {
    var k := a / n;
    assert a + b == a % n + b + k * n;
    ModShift(a % n + b, k, n);
  }

  lemma DivUnique(q: int, r: int, n: nat)
    requires n > 0 && 0 <= r < n
    ensures (q * n + r) / n == q && (q * n + r) % n == r
  {
    var a := q * n + r;
    ModUnique(a, q, r, n);
    assert (a / n - q) * n == 0;
    NoZeroDivisor(a / n - q, n);
  }

  lemma NoZeroDivisor(d: int, n: nat)
    requires n > 0 && d * n == 0
    ensures d == 0
  {
  }

  lemma Halves(x: nat, n: nat)
    requires n > 1 && x > 0
    ensures 0 <= x / n < x && x == x / n * n + x % n && 0 <= x % n < n
    ensures x / n == 0 ==> x % n == x
  {
    var q, r := x / n, x % n;
    assert x == q * n + r;
    Grows(q, n);
  }

  lemma Grows(q: nat, n: nat)
    requires n > 1
    ensures q > 0 ==> q < q * n
  {
  }
}
