/** Integer arithmetic that several models share. */
module Arithmetic {
  function Max(a: int, b: int): int {
    if a > b then a else b
  }

  function Min(a: int, b: int): int {
    if a < b then a else b
  }

  function CeilDiv(a: nat, b: nat): nat
    requires b > 0
  {
    (a + b - 1) / b
  }

  /** The least multiple of a step that is not smaller. */
  function RoundUp(x: nat, step: nat): nat
    requires step > 0
  {
    CeilDiv(x, step) * step
  }

  /** Quotient and remainder are determined by their equation. */
  lemma DivModIs(a: int, b: int, q: int, r: int)
    requires b > 0 && a == q * b + r && 0 <= r < b
    ensures a / b == q && a % b == r
  {
    var d := a / b - q;
    assert a == a / b * b + a % b;
    assert d * b == r - a % b;
    assert d >= 1 ==> d * b >= b;
    assert d <= -1 ==> d * b <= b * (-1);
  }

  lemma MultipleMod(k: int, b: int)
    requires b > 0
    ensures (k * b) % b == 0 && (k * b) / b == k
  {
    DivModIs(k * b, b, k, 0);
  }

  lemma CeilDivBounds(x: nat, y: nat)
    requires y > 0
    ensures x <= CeilDiv(x, y) * y < x + y
  {
    var q := (x + y - 1) / y;
    assert x + y - 1 == q * y + (x + y - 1) % y;
  }

  /** The ceiling is the one multiple in the step above. */
  lemma CeilDivIs(x: nat, y: nat, k: nat)
    requires y > 0 && x <= k * y < x + y
    ensures CeilDiv(x, y) == k
  {
    DivModIs(x + y - 1, y, k, x + y - 1 - k * y);
  }

  lemma CeilDivStep(x: nat, y: nat)
    requires 0 < y <= x
    ensures CeilDiv(x, y) == CeilDiv(x - y, y) + 1
  {
    var k := CeilDiv(x - y, y);
    CeilDivBounds(x - y, y);
    assert (k + 1) * y == k * y + y;
    CeilDivIs(x, y, k + 1);
  }

  // ---------- quotients by counting down ----------

  /** How many times d fits into x. */
  function Quotient(x: nat, d: nat): nat
    requires d > 0
    decreases x
  {
    if x < d then 0 else 1 + Quotient(x - d, d)
  }

  lemma {:induction false} QuotientIs(x: nat, d: nat)
    requires d > 0
    ensures Quotient(x, d) == x / d
    decreases x
  {
    if x < d {
      DivModIs(x, d, 0, x);
    } else {
      QuotientIs(x - d, d);
      var q, r := (x - d) / d, (x - d) % d;
      assert x == (q + 1) * d + r;
      DivModIs(x, d, q + 1, r);
    }
  }

  lemma {:induction false} QuotientGrows(x: nat, y: nat, d: nat)
    requires d > 0 && x <= y
    ensures Quotient(x, d) <= Quotient(y, d)
    decreases x
  {
    if x >= d { QuotientGrows(x - d, y - d, d); }
  }

  // ---------- products by counting up ----------

  /** Where the i-th of consecutive pieces of one size starts. */
  function Mark(size: nat, i: nat): nat {
    if i == 0 then 0 else Mark(size, i - 1) + size
  }

  lemma {:induction false} MarkIs(size: nat, i: nat)
    ensures Mark(size, i) == i * size
  {
    if i > 0 {
      MarkIs(size, i - 1);
      assert i * size == (i - 1) * size + size;
    }
  }
}
