/** Products and quotients, kept apart so that no other proof meets nonlinear arithmetic. */
module Arith {

  /** A product the solver sees only where its definition is not hidden. */
  function Times(a: nat, b: nat): nat { a * b }

  lemma TimesStep(a: nat, i: nat, n: nat)
    requires i < n
    ensures Times(a, i) == Times(i, a)
    ensures Times(a, i + 1) == Times(a, i) + a <= Times(a, n)
    ensures Times(a, 0) == 0
  {
    Distribute(a, i, 1);
    MulMonotone(a, i + 1, n);
  }

  lemma Distribute(k: nat, a: nat, b: nat)
    ensures k * (a + b) == k * a + k * b
    ensures (a + b) * k == a * k + b * k
  {
  }

  lemma MulMonotone(k: nat, a: nat, b: nat)
    requires a <= b
    ensures k * a <= k * b
    ensures a * k <= b * k
  {
    Distribute(k, a, b - a);
  }

  lemma DivSmall(a: nat, d: nat)
    requires a < d
    ensures a / d == 0
  {
  }

  lemma DivExact(a: nat, d: nat)
    requires 0 < d && a % d == 0
    ensures a == a / d * d
  {
  }

  lemma DivOfProduct(rows: nat, d: nat)
    requires 0 < d
    ensures rows * d / d == rows && rows * d % d == 0
  {
    var q, r := rows * d / d, rows * d % d;
    assert rows * d == q * d + r;
    assert (q - rows) * d == q * d - rows * d;
    Gap(q - rows, d);
  }

  lemma Gap(x: int, d: nat)
    ensures x >= 1 ==> x * d >= d
    ensures x <= -1 ==> x * d <= -(d as int)
  {
    assert x * d == (x - 1) * d + d;
    assert x * d == (x + 1) * d - d;
    if x >= 1 {
      MulMonotone(d, 0, x - 1);
    } else if x <= -1 {
      MulMonotone(d, 0, -x - 1);
    }
  }

  lemma MulPositive(rows: nat, d: nat)
    ensures rows * d == 0 <==> rows == 0 || d == 0
    ensures rows > 0 ==> d <= rows * d
  {
    if rows > 0 {
      MulMonotone(d, 1, rows);
    }
  }

  lemma DivAdd(a: nat, b: nat, d: nat)
    requires 0 < d && a % d == 0 && b % d == 0
    ensures (a + b) % d == 0 && (a + b) / d == a / d + b / d
  {
    var q := a / d + b / d;
    DivExact(a, d);
    DivExact(b, d);
    Distribute(d, a / d, b / d);
    assert a + b == q * d;
    DivOfProduct(q, d);
  }
}
