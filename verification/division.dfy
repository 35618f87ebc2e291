/** Facts about products, floors and ceilings of natural numbers. */
module Division {

  lemma MulMonotone(a: nat, b: nat, k: nat)
    requires a <= b
    ensures a * k <= b * k
  {}

  function Div(a: nat, b: nat): (q: nat)
    requires b > 0
    ensures q == a / b
  {
    DivGreatest(a, b, 0);
    a / b
  }

  function CeilDiv(a: nat, b: nat): nat
    requires b > 0
  {
    if a % b > 0 then a / b + 1 else a / b
  }

  /** a / b is the greatest number whose product with b stays within a. */
  lemma DivGreatest(a: nat, b: nat, d: nat)
    requires b > 0
    ensures d * b <= a <==> d <= a / b
  {
    var q, r := a / b, a % b;
    QuotientRemainder(a, b);
    if d <= q {
      MulMonotone(d, q, b);
    } else {
      MulMonotone(q + 1, d, b);
      Distribute(q, b);
    }
  }

  /** CeilDiv(a, b) is the least number whose product with b reaches a. */
  lemma CeilDivLeast(a: nat, b: nat, d: nat)
    requires b > 0
    ensures d * b >= a <==> d >= CeilDiv(a, b)
  {
    var q, r := a / b, a % b;
    QuotientRemainder(a, b);
    Distribute(q, b);
    if d > q {
      MulMonotone(q + 1, d, b);
    } else {
      MulMonotone(d, q, b);
      if d < q {
        MulMonotone(d + 1, q, b);
        Distribute(d, b);
      }
    }
  }

  lemma QuotientRemainder(a: nat, b: nat)
    requires b > 0
    ensures a == (a / b) * b + a % b && 0 <= a % b < b
  {}

  lemma Distribute(q: nat, b: nat)
    ensures (q + 1) * b == q * b + b
  {}

  lemma DivDiv(a: nat, b: nat, c: nat)
    requires b > 0 && c > 0
    ensures b * c > 0 && a / b / c == a / (b * c)
  {
    var q := a / (b * c);
    DivGreatest(a, b * c, q);
    assert (q * c) * b == q * (b * c);
    DivGreatest(a, b, q * c);
    DivGreatest(a / b, c, q);
    var p := a / b / c;
    DivGreatest(a / b, c, p);
    DivGreatest(a, b, p * c);
    assert (p * c) * b == p * (b * c);
    DivGreatest(a, b * c, p);
  }

  lemma ScaleLe(x: nat, y: nat, k: nat)
    requires k > 0
    ensures x * k <= y * k <==> x <= y
  {
    if x <= y {
      MulMonotone(x, y, k);
    } else {
      MulMonotone(y + 1, x, k);
      Distribute(y, k);
    }
  }

  lemma Assoc(d: nat, b: nat, k: nat)
    ensures d * (b * k) == (d * b) * k
  {}

  lemma CeilScaleAt(a: nat, b: nat, k: nat, d: nat)
    requires b > 0 && k > 0 && b * k > 0
    ensures d >= CeilDiv(a * k, b * k) <==> d >= CeilDiv(a, b)
  {
    CeilDivLeast(a, b, d);
    CeilDivLeast(a * k, b * k, d);
    ScaleLe(a, d * b, k);
    Assoc(d, b, k);
  }

  lemma FloorScaleAt(a: nat, b: nat, k: nat, d: nat)
    requires b > 0 && k > 0 && b * k > 0
    ensures d <= a * k / (b * k) <==> d <= a / b
  {
    DivGreatest(a, b, d);
    DivGreatest(a * k, b * k, d);
    ScaleLe(d * b, a, k);
    Assoc(d, b, k);
  }

  /** A common factor of dividend and divisor changes neither the ceiling nor the quotient. */
  lemma CommonFactor(a: nat, b: nat, k: nat)
    requires b > 0 && k > 0 && b * k > 0
    ensures CeilDiv(a * k, b * k) == CeilDiv(a, b)
    ensures a * k / (b * k) == a / b
  {
    var x, y := CeilDiv(a * k, b * k), CeilDiv(a, b);
    CeilScaleAt(a, b, k, x);
    CeilScaleAt(a, b, k, y);
    var u, v := Div(a * k, b * k), Div(a, b);
    FloorScaleAt(a, b, k, u);
    FloorScaleAt(a, b, k, v);
  }
}
