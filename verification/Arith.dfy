/** Division with remainder by a number that is not a constant. */
module Arith {

  function Mul(a: nat, b: nat): nat { a * b }
  function Div(n: nat, d: nat): nat requires d > 0 { n / d }
  function Mod(n: nat, d: nat): nat requires d > 0 { n % d }

  lemma DivModIs(n: nat, d: nat)
    requires d > 0
    ensures n == Mul(Div(n, d), d) + Mod(n, d) && Mod(n, d) < d
  {
  }

  lemma MulStep(q: nat, d: nat)
    ensures Mul(q + 1, d) == Mul(q, d) + d && Mul(0, d) == 0
  {
  }

  lemma {:induction false} MulMonotone(p: nat, q: nat, d: nat)
    requires p <= q
    ensures Mul(p, d) <= Mul(q, d)
    ensures p < q ==> Mul(p, d) + d <= Mul(q, d)
    decreases q - p
  {
    hide Mul;
    if p < q {
      MulStep(p, d);
      MulMonotone(p + 1, q, d);
    }
  }

  lemma Unique(q: nat, r: nat, q': nat, r': nat, d: nat)
    requires r < d && r' < d && Mul(q, d) + r == Mul(q', d) + r'
    ensures q == q' && r == r'
  {
    hide Mul;
    if q < q' {
      MulMonotone(q, q', d);
    } else if q' < q {
      MulMonotone(q', q, d);
    }
  }

  lemma DivModOf(q: nat, r: nat, d: nat)
    requires r < d
    ensures Div(Mul(q, d) + r, d) == q && Mod(Mul(q, d) + r, d) == r
  {
    hide Mul, Div, Mod;
    var n := Mul(q, d) + r;
    DivModIs(n, d);
    Unique(q, r, Div(n, d), Mod(n, d), d);
  }

  lemma DivBelow(n: nat, d: nat, q: nat)
    requires d > 0
    ensures n < Mul(q, d) <==> Div(n, d) < q
  {
    hide Mul, Div, Mod;
    DivModIs(n, d);
    if Div(n, d) < q {
      MulMonotone(Div(n, d), q, d);
    } else {
      MulMonotone(q, Div(n, d), d);
    }
  }

  lemma MulSum(a: nat, b: nat, d: nat)
    ensures Mul(a + b, d) == Mul(a, d) + Mul(b, d)
  {
  }

  /** Dividing by n times d is dividing by d and then by n. */
  lemma NestedDivision(x: nat, n: nat, d: nat)
    requires n > 0 && d > 0
    ensures Mul(n, d) > 0
    ensures Div(x, Mul(n, d)) == Div(Div(x, d), n)
    ensures Div(Mod(x, Mul(n, d)), d) == Mod(Div(x, d), n) && Mod(Mod(x, Mul(n, d)), d) == Mod(x, d)
  {
    hide Mul, Div, Mod;
    var q, r := Div(x, d), Mod(x, d);
    var a, b := Div(q, n), Mod(q, n);
    DivModIs(x, d);
    DivModIs(q, n);
    MulMonotone(1, n, d);
    MulStep(0, d);
    MulMonotone(b + 1, n, d);
    MulStep(b, d);
    Distribute(a, b, n, d);
    DivModOf(a, Mul(b, d) + r, Mul(n, d));
    DivModOf(b, r, d);
  }

  lemma Distribute(a: nat, b: nat, n: nat, d: nat)
    ensures Mul(Mul(a, n) + b, d) == Mul(a, Mul(n, d)) + Mul(b, d)
  {
  }
}
