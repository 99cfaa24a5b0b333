/** Products and quotients of natural numbers. */
module Arithmetic {

  lemma {:induction false} MulStep(a: nat, b: nat, d: nat)
    ensures a < b ==> a * d + d <= b * d
    decreases b
  {
    if a + 1 < b {
      MulStep(a, b - 1, d);
    }
  }

  lemma DivStep(a: nat, d: nat)
    requires d > 0
    ensures (a + d) / d == a / d + 1
  {
    var q, r := a / d, a % d;
    assert a + d == (q + 1) * d + r;
    DivUnique(a + d, d, q + 1, r);
  }

  lemma DivOne(a: nat, d: nat)
    requires 0 < d <= a < 2 * d
    ensures a / d == 1
  {
    DivUnique(a, d, 1, a - d);
  }

  lemma DivZero(a: nat, d: nat)
    requires a < d
    ensures a / d == 0
  {
    DivUnique(a, d, 0, a);
  }

  lemma DivUnique(a: nat, d: nat, q: nat, r: nat)
    requires d > 0 && a == q * d + r && r < d
    ensures a / d == q
  {
    var p := a / d;
    assert a == p * d + a % d;
    MulStep(p, q, d);
    MulStep(q, p, d);
  }

  lemma {:induction false} SubsetSize(a: set<nat>, b: set<nat>)
    requires a <= b
    ensures |a| <= |b|
  {
    if a != {} {
      var x :| x in a;
      SubsetSize(a - {x}, b - {x});
    }
  }
}
