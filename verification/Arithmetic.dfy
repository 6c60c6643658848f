// Order and product laws that the solver is not left to rediscover inside
// larger proofs.
module Arithmetic {

  lemma {:induction false} MulMonotone(a: nat, b: nat, c: nat)
    requires a <= b
    ensures a * c <= b * c
    decreases b
  {
    if a < b {
      MulMonotone(a, b - 1, c);
      MulStep(b - 1, c);
    }
  }

  lemma MulStep(a: nat, c: nat)
    ensures (a + 1) * c == a * c + c
  {}

  lemma MulStrict(a: nat, b: nat, d: nat)
    requires a < b
    ensures a * d + d <= b * d
  {
    MulMonotone(a + 1, b, d);
    MulStep(a, d);
  }

  lemma Distribute(a: real, b: real, c: real)
    ensures (b - a) * c == b * c - a * c
  {}

  lemma ProductSign(a: real, c: real)
    requires a >= 0.0 && c >= 0.0
    ensures a * c >= 0.0
    ensures a > 0.0 && c > 0.0 ==> a * c > 0.0
  {}

  lemma RealMulMonotone(a: real, b: real, c: real)
    requires a <= b && c >= 0.0
    ensures a * c <= b * c
    ensures a < b && c > 0.0 ==> a * c < b * c
  {
    Distribute(a, b, c);
    ProductSign(b - a, c);
  }
}
