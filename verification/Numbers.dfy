/** Facts about division shared by the other modules. */
module Numbers {
  lemma TimesMonotone(a: nat, b: nat, c: nat)
    ensures a < b ==> (a + 1) * c <= b * c
  {
  }

  /** Quotient and remainder are unique. */
  lemma Divided(x: nat, d: nat, q: nat, r: nat)
    requires x == q * d + r && r < d
    ensures x / d == q && x % d == r
  {
    var q' := x / d;
    assert q' * d <= x < (q' + 1) * d;
    TimesMonotone(q', q, d);
    TimesMonotone(q, q', d);
  }
}
