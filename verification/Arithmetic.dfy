/** Facts about remainders and quotients by a variable divisor. */
module Arithmetic {
  lemma MultipleBounds(cap: nat, d: int)
    requires cap > 0
    ensures d >= 1 ==> cap * d >= cap
    ensures d <= -1 ==> cap * d <= -(cap as int)
  {
  }

  /** Two positions less than one lap apart that share a slot are the same position. */
  lemma SlotInjective(cap: nat, p: nat, q: nat)
    requires cap > 0 && p % cap == q % cap && p < q + cap && q < p + cap
    ensures p == q
  {
    assert p - q == cap * (p / cap - q / cap);
    MultipleBounds(cap, p / cap - q / cap);
  }

  lemma SlotOfSum(cap: nat, a: int, r: nat)
    requires r < cap
    ensures (cap * a + r) % cap == r
  {
    var x := cap * a + r;
    assert cap * (a - x / cap) == x % cap - r;
    MultipleBounds(cap, a - x / cap);
  }

  lemma QuotientOfSum(cap: nat, a: nat, r: nat)
    requires r < cap
    ensures (cap * a + r) / cap == a
  {
    var x := cap * a + r;
    assert cap * (a - x / cap) == x % cap - r;
    MultipleBounds(cap, a - x / cap);
  }

  lemma OneMore(q: int, d: int)
    ensures (q + 1) * d == q * d + d
  {
  }

  lemma QuotientStep(x: nat, d: nat)
    requires 0 < d <= x
    ensures x / d == (x - d) / d + 1
  {
    OneMore((x - d) / d, d);
    assert x == d * ((x - d) / d + 1) + (x - d) % d;
    QuotientOfSum(d, (x - d) / d + 1, (x - d) % d);
  }

  lemma NextLapSameSlot(cap: nat, p: nat)
    requires cap > 0
    ensures (p + cap) % cap == p % cap
  {
    assert p + cap == cap * (p / cap + 1) + p % cap;
    SlotOfSum(cap, p / cap + 1, p % cap);
  }

  lemma QuotientMonotone(x: nat, y: nat, d: nat)
    requires x <= y && d > 0
    ensures x / d <= y / d
  {
    assert d * (x / d - y / d) == x - x % d - (y - y % d);
    MultipleBounds(d, x / d - y / d);
  }
}
