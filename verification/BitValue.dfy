/** The number in a field of bits. */
module BitValue {

  /** Ones from bit 0 up to some bit, with room above. */
  predicate IsMask(m: bv32) { m & (m + 1) == 0 && m & 0xFFFF == m }

  /** `x` has no bits outside the mask. */
  predicate Within(x: bv32, m: bv32) { x & m == x }

  /** The number in the bits of `x` under the mask. */
  function Value(x: bv32, m: bv32): (n: nat)
    decreases m
  {
    if m == 0 then 0 else (if x & 1 == 1 then 1 else 0) + 2 * Value(x >> 1, m >> 1)
  }

  lemma Halves(x: bv32, m: bv32)
    requires IsMask(m) && Within(x, m) && m != 0
    ensures IsMask(m >> 1) && Within(x >> 1, m >> 1) && m >> 1 < m
  {
  }

  lemma Carries(x: bv32, m: bv32)
    requires IsMask(m) && Within(x, m) && x != m && x & 1 == 1
    ensures (x + 1) & 1 != 1 && (x + 1) >> 1 == (x >> 1) + 1 && x >> 1 != m >> 1
  {
  }

  lemma CarriesNot(x: bv32, m: bv32)
    requires IsMask(m) && Within(x, m) && x != m && x & 1 != 1
    ensures (x + 1) & 1 == 1 && (x + 1) >> 1 == x >> 1
  {
  }

  lemma {:induction false} ValueIncrement(x: bv32, m: bv32)
    requires IsMask(m) && Within(x, m) && x != m
    ensures Value(x + 1, m) == Value(x, m) + 1
    decreases m
  {
    Halves(x, m);
    if x & 1 == 1 {
      Carries(x, m);
      ValueIncrement(x >> 1, m >> 1);
    } else {
      CarriesNot(x, m);
    }
  }

  lemma SameBits(x: bv32, y: bv32)
    requires x >> 1 == y >> 1 && (x & 1 == 1 <==> y & 1 == 1)
    ensures x == y
  {
  }

  lemma {:induction false} ValueIsInjective(x: bv32, y: bv32, m: bv32)
    requires IsMask(m) && Within(x, m) && Within(y, m) && Value(x, m) == Value(y, m)
    ensures x == y
    decreases m
  {
    if m != 0 {
      Halves(x, m);
      Halves(y, m);
      ValueIsInjective(x >> 1, y >> 1, m >> 1);
      SameBits(x, y);
    }
  }

  lemma {:induction false} ValueAtMost(x: bv32, m: bv32)
    requires IsMask(m)
    ensures Value(x, m) <= Value(m, m)
    decreases m
  {
    if m != 0 {
      Halves(m, m);
      ValueAtMost(x >> 1, m >> 1);
      LowBitSet(m);
    }
  }

  lemma LowBitSet(m: bv32)
    requires IsMask(m) && m != 0
    ensures m & 1 == 1
  {
  }
}
