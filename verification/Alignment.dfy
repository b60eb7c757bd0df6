/** Rounding up to an alignment. The repository adds the mask of the low bits and clears them, which
    is `MaskUp`. For powers of two that is `AlignUp`, which rounds bit by bit and gives the least
    multiple; for other alignments it is no multiple at all. */
module Alignment {

  predicate IsPowerOfTwo(n: int) { n == 1 || (n > 1 && n % 2 == 0 && IsPowerOfTwo(n / 2)) }

  function AlignUp(x: int, a: int): int
    requires IsPowerOfTwo(a)
    decreases a
  {
    if a == 1 then x else 2 * AlignUp((x + 1) / 2, a / 2)
  }

  predicate IsAligned(x: int, a: int)
    requires IsPowerOfTwo(a)
    decreases a
  {
    a == 1 || (x % 2 == 0 && IsAligned(x / 2, a / 2))
  }

  lemma {:induction false} AlignUpBounds(x: int, a: int)
    requires IsPowerOfTwo(a)
    ensures x <= AlignUp(x, a) < x + a
    decreases a
  {
    if a > 1 { AlignUpBounds((x + 1) / 2, a / 2); }
  }

  lemma {:induction false} AlignUpIsAligned(x: int, a: int)
    requires IsPowerOfTwo(a)
    ensures IsAligned(AlignUp(x, a), a)
    decreases a
  {
    if a > 1 {
      AlignUpIsAligned((x + 1) / 2, a / 2);
      assert AlignUp(x, a) / 2 == AlignUp((x + 1) / 2, a / 2);
    }
  }

  lemma {:induction false} AlignUpLeast(x: int, a: int, y: int)
    requires IsPowerOfTwo(a) && IsAligned(y, a) && x <= y
    ensures AlignUp(x, a) <= y
    decreases a
  {
    if a > 1 { AlignUpLeast((x + 1) / 2, a / 2, y / 2); }
  }

  lemma {:induction false} AlignedIsMultiple(x: int, a: int) returns (q: int)
    requires IsPowerOfTwo(a) && IsAligned(x, a)
    ensures x == q * a
    decreases a
  {
    if a == 1 {
      q := x;
    } else {
      q := AlignedIsMultiple(x / 2, a / 2);
      Double(q, a / 2);
    }
  }

  lemma {:induction false} MultipleIsAligned(q: int, a: int)
    requires IsPowerOfTwo(a)
    ensures IsAligned(q * a, a)
    decreases a
  {
    if a > 1 {
      MultipleIsAligned(q, a / 2);
      Double(q, a / 2);
    }
  }

  lemma Double(q: int, b: int)
    ensures q * (2 * b) == 2 * (q * b)
  {
  }

  /** `AlignUp(x, a)` is the smallest multiple of `a` that is at least `x`. */
  lemma AlignUpIsLeastMultiple(x: int, a: int) returns (q: int)
    requires IsPowerOfTwo(a)
    ensures AlignUp(x, a) == q * a && x <= q * a
    ensures forall r :: x <= r * a ==> q * a <= r * a
  {
    AlignUpBounds(x, a);
    AlignUpIsAligned(x, a);
    q := AlignedIsMultiple(AlignUp(x, a), a);
    forall r | x <= r * a ensures q * a <= r * a {
      MultipleIsAligned(r, a);
      AlignUpLeast(x, a, r * a);
    }
  }

  lemma AlignedIsFourAligned(x: int, a: int)
    requires IsPowerOfTwo(a) && a >= 4 && IsAligned(x, a)
    ensures x % 4 == 0
  {
    assert IsAligned(x / 2, a / 2) && a / 2 > 1;
  }

  /** Alignments 1 and 2 ask nothing of a multiple of four. */
  lemma AlignUpSmall(x: int)
    requires x % 4 == 0
    ensures IsPowerOfTwo(1) && IsPowerOfTwo(2) && IsPowerOfTwo(4)
    ensures AlignUp(x, 1) == x && AlignUp(x, 2) == x && AlignUp(x, 4) == x
  {
    assert AlignUp(x, 4) == 2 * AlignUp((x + 1) / 2, 2);
    assert AlignUp((x + 1) / 2, 2) == 2 * AlignUp(((x + 1) / 2 + 1) / 2, 1);
  }

  // ----- The mask -----

  /** The bits that two numbers share. */
  function And(x: int, m: nat): (r: int)
    ensures 0 <= r <= m && (x >= 0 ==> r <= x)
    decreases m
  {
    if m == 0 then 0 else x % 2 * (m % 2) + 2 * And(x / 2, m / 2)
  }

  /** `(x + (a - 1)) & ~(a - 1)` */
  function MaskUp(x: int, a: int): (r: int)
    requires a > 0
    ensures x <= r < x + a
  {
    x + (a - 1) - And(x + (a - 1), a - 1)
  }

  lemma {:induction false} MaskUpIsAlignUp(x: int, a: int)
    requires IsPowerOfTwo(a)
    ensures MaskUp(x, a) == AlignUp(x, a)
    decreases a
  {
    if a > 1 {
      MaskUpIsAlignUp((x + 1) / 2, a / 2);
      assert (x + (a - 1)) / 2 == (x + 1) / 2 + (a / 2 - 1) && (a - 1) / 2 == a / 2 - 1;
    }
  }

  lemma {:induction false} AndItself(m: nat)
    ensures And(m, m) == m
    decreases m
  {
    if m > 0 { AndItself(m / 2); }
  }

  /** Rounding 1 up with the mask of any other alignment stops short of the alignment. */
  lemma {:induction false} MaskStopsShort(a: int)
    requires a > 0 && !IsPowerOfTwo(a)
    ensures 0 < And(a, a - 1) < a
    decreases a
  {
    if a % 2 == 1 {
      AndItself((a - 1) / 2);
    } else {
      MaskStopsShort(a / 2);
    }
  }

  ghost predicate IsMultiple(x: int, a: int) { exists q :: x == q * a }

  /** The mask rounds every number to a multiple if and only if the alignment is a power of two. */
  lemma MaskRoundsIff(a: int)
    requires a > 0
    ensures (forall x :: IsMultiple(MaskUp(x, a), a)) <==> IsPowerOfTwo(a)
  {
    if IsPowerOfTwo(a) {
      forall x ensures IsMultiple(MaskUp(x, a), a) {
        MaskUpIsAlignUp(x, a);
        AlignUpIsAligned(x, a);
        var q := AlignedIsMultiple(AlignUp(x, a), a);
      }
    } else {
      MaskStopsShort(a);
      forall q ensures MaskUp(1, a) != q * a { BetweenMultiples(MaskUp(1, a), q, a); }
    }
  }

  lemma BetweenMultiples(x: int, q: int, a: int)
    requires 0 < x < a
    ensures x != q * a
  {
    if q >= 1 { assert (q - 1) * a >= 0; } else { assert (0 - q) * a >= 0; }
  }
}
