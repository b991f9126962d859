/**
  Rounding to words and pages, as done by the ALIGN, PAGE_ALIGN and PAGE_MASK
  expressions of the allocator.  The definitions count up in steps of the unit,
  which keeps every proof that uses them linear; `PageOfIsQuotient` and
  `RoundUpIsLeast` say what they are.
 */
module Rounding {

  /** The number of the page that holds offset `x`. */
  function PageOf(x: nat, page: nat): (p: nat)
    requires 0 < page
    ensures p <= x
  {
    if x < page then 0 else 1 + PageOf(x - page, page)
  }

  /** The number of the first page that starts at or above offset `x`. */
  function PageUp(x: nat, page: nat): nat
    requires 0 < page
  {
    PageOf(x + page - 1, page)
  }

  lemma {:induction false} PageOfIsQuotient(x: nat, page: nat)
    requires 0 < page
    ensures PageOf(x, page) * page <= x < (PageOf(x, page) + 1) * page
  {
    if x < page {
    } else {
      PageOfIsQuotient(x - page, page);
      var p := PageOf(x - page, page);
      assert (p + 1) * page == p * page + page;
      assert (p + 2) * page == (p + 1) * page + page;
    }
  }

  lemma {:induction false} PageOfMonotone(x: nat, y: nat, page: nat)
    requires 0 < page && x <= y
    ensures PageOf(x, page) <= PageOf(y, page)
  {
    if x < page {
    } else {
      PageOfMonotone(x - page, y - page, page);
    }
  }

  /** Everything the allocator's proofs need about two offsets, at most a page apart or not. */
  lemma PageFacts(x: nat, y: nat, page: nat)
    requires 0 < page && x <= y
    ensures PageOf(x, page) <= PageOf(y, page)
    ensures PageUp(x, page) <= PageUp(y, page)
    ensures PageOf(x, page) <= PageUp(x, page) <= PageOf(x, page) + 1
    ensures 0 < x ==> PageUp(x, page) == PageOf(x - 1, page) + 1
    ensures y <= x + page ==> PageOf(y, page) <= PageOf(x, page) + 1
    ensures y < x + page ==> PageOf(y, page) <= PageUp(x, page)
  {
    PageOfMonotone(x, y, page);
    PageOfMonotone(x + page - 1, y + page - 1, page);
    PageOfMonotone(x, x + page - 1, page);
    PageOfMonotone(x + page - 1, x + page, page);
    assert PageOf(x + page, page) == 1 + PageOf(x, page);
    if 0 < x {
      assert PageOf(x - 1 + page, page) == 1 + PageOf(x - 1, page);
    }
    if y <= x + page {
      PageOfMonotone(y, x + page, page);
    }
    if y < x + page {
      PageOfMonotone(y, x + page - 1, page);
    }
  }

  predicate Aligned(x: nat, unit: nat)
    requires 0 < unit
  {
    x == 0 || (unit <= x && Aligned(x - unit, unit))
  }

  lemma {:induction false} AlignedSum(x: nat, y: nat, unit: nat)
    requires 0 < unit && Aligned(x, unit) && Aligned(y, unit)
    ensures Aligned(x + y, unit)
  {
    if x == 0 {
    } else {
      AlignedSum(x - unit, y, unit);
    }
  }

  /** A multiple of a multiple of `small` is a multiple of `small`. */
  lemma {:induction false} AlignedTransitive(x: nat, big: nat, small: nat)
    requires 0 < small && 0 < big && Aligned(x, big) && Aligned(big, small)
    ensures Aligned(x, small)
  {
    if x == 0 {
    } else {
      AlignedTransitive(x - big, big, small);
      AlignedSum(x - big, big, small);
    }
  }

  /** No multiple of the unit lies strictly between two consecutive ones. */
  lemma {:induction false} AlignedGap(x: nat, y: nat, unit: nat)
    requires 0 < unit && Aligned(x, unit) && Aligned(y, unit) && x < y
    ensures x + unit <= y
  {
    if x == 0 {
    } else {
      AlignedGap(x - unit, y - unit, unit);
    }
  }

  /** ALIGN(x, unit) in unbounded arithmetic. */
  function RoundUp(x: nat, unit: nat): (r: nat)
    requires 0 < unit
    ensures x <= r < x + unit
    ensures Aligned(r, unit)
  {
    if x == 0 then 0 else if x <= unit then unit else unit + RoundUp(x - unit, unit)
  }

  lemma RoundUpIsLeast(x: nat, y: nat, unit: nat)
    requires 0 < unit && Aligned(y, unit) && x <= y
    ensures RoundUp(x, unit) <= y
  {
    if y < RoundUp(x, unit) {
      AlignedGap(y, RoundUp(x, unit), unit);
    }
  }

  /** A coarser word rounds no lower than a finer one. */
  lemma RoundUpCoarser(x: nat, big: nat, small: nat)
    requires 0 < small && 0 < big && Aligned(big, small)
    ensures RoundUp(x, small) <= RoundUp(x, big)
  {
    AlignedTransitive(RoundUp(x, big), big, small);
    RoundUpIsLeast(x, RoundUp(x, big), small);
  }

  /** `x & ~(unit - 1)`. */
  function RoundDown(x: nat, unit: nat): (r: nat)
    requires 0 < unit
    ensures r <= x < r + unit
    ensures Aligned(r, unit)
  {
    if x < unit then 0 else unit + RoundDown(x - unit, unit)
  }

  lemma {:induction false} RoundDownOfSum(x: nat, unit: nat)
    requires 0 < unit
    ensures RoundDown(x + unit - 1, unit) == RoundUp(x, unit)
  {
    if x == 0 {
    } else if x <= unit {
      assert RoundDown(x - 1, unit) == 0;
    } else {
      RoundDownOfSum(x - unit, unit);
    }
  }

  /** The sum of two size_t values: it wraps at `modulus`. */
  function WrapAdd(x: nat, y: nat, modulus: nat): nat
    requires x < modulus && y <= modulus
  {
    if x + y < modulus then x + y else x + y - modulus
  }

  /** It is the addition of size_t: the sum modulo 2 to the width. */
  lemma WrapAddIsModular(x: nat, y: nat, modulus: nat)
    requires x < modulus && y <= modulus
    ensures WrapAdd(x, y, modulus) == (x + y) % modulus
  {
    var r := WrapAdd(x, y, modulus);
    if x + y < modulus {
      assert x + y == modulus * 0 + r;
    } else {
      assert x + y == modulus * 1 + r;
    }
  }

  /** ALIGN(x, unit) as size_t arithmetic computes it: the addition wraps at `modulus`. */
  function WrappingAlign(x: nat, unit: nat, modulus: nat): (r: nat)
    requires 0 < unit <= modulus && x < modulus
    ensures r < modulus
  {
    RoundDown(WrapAdd(x, unit - 1, modulus), unit)
  }

  /** Lines 663-664: the size of a transaction's buffer, as computed. */
  function WrappingSize(dataSize: nat, offsetsSize: nat, unit: nat, modulus: nat): (r: nat)
    requires 0 < unit <= modulus && dataSize < modulus && offsetsSize < modulus
    ensures r < modulus
  {
    WrapAdd(WrappingAlign(dataSize, unit, modulus), WrappingAlign(offsetsSize, unit, modulus), modulus)
  }

  lemma WrappingAlignCases(x: nat, unit: nat, modulus: nat)
    requires 0 < unit <= modulus && Aligned(modulus, unit) && x < modulus
    ensures RoundUp(x, unit) <= modulus
    ensures RoundUp(x, unit) < modulus ==> RoundUp(x, unit) + unit <= modulus
    ensures WrappingAlign(x, unit, modulus) == if RoundUp(x, unit) < modulus then RoundUp(x, unit) else 0
  {
    RoundUpIsLeast(x, modulus, unit);
    if RoundUp(x, unit) < modulus {
      AlignedGap(RoundUp(x, unit), modulus, unit);
      RoundDownOfSum(x, unit);
    }
  }

  /**
    The check at line 666 rejects exactly the sizes whose true rounded sum does
    not fit in a size_t, and leaves the true sum otherwise.
   */
  lemma OverflowGuardExact(dataSize: nat, offsetsSize: nat, unit: nat, modulus: nat)
    requires 0 < unit <= modulus && Aligned(modulus, unit)
    requires dataSize < modulus && offsetsSize < modulus
    ensures var size := WrappingSize(dataSize, offsetsSize, unit, modulus);
            var exact := RoundUp(dataSize, unit) + RoundUp(offsetsSize, unit);
            && ((size < dataSize || size < offsetsSize) <==> modulus <= exact)
            && (exact < modulus ==> size == exact)
  {
    WrappingAlignCases(dataSize, unit, modulus);
    WrappingAlignCases(offsetsSize, unit, modulus);
  }
}
