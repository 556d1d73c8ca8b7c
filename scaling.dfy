/** Products of a count and a size, as they locate runs and samples in a row.
    They are written as repeated addition, so that every proof about positions
    stays within linear arithmetic; `TimesIsProduct` ties them to `*`. */
module Scaling {

  /** `count` copies of `size` laid end to end: `count * size`. */
  function Times(count: nat, size: nat): nat {
    if count == 0 then 0 else Times(count - 1, size) + size
  }

  lemma {:induction false} TimesIsProduct(count: nat, size: nat)
    ensures Times(count, size) == count * size
  {
    if count > 0 {
      TimesIsProduct(count - 1, size);
    }
  }

  /** Copies of nothing take no room. */
  lemma {:induction false} TimesEmpty(count: nat)
    ensures Times(count, 0) == 0
  {
    if count > 0 {
      TimesEmpty(count - 1);
    }
  }

  /** More copies never take less room. */
  lemma {:induction false} TimesMonotone(a: nat, b: nat, size: nat)
    requires a <= b
    ensures Times(a, size) <= Times(b, size)
    decreases b
  {
    if a < b {
      TimesMonotone(a, b - 1, size);
    }
  }

  /** Bigger copies never take less room. */
  lemma {:induction false} TimesMonotoneSize(count: nat, a: nat, b: nat)
    requires a <= b
    ensures Times(count, a) <= Times(count, b)
  {
    if count > 0 {
      TimesMonotoneSize(count - 1, a, b);
    }
  }

  /** Copies of a compound size split into copies of each part. */
  lemma {:induction false} TimesDistributes(count: nat, a: nat, b: nat)
    ensures Times(count, a + b) == Times(count, a) + Times(count, b)
  {
    if count > 0 {
      TimesDistributes(count - 1, a, b);
    }
  }
}
