/** The two spacing converters of `create_figure` (artists.py:173-176).

    The grid primitive takes inter-panel spacing as a fraction `f` of the
    average slot: with `n` slots sharing a dimension `total`, each slot is
    `total / (n + f*(n-1))` long and each gap is `f` times that.
    `InToMpl` turns an absolute gap into that fraction and `MplToIn` turns a
    fraction back into an absolute gap. */
module Spacing {

  /** `in_to_mpl` divides by `total - inches*n + inches`; Python raises on zero. */
  predicate InToMplDefined(inches: real, total: real, n: int)
  {
    total - inches * (n as real) + inches != 0.0
  }

  function InToMpl(inches: real, total: real, n: int): real
    requires InToMplDefined(inches, total, n)
  {
    (inches * (n as real)) / (total - inches * (n as real) + inches)
  }

  /** `mpl_to_in` divides by `n + mpl*(n-1)`; Python raises on zero. */
  predicate MplToInDefined(mpl: real, total: real, n: int)
  {
    (n as real) + mpl * ((n - 1) as real) != 0.0
  }

  function MplToIn(mpl: real, total: real, n: int): real
    requires MplToInDefined(mpl, total, n)
  {
    (total / ((n as real) + mpl * ((n - 1) as real))) * mpl
  }

  /** Length of one slot when `n` slots and `n-1` gaps of relative size
      `mpl` fill `total`. */
  function SlotSize(mpl: real, total: real, n: int): real
    requires MplToInDefined(mpl, total, n)
  {
    total / ((n as real) + mpl * ((n - 1) as real))
  }

  /** Absolute -> relative -> absolute gives the absolute gap back. */
  lemma InToMplRoundTrip(inches: real, total: real, n: int)
    requires n != 0 && total != 0.0
    requires InToMplDefined(inches, total, n)
    ensures MplToInDefined(InToMpl(inches, total, n), total, n)
    ensures MplToIn(InToMpl(inches, total, n), total, n) == inches
  {
    var nr := n as real;
    var d := total - inches * nr + inches;
    var f := InToMpl(inches, total, n);
    DivTimes(inches * nr, d);
    var den := nr + f * (nr - 1.0);
    SlotsTimesGap(nr, f, d, inches, total);
    NonZeroProduct(nr, total);
    QuotientOfProduct(total, den, d, nr);
    FractionTimes(d, nr, f, inches);
  }

  /** `(x / d) * d == x` for a non-zero `d`. */
  lemma DivTimes(x: real, d: real)
    requires d != 0.0
    ensures (x / d) * d == x
  {
  }

  lemma NonZeroProduct(a: real, b: real)
    requires a != 0.0 && b != 0.0
    ensures a * b != 0.0
  {
  }

  /** With `f*d == i*nr` and `d == t - i*nr + i`, the `mpl_to_in`
      denominator times `d` is `nr*t`. */
  lemma SlotsTimesGap(nr: real, f: real, d: real, i: real, t: real)
    requires f * d == i * nr && d == t - i * nr + i
    ensures (nr + f * (nr - 1.0)) * d == nr * t
  {
    calc {
      (nr + f * (nr - 1.0)) * d;
      nr * d + (f * d) * (nr - 1.0);
      nr * d + (i * nr) * (nr - 1.0);
      nr * t;
    }
  }

  /** From `den * d == nr * t` with everything non-zero, `t / den == d / nr`. */
  lemma QuotientOfProduct(t: real, den: real, d: real, nr: real)
    requires den * d == nr * t && nr * t != 0.0 && d != 0.0 && nr != 0.0
    ensures den != 0.0 && t / den == d / nr
  {
    assert den != 0.0;
    assert (t / den) * (den * nr) == t * nr;
    assert (d / nr) * (den * nr) == d * den;
  }

  /** `(d / nr) * f == i` when `f * d == i * nr`. */
  lemma FractionTimes(d: real, nr: real, f: real, i: real)
    requires nr != 0.0 && f * d == i * nr
    ensures (d / nr) * f == i
  {
    assert (d / nr) * f == (f * d) / nr;
  }

  /** Relative -> absolute -> relative gives the fraction back. */
  lemma MplToInRoundTrip(mpl: real, total: real, n: int)
    requires n != 0 && total != 0.0
    requires MplToInDefined(mpl, total, n)
    ensures InToMplDefined(MplToIn(mpl, total, n), total, n)
    ensures InToMpl(MplToIn(mpl, total, n), total, n) == mpl
  {
    var nr := n as real;
    var den := nr + mpl * (nr - 1.0);
    var s := MplToIn(mpl, total, n);
    GapTimesSlots(total, den, mpl, s);
    var d := total - s * nr + s;
    RemainderTimesSlots(total, s, nr, mpl, den, d);
    NonZeroProduct(total, nr);
    RemainderFraction(s, nr, d, den, total, mpl);
  }

  /** `s == (t / den) * m` gives `s * den == t * m`. */
  lemma GapTimesSlots(t: real, den: real, m: real, s: real)
    requires den != 0.0 && s == (t / den) * m
    ensures s * den == t * m
  {
    DivTimes(t, den);
  }

  /** With `s * den == t * m` and `den == nr + m*(nr-1)`, the `in_to_mpl`
      denominator `d` times `den` is `t * nr`. */
  lemma RemainderTimesSlots(t: real, s: real, nr: real, m: real, den: real, d: real)
    requires s * den == t * m && den == nr + m * (nr - 1.0) && d == t - s * nr + s
    ensures d * den == t * nr
  {
    calc {
      d * den;
      t * den - (s * den) * (nr - 1.0);
      t * den - (t * m) * (nr - 1.0);
      t * nr;
    }
  }

  /** `(s * nr) / d == m` from the two products above. */
  lemma RemainderFraction(s: real, nr: real, d: real, den: real, t: real, m: real)
    requires d * den == t * nr && t * nr != 0.0 && den != 0.0 && t != 0.0 && s * den == t * m
    ensures d != 0.0 && (s * nr) / d == m
  {
    assert d != 0.0;
    assert ((s * nr) / d) * (d * den) == (s * nr) * den;
    assert m * (t * nr) == (s * den) * nr;
  }

  /** The `n` slots and `n-1` gaps that `MplToIn` describes exactly fill
      the available dimension. */
  lemma GridFillsTotal(mpl: real, total: real, n: int)
    requires MplToInDefined(mpl, total, n)
    ensures (n as real) * SlotSize(mpl, total, n)
            + ((n - 1) as real) * MplToIn(mpl, total, n) == total
  {
    var den := (n as real) + mpl * ((n - 1) as real);
    var slot := SlotSize(mpl, total, n);
    assert slot * den == total;
    assert MplToIn(mpl, total, n) == slot * mpl;
    assert (n as real) * slot + ((n - 1) as real) * (slot * mpl) == slot * den;
  }
}
