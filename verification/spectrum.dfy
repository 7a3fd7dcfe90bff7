/** `nm_to_rgb` (artists.py:388-441): an approximate RGB colour for a
    wavelength in nanometres.

    The wavelength is truncated to a whole number `w` of nanometres. A
    piecewise-linear hue gives every channel a value in [0, 1]: between 380
    and 780 one channel is always full, outside that range all are zero. An
    intensity factor fades the ends of the visible range, from 380 to 420
    and from 700 to 780. Each channel is then scaled by 255 times the
    intensity, truncated to an integer and divided by 256. */
module Spectrum {

  datatype Rgb = Rgb(r: real, g: real, b: real)

  /** Python's `int()` on a float: truncation toward zero. */
  function Trunc(x: real): (n: int)
    ensures x >= 0.0 ==> 0 <= n && n as real <= x < n as real + 1.0
    ensures x < 0.0 ==> n <= 0 && n as real - 1.0 < x <= n as real
  {
    if x >= 0.0 then x.Floor else -((-x).Floor)
  }

  /** The channels before intensity correction. */
  function Hue(w: int): (c: Rgb)
    ensures 0.0 <= c.r <= 1.0 && 0.0 <= c.g <= 1.0 && 0.0 <= c.b <= 1.0
    ensures 380 <= w <= 780 ==> c.r == 1.0 || c.g == 1.0 || c.b == 1.0
    ensures !(380 <= w <= 780) ==> c == Rgb(0.0, 0.0, 0.0)
  {
    var x := w as real;
    if 380 <= w < 440 then Rgb(-(x - 440.0) / (440.0 - 350.0), 0.0, 1.0)
    else if 440 <= w < 490 then Rgb(0.0, (x - 440.0) / (490.0 - 440.0), 1.0)
    else if 490 <= w < 510 then Rgb(0.0, 1.0, -(x - 510.0) / (510.0 - 490.0))
    else if 510 <= w < 580 then Rgb((x - 510.0) / (580.0 - 510.0), 1.0, 0.0)
    else if 580 <= w < 645 then Rgb(1.0, -(x - 645.0) / (645.0 - 580.0), 0.0)
    else if 645 <= w <= 780 then Rgb(1.0, 0.0, 0.0)
    else Rgb(0.0, 0.0, 0.0)
  }

  /** The intensity factor `SSS` before it is scaled by 255. */
  function Intensity(w: int): (s: real)
    ensures 380 <= w <= 780 ==> 0.3 <= s <= 1.0
    ensures 420 <= w <= 700 ==> s == 1.0
    ensures !(380 <= w <= 780) ==> s == 0.0
  {
    var x := w as real;
    if 380 <= w < 420 then 0.3 + 0.7 * (x - 350.0) / (420.0 - 350.0)
    else if 420 <= w <= 700 then 1.0
    else if 700 < w <= 780 then 0.3 + 0.7 * (780.0 - x) / (780.0 - 700.0)
    else 0.0
  }

  /** `float(int(v) / 256.)`. */
  function Quantize(v: real): real
  {
    (Trunc(v) as real) / 256.0
  }

  /** A channel value the output can take: a whole number of 256ths from 0
      up to 255/256. */
  predicate Level(v: real)
  {
    0.0 <= v <= 255.0 / 256.0 && ((v * 256.0).Floor as real) == v * 256.0
  }

  function NmToRgb(nm: real): (c: Rgb)
    ensures Level(c.r) && Level(c.g) && Level(c.b)
  {
    var w := Trunc(nm);
    var sss := Intensity(w) * 255.0;
    var hue := Hue(w);
    ChannelLevel(sss, hue.r);
    ChannelLevel(sss, hue.g);
    ChannelLevel(sss, hue.b);
    Rgb(Quantize(sss * hue.r), Quantize(sss * hue.g), Quantize(sss * hue.b))
  }

  /** A hue channel in [0, 1] times a scaled intensity in [0, 255]
      quantises to a level. */
  lemma ChannelLevel(sss: real, h: real)
    requires 0.0 <= sss <= 255.0 && 0.0 <= h <= 1.0
    ensures Level(Quantize(sss * h))
  {
    var v := sss * h;
    MulNonneg(sss, h);
    MulNonneg(sss, 1.0 - h);
    assert sss * (1.0 - h) == sss - v;
    var n := Trunc(v);
    assert 0 <= n <= 255;
    var q := (n as real) / 256.0;
    assert q * 256.0 == n as real;
  }

  lemma MulNonneg(a: real, b: real)
    requires 0.0 <= a && 0.0 <= b
    ensures 0.0 <= a * b
  {
  }

  /** Every channel is black exactly when the truncated wavelength lies
      outside 380..780 nm. */
  lemma BlackOutsideVisible(nm: real)
    ensures NmToRgb(nm) == Rgb(0.0, 0.0, 0.0) <==> !(380 <= Trunc(nm) <= 780)
  {
    var w := Trunc(nm);
    var sss := Intensity(w) * 255.0;
    var hue := Hue(w);
    if 380 <= w <= 780 {
      assert sss >= 0.3 * 255.0;
      assert Trunc(sss * 1.0) >= 76;
    }
  }

  /** From 420 to 700 nm the intensity is not faded: some channel is at
      the full level 255/256. */
  lemma FullLevelInCentre(nm: real)
    requires 420 <= Trunc(nm) <= 700
    ensures var c := NmToRgb(nm);
      c.r == 255.0 / 256.0 || c.g == 255.0 / 256.0 || c.b == 255.0 / 256.0
  {
    var w := Trunc(nm);
    assert Intensity(w) * 255.0 == 255.0;
    assert Trunc(255.0 * 1.0) == 255;
  }
}
