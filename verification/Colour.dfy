/** Hex, RGB and HSL arithmetic of frontend/src/lib/chart-palette.ts, over exact reals. */
module Colour {
  datatype Rgb = Rgb(r: real, g: real, b: real)
  datatype Hsl = Hsl(h: real, s: real, l: real)

  function Abs(x: real): (a: real)
    ensures a >= 0.0 && (a == x || a == -x)
  {
    if x < 0.0 then -x else x
  }

  function Max(x: real, y: real): real { if x >= y then x else y }
  function Min(x: real, y: real): real { if x <= y then x else y }

  /** JavaScript's remainder: the quotient is cut toward zero, the sign is the dividend's. */
  function Rem(x: real, y: real): real
    requires y > 0.0
  {
    var q := x / y;
    x - y * (if q >= 0.0 then q.Floor as real else -((-q).Floor as real))
  }

  // ---------------------------------------------------------------- conversions

  function RgbToHsl(c: Rgb): Hsl
    requires InGamut(c)
  {
    UnitToHsl(c.r / 255.0, c.g / 255.0, c.b / 255.0)
  }

  predicate InUnit(rn: real, gn: real, bn: real) { 0.0 <= rn <= 1.0 && 0.0 <= gn <= 1.0 && 0.0 <= bn <= 1.0 }

  function High(rn: real, gn: real, bn: real): real { Max(rn, Max(gn, bn)) }
  function Low(rn: real, gn: real, bn: real): real { Min(rn, Min(gn, bn)) }

  /** The conversion after the channels are scaled to [0, 1]. */
  function UnitToHsl(rn: real, gn: real, bn: real): Hsl
    requires InUnit(rn, gn, bn)
  {
    var max, min := High(rn, gn, bn), Low(rn, gn, bn);
    var l := (max + min) / 2.0;
    var d := max - min;
    if d == 0.0 then Hsl(0.0, 0.0, l) else Hsl(Hue(rn, gn, bn, max, d), d / (1.0 - Abs(2.0 * l - 1.0)), l)
  }

  function Hue(rn: real, gn: real, bn: real, max: real, d: real): real
    requires d > 0.0
  {
    var sector := if max == rn then Rem((gn - bn) / d, 6.0)
                  else if max == gn then (bn - rn) / d + 2.0
                  else (rn - gn) / d + 4.0;
    var h := sector * 60.0;
    if h < 0.0 then h + 360.0 else h
  }

  /** The three channels as multiples of the chroma, before lightness is added. */
  function Weights(h: real): (real, real, real) {
    var x := 1.0 - Abs(Rem(h / 60.0, 2.0) - 1.0);
    if h < 60.0 then (1.0, x, 0.0)
    else if h < 120.0 then (x, 1.0, 0.0)
    else if h < 180.0 then (0.0, 1.0, x)
    else if h < 240.0 then (0.0, x, 1.0)
    else if h < 300.0 then (x, 0.0, 1.0)
    else (1.0, 0.0, x)
  }

  function Chroma(s: real, l: real): real { (1.0 - Abs(2.0 * l - 1.0)) * s }

  function Channel(weight: real, s: real, l: real): real {
    var c := Chroma(s, l);
    (c * weight + (l - c / 2.0)) * 255.0
  }

  function HslToRgb(c: Hsl): Rgb {
    var w := Weights(c.h);
    Rgb(Channel(w.0, c.s, c.l), Channel(w.1, c.s, c.l), Channel(w.2, c.s, c.l))
  }

  predicate InGamut(c: Rgb) { 0.0 <= c.r <= 255.0 && 0.0 <= c.g <= 255.0 && 0.0 <= c.b <= 255.0 }

  // ---------------------------------------------------------------- the round trip

  lemma Quotient(a: real, d: real, q: real)
    requires d > 0.0 && q == a / d
    ensures q * d == a
    ensures -d <= a <= d ==> -1.0 <= q <= 1.0
    ensures a >= 0.0 <==> q >= 0.0
    ensures a == d <==> q == 1.0
    ensures a == -d <==> q == -1.0
  {
    assert q * d == a;
    if q > 1.0 { assert (q - 1.0) * d > 0.0; }
    if q < -1.0 { assert (-1.0 - q) * d > 0.0; }
    if q < 0.0 { assert -q * d > 0.0; }
    if q > 0.0 { assert q * d > 0.0; }
  }

  lemma FloorIs(x: real, n: int)
    requires n as real <= x < n as real + 1.0
    ensures x.Floor == n
  {
  }

  lemma RemSmall(x: real, y: real)
    requires y > 0.0 && -y < x < y
    ensures Rem(x, y) == x
  {
    var q := x / y;
    Quotient(x, y, q);
    if q >= 0.0 { FloorIs(q, 0); } else { FloorIs(-q, 0); }
  }

  /** Within the colour wheel the remainder by 2 only takes off a whole number of turns. */
  lemma RemTwo(x: real, n: nat)
    requires n as real * 2.0 <= x < n as real * 2.0 + 2.0
    ensures Rem(x, 2.0) == x - n as real * 2.0
  {
    FloorIs(x / 2.0, n);
  }

  /** What Weights gives at sector position q of the wheel. */
  lemma WeightsAt(q: real)
    requires 0.0 <= q <= 6.0
    ensures Weights(q * 60.0)
         == if q < 1.0 then (1.0, q, 0.0)
            else if q < 2.0 then (2.0 - q, 1.0, 0.0)
            else if q < 3.0 then (0.0, 1.0, q - 2.0)
            else if q < 4.0 then (0.0, 4.0 - q, 1.0)
            else if q < 5.0 then (q - 4.0, 0.0, 1.0)
            else (1.0, 0.0, 6.0 - q)
  {
    assert q * 60.0 / 60.0 == q;
    if q < 2.0 { RemTwo(q, 0); }
    else if q < 4.0 { RemTwo(q, 1); }
    else if q < 6.0 { RemTwo(q, 2); }
    else { RemTwo(q, 3); }
  }

  /** Saturation undoes itself: multiplied back by the lightness factor it is the spread again. */
  lemma ChromaIsSpread(max: real, min: real)
    requires 0.0 <= min < max <= 1.0
    ensures var l := (max + min) / 2.0;
      var a := 1.0 - Abs(2.0 * l - 1.0);
      a > 0.0 && max - min <= a && Chroma((max - min) / a, l) == max - min
  {
    var l := (max + min) / 2.0;
    var a := 1.0 - Abs(2.0 * l - 1.0);
    assert a == if max + min <= 1.0 then max + min else 2.0 - max - min;
    Quotient(max - min, a, (max - min) / a);
  }

  lemma ChannelValue(weight: real, s: real, l: real, d: real, min: real, value: real)
    requires Chroma(s, l) == d && l - d / 2.0 == min && d * weight == value - min
    ensures Channel(weight, s, l) == value * 255.0
  {
  }

  /** Position on the six-sector wheel of a colour with spread d; red is the greatest channel, then
      green, then blue. */
  function Sector(rn: real, gn: real, bn: real, d: real): real
    requires d > 0.0
  {
    if rn >= gn && rn >= bn then (if gn >= bn then (gn - bn) / d else (gn - bn) / d + 6.0)
    else if gn >= bn then (bn - rn) / d + 2.0
    else (rn - gn) / d + 4.0
  }

  predicate Spread(rn: real, gn: real, bn: real, min: real, d: real) {
    && min <= rn <= min + d && min <= gn <= min + d && min <= bn <= min + d && d > 0.0
    && (min == rn || min == gn || min == bn)
    && (min + d == rn || min + d == gn || min + d == bn)
  }

  /** The chroma times each weight at a colour's own sector is the colour above its minimum. */
  predicate Recovers(rn: real, gn: real, bn: real, min: real, d: real, q: real) {
    var w := Weights(q * 60.0);
    0.0 <= q < 6.0 && d * w.0 == rn - min && d * w.1 == gn - min && d * w.2 == bn - min
  }

  lemma RedSector(rn: real, gn: real, bn: real, min: real, d: real)
    requires Spread(rn, gn, bn, min, d) && rn == min + d
    ensures Recovers(rn, gn, bn, min, d, Sector(rn, gn, bn, d))
  {
    hide Weights;
    Quotient(gn - bn, d, (gn - bn) / d);
    WeightsAt(Sector(rn, gn, bn, d));
  }

  lemma GreenSector(rn: real, gn: real, bn: real, min: real, d: real)
    requires Spread(rn, gn, bn, min, d) && gn == min + d && rn < gn
    ensures Recovers(rn, gn, bn, min, d, Sector(rn, gn, bn, d))
  {
    hide Weights;
    Quotient(bn - rn, d, (bn - rn) / d);
    WeightsAt(Sector(rn, gn, bn, d));
  }

  lemma BlueSector(rn: real, gn: real, bn: real, min: real, d: real)
    requires Spread(rn, gn, bn, min, d) && bn == min + d && rn < bn && gn < bn
    ensures Recovers(rn, gn, bn, min, d, Sector(rn, gn, bn, d))
  {
    hide Weights;
    Quotient(rn - gn, d, (rn - gn) / d);
    WeightsAt(Sector(rn, gn, bn, d));
  }

  lemma AnySector(rn: real, gn: real, bn: real, min: real, d: real)
    requires Spread(rn, gn, bn, min, d)
    ensures Recovers(rn, gn, bn, min, d, Sector(rn, gn, bn, d))
  {
    hide Recovers, Sector;
    if rn == min + d {
      RedSector(rn, gn, bn, min, d);
    } else if gn == min + d {
      GreenSector(rn, gn, bn, min, d);
    } else {
      BlueSector(rn, gn, bn, min, d);
    }
  }

  lemma HueIsSector(rn: real, gn: real, bn: real)
    requires High(rn, gn, bn) > Low(rn, gn, bn)
    ensures var max, d := High(rn, gn, bn), High(rn, gn, bn) - Low(rn, gn, bn);
      Spread(rn, gn, bn, Low(rn, gn, bn), d) && Hue(rn, gn, bn, max, d) == Sector(rn, gn, bn, d) * 60.0
  {
    hide Rem;
    var max, d := High(rn, gn, bn), High(rn, gn, bn) - Low(rn, gn, bn);
    Quotient(gn - bn, d, (gn - bn) / d);
    Quotient(bn - rn, d, (bn - rn) / d);
    Quotient(rn - gn, d, (rn - gn) / d);
    RemSmall((gn - bn) / d, 6.0);
  }

  lemma RecoversColour(rn: real, gn: real, bn: real, min: real, d: real, q: real, s: real, l: real)
    requires Recovers(rn, gn, bn, min, d, q) && Chroma(s, l) == d && l - d / 2.0 == min
    ensures HslToRgb(Hsl(q * 60.0, s, l)) == Rgb(rn * 255.0, gn * 255.0, bn * 255.0)
  {
    hide Channel, Chroma, Weights;
    var w := Weights(q * 60.0);
    ChannelValue(w.0, s, l, d, min, rn);
    ChannelValue(w.1, s, l, d, min, gn);
    ChannelValue(w.2, s, l, d, min, bn);
  }

  lemma GreyColour(v: real)
    ensures HslToRgb(Hsl(0.0, 0.0, v)) == Rgb(v * 255.0, v * 255.0, v * 255.0)
  {
    hide Channel, Weights;
    var w := Weights(0.0);
    GreyChannel(v, w.0);
    GreyChannel(v, w.1);
    GreyChannel(v, w.2);
  }

  lemma UnitRoundTrip(rn: real, gn: real, bn: real)
    requires InUnit(rn, gn, bn)
    ensures HslToRgb(UnitToHsl(rn, gn, bn)) == Rgb(rn * 255.0, gn * 255.0, bn * 255.0)
  {
    hide HslToRgb, Chroma, Recovers, Sector, Hue;
    var max, min := High(rn, gn, bn), Low(rn, gn, bn);
    var d, hsl := max - min, UnitToHsl(rn, gn, bn);
    if d == 0.0 {
      GreyColour(hsl.l);
    } else {
      HueIsSector(rn, gn, bn);
      AnySector(rn, gn, bn, min, d);
      ChromaIsSpread(max, min);
      RecoversColour(rn, gn, bn, min, d, Sector(rn, gn, bn, d), hsl.s, hsl.l);
    }
  }

  /** HSL loses nothing: converting any colour there and back returns it exactly, in every hue sector
      and on every boundary between two. */
  lemma HslRoundTrip(c: Rgb)
    requires InGamut(c)
    ensures HslToRgb(RgbToHsl(c)) == c
  {
    hide HslToRgb, UnitToHsl;
    UnitRoundTrip(c.r / 255.0, c.g / 255.0, c.b / 255.0);
  }

  lemma GreyChannel(l: real, weight: real)
    ensures Channel(weight, 0.0, l) == l * 255.0
  {
    assert Chroma(0.0, l) == 0.0;
  }

  // ---------------------------------------------------------------- monotone in lightness

  /** The conversion stays on the colour wheel: a hue below a full turn, saturation and lightness in the
      unit interval. */
  lemma HslRange(c: Rgb)
    requires InGamut(c)
    ensures 0.0 <= RgbToHsl(c).h < 360.0 && 0.0 <= RgbToHsl(c).s <= 1.0 && 0.0 <= RgbToHsl(c).l <= 1.0
  {
    hide Sector, Weights, Hue;
    var rn, gn, bn := c.r / 255.0, c.g / 255.0, c.b / 255.0;
    var max, min := High(rn, gn, bn), Low(rn, gn, bn);
    if max > min {
      HueIsSector(rn, gn, bn);
      AnySector(rn, gn, bn, min, max - min);
      ChromaIsSpread(max, min);
      var a := 1.0 - Abs(2.0 * RgbToHsl(c).l - 1.0);
      Quotient(max - min, a, (max - min) / a);
    }
  }

  lemma WeightRange(h: real)
    requires h >= 0.0
    ensures var w := Weights(h);
      0.0 <= w.0 <= 1.0 && 0.0 <= w.1 <= 1.0 && 0.0 <= w.2 <= 1.0
  {
    var x := h / 60.0;
    var n := (x / 2.0).Floor;
    assert Rem(x, 2.0) == x - 2.0 * (n as real);
  }

  lemma Product(x: real, y: real)
    requires x >= 0.0 && y >= 0.0
    ensures x * y >= 0.0
  {
  }

  lemma Shrinks(p: real, delta: real, step: real)
    requires -0.5 <= p <= 0.5 && -2.0 * step <= delta <= 2.0 * step
    ensures step + p * delta >= 0.0
  {
    if delta >= 0.0 {
      Product(p + 0.5, delta);
      assert (p + 0.5) * delta == p * delta + 0.5 * delta;
    } else {
      Product(0.5 - p, -delta);
      assert (0.5 - p) * -delta == p * delta - 0.5 * delta;
    }
  }

  lemma HalfWeight(s: real, weight: real)
    requires 0.0 <= weight <= 1.0 && 0.0 <= s <= 1.0
    ensures -0.5 <= s * (weight - 0.5) <= 0.5
  {
    Product(s, weight);
    Product(s, 1.0 - weight);
    assert s * (weight - 0.5) == s * weight - 0.5 * s;
    assert s * (1.0 - weight) == s - s * weight;
  }

  /** At a fixed hue and saturation, a lighter colour is no darker in any channel. */
  lemma ChannelMonotone(weight: real, s: real, low: real, high: real)
    requires 0.0 <= weight <= 1.0 && 0.0 <= s <= 1.0 && low <= high
    ensures Channel(weight, s, low) <= Channel(weight, s, high)
  {
    hide Channel;
    var p := s * (weight - 0.5);
    HalfWeight(s, weight);
    var a, a' := 1.0 - Abs(2.0 * low - 1.0), 1.0 - Abs(2.0 * high - 1.0);
    Shrinks(p, a' - a, high - low);
    ChannelForm(weight, s, low);
    ChannelForm(weight, s, high);
    assert p * (a' - a) == p * a' - p * a;
  }

  lemma ChannelForm(weight: real, s: real, l: real)
    ensures Channel(weight, s, l) == (l + s * (weight - 0.5) * (1.0 - Abs(2.0 * l - 1.0))) * 255.0
  {
    var a := 1.0 - Abs(2.0 * l - 1.0);
    var c := a * s;
    assert c * weight - c / 2.0 == c * (weight - 0.5);
    assert c * (weight - 0.5) == s * (weight - 0.5) * a;
  }

  lemma ChannelRange(weight: real, s: real, l: real)
    requires 0.0 <= weight <= 1.0 && 0.0 <= s <= 1.0 && 0.0 <= l <= 1.0
    ensures 0.0 <= Channel(weight, s, l) <= 255.0
    ensures Channel(weight, s, 0.0) == 0.0 && Channel(weight, s, 1.0) == 255.0
  {
    ChannelForm(weight, s, 0.0);
    ChannelForm(weight, s, 1.0);
    ChannelMonotone(weight, s, 0.0, l);
    ChannelMonotone(weight, s, l, 1.0);
  }

  /** Lightness moved toward white or black by the fraction |t|. */
  function Shifted(c: Rgb, t: real): Rgb
    requires InGamut(c)
  {
    var hsl := RgbToHsl(c);
    var target := if t > 0.0 then 1.0 else 0.0;
    HslToRgb(Hsl(hsl.h, hsl.s, Toward(hsl.l, target, Abs(t))))
  }

  function Toward(from: real, to: real, fraction: real): real { from + (to - from) * fraction }

  predicate NoDarker(a: Rgb, b: Rgb) { a.r <= b.r && a.g <= b.g && a.b <= b.b }

  lemma LightnessMonotone(h: real, s: real, low: real, high: real)
    requires h >= 0.0 && 0.0 <= s <= 1.0 && low <= high
    ensures NoDarker(HslToRgb(Hsl(h, s, low)), HslToRgb(Hsl(h, s, high)))
    ensures 0.0 <= low && high <= 1.0 ==> InGamut(HslToRgb(Hsl(h, s, low))) && InGamut(HslToRgb(Hsl(h, s, high)))
  {
    var w := Weights(h);
    WeightRange(h);
    ChannelMonotone(w.0, s, low, high);
    ChannelMonotone(w.1, s, low, high);
    ChannelMonotone(w.2, s, low, high);
    if 0.0 <= low && high <= 1.0 {
      ChannelRange(w.0, s, low); ChannelRange(w.1, s, low); ChannelRange(w.2, s, low);
      ChannelRange(w.0, s, high); ChannelRange(w.1, s, high); ChannelRange(w.2, s, high);
    }
  }

  /** A fraction of the way from one number to another stays between them. */
  lemma Between(from: real, to: real, t: real)
    requires 0.0 <= t <= 1.0
    ensures from <= to ==> from <= Toward(from, to, t) <= to
    ensures to <= from ==> to <= Toward(from, to, t) <= from
  {
    if from <= to {
      Product(to - from, t);
      Product(to - from, 1.0 - t);
      assert (to - from) * (1.0 - t) == to - from - (to - from) * t;
    } else {
      Product(from - to, t);
      Product(from - to, 1.0 - t);
      assert (from - to) * (1.0 - t) == from - to - (from - to) * t;
      assert (to - from) * t == -((from - to) * t);
    }
  }

  lemma Extremes(h: real, s: real)
    requires h >= 0.0 && 0.0 <= s <= 1.0
    ensures HslToRgb(Hsl(h, s, 0.0)) == Rgb(0.0, 0.0, 0.0)
    ensures HslToRgb(Hsl(h, s, 1.0)) == Rgb(255.0, 255.0, 255.0)
  {
    hide Channel, Weights;
    var w := Weights(h);
    WeightRange(h);
    ChannelRange(w.0, s, 0.0);
    ChannelRange(w.1, s, 0.0);
    ChannelRange(w.2, s, 0.0);
  }

  /** A tint never lowers a channel, a shade never raises one, both stay within the gamut; the full
      tint is white, the full shade black, and no shift at all changes nothing. */
  lemma ShiftMovesOneWay(c: Rgb, t: real)
    requires InGamut(c) && -1.0 <= t <= 1.0
    ensures InGamut(Shifted(c, t))
    ensures t >= 0.0 ==> NoDarker(c, Shifted(c, t))
    ensures t <= 0.0 ==> NoDarker(Shifted(c, t), c)
    ensures t == 1.0 ==> Shifted(c, t) == Rgb(255.0, 255.0, 255.0)
    ensures t == -1.0 ==> Shifted(c, t) == Rgb(0.0, 0.0, 0.0)
  {
    hide RgbToHsl, HslToRgb;
    var hsl := RgbToHsl(c);
    HslRange(c);
    HslRoundTrip(c);
    Extremes(hsl.h, hsl.s);
    var target := if t > 0.0 then 1.0 else 0.0;
    var nl := Toward(hsl.l, target, Abs(t));
    Between(hsl.l, target, Abs(t));
    assert hsl == Hsl(hsl.h, hsl.s, hsl.l);
    assert Abs(t) == 1.0 ==> nl == target;
    if t > 0.0 {
      LightnessMonotone(hsl.h, hsl.s, hsl.l, nl);
    } else {
      LightnessMonotone(hsl.h, hsl.s, nl, hsl.l);
    }
  }

  // ---------------------------------------------------------------- how far a shift moves

  /** The greatest and the least channel together. */
  function Span(c: Rgb): real { High(c.r, c.g, c.b) + Low(c.r, c.g, c.b) }

  lemma WeightEnds(h: real)
    requires h >= 0.0
    ensures var w := Weights(h); High(w.0, w.1, w.2) == 1.0 && Low(w.0, w.1, w.2) == 0.0
  {
    WeightRange(h);
  }

  lemma ChannelOrder(v: real, w: real, s: real, l: real)
    requires 0.0 <= v <= w <= 1.0 && 0.0 <= s <= 1.0 && 0.0 <= l <= 1.0
    ensures Channel(v, s, l) <= Channel(w, s, l)
  {
    var c := Chroma(s, l);
    Product(1.0 - Abs(2.0 * l - 1.0), s);
    Product(c, w - v);
    assert c * (w - v) == c * w - c * v;
  }

  lemma ChannelEnds(s: real, l: real)
    ensures Channel(1.0, s, l) + Channel(0.0, s, l) == 510.0 * l
  {
    var c := Chroma(s, l);
    assert c * 1.0 == c && c * 0.0 == 0.0;
  }

  /** Twice the lightness, in channels, is the span. */
  lemma SpanIsLightness(h: real, s: real, l: real)
    requires h >= 0.0 && 0.0 <= s <= 1.0 && 0.0 <= l <= 1.0
    ensures Span(HslToRgb(Hsl(h, s, l))) == 510.0 * l
  {
    hide Channel, Weights;
    var w := Weights(h);
    WeightRange(h);
    WeightEnds(h);
    ChannelEnds(s, l);
    ChannelOrder(0.0, w.0, s, l);
    ChannelOrder(0.0, w.1, s, l);
    ChannelOrder(0.0, w.2, s, l);
    ChannelOrder(w.0, 1.0, s, l);
    ChannelOrder(w.1, 1.0, s, l);
    ChannelOrder(w.2, 1.0, s, l);
  }

  /** The span after a shift: the given fraction of the way to white's, or to black's. */
  function MovedSpan(span: real, t: real): real {
    if t >= 0.0 then span + (510.0 - span) * t else span * (1.0 + t)
  }

  /** How far a channel can lie from half the span. */
  function Room(span: real): real { if span <= 255.0 then span else 510.0 - span }

  /** The channel keeps its distance from half the span, in proportion to the room there is. */
  predicate KeepsPlace(v: real, span: real, v': real, span': real) {
    (v' - span' / 2.0) * Room(span) == (v - span / 2.0) * Room(span')
  }

  lemma ChannelPlace(weight: real, s: real, l: real, l': real)
    requires 0.0 <= l <= 1.0 && 0.0 <= l' <= 1.0
    ensures KeepsPlace(Channel(weight, s, l), 510.0 * l, Channel(weight, s, l'), 510.0 * l')
  {
    hide Channel;
    var p, a, a' := s * (weight - 0.5), 1.0 - Abs(2.0 * l - 1.0), 1.0 - Abs(2.0 * l' - 1.0);
    ChannelForm(weight, s, l);
    ChannelForm(weight, s, l');
    assert Room(510.0 * l) == 255.0 * a && Room(510.0 * l') == 255.0 * a';
    Swap(p, a, a');
  }

  lemma Swap(p: real, a: real, b: real)
    ensures (p * b * 255.0) * (255.0 * a) == (p * a * 255.0) * (255.0 * b)
  {
    assert (p * b * 255.0) * (255.0 * a) == p * b * a * 65025.0;
    assert (p * a * 255.0) * (255.0 * b) == p * a * b * 65025.0;
    assert p * b * a == p * a * b;
  }

  lemma ShiftedLightness(c: Rgb, t: real)
    requires InGamut(c) && -1.0 <= t <= 1.0
    ensures var hsl := RgbToHsl(c);
      exists l' :: 0.0 <= l' <= 1.0 && Shifted(c, t) == HslToRgb(Hsl(hsl.h, hsl.s, l'))
                   && 510.0 * l' == MovedSpan(510.0 * hsl.l, t)
  {
    hide RgbToHsl, HslToRgb;
    var hsl := RgbToHsl(c);
    HslRange(c);
    var target := if t > 0.0 then 1.0 else 0.0;
    var l' := Toward(hsl.l, target, Abs(t));
    Between(hsl.l, target, Abs(t));
    assert 510.0 * l' == MovedSpan(510.0 * hsl.l, t);
  }

  /** How far a shift moves, channel by channel. The greatest and the least channel together go exactly
      the given fraction of their way to white or to black; every other channel keeps its place between
      them; and a grey stays grey, each channel going exactly that fraction of its own way. */
  lemma ShiftMovesExactly(c: Rgb, t: real)
    requires InGamut(c) && -1.0 <= t <= 1.0
    ensures var c', span := Shifted(c, t), Span(c);
      && Span(c') == (if t >= 0.0 then span + (510.0 - span) * t else span * (1.0 + t))
      && KeepsPlace(c.r, span, c'.r, Span(c')) && KeepsPlace(c.g, span, c'.g, Span(c'))
      && KeepsPlace(c.b, span, c'.b, Span(c'))
    ensures c.r == c.g == c.b ==>
              Shifted(c, t) == Rgb(GreyMoved(c.r, t), GreyMoved(c.r, t), GreyMoved(c.r, t))
  {
    hide RgbToHsl, Weights, Channel, Shifted, KeepsPlace, Span;
    var hsl := RgbToHsl(c);
    HslRange(c);
    HslRoundTrip(c);
    SpanIsLightness(hsl.h, hsl.s, hsl.l);
    ShiftedLightness(c, t);
    var l' :| 0.0 <= l' <= 1.0 && Shifted(c, t) == HslToRgb(Hsl(hsl.h, hsl.s, l'))
              && 510.0 * l' == MovedSpan(510.0 * hsl.l, t);
    SpanIsLightness(hsl.h, hsl.s, l');
    var w := Weights(hsl.h);
    ChannelPlace(w.0, hsl.s, hsl.l, l');
    ChannelPlace(w.1, hsl.s, hsl.l, l');
    ChannelPlace(w.2, hsl.s, hsl.l, l');
    if c.r == c.g == c.b {
      GreyIsUnsaturated(c);
      GreyChannel(l', w.0);
      GreyChannel(l', w.1);
      GreyChannel(l', w.2);
      GreySpan(c);
    }
  }

  /** A number moved the given fraction of its way to 255, or to 0. */
  function GreyMoved(v: real, t: real): real { if t >= 0.0 then v + (255.0 - v) * t else v * (1.0 + t) }

  lemma GreyShift(v: real, t: real)
    requires 0.0 <= v <= 255.0 && -1.0 <= t <= 1.0
    ensures Shifted(Rgb(v, v, v), t) == Rgb(GreyMoved(v, t), GreyMoved(v, t), GreyMoved(v, t))
    ensures 0.0 <= GreyMoved(v, t) <= 255.0
  {
    hide Shifted, KeepsPlace;
    ShiftMovesExactly(Rgb(v, v, v), t);
    ShiftMovesOneWay(Rgb(v, v, v), t);
  }

  lemma GreyIsUnsaturated(c: Rgb)
    requires InGamut(c) && c.r == c.g == c.b
    ensures RgbToHsl(c).s == 0.0
  {
  }

  lemma GreySpan(c: Rgb)
    requires c.r == c.g == c.b
    ensures Span(c) == 2.0 * c.r
  {
  }
}
