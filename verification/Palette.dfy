/** Centre-out selection from a ramp: getDistributedColors and categorical of
    frontend/src/lib/chart-palette.ts. */
module Palette {
  import opened HexColour

  /** JavaScript's integer remainder takes the sign of the dividend. */
  function JsRem(i: int, n: int): (r: int)
    requires n > 0
    ensures -n < r < n && (i >= 0 ==> r >= 0) && (i <= 0 ==> r <= 0)
  {
    if i >= 0 then i % n else -((-i) % n)
  }

  /** Remainder, shifted up once and reduced again: the position on a ring of n places. */
  function Wrap(i: int, n: int): (w: nat)
    requires n > 0
    ensures w == i % n
  {
    WrapIsModulo(i, n);
    JsRem(JsRem(i, n) + n, n)
  }

  lemma WrapIsModulo(i: int, n: int)
    requires n > 0
    ensures JsRem(JsRem(i, n) + n, n) == i % n
  {
    if i >= 0 {
      SameResidue(i % n + n, i % n, 1, n);
    } else {
      var r := (-i) % n;
      assert -i == (-i) / n * n + r;
      if r == 0 {
        SameResidue(n, 0, 1, n);
        SameResidue(i, 0, -((-i) / n), n);
      } else {
        SameResidue(i, n - r, -((-i) / n) - 1, n);
        SameResidue(n - r, n - r, 0, n);
      }
    }
  }

  lemma SameResidue(i: int, r: int, k: int, n: int)
    requires n > 0 && 0 <= r < n && i == r + k * n
    ensures i % n == r
  {
    var q := i / n;
    assert i == q * n + i % n;
    assert (k - q) * n == i % n - r;
    if k - q >= 1 { NoMultipleBelow(k - q, n); }
    if k - q <= -1 { NoMultipleBelow(q - k, n); }
  }

  lemma NoMultipleBelow(k: int, n: int)
    requires n > 0 && k >= 1
    ensures k * n >= n
  {
  }

  /** Where the picks fall on the ramp: the middle, both neighbours of the middle, or a run of n
      places that starts (n - 1) / 2 before the middle. */
  function Positions(length: nat, n: int): (r: seq<nat>)
    requires length > 0
    ensures |r| == (if n > 0 then n else 0) && forall i :: 0 <= i < |r| ==> r[i] < length
  {
    var mid := length / 2;
    if n <= 0 then []
    else if n == 2 then [(mid - 1) % length, (mid + 1) % length]
    else seq(n, i requires 0 <= i < n => (mid - (n - 1) / 2 + i) % length)
  }

  method GetDistributedColors(colors: seq<string>, n: int) returns (result: seq<string>)
    ensures colors == [] ==> result == []
    ensures colors != [] ==> |result| == |Positions(|colors|, n)|
    ensures colors != [] ==> forall i :: 0 <= i < |result| ==> result[i] == colors[Positions(|colors|, n)[i]]
  {
    if |colors| == 0 || n <= 0 {
      return [];
    }
    var midIndex := |colors| / 2;
    if n == 1 {
      return [colors[Wrap(midIndex, |colors|)]];
    }
    if n == 2 {
      return [colors[Wrap(midIndex - 1, |colors|)], colors[Wrap(midIndex + 1, |colors|)]];
    }
    var offset := (n - 1) / 2;
    result := [];
    for i := 0 to n
      invariant |result| == i
      invariant forall k :: 0 <= k < i ==> result[k] == colors[Positions(|colors|, n)[k]]
    {
      result := result + [colors[Wrap(midIndex + (i - offset), |colors|)]];
    }
  }

  /** The picks are centred: one run of neighbours on the ring with its middle pick, the earlier of two, in
      the middle of the ramp; two picks are the neighbours of that middle. */
  lemma PositionsCentred(length: nat, n: int)
    requires length > 0 && n > 0
    ensures var p, mid := Positions(length, n), length / 2;
      if n == 2 then p[0] == (mid - 1) % length && p[1] == (mid + 1) % length
      else p[(n - 1) / 2] == mid && forall i :: 0 <= i < n - 1 ==> p[i + 1] == (p[i] + 1) % length
  {
    var mid := length / 2;
    if n != 2 {
      SameResidue(mid, mid, 0, length);
      forall i | 0 <= i < n - 1 ensures Positions(length, n)[i + 1] == (Positions(length, n)[i] + 1) % length {
        RingNext(mid - (n - 1) / 2 + i, length);
      }
    }
  }

  lemma RingNext(a: int, n: int)
    requires n > 0
    ensures (a + 1) % n == (a % n + 1) % n
  {
    Parts(a, n);
    Parts(a % n + 1, n);
    SameResidue(a + 1, (a % n + 1) % n, a / n + (a % n + 1) / n, n);
  }

  // ---------------------------------------------------------------- distinct picks

  lemma NotAMultiple(k: int, n: int, m: int)
    requires 0 < m < n
    ensures k * n != m
  {
    if k >= 1 { NoMultipleBelow(k, n); }
    if k <= -1 { NoMultipleBelow(-k, n); }
  }

  lemma Parts(a: int, n: int)
    requires n > 0
    ensures a == a / n * n + a % n
  {
  }

  lemma RingDistinct(start: int, i: int, j: int, length: int)
    requires length > 0 && i < j < i + length
    ensures (start + i) % length != (start + j) % length
  {
    var a, b := start + i, start + j;
    var p, q, r, r' := a / length, b / length, a % length, b % length;
    Parts(a, length);
    Parts(b, length);
    NotAMultiple(q - p, length, b - a);
    assert (q - p) * length == q * length - p * length;
  }

  ghost predicate AllDistinct(s: seq<nat>) { forall i, j :: 0 <= i < j < |s| ==> s[i] != s[j] }

  /** The picks are pairwise distinct places exactly when they are no more than the ramp has, with one
      exception: two picks from a ramp of two, whose middle has only one neighbour. */
  lemma DistinctExactly(length: nat, n: int)
    requires length > 0
    ensures AllDistinct(Positions(length, n)) <==> n <= length && !(n == 2 && length == 2)
  {
    var p, mid := Positions(length, n), length / 2;
    if n == 2 {
      if length <= 2 {
        assert p == [0, 0];
        assert p[0] == p[1];
      } else {
        RingDistinct(mid, -1, 1, length);
      }
    } else if n > length {
      TooMany(length, n);
      assert p[0] == p[length];
    } else {
      var start := mid - (n - 1) / 2;
      forall i, j | 0 <= i < j < |p| ensures p[i] != p[j] {
        RingDistinct(start, i, j, length);
        assert p[i] == (start + i) % length && p[j] == (start + j) % length;
      }
    }
  }

  /** More picks than places come round to the first one. */
  lemma TooMany(length: nat, n: int)
    requires 0 < length < n && n != 2
    ensures Positions(length, n)[0] == Positions(length, n)[length]
  {
    var start := length / 2 - (n - 1) / 2;
    assert (start + length) % length == start % length by {
      Parts(start, length);
      SameResidue(start + length, start % length, start / length + 1, length);
    }
  }

  // ---------------------------------------------------------------- the categorical palette

  datatype ChartPalette = ChartPalette(accent: string, success: string, warning: string, danger: string)

  function Base(p: ChartPalette): (b: seq<string>)
    ensures |b| == 4
  {
    [p.accent, p.success, p.warning, p.danger]
  }

  /** Tints, then the base hues, then shades: twelve colours in three bands of the same four hues. */
  function Ramp(p: ChartPalette): (r: seq<string>)
    ensures |r| == 12
  {
    var b := Base(p);
    [ShiftLightness(b[0], 0.32), ShiftLightness(b[1], 0.32), ShiftLightness(b[2], 0.32), ShiftLightness(b[3], 0.32)]
    + b
    + [ShiftLightness(b[0], -0.32), ShiftLightness(b[1], -0.32),
       ShiftLightness(b[2], -0.32), ShiftLightness(b[3], -0.32)]
  }

  method Categorical(p: ChartPalette, n: int) returns (colors: seq<string>)
    ensures |colors| == if n > 0 then n else 0
    ensures n <= 4 ==> colors <= Base(p)
    ensures n > 4 ==> forall i :: 0 <= i < n ==> colors[i] == OfBand(Base(p)[Place(n, i) % 4], Place(n, i) / 4)
  {
    if n <= 4 {
      return Base(p)[..if n > 0 then n else 0];
    }
    colors := GetDistributedColors(Ramp(p), n);
    forall i | 0 <= i < n ensures Ramp(p)[Place(n, i)] == OfBand(Base(p)[Place(n, i) % 4], Place(n, i) / 4) {
      RampEntry(p, Place(n, i));
    }
  }

  /** A hue in band 0 is tinted, in band 1 as given, in band 2 shaded. */
  function OfBand(hue: string, band: int): string {
    if band == 0 then ShiftLightness(hue, 0.32) else if band == 1 then hue else ShiftLightness(hue, -0.32)
  }

  lemma RampEntry(p: ChartPalette, k: nat)
    requires k < 12
    ensures Ramp(p)[k] == OfBand(Base(p)[k % 4], k / 4)
  {
    hide ShiftLightness;
    assert k == 0 || k == 1 || k == 2 || k == 3 || k == 4 || k == 5
        || k == 6 || k == 7 || k == 8 || k == 9 || k == 10 || k == 11;
  }

  /** The ramp position of pick i out of n. */
  function Place(n: int, i: nat): nat
    requires i < n
  {
    Positions(12, n)[i]
  }

  /** How many of the first m picks have the given hue. */
  function HueCount(n: int, m: nat, hue: nat): nat
    requires m <= n
  {
    if m == 0 then 0 else HueCount(n, m - 1, hue) + if Place(n, m - 1) % 4 == hue then 1 else 0
  }

  lemma PlaceHue(n: int, i: nat)
    requires n > 4 && i < n
    ensures Place(n, i) % 4 == (6 - (n - 1) / 2 + i) % 4
    ensures Place(n, i) == (6 - (n - 1) / 2 + i) % 12
  {
    var a := 6 - (n - 1) / 2 + i;
    Parts(a, 12);
    Parts(a % 12, 4);
    SameResidue(a, a % 12 % 4, a % 12 / 4 + 3 * (a / 12), 4);
  }

  function One(b: bool): nat { if b then 1 else 0 }

  lemma FourInARow(a: int, hue: nat)
    requires hue < 4
    ensures One(a % 4 == hue) + One((a + 1) % 4 == hue) + One((a + 2) % 4 == hue) + One((a + 3) % 4 == hue) == 1
  {
  }

  lemma HueStep(n: int, m: nat, hue: nat)
    requires n > 4 && m < n
    ensures HueCount(n, m + 1, hue) == HueCount(n, m, hue) + One((6 - (n - 1) / 2 + m) % 4 == hue)
  {
    PlaceHue(n, m);
  }

  lemma {:induction false} HueCycle(n: int, m: nat, hue: nat)
    requires n > 4 && m <= n && hue < 4
    ensures m / 4 <= HueCount(n, m, hue) <= (m + 3) / 4
    decreases m
  {
    hide HueCount, Place;
    if m == 0 {
      NoHues(n, hue);
    } else if m < 4 {
      HueCycleShort(n, m, hue);
    } else {
      var a := 6 - (n - 1) / 2 + m - 4;
      HueCycle(n, m - 4, hue);
      HueStep(n, m - 4, hue);
      HueStep(n, m - 3, hue);
      HueStep(n, m - 2, hue);
      HueStep(n, m - 1, hue);
      FourInARow(a, hue);
    }
  }

  lemma NoHues(n: int, hue: nat)
    requires n >= 0
    ensures HueCount(n, 0, hue) == 0
  {
  }

  lemma HueCycleShort(n: int, m: nat, hue: nat)
    requires n > 4 && 1 <= m <= 3 && hue < 4
    ensures HueCount(n, m, hue) <= 1
  {
    hide HueCount, Place;
    NoHues(n, hue);
    FourInARow(6 - (n - 1) / 2, hue);
    HueStep(n, 0, hue);
    if m >= 2 { HueStep(n, 1, hue); }
    if m >= 3 { HueStep(n, 2, hue); }
  }

  lemma NextPlace(n: int, i: nat)
    requires n > 4 && i < n - 1
    ensures Place(n, i + 1) == (Place(n, i) + 1) % 12
  {
    hide Place;
    PlaceHue(n, i);
    PlaceHue(n, i + 1);
    NextOnRing(6 - (n - 1) / 2 + i);
  }

  lemma NextOnRing(a: int)
    ensures (a + 1) % 12 == (a % 12 + 1) % 12
  {
  }

  lemma PlacesDiffer(n: int, i: nat, j: nat)
    requires 4 < n <= 12 && i < j < n
    ensures Place(n, i) != Place(n, j)
  {
    hide Place;
    PlaceHue(n, i);
    PlaceHue(n, j);
    RingDistinct(6 - (n - 1) / 2, i, j, 12);
  }

  /** For more than four series the picks are one contiguous run of the ring of twelve, the run holds
      the ramp's middle, up to twelve picks are pairwise different places, and the four hues are used
      equally often to within one. */
  lemma CategoricalWindow(n: int, hue: nat, other: nat)
    requires n > 4 && hue < 4 && other < 4
    ensures forall i :: 0 <= i < n - 1 ==> Place(n, i + 1) == (Place(n, i) + 1) % 12
    ensures Place(n, (n - 1) / 2) == 6
    ensures n <= 12 ==> forall i, j :: 0 <= i < j < n ==> Place(n, i) != Place(n, j)
    ensures HueCount(n, n, hue) <= HueCount(n, n, other) + 1
  {
    hide Place, HueCount;
    forall i | 0 <= i < n - 1 ensures Place(n, i + 1) == (Place(n, i) + 1) % 12 {
      NextPlace(n, i);
    }
    PlaceHue(n, (n - 1) / 2);
    if n <= 12 {
      forall i, j | 0 <= i < j < n ensures Place(n, i) != Place(n, j) {
        PlacesDiffer(n, i, j);
      }
    }
    HueCycle(n, n, hue);
    HueCycle(n, n, other);
  }
}
