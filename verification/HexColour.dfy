/** Hex colour strings and shiftLightness of frontend/src/lib/chart-palette.ts. */
module HexColour {
  import opened Prelude
  import opened Colour
  import opened Text

  predicate IsSpace(c: char) {
    c in "\t\n\U{000B}\U{000C}\r \U{00A0}\U{1680}\U{2028}\U{2029}\U{202F}\U{205F}\U{3000}\U{FEFF}"
    || '\U{2000}' <= c <= '\U{200A}'
  }

  predicate IsHex(c: char) { '0' <= c <= '9' || 'a' <= c <= 'f' || 'A' <= c <= 'F' }

  function Digit(c: char): (d: nat)
    requires IsHex(c)
    ensures d < 16
  {
    if c <= '9' then (c - '0') as int else if c <= 'F' then (c - 'A') as int + 10 else (c - 'a') as int + 10
  }

  function HexChar(d: nat): (c: char)
    requires d < 16
    ensures IsHex(c) && Digit(c) == d && !('A' <= c <= 'F') && !IsSpace(c)
  {
    if d < 10 then '0' + d as char else 'a' + (d - 10) as char
  }

  predicate AllHex(s: string) { forall i :: 0 <= i < |s| ==> IsHex(s[i]) }

  /** parseInt in base 16. */
  function Number(s: string): nat
    requires AllHex(s)
  {
    if s == "" then 0 else Number(s[..|s| - 1]) * 16 + Digit(s[|s| - 1])
  }

  /** The six digits the pattern captures, if the string is a colour. */
  function Digits(hex: string): (r: Option<string>)
    ensures r.Some? ==> |r.value| == 6 && AllHex(r.value)
  {
    var t := Strip(IsSpace, hex);
    var body := if t != "" && t[0] == '#' then t[1..] else t;
    if |body| == 6 && AllHex(body) then Some(body) else None
  }

  function HexToRgb(hex: string): Option<(nat, nat, nat)> {
    match Digits(hex)
    case None => None
    case Some(body) =>
      var n := Number(body);
      Some((n / 65536 % 256, n / 256 % 256, n % 256))
  }

  function Clamp(v: real): real { Min(255.0, Max(0.0, v)) }

  function Round(v: real): int { (v + 0.5).Floor }

  /** toString(16) of a byte, padded to two digits. */
  function ByteHex(n: nat): (s: string)
    requires n < 256
    ensures s == [HexChar(n / 16), HexChar(n % 16)]
  {
    var digits := if n < 16 then [HexChar(n)] else [HexChar(n / 16), HexChar(n % 16)];
    if |digits| < 2 then "0" + digits else digits
  }

  function ByteOf(v: real): (n: nat)
    ensures n < 256
  {
    Round(Clamp(v))
  }

  /** Rounding to a byte keeps the order with every byte. */
  lemma ByteNear(v: real, k: nat)
    requires k < 256
    ensures v == k as real ==> ByteOf(v) == k
    ensures v >= k as real ==> ByteOf(v) >= k
    ensures v <= k as real ==> ByteOf(v) <= k
  {
  }

  /** The byte printed for a channel: the nearest one, the greater of two; beyond the range, its end. */
  lemma ByteNearest(v: real)
    ensures 0.0 <= v <= 255.0 ==> Nearest(ByteOf(v), v)
    ensures v <= 0.0 ==> ByteOf(v) == 0
    ensures v >= 255.0 ==> ByteOf(v) == 255
  {
  }

  predicate Nearest(n: nat, v: real) { n as real - 0.5 <= v < n as real + 0.5 }

  function RgbToHex(c: Rgb): string { "#" + ByteHex(ByteOf(c.r)) + ByteHex(ByteOf(c.g)) + ByteHex(ByteOf(c.b)) }

  function ToColour(c: (nat, nat, nat)): Rgb { Rgb(c.0 as real, c.1 as real, c.2 as real) }

  function ShiftLightness(hex: string, t: real): string {
    var rgb := HexToRgb(hex);
    if rgb.None? then hex else RgbToHex(Shifted(ToColour(rgb.value), t))
  }

  // ---------------------------------------------------------------- both directions of the hex form

  lemma NumberStep(s: string, c: char)
    requires AllHex(s) && IsHex(c)
    ensures AllHex(s + [c]) && Number(s + [c]) == Number(s) * 16 + Digit(c)
  {
    assert (s + [c])[..|s|] == s;
  }

  /** Two hex digits as a byte. */
  function Pair(a: char, b: char): (n: nat)
    requires IsHex(a) && IsHex(b)
    ensures n < 256 && n / 16 == Digit(a) && n % 16 == Digit(b)
  {
    Digit(a) * 16 + Digit(b)
  }

  function Bytes(body: string): (nat, nat, nat)
    requires |body| == 6 && AllHex(body)
  {
    (Pair(body[0], body[1]), Pair(body[2], body[3]), Pair(body[4], body[5]))
  }

  lemma NumberOfSix(body: string)
    requires |body| == 6 && AllHex(body)
    ensures Number(body) == Bytes(body).0 * 65536 + Bytes(body).1 * 256 + Bytes(body).2
  {
    hide Number, Digit;
    assert Number("") == 0 by { NumberEmpty(); }
    assert body[..0] == "";
    NumberStep(body[..0], body[0]);
    NumberStep(body[..1], body[1]);
    NumberStep(body[..2], body[2]);
    NumberStep(body[..3], body[3]);
    NumberStep(body[..4], body[4]);
    NumberStep(body[..5], body[5]);
    assert body[..0] + [body[0]] == body[..1] && body[..1] + [body[1]] == body[..2];
    assert body[..2] + [body[2]] == body[..3] && body[..3] + [body[3]] == body[..4];
    assert body[..4] + [body[4]] == body[..5] && body[..5] + [body[5]] == body;
  }

  lemma NumberEmpty()
    ensures Number("") == 0
  {
  }

  lemma SplitBytes(r: nat, g: nat, b: nat)
    requires r < 256 && g < 256 && b < 256
    ensures var n := r * 65536 + g * 256 + b;
      n / 65536 % 256 == r && n / 256 % 256 == g && n % 256 == b
  {
    var n := r * 65536 + g * 256 + b;
    Quotients(n, r, 65536, g * 256 + b);
    Quotients(r, 0, 256, r);
    Quotients(n, r * 256 + g, 256, b);
    Quotients(r * 256 + g, r, 256, g);
  }

  lemma Quotients(n: nat, q: nat, d: nat, r: nat)
    requires n == q * d + r && r < d
    ensures n / d == q && n % d == r
  {
    var p := n / d;
    assert n == p * d + n % d;
    assert (p - q) * d == r - n % d;
    AtLeastOnce(p - q, d);
    AtLeastOnce(q - p, d);
  }

  lemma AtLeastOnce(k: int, d: nat)
    ensures k >= 1 ==> k * d >= d
    ensures k * d == -((-k) * d)
  {
  }

  /** A string that is read as a colour has the bytes of its digits. */
  lemma ReadBytes(hex: string)
    requires Digits(hex).Some?
    ensures HexToRgb(hex) == Some(Bytes(Digits(hex).value))
  {
    hide Number, Digits, Pair;
    var body := Digits(hex).value;
    NumberOfSix(body);
    SplitBytes(Bytes(body).0, Bytes(body).1, Bytes(body).2);
  }

  lemma HashDigits(body: string)
    requires |body| == 6 && AllHex(body)
    ensures Digits("#" + body) == Some(body)
  {
    var hex := "#" + body;
    assert IsHex(body[5]) && hex[|hex| - 1] == body[5] && hex[0] == '#';
    PaddedStrips(IsSpace, hex, "", hex, "");
    assert hex[1..] == body;
  }

  /** Reading back a printed colour gives its channels. */
  lemma HexRoundTrip(r: nat, g: nat, b: nat)
    requires r < 256 && g < 256 && b < 256
    ensures HexToRgb(RgbToHex(Rgb(r as real, g as real, b as real))) == Some((r, g, b))
  {
    hide HexToRgb, Digits, ByteHex, HexChar, Digit, ByteOf;
    ByteNear(r as real, r);
    ByteNear(g as real, g);
    ByteNear(b as real, b);
    var c := Rgb(r as real, g as real, b as real);
    var body := ByteHex(r) + ByteHex(g) + ByteHex(b);
    assert ByteOf(c.r) == r && ByteOf(c.g) == g && ByteOf(c.b) == b;
    assert RgbToHex(c) == "#" + body;
    assert body == [HexChar(r / 16), HexChar(r % 16), HexChar(g / 16), HexChar(g % 16),
                    HexChar(b / 16), HexChar(b % 16)];
    HashDigits(body);
    ReadBytes("#" + body);
    assert Bytes(body) == (r, g, b);
  }

  /** Printing any colour and reading it back gives its bytes. */
  lemma Printed(c: Rgb)
    ensures HexToRgb(RgbToHex(c)) == Some((ByteOf(c.r), ByteOf(c.g), ByteOf(c.b)))
  {
    hide HexToRgb, ByteHex, ByteOf;
    var r, g, b := ByteOf(c.r), ByteOf(c.g), ByteOf(c.b);
    ByteNear(r as real, r);
    ByteNear(g as real, g);
    ByteNear(b as real, b);
    HexRoundTrip(r, g, b);
  }

  /** Inside the gamut these are the bytes nearest to its channels. */
  lemma PrintNearest(c: Rgb)
    requires InGamut(c)
    ensures HexToRgb(RgbToHex(c)).Some?
    ensures var read := HexToRgb(RgbToHex(c)).value;
      Nearest(read.0, c.r) && Nearest(read.1, c.g) && Nearest(read.2, c.b)
  {
    hide HexToRgb, RgbToHex, ByteOf;
    Printed(c);
    ByteNearest(c.r);
    ByteNearest(c.g);
    ByteNearest(c.b);
  }

  /** The digits have their usual values, in lower and in upper case. */
  lemma DigitValue(c: char)
    ensures IsHex(c) <==> c in "0123456789abcdefABCDEF"
    ensures IsHex(c) ==> var d := Digit(c); c == "0123456789abcdef"[d] || c == "0123456789ABCDEF"[d]
  {
  }

  /** The six digits with or without a hash, between white space. */
  predicate Spells(hex: string, pre: string, mark: string, body: string, post: string) {
    && Blank(IsSpace, pre) && (mark == "" || mark == "#") && |body| == 6 && AllHex(body) && Blank(IsSpace, post)
    && hex == pre + mark + body + post
  }

  /** Exactly which strings are read as a colour, and as which: six hexadecimal digits with or without a
      hash, white space around them, two digits a channel in the order red, green, blue. */
  lemma ReadsExactly(hex: string)
    ensures HexToRgb(hex).Some? <==> exists pre, mark, body, post :: Spells(hex, pre, mark, body, post)
    ensures forall pre, mark, body, post :: Spells(hex, pre, mark, body, post) ==>
              HexToRgb(hex) == Some((Digit(body[0]) * 16 + Digit(body[1]), Digit(body[2]) * 16 + Digit(body[3]),
                                     Digit(body[4]) * 16 + Digit(body[5])))
  {
    hide HexToRgb, Digit;
    if Digits(hex).Some? {
      ReadBytes(hex);
      DigitsSpelled(hex);
    } else {
      assert HexToRgb(hex).None? by { NoDigits(hex); }
    }
    forall pre, mark, body, post | Spells(hex, pre, mark, body, post)
      ensures HexToRgb(hex) == Some((Digit(body[0]) * 16 + Digit(body[1]), Digit(body[2]) * 16 + Digit(body[3]),
                                     Digit(body[4]) * 16 + Digit(body[5])))
    {
      SpelledDigits(hex, pre, mark, body, post);
      ReadBytes(hex);
    }
  }

  lemma NoDigits(hex: string)
    requires Digits(hex).None?
    ensures HexToRgb(hex).None?
  {
  }

  lemma DigitsSpelled(hex: string)
    requires Digits(hex).Some?
    ensures exists pre, mark, body, post :: Spells(hex, pre, mark, body, post)
  {
    hide IsSpace, AllHex, Strip, Blank, Tight;
    var body, t := Digits(hex).value, Strip(IsSpace, hex);
    StripParts(IsSpace, hex);
    var pre, post :| Padded(IsSpace, hex, pre, t, post);
    var mark := if t != "" && t[0] == '#' then "#" else "";
    assert t == mark + body;
    Regrouped(pre, mark, body, post);
    assert Spells(hex, pre, mark, body, post);
  }

  lemma Regrouped(pre: string, mark: string, body: string, post: string)
    ensures pre + (mark + body) + post == pre + mark + body + post
  {
  }

  lemma SpelledDigits(hex: string, pre: string, mark: string, body: string, post: string)
    requires Spells(hex, pre, mark, body, post)
    ensures Digits(hex) == Some(body)
  {
    var t := mark + body;
    assert IsHex(body[0]) && IsHex(body[5]) && t[|t| - 1] == body[5];
    assert t[0] == (if mark == "#" then '#' else body[0]);
    assert mark == "#" ==> t[1..] == body;
    assert mark == "" ==> t == body;
    assert Tight(IsSpace, t);
    hide AllHex, IsHex, IsSpace, Strip, Blank, Tight;
    Regrouped(pre, mark, body, post);
    PaddedStrips(IsSpace, hex, pre, t, post);
  }

  function Lower(s: string): (r: string)
    requires AllHex(s)
    ensures |r| == |s| && AllHex(r)
  {
    seq(|s|, i requires 0 <= i < |s| => HexChar(Digit(s[i])))
  }

  /** Printing a colour that was read gives its canonical spelling: a hash and lower-case digits. */
  lemma CanonicalHex(hex: string)
    requires Digits(hex).Some?
    ensures HexToRgb(hex).Some?
    ensures RgbToHex(ToColour(HexToRgb(hex).value)) == "#" + Lower(Digits(hex).value)
  {
    hide HexToRgb, Digits, ByteHex, HexChar, Digit, Pair, ByteOf;
    var s := Digits(hex).value;
    ReadBytes(hex);
    var c := Bytes(s);
    ByteNear(c.0 as real, c.0);
    ByteNear(c.1 as real, c.1);
    ByteNear(c.2 as real, c.2);
    assert ByteHex(c.0) + ByteHex(c.1) + ByteHex(c.2) == Lower(s);
    assert "#" + ByteHex(c.0) + ByteHex(c.1) + ByteHex(c.2) == "#" + (ByteHex(c.0) + ByteHex(c.1) + ByteHex(c.2));
  }

  lemma HexInGamut(hex: string)
    requires HexToRgb(hex).Some?
    ensures InGamut(ToColour(HexToRgb(hex).value)) && Digits(hex).Some?
    ensures var rgb := HexToRgb(hex).value;
      rgb.0 < 256 && rgb.1 < 256 && rgb.2 < 256
  {
    hide Digits, Number;
  }

  /** Clamping is idle on anything the shift produces for |t| <= 1. */
  lemma ClampIsIdle(hex: string, t: real)
    requires HexToRgb(hex).Some? && -1.0 <= t <= 1.0
    ensures var c := Shifted(ToColour(HexToRgb(hex).value), t);
      Clamp(c.r) == c.r && Clamp(c.g) == c.g && Clamp(c.b) == c.b
  {
    HexInGamut(hex);
    ShiftMovesOneWay(ToColour(HexToRgb(hex).value), t);
  }

  predicate AtMost(a: (nat, nat, nat), b: (nat, nat, nat)) { a.0 <= b.0 && a.1 <= b.1 && a.2 <= b.2 }

  /** End to end on strings, rounding included: a shifted colour is a colour, a tint has no lower
      byte, a shade no higher one, the full shifts are white and black, and the zero shift is the
      canonical spelling of the input. */
  lemma ShiftedHex(hex: string, t: real)
    requires HexToRgb(hex).Some? && -1.0 <= t <= 1.0
    ensures HexToRgb(ShiftLightness(hex, t)).Some?
    ensures t >= 0.0 ==> AtMost(HexToRgb(hex).value, HexToRgb(ShiftLightness(hex, t)).value)
    ensures t <= 0.0 ==> AtMost(HexToRgb(ShiftLightness(hex, t)).value, HexToRgb(hex).value)
    ensures t == 1.0 ==> ShiftLightness(hex, t) == "#ffffff"
    ensures t == -1.0 ==> ShiftLightness(hex, t) == "#000000"
    ensures t == 0.0 ==> ShiftLightness(hex, t) == "#" + Lower(Digits(hex).value)
    ensures var c, rgb := Shifted(ToColour(HexToRgb(hex).value), t), HexToRgb(ShiftLightness(hex, t)).value;
      Nearest(rgb.0, c.r) && Nearest(rgb.1, c.g) && Nearest(rgb.2, c.b)
  {
    hide Shifted, HexToRgb, Digits, ByteHex, ByteOf;
    var rgb := HexToRgb(hex).value;
    HexInGamut(hex);
    var c := Shifted(ToColour(rgb), t);
    ShiftMovesOneWay(ToColour(rgb), t);
    var r, g, b := ByteOf(c.r), ByteOf(c.g), ByteOf(c.b);
    ByteNear(r as real, r);
    ByteNear(g as real, g);
    ByteNear(b as real, b);
    ByteNear(c.r, rgb.0);
    ByteNear(c.g, rgb.1);
    ByteNear(c.b, rgb.2);
    HexRoundTrip(r, g, b);
    PrintNearest(c);
    if t == 0.0 {
      assert c == ToColour(rgb);
      CanonicalHex(hex);
    }
    if t == 1.0 || t == -1.0 {
      ExtremeBytes();
    }
  }

  /** A grey goes the given fraction of its way to white or to black, up to rounding. */
  lemma ShiftedGrey(hex: string, t: real, v: nat) returns (n: nat)
    requires -1.0 <= t <= 1.0 && HexToRgb(hex) == Some((v, v, v))
    ensures HexToRgb(ShiftLightness(hex, t)) == Some((n, n, n))
    ensures Nearest(n, GreyMoved(v as real, t))
  {
    hide Shifted, HexToRgb, RgbToHex, ByteOf, GreyMoved, Nearest;
    HexInGamut(hex);
    var c := Shifted(ToColour((v, v, v)), t);
    GreyShift(v as real, t);
    Printed(c);
    ByteNearest(c.r);
    n := ByteOf(c.r);
  }

  /** A string that is no colour stays as it is. */
  lemma NoColourStays(hex: string, t: real)
    requires forall pre, mark, body, post :: !Spells(hex, pre, mark, body, post)
    ensures ShiftLightness(hex, t) == hex
  {
    hide HexToRgb, Spells, Shifted, RgbToHex;
    ReadsExactly(hex);
  }

  lemma ExtremeBytes()
    ensures RgbToHex(Rgb(255.0, 255.0, 255.0)) == "#ffffff"
    ensures RgbToHex(Rgb(0.0, 0.0, 0.0)) == "#000000"
  {
    hide ByteHex, ByteOf;
    assert HexChar(15) == 'f' && HexChar(0) == '0';
    assert 255 / 16 == 15 && 255 % 16 == 15;
    ByteNear(255.0, 255);
    ByteNear(0.0, 0);
  }
}
