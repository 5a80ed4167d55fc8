/** Colour strings and the foreground chosen against them: `_parseColor`
    and `_getContrastColor` (src/sugartv-card.js:407-456). */
module Colors {
  import opened Basics
  import opened JsText
  import opened Digits

  datatype Rgb = Rgb(r: nat, g: nat, b: nat)

  predicate InRange(c: Rgb) {
    c.r <= 255 && c.g <= 255 && c.b <= 255
  }

  /* ---- #rgb and #rrggbb ---- */

  /** `[0-9a-f]` under the `i` flag. */
  predicate IsHexDigit(ch: char) {
    IsDigit(ch) || 'a' <= ch <= 'f' || 'A' <= ch <= 'F'
  }

  function HexDigitValue(ch: char): (d: nat)
    requires IsHexDigit(ch)
    ensures d < 16
  {
    if IsDigit(ch) then DigitValue(ch)
    else if 'a' <= ch <= 'f' then (ch as int - 'a' as int + 10) as nat
    else (ch as int - 'A' as int + 10) as nat
  }

  predicate AllHex(s: string) {
    forall i :: 0 <= i < |s| ==> IsHexDigit(s[i])
  }

  function HexDigits(s: string): (ds: seq<nat>)
    requires AllHex(s)
    ensures |ds| == |s|
    ensures forall i :: 0 <= i < |s| ==> ds[i] == HexDigitValue(s[i]) && ds[i] < 16
  {
    seq(|s|, i requires 0 <= i < |s| => HexDigitValue(s[i]))
  }

  /** `parseInt(s, 16)` for a string of hex digits. */
  function HexValue(s: string): nat
    requires AllHex(s)
  {
    Horner(HexDigits(s), 16)
  }

  /** `hex.split('').map((ch) => ch + ch).join('')`. */
  function Doubled(h: string): (r: string)
    ensures |r| == 2 * |h|
    ensures forall j :: 0 <= j < |r| ==> r[j] == h[j / 2]
  {
    if |h| == 0 then "" else
      var t := Doubled(h[1..]);
      assert forall j :: 2 <= j < 2 * |h| ==> ([h[0], h[0]] + t)[j] == t[j - 2] == h[1..][(j - 2) / 2];
      [h[0], h[0]] + t
  }

  /** The hex branch of `_parseColor` on trimmed text: `#` and three or six
      hex digits, nothing else; three digits are doubled first. The
      channels are `(n >> 16) & 255`, `(n >> 8) & 255` and `n & 255` of the
      24-bit value `n`, which is below 2^31, so the shifts divide. */
  function ParseHex(v: string): Option<Rgb> {
    if |v| >= 1 && v[0] == '#' && (|v| == 4 || |v| == 7) && AllHex(v[1..]) then
      var hex := if |v| == 4 then Doubled(v[1..]) else v[1..];
      assert AllHex(hex);
      var n := HexValue(hex);
      Some(Rgb((n / 65536) % 256, (n / 256) % 256, n % 256))
    else
      None
  }

  /** The lower-case hex digit worth `d`. */
  function HexChar(d: nat): (c: char)
    requires d < 16
    ensures IsHexDigit(c) && HexDigitValue(c) == d
  {
    if d < 10 then DigitChar(d) else ('a' as int + d - 10) as char
  }

  /** A channel as two lower-case hex digits. */
  function HexPair(n: nat): (s: string)
    requires n <= 255
    ensures |s| == 2 && AllHex(s)
  {
    [HexChar(n / 16), HexChar(n % 16)]
  }

  /** `#rrggbb` for a colour. */
  function HexText(c: Rgb): string
    requires InRange(c)
  {
    "#" + HexPair(c.r) + HexPair(c.g) + HexPair(c.b)
  }

  lemma PairValue(s: string)
    requires |s| == 2 && AllHex(s)
    ensures HexValue(s) == 16 * HexDigitValue(s[0]) + HexDigitValue(s[1])
  {
    var ds := HexDigits(s);
    assert ds[..1][..0] == [];
    assert ds[..|ds| - 1] == ds[..1] == [ds[0]];
    assert Horner(ds[..1], 16) == Horner([], 16) * 16 + ds[0];
    assert Horner(ds, 16) == Horner(ds[..1], 16) * 16 + ds[1];
  }

  lemma HexPairValue(n: nat)
    requires n <= 255
    ensures HexValue(HexPair(n)) == n
  {
    PairValue(HexPair(n));
  }

  lemma SixDigits(x: string, y: string, z: string)
    requires |x| == 2 && |y| == 2 && |z| == 2 && AllHex(x) && AllHex(y) && AllHex(z)
    ensures AllHex(x + y + z)
    ensures HexValue(x + y + z) == HexValue(x) * 65536 + HexValue(y) * 256 + HexValue(z)
  {
    assert HexDigits(x + y + z) == HexDigits(x) + HexDigits(y) + HexDigits(z);
    HornerAppend(HexDigits(x) + HexDigits(y), HexDigits(z), 16);
    HornerAppend(HexDigits(x), HexDigits(y), 16);
    assert Pow(16, 2) == 256 by {
      assert Pow(16, 1) == 16 * Pow(16, 0);
    }
    assert |HexDigits(x) + HexDigits(y)| == 4;
  }

  /** The byte extraction undoes the packing of three channels. */
  lemma Unpack(r: nat, g: nat, b: nat)
    requires r <= 255 && g <= 255 && b <= 255
    ensures var n := r * 65536 + g * 256 + b;
      (n / 65536) % 256 == r && (n / 256) % 256 == g && n % 256 == b
  {
    var n := r * 65536 + g * 256 + b;
    var low := g * 256 + b;
    assert 0 <= low < 65536;
    assert n / 65536 == r by {
      assert n == r * 65536 + low;
    }
    assert n / 256 == r * 256 + g by {
      assert n == (r * 256 + g) * 256 + b;
    }
    assert (r * 256 + g) % 256 == g;
    assert n % 256 == b by {
      assert n == (r * 256 + g) * 256 + b;
    }
  }

  /** Text that starts with `#` and ends in no white space has nothing to
      trim and can only match the hex form. */
  lemma HexForm(v: string)
    requires |v| >= 2 && v[0] == '#' && !IsSpace(v[|v| - 1])
    ensures ParseColor(v) == ParseHex(v)
  {
    assert Trim(v) == v;
  }

  /** `#` and hex digits can only match the hex form. */
  lemma HexColor(h: string)
    requires |h| >= 1 && AllHex(h)
    ensures ParseColor("#" + h) == ParseHex("#" + h)
  {
    var v := "#" + h;
    assert v[|v| - 1] == h[|h| - 1] && IsHexDigit(h[|h| - 1]);
    HexForm(v);
  }

  /** Six hex digits read as three pairs. */
  lemma LongHex(h: string)
    requires |h| == 6 && AllHex(h)
    ensures ParseHex("#" + h)
         == Some(Rgb(HexValue(h[0..2]), HexValue(h[2..4]), HexValue(h[4..6])))
  {
    var v := "#" + h;
    assert v[1..] == h;
    assert h == h[0..2] + h[2..4] + h[4..6];
    SixDigits(h[0..2], h[2..4], h[4..6]);
    PairValue(h[0..2]);
    PairValue(h[2..4]);
    PairValue(h[4..6]);
    Unpack(HexValue(h[0..2]), HexValue(h[2..4]), HexValue(h[4..6]));
  }

  lemma DoubledValue(h: string)
    requires |h| == 3 && AllHex(h)
    ensures AllHex(Doubled(h))
    ensures ParseHex("#" + h) == ParseHex("#" + Doubled(h))
         == Some(Rgb(17 * HexDigitValue(h[0]), 17 * HexDigitValue(h[1]), 17 * HexDigitValue(h[2])))
  {
    var v := "#" + h;
    var d := Doubled(h);
    assert v[1..] == h;
    assert AllHex(d);
    assert ("#" + d)[1..] == d;
    LongHex(d);
    assert d[0] == d[1] == h[0] && d[2] == d[3] == h[1] && d[4] == d[5] == h[2];
    PairValue(d[0..2]);
    PairValue(d[2..4]);
    PairValue(d[4..6]);
  }

  /** Three hex digits read as each digit doubled: `#abc` is `#aabbcc`. */
  lemma ShortHex(h: string)
    requires |h| == 3 && AllHex(h)
    ensures ParseColor("#" + h) == ParseColor("#" + Doubled(h))
    ensures ParseColor("#" + h) == Some(Rgb(17 * HexDigitValue(h[0]),
                                            17 * HexDigitValue(h[1]),
                                            17 * HexDigitValue(h[2])))
  {
    var d := Doubled(h);
    DoubledValue(h);
    HexColor(h);
    HexColor(d);
  }

  /** Writing a colour as `#rrggbb` and parsing it gives the colour back. */
  lemma HexRoundTrip(c: Rgb)
    requires InRange(c)
    ensures ParseColor(HexText(c)) == Some(c)
  {
    var h := HexPair(c.r) + HexPair(c.g) + HexPair(c.b);
    assert HexText(c) == "#" + h;
    assert h[0..2] == HexPair(c.r) && h[2..4] == HexPair(c.g) && h[4..6] == HexPair(c.b);
    assert AllHex(h);
    LongHex(h);
    HexPairValue(c.r);
    HexPairValue(c.g);
    HexPairValue(c.b);
    HexColor(h);
  }

  /* ---- rgb() and rgba() ---- */

  /** The position after `\s*` from `i`. */
  function SkipSpaces(s: string, i: nat): (j: nat)
    requires i <= |s|
    ensures i <= j <= |s|
    decreases |s| - i
  {
    if i < |s| && IsSpace(s[i]) then SkipSpaces(s, i + 1) else i
  }

  /** The position after the longest run of digits from `i`. */
  function DigitsEnd(s: string, i: nat): (j: nat)
    requires i <= |s|
    ensures i <= j <= |s|
    ensures j == |s| || !IsDigit(s[j])
    decreases |s| - i
  {
    if i < |s| && IsDigit(s[i]) then DigitsEnd(s, i + 1) else i
  }

  /** `\s*(\d{1,3})\s*` from `i`: the channel, capped at 255 as
      `Math.min(255, parseInt(d, 10))` does, and the position after it. */
  datatype Scan = Scan(value: nat, next: nat)

  function Cap(n: nat): nat {
    if n < 255 then n else 255
  }

  function Channel(s: string, i: nat): (r: Option<Scan>)
    requires i <= |s|
    ensures r.Some? ==> i < r.value.next <= |s| && r.value.value <= 255
  {
    var a := SkipSpaces(s, i);
    var d := DigitScan(s, a, 0);
    if d.next - a < 1 || d.next - a > 3 then None
    else Some(Scan(Cap(d.value), SkipSpaces(s, d.next)))
  }

  /** The digit run from `i` read onto `acc` the way `parseInt` reads
      decimal digits, with the position after the run. */
  function DigitScan(s: string, i: nat, acc: nat): (r: Scan)
    requires i <= |s|
    ensures i <= r.next <= |s|
    ensures r.next == |s| || !IsDigit(s[r.next])
    decreases |s| - i
  {
    if i < |s| && IsDigit(s[i]) then DigitScan(s, i + 1, acc * 10 + DigitValue(s[i])) else Scan(acc, i)
  }

  /** The optional alpha `\d*(?:\.\d+)?` from `i`: the position after it,
      or `None` when a point is not followed by a digit, where the pattern
      can no longer reach its closing parenthesis. */
  function AlphaEnd(s: string, i: nat): (r: Option<nat>)
    requires i <= |s|
    ensures r.Some? ==> i <= r.value <= |s|
  {
    var d := DigitsEnd(s, i);
    if d < |s| && s[d] == '.' then
      var e := DigitsEnd(s, d + 1);
      if e == d + 1 then None else Some(e)
    else Some(d)
  }

  /** `c` is `lower` or its ASCII capital, as the `i` flag compares. */
  predicate Letter(c: char, lower: char) {
    c == lower || c as int == lower as int - 32
  }

  /** The position after `rgb(` or `rgba(`, if `v` starts with one. */
  function OpenParen(v: string): (r: Option<nat>)
    ensures r.Some? ==> 4 <= r.value <= |v|
  {
    if |v| >= 4 && Letter(v[0], 'r') && Letter(v[1], 'g') && Letter(v[2], 'b') then
      var i := if Letter(v[3], 'a') then 4 else 3;
      if i < |v| && v[i] == '(' then Some(i + 1) else None
    else None
  }

  /** A channel and the comma after it: the position past the comma. */
  function Field(v: string, i: nat): (r: Option<Scan>)
    requires i <= |v|
    ensures r.Some? ==> i < r.value.next <= |v| && r.value.value <= 255
  {
    match Channel(v, i)
    case None => None
    case Some(c) => if c.next < |v| && v[c.next] == ',' then Some(Scan(c.value, c.next + 1)) else None
  }

  /** The tail `(?:\s*,\s*alpha)?\s*\)$` from `i`, which is past any
      spaces after the blue channel. */
  predicate Closes(v: string, i: nat)
    requires i <= |v|
  {
    var close :=
      if i < |v| && v[i] == ',' then
        match AlphaEnd(v, SkipSpaces(v, i + 1))
        case None => None
        case Some(e) => Some(SkipSpaces(v, e))
      else Some(i);
    close.Some? && close.value + 1 == |v| && v[close.value] == ')'
  }

  /** The rgb branch of `_parseColor` on trimmed text: the pattern
      `^rgba?\(\s*(\d{1,3})\s*,\s*(\d{1,3})\s*,\s*(\d{1,3})(?:\s*,\s*(\d*(?:\.\d+)?))?\s*\)$`
      read left to right; the alpha is checked and ignored. */
  function ParseRgb(v: string): (r: Option<Rgb>)
    ensures r.Some? ==> InRange(r.value)
  {
    match OpenParen(v)
    case None => None
    case Some(i) =>
      match Field(v, i)
      case None => None
      case Some(red) =>
        match Field(v, red.next)
        case None => None
        case Some(green) =>
          match Channel(v, green.next)
          case None => None
          case Some(blue) =>
            if Closes(v, blue.next) then Some(Rgb(red.value, green.value, blue.value)) else None
  }

  /** Scanning on from `i`, with the digits `s[i0..i]` already read into
      the accumulator, reads the whole run `s[i0..j]`. */
  lemma {:induction false} DigitScanReads(s: string, i0: nat, i: nat, j: nat)
    requires i0 <= i <= j <= |s| && AllDigits(s[i0..j])
    requires j == |s| || !IsDigit(s[j])
    ensures AllDigits(s[i0..i])
    ensures DigitScan(s, i, DecimalValue(s[i0..i])) == Scan(DecimalValue(s[i0..j]), j)
    decreases j - i
  {
    assert AllDigits(s[i0..i]) by {
      forall k | 0 <= k < i - i0 ensures IsDigit(s[i0..i][k]) {
        assert s[i0..i][k] == s[i0..j][k];
      }
    }
    if i < j {
      assert IsDigit(s[i]) by {
        assert s[i] == s[i0..j][i - i0];
      }
      assert s[i0..i + 1] == s[i0..i] + [s[i]];
      DigitAppend(s[i0..i], s[i]);
      DigitScanReads(s, i0, i + 1, j);
    }
  }

  /** Text that starts with `r` and ends in `)` has nothing to trim and
      can only match the rgb form. */
  lemma RgbForm(t: string)
    requires |t| >= 2 && t[0] == 'r' && t[|t| - 1] == ')'
    ensures ParseColor(t) == ParseRgb(t)
  {
    assert Trim(t) == t by {
    }
    assert ParseHex(t) == None by {
    }
  }

  /** A channel followed by a comma is a field. */
  lemma FieldAt(t: string, i: nat, a: nat, g: nat)
    requires i <= |t| && Channel(t, i) == Some(Scan(a, g))
    requires g < |t| && t[g] == ','
    ensures Field(t, i) == Some(Scan(a, g + 1))
  {
  }

  /** A final `)` closes the pattern without an alpha. */
  lemma ClosesAt(t: string, g: nat)
    requires g + 1 == |t| && t[g] == ')'
    ensures Closes(t, g)
  {
  }

  /** `_parseColor`: trim, then the hex form, then the rgb form. */
  function ParseColor(color: string): (r: Option<Rgb>)
    ensures r.Some? ==> InRange(r.value)
  {
    var v := Trim(color);
    match ParseHex(v)
    case Some(c) => Some(c)
    case None => ParseRgb(v)
  }

  /* ---- contrast ---- */

  const Black := "#000000"
  const White := "#ffffff"

  /** The card's luminance `(0.299 r + 0.587 g + 0.114 b) / 255`, scaled by
      255 000 to an integer. */
  function Luminance(c: Rgb): nat {
    299 * c.r + 587 * c.g + 114 * c.b
  }

  /** `luminance > 0.6`, i.e. `Luminance(c) > 0.6 * 255 000`. */
  predicate Light(c: Rgb) {
    Luminance(c) > 153000
  }

  /** `_getContrastColor`: black text on light colours, white otherwise and
      on anything that does not parse. */
  function ContrastColor(color: string): (r: string)
    ensures r == Black || r == White
    ensures r == Black <==> ParseColor(color).Some? && Light(ParseColor(color).value)
  {
    match ParseColor(color)
    case None => White
    case Some(c) => if Light(c) then Black else White
  }

  /** Lightening a colour in every channel never turns black text white. */
  lemma ContrastMonotone(c: Rgb, d: Rgb)
    requires c.r <= d.r && c.g <= d.g && c.b <= d.b
    ensures Light(c) ==> Light(d)
  {
  }
}
