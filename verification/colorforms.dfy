/** Which texts `_parseColor` accepts (src/sugartv-card.js:419-456): the
    two hex lengths, white space around the colour and inside `rgb()`, the
    optional alpha of `rgba()`, and channel runs of the wrong length. */
module ColorForms {
  import opened Basics
  import opened JsText
  import opened Digits
  import opened Colors

  /* ---- hex ---- */

  /** `#` and a run of hex digits is a colour exactly when the run has three
      or six digits: `#abcd` and `#abcde` are rejected. */
  lemma HexLengths(h: string)
    requires |h| >= 1 && AllHex(h)
    ensures ParseColor("#" + h).Some? <==> |h| == 3 || |h| == 6
  {
    var v := "#" + h;
    assert v[1..] == h;
    HexColor(h);
  }

  /** White space around a colour is ignored. */
  lemma PaddedColor(sp: string, t: string, sq: string)
    requires AllSpaces(sp) && AllSpaces(sq)
    requires |t| >= 1 && !IsSpace(t[0]) && !IsSpace(t[|t| - 1])
    ensures ParseColor(sp + t + sq) == ParseColor(t)
  {
    TrimPadded(sp, t, sq);
  }

  /* ---- rgb() and rgba() ---- */

  /** A channel as written: white space, a digit run, white space. */
  datatype Padded = Padded(before: string, digits: string, after: string)

  function Pad(c: Padded): string {
    c.before + c.digits + c.after
  }

  /** What `\s*(\d{1,3})\s*` matches. */
  predicate GoodChannel(c: Padded) {
    AllSpaces(c.before) && AllSpaces(c.after) && 1 <= |c.digits| <= 3 && AllDigits(c.digits)
  }

  /** The optional fourth field `\s*,\s*(\d*(?:\.\d+)?)`: white space, a
      digit run, a point and a fraction when `frac` is not empty, white
      space. */
  datatype Alpha = NoAlpha | Alpha(before: string, whole: string, frac: string, after: string)

  function AlphaText(whole: string, frac: string): string {
    if frac == "" then whole else whole + "." + frac
  }

  function TailText(a: Alpha): string {
    match a
    case NoAlpha => ""
    case Alpha(before, whole, frac, after) => "," + before + AlphaText(whole, frac) + after
  }

  /** The text after the third channel: the optional alpha and `)`. */
  function Tail(a: Alpha): string {
    TailText(a) + ")"
  }

  predicate GoodAlpha(a: Alpha) {
    a.Alpha? ==> AllSpaces(a.before) && AllSpaces(a.after) && AllDigits(a.whole) && AllDigits(a.frac)
  }

  /** A padded channel and its comma ahead of `rest`. */
  function FieldText(c: Padded, rest: string): string {
    Pad(c) + "," + rest
  }

  /** `rgb(` or `rgba(`, three channels separated by commas, the optional
      alpha and `)`. */
  function RgbaText(open: string, x: Padded, y: Padded, z: Padded, a: Alpha): string {
    open + Fields(x, y, z, a)
  }

  /** `\s*` from `i` stops after the white space run `w`. */
  lemma {:induction false} SkipRun(s: string, i: nat, w: string)
    requires i + |w| <= |s| && s[i..i + |w|] == w && AllSpaces(w)
    requires i + |w| == |s| || !IsSpace(s[i + |w|])
    ensures SkipSpaces(s, i) == i + |w|
    decreases |w|
  {
    if |w| > 0 {
      assert s[i] == w[0];
      assert s[i + 1..i + |w|] == w[1..];
      SkipRun(s, i + 1, w[1..]);
    }
  }

  /** The digit run from `i` ends where the digits `s[i..j]` stop. */
  lemma {:induction false} DigitsEndAt(s: string, i: nat, j: nat)
    requires i <= j <= |s| && AllDigits(s[i..j])
    requires j == |s| || !IsDigit(s[j])
    ensures DigitsEnd(s, i) == j
    decreases j - i
  {
    if i < j {
      assert s[i] == s[i..j][0];
      assert s[i + 1..j] == s[i..j][1..];
      DigitsEndAt(s, i + 1, j);
    }
  }

  /** `\s*(\d{1,3})\s*` read over white space `s[i..a]`, digits `s[a..e]`
      and white space `s[e..f]`, stopping at a character that is neither. */
  lemma ChannelRun(s: string, i: nat, a: nat, e: nat, f: nat)
    requires i <= a < e <= f < |s| && e - a <= 3
    requires AllSpaces(s[i..a]) && AllDigits(s[a..e]) && AllSpaces(s[e..f])
    requires !IsDigit(s[f]) && !IsSpace(s[f])
    ensures Channel(s, i) == Some(Scan(Cap(DecimalValue(s[a..e])), f))
  {
    assert s[a] == s[a..e][0];
    SkipRun(s, i, s[i..a]);
    assert !IsDigit(s[e]) by {
      if e < f {
        assert s[e] == s[e..f][0];
      }
    }
    assert DecimalValue(s[a..a]) == 0 by {
      assert DecimalDigits(s[a..a]) == [];
    }
    DigitScanReads(s, a, a, e);
    SkipRun(s, e, s[e..f]);
  }

  /** The four pieces of `p + m + q + r`, read back by position. */
  lemma Pieces(u: string, p: string, m: string, q: string, r: string)
    requires u == p + m + q + r
    ensures u[0..|p|] == p && u[|p|..|p| + |m|] == m && u[|p| + |m|..|p| + |m| + |q|] == q
    ensures |r| >= 1 ==> u[|p| + |m| + |q|] == r[0]
  {
    assert u[0..|p|] == p;
    assert u[|p|..|p| + |m|] == m;
    assert u[|p| + |m|..|p| + |m| + |q|] == q;
  }

  /** An alpha without a point: digits `s[b..d]` and a stop that is
      neither a digit nor a point. */
  lemma AlphaWholeRun(s: string, b: nat, d: nat)
    requires b <= d < |s| && AllDigits(s[b..d]) && !IsDigit(s[d]) && s[d] != '.'
    ensures AlphaEnd(s, b) == Some(d)
  {
    DigitsEndAt(s, b, d);
  }

  /** An alpha with a point: digits `s[b..d]`, the point, at least one
      digit in `s[d + 1..e]`, and a stop that is not a digit. */
  lemma AlphaFracRun(s: string, b: nat, d: nat, e: nat)
    requires b <= d && d + 1 < e < |s| && AllDigits(s[b..d]) && s[d] == '.'
    requires AllDigits(s[d + 1..e]) && !IsDigit(s[e])
    ensures AlphaEnd(s, b) == Some(e)
  {
    DigitsEndAt(s, b, d);
    DigitsEndAt(s, d + 1, e);
  }

  /** An alpha laid out as its pieces from `b` to `e`. */
  lemma AlphaIn(s: string, b: nat, e: nat, whole: string, frac: string)
    requires AllDigits(whole) && AllDigits(frac)
    requires b <= e < |s| && !IsDigit(s[e]) && s[e] != '.'
    requires frac == "" ==> s[b..e] == whole
    requires frac != "" ==> b + |whole| + 1 < e && s[b..b + |whole|] == whole
                            && s[b + |whole|] == '.' && s[b + |whole| + 1..e] == frac
    ensures AlphaEnd(s, b) == Some(e)
  {
    if frac == "" {
      AlphaWholeRun(s, b, e);
    } else {
      AlphaFracRun(s, b, b + |whole|, e);
    }
  }

  /** White space filling `s[i..j]` and stopping at `j` is skipped to `j`. */
  lemma SpacesTo(s: string, i: nat, j: nat)
    requires i <= j <= |s| && AllSpaces(s[i..j])
    requires j == |s| || !IsSpace(s[j])
    ensures SkipSpaces(s, i) == j
  {
    SkipRun(s, i, s[i..j]);
  }

  /** The tail closes once its white space runs and alpha are located. */
  lemma ClosesFrom(s: string, g: nat, b: nat, e: nat, f: nat)
    requires g < |s| && s[g] == ','
    requires g + 1 <= |s| && SkipSpaces(s, g + 1) == b
    requires b <= |s| && AlphaEnd(s, b) == Some(e)
    requires e <= |s| && SkipSpaces(s, e) == f
    requires f + 1 == |s| && s[f] == ')'
    ensures Closes(s, g)
  {
  }

  /** The tail `,` white space, an alpha ending at `e`, white space and
      `)` closes the pattern. */
  lemma ClosesRun(s: string, g: nat, b: nat, e: nat, f: nat)
    requires g < b <= e <= f && f + 1 == |s| && s[g] == ',' && s[f] == ')'
    requires AllSpaces(s[g + 1..b]) && !IsSpace(s[b])
    requires AlphaEnd(s, b) == Some(e)
    requires AllSpaces(s[e..f])
    ensures Closes(s, g)
  {
    SpacesTo(s, g + 1, b);
    SpacesTo(s, e, f);
    ClosesFrom(s, g, b, e, f);
  }

  /** The rgb pattern, opened at `o`, matches once its pieces do: the
      red field ends at `p`, the green field at `q`, the blue channel at
      `g`, where the tail closes. */
  lemma RgbaAssemble(t: string, o: nat, a: nat, b: nat, c: nat, p: nat, q: nat, g: nat)
    requires OpenParen(t) == Some(o)
    requires o <= |t| && Field(t, o) == Some(Scan(a, p))
    requires p <= |t| && Field(t, p) == Some(Scan(b, q))
    requires q <= |t| && Channel(t, q) == Some(Scan(c, g))
    requires g <= |t| && Closes(t, g)
    ensures ParseRgb(t) == Some(Rgb(a, b, c))
  {
  }

  /** Where `rgb(` and `rgba(` end. */
  lemma OpenAt(open: string, rest: string)
    requires open == "rgb(" || open == "rgba("
    ensures OpenParen(open + rest) == Some(|open|)
  {
    var t := open + rest;
    assert t[0] == 'r' && t[1] == 'g' && t[2] == 'b';
    if open == "rgb(" {
      assert t[3] == '(';
    } else {
      assert t[3] == 'a' && t[4] == '(';
    }
  }

  /** Where the pieces of an alpha tail `t[g..]` sit. */
  lemma TailPieces(t: string, g: nat, a: Alpha, b: nat, e: nat, f: nat)
    requires a.Alpha? && g <= |t| && t[g..] == Tail(a)
    requires b == g + 1 + |a.before| && e == b + |AlphaText(a.whole, a.frac)| && f == e + |a.after|
    ensures f + 1 == |t| && t[g] == ',' && t[f] == ')'
    ensures t[g + 1..b] == a.before && t[b..e] == AlphaText(a.whole, a.frac) && t[e..f] == a.after
  {
    var al := AlphaText(a.whole, a.frac);
    Pieces(t[g..], "," + a.before, al, a.after, ")");
    DropSlice(t, g, 0, 1 + |a.before|, g, b);
    assert t[g + 1..b] == t[g..b][1..];
    DropSlice(t, g, 1 + |a.before|, 1 + |a.before| + |al|, b, e);
    DropSlice(t, g, 1 + |a.before| + |al|, 1 + |a.before| + |al| + |a.after|, e, f);
    assert t[f] == t[g..][1 + |a.before| + |al| + |a.after|];
  }

  /** Two white space runs side by side form one. */
  lemma SpacesJoin(t: string, i: nat, j: nat, k: nat)
    requires i <= j <= k <= |t| && AllSpaces(t[i..j]) && AllSpaces(t[j..k])
    ensures AllSpaces(t[i..k])
  {
    forall n | 0 <= n < k - i
      ensures IsSpace(t[i..k][n])
    {
      if n < j - i {
        assert t[i..k][n] == t[i..j][n];
      } else {
        assert t[i..k][n] == t[j..k][n - (j - i)];
      }
    }
  }

  /** An empty alpha: `,` and white space up to the final `)`. */
  lemma ClosesEmpty(t: string, g: nat, b: nat, f: nat)
    requires g < b <= f && f + 1 == |t| && t[g] == ',' && t[f] == ')'
    requires AllSpaces(t[g + 1..b]) && AllSpaces(t[b..f])
    ensures Closes(t, g)
  {
    SpacesJoin(t, g + 1, b, f);
    assert DigitsEnd(t, f) == f;
    ClosesRun(t, g, f, f, f);
  }

  /** The slice `t[b..e]` holding an alpha, split into its pieces. */
  lemma AlphaSplit(t: string, b: nat, e: nat, whole: string, frac: string)
    requires b <= e <= |t| && t[b..e] == AlphaText(whole, frac)
    ensures frac == "" ==> t[b..e] == whole
    ensures frac != "" ==> b + |whole| + 1 < e && t[b..b + |whole|] == whole
                           && t[b + |whole|] == '.' && t[b + |whole| + 1..e] == frac
  {
    if frac != "" {
      var d := b + |whole|;
      assert t[b..d] == t[b..e][..|whole|];
      assert t[d] == t[b..e][|whole|];
      assert t[d + 1..e] == t[b..e][|whole| + 1..];
    }
  }

  /** The first character of a non-empty alpha is a digit or the point. */
  lemma AlphaStart(whole: string, frac: string)
    requires AllDigits(whole) && |AlphaText(whole, frac)| >= 1
    ensures IsDigit(AlphaText(whole, frac)[0]) || AlphaText(whole, frac)[0] == '.'
  {
  }

  /** An alpha in `t[b..e]` followed by white space or `)` ends at `e`. */
  lemma AlphaSliceEnd(t: string, b: nat, e: nat, whole: string, frac: string)
    requires AllDigits(whole) && AllDigits(frac)
    requires b <= e < |t| && t[b..e] == AlphaText(whole, frac)
    requires !IsDigit(t[e]) && t[e] != '.'
    ensures AlphaEnd(t, b) == Some(e)
  {
    AlphaSplit(t, b, e, whole, frac);
    AlphaIn(t, b, e, whole, frac);
  }

  /** A white space character or `)` stops the alpha. */
  lemma StopsAlpha(t: string, e: nat, f: nat)
    requires e <= f < |t| && AllSpaces(t[e..f]) && t[f] == ')'
    ensures !IsDigit(t[e]) && t[e] != '.'
  {
    if e < f {
      assert IsSpace(t[e..f][0]);
      assert t[e] == t[e..f][0];
    }
  }

  /** A non-empty alpha between white space runs and the final `)`. */
  lemma ClosesAlpha(t: string, g: nat, b: nat, e: nat, f: nat, whole: string, frac: string)
    requires g < b < e <= f && f + 1 == |t| && t[g] == ',' && t[f] == ')'
    requires AllSpaces(t[g + 1..b]) && AllSpaces(t[e..f])
    requires AllDigits(whole) && AllDigits(frac) && t[b..e] == AlphaText(whole, frac)
    ensures Closes(t, g)
  {
    AlphaStart(whole, frac);
    assert t[b] == t[b..e][0];
    StopsAlpha(t, e, f);
    AlphaSliceEnd(t, b, e, whole, frac);
    ClosesRun(t, g, b, e, f);
  }

  /** The optional alpha and `)` in `t[g..]` close the pattern at `g`. */
  lemma ClosesSlice(t: string, g: nat, a: Alpha)
    requires g <= |t| && t[g..] == Tail(a) && GoodAlpha(a)
    ensures Closes(t, g)
  {
    if a.NoAlpha? {
      assert t[g] == t[g..][0];
      ClosesAt(t, g);
    } else {
      var b := g + 1 + |a.before|;
      var e := b + |AlphaText(a.whole, a.frac)|;
      var f := e + |a.after|;
      TailPieces(t, g, a, b, e, f);
      if e == b {
        ClosesEmpty(t, g, b, f);
      } else {
        ClosesAlpha(t, g, b, e, f, a.whole, a.frac);
      }
    }
  }

  /** Past a padded channel at the front of `t[i..]` the rest follows. */
  lemma SkipPad(t: string, i: nat, j: nat, c: Padded, r: string)
    requires i <= |t| && t[i..] == Pad(c) + r && j == i + |Pad(c)|
    ensures j <= |t| && t[j..] == r
  {
    assert t[j..] == t[i..][|Pad(c)|..];
  }

  /** Past a field at the front of `t[i..]` the rest follows. */
  lemma SkipField(t: string, i: nat, j: nat, c: Padded, r: string)
    requires i <= |t| && t[i..] == FieldText(c, r) && j == i + |Pad(c)|
    ensures j < |t| && t[j + 1..] == r
  {
    assert t[j + 1..] == t[i..][|Pad(c)| + 1..];
  }

  /** A slice of a suffix is a slice of the whole text. */
  lemma DropSlice(t: string, i: nat, k: nat, l: nat, a: nat, b: nat)
    requires i <= |t| && k <= l <= |t| - i && a == i + k && b == i + l
    ensures t[i..][k..l] == t[a..b]
  {
  }

  /** The first character after the third channel is `,` or `)`. */
  lemma TailStart(a: Alpha)
    ensures |Tail(a)| >= 1 && (Tail(a)[0] == ',' || Tail(a)[0] == ')')
  {
  }

  /** A padded channel at the front of `t[i..]` that ends at `j`, followed
      by `,` or `)`, scans as one capped channel. */
  lemma ChannelSuffix(t: string, i: nat, j: nat, c: Padded, r: string)
    requires i <= |t| && t[i..] == Pad(c) + r && GoodChannel(c)
    requires j == i + |Pad(c)| && |r| >= 1 && (r[0] == ',' || r[0] == ')')
    ensures Channel(t, i) == Some(Scan(Cap(DecimalValue(c.digits)), j))
  {
    var a := i + |c.before|;
    var e := a + |c.digits|;
    Pieces(t[i..], c.before, c.digits, c.after, r);
    DropSlice(t, i, 0, |c.before|, i, a);
    DropSlice(t, i, |c.before|, |c.before| + |c.digits|, a, e);
    DropSlice(t, i, |c.before| + |c.digits|, |c.before| + |c.digits| + |c.after|, e, j);
    assert t[j] == t[i..][|c.before| + |c.digits| + |c.after|];
    ChannelRun(t, i, a, e, j);
  }

  /** A padded channel ending at `j` and its comma at the front of `t[i..]`
      form one field. */
  lemma FieldSuffix(t: string, i: nat, j: nat, c: Padded, r: string)
    requires i <= |t| && t[i..] == FieldText(c, r) && GoodChannel(c)
    requires j == i + |Pad(c)|
    ensures j < |t| && Field(t, i) == Some(Scan(Cap(DecimalValue(c.digits)), j + 1))
  {
    assert FieldText(c, r) == Pad(c) + ("," + r);
    ChannelSuffix(t, i, j, c, "," + r);
    FieldAt(t, i, Cap(DecimalValue(c.digits)), j);
  }

  /** Everything after `rgb(` or `rgba(` in `RgbaText`. */
  function Fields(x: Padded, y: Padded, z: Padded, a: Alpha): string {
    FieldText(x, FieldText(y, Pad(z) + Tail(a)))
  }

  /** The first field of the channels laid out from `o`. */
  lemma RedAt(t: string, o: nat, gx: nat, p: nat, x: Padded, y: Padded, z: Padded, a: Alpha)
    requires o <= |t| && t[o..] == Fields(x, y, z, a) && GoodChannel(x)
    requires gx == o + |Pad(x)| && p == gx + 1
    ensures p <= |t| && Field(t, o) == Some(Scan(Cap(DecimalValue(x.digits)), p))
  {
    FieldSuffix(t, o, gx, x, FieldText(y, Pad(z) + Tail(a)));
  }

  /** The second field of the channels laid out from `o`. */
  lemma GreenAt(t: string, o: nat, gx: nat, p: nat, gy: nat, q: nat, x: Padded, y: Padded, z: Padded, a: Alpha)
    requires o <= |t| && t[o..] == Fields(x, y, z, a) && GoodChannel(y)
    requires gx == o + |Pad(x)| && p == gx + 1 && gy == p + |Pad(y)| && q == gy + 1
    ensures q <= |t| && Field(t, p) == Some(Scan(Cap(DecimalValue(y.digits)), q))
  {
    SkipField(t, o, gx, x, FieldText(y, Pad(z) + Tail(a)));
    FieldSuffix(t, gx + 1, gy, y, Pad(z) + Tail(a));
  }

  /** The third channel at the front of `t[i..]`. */
  lemma BlueChannel(t: string, i: nat, j: nat, z: Padded, a: Alpha)
    requires i <= |t| && t[i..] == Pad(z) + Tail(a) && GoodChannel(z) && j == i + |Pad(z)|
    ensures Channel(t, i) == Some(Scan(Cap(DecimalValue(z.digits)), j))
  {
    TailStart(a);
    ChannelSuffix(t, i, j, z, Tail(a));
  }

  /** The third channel after the second field, which starts at `i`. */
  lemma BlueFromGreen(t: string, i: nat, gy: nat, q: nat, gz: nat, y: Padded, z: Padded, a: Alpha)
    requires i <= |t| && t[i..] == FieldText(y, Pad(z) + Tail(a)) && GoodChannel(z)
    requires gy == i + |Pad(y)| && q == gy + 1 && gz == q + |Pad(z)|
    ensures q <= |t| && Channel(t, q) == Some(Scan(Cap(DecimalValue(z.digits)), gz))
  {
    SkipField(t, i, gy, y, Pad(z) + Tail(a));
    BlueChannel(t, q, gz, z, a);
  }

  /** The third channel of the channels laid out from `o`. */
  lemma BlueAt(t: string, o: nat, gx: nat, gy: nat, q: nat, gz: nat, x: Padded, y: Padded, z: Padded, a: Alpha)
    requires o <= |t| && t[o..] == Fields(x, y, z, a) && GoodChannel(z)
    requires gx == o + |Pad(x)| && gy == gx + 1 + |Pad(y)| && q == gy + 1 && gz == q + |Pad(z)|
    ensures q <= |t| && Channel(t, q) == Some(Scan(Cap(DecimalValue(z.digits)), gz))
  {
    SkipField(t, o, gx, x, FieldText(y, Pad(z) + Tail(a)));
    BlueFromGreen(t, gx + 1, gy, q, gz, y, z, a);
  }

  /** The close after the third channel, which starts at `i`. */
  lemma CloseFromBlue(t: string, i: nat, gz: nat, z: Padded, a: Alpha)
    requires i <= |t| && t[i..] == Pad(z) + Tail(a) && GoodAlpha(a) && gz == i + |Pad(z)|
    ensures gz <= |t| && Closes(t, gz)
  {
    SkipPad(t, i, gz, z, Tail(a));
    ClosesSlice(t, gz, a);
  }

  /** The close after the second field, which starts at `i`. */
  lemma CloseFromGreen(t: string, i: nat, gy: nat, gz: nat, y: Padded, z: Padded, a: Alpha)
    requires i <= |t| && t[i..] == FieldText(y, Pad(z) + Tail(a)) && GoodAlpha(a)
    requires gy == i + |Pad(y)| && gz == gy + 1 + |Pad(z)|
    ensures gz <= |t| && Closes(t, gz)
  {
    SkipField(t, i, gy, y, Pad(z) + Tail(a));
    CloseFromBlue(t, gy + 1, gz, z, a);
  }

  /** The close after the channels laid out from `o`. */
  lemma CloseAt(t: string, o: nat, gx: nat, gy: nat, gz: nat, x: Padded, y: Padded, z: Padded, a: Alpha)
    requires o <= |t| && t[o..] == Fields(x, y, z, a) && GoodAlpha(a)
    requires gx == o + |Pad(x)| && gy == gx + 1 + |Pad(y)| && gz == gy + 1 + |Pad(z)|
    ensures gz <= |t| && Closes(t, gz)
  {
    SkipField(t, o, gx, x, FieldText(y, Pad(z) + Tail(a)));
    CloseFromGreen(t, gx + 1, gy, gz, y, z, a);
  }

  lemma RgbaChannels(open: string, x: Padded, y: Padded, z: Padded, a: Alpha)
    requires open == "rgb(" || open == "rgba("
    requires GoodChannel(x) && GoodChannel(y) && GoodChannel(z) && GoodAlpha(a)
    ensures ParseRgb(RgbaText(open, x, y, z, a))
         == Some(Rgb(Cap(DecimalValue(x.digits)), Cap(DecimalValue(y.digits)), Cap(DecimalValue(z.digits))))
  {
    var t := RgbaText(open, x, y, z, a);
    var o := |open|;
    var gx := o + |Pad(x)|;
    var gy := gx + 1 + |Pad(y)|;
    var gz := gy + 1 + |Pad(z)|;
    OpenAt(open, Fields(x, y, z, a));
    assert t[o..] == Fields(x, y, z, a);
    var p := gx + 1;
    var q := gy + 1;
    RedAt(t, o, gx, p, x, y, z, a);
    GreenAt(t, o, gx, p, gy, q, x, y, z, a);
    BlueAt(t, o, gx, gy, q, gz, x, y, z, a);
    CloseAt(t, o, gx, gy, gz, x, y, z, a);
    RgbaAssemble(t, o, Cap(DecimalValue(x.digits)), Cap(DecimalValue(y.digits)),
                 Cap(DecimalValue(z.digits)), p, q, gz);
  }

  /** `rgb()` and `rgba()` with white space inside and an optional alpha
      read their three channels, each capped at 255; the alpha is checked
      and ignored. */
  lemma RgbaReadsBack(open: string, x: Padded, y: Padded, z: Padded, a: Alpha)
    requires open == "rgb(" || open == "rgba("
    requires GoodChannel(x) && GoodChannel(y) && GoodChannel(z) && GoodAlpha(a)
    ensures ParseColor(RgbaText(open, x, y, z, a))
         == Some(Rgb(Cap(DecimalValue(x.digits)), Cap(DecimalValue(y.digits)), Cap(DecimalValue(z.digits))))
  {
    var t := RgbaText(open, x, y, z, a);
    assert t[0] == 'r' && t[|t| - 1] == ')';
    RgbForm(t);
    RgbaChannels(open, x, y, z, a);
  }

  /** `rgb(x,y,z)` with plain digit runs. */
  function RgbText(x: string, y: string, z: string): string {
    "rgb(" + x + "," + y + "," + z + ")"
  }

  /** Channels written as one to three digits read back, capped at 255:
      the bare form of `RgbaReadsBack`, with no white space and no alpha. */
  lemma RgbReadsBack(x: string, y: string, z: string)
    requires 1 <= |x| <= 3 && 1 <= |y| <= 3 && 1 <= |z| <= 3
    requires AllDigits(x) && AllDigits(y) && AllDigits(z)
    ensures ParseColor(RgbText(x, y, z))
         == Some(Rgb(Cap(DecimalValue(x)), Cap(DecimalValue(y)), Cap(DecimalValue(z))))
  {
    var px, py, pz := Padded("", x, ""), Padded("", y, ""), Padded("", z, "");
    assert RgbaText("rgb(", px, py, pz, NoAlpha) == RgbText(x, y, z);
    RgbaReadsBack("rgb(", px, py, pz, NoAlpha);
  }

  /* ---- rejection ---- */

  /** A channel whose digit run, after its leading white space, is empty
      or longer than three digits is refused. */
  lemma ChannelRefused(s: string, i: nat, a: nat, j: nat)
    requires i <= a <= j <= |s| && AllSpaces(s[i..a]) && (a == |s| || !IsSpace(s[a]))
    requires AllDigits(s[a..j]) && (j == |s| || !IsDigit(s[j]))
    requires j - a < 1 || j - a > 3
    ensures Channel(s, i) == None
  {
    SkipRun(s, i, s[i..a]);
    assert s[a..a] == "";
    DigitScanReads(s, a, a, j);
  }

  /** The rgb pattern fails once its red channel does. */
  lemma RedRefused(t: string, o: nat)
    requires OpenParen(t) == Some(o)
    requires o <= |t| && Channel(t, o) == None
    ensures ParseRgb(t) == None
  {
  }

  /** The character after the white space of the red channel is no white
      space: the first digit, or what follows an empty digit run. */
  lemma RedStart(t: string, a: nat, d: string, r: string)
    requires |r| >= 1 && a + |d| < |t| && t[a..a + |d|] == d && t[a + |d|] == r[0]
    requires AllDigits(d) && (|d| > 0 || !IsSpace(r[0]))
    ensures !IsSpace(t[a])
  {
    if |d| > 0 {
      assert t[a] == d[0];
    }
  }

  /** The red channel of `open + sp + d + r` is refused. */
  lemma RedRefusedIn(t: string, open: string, sp: string, d: string, r: string)
    requires t == open + sp + d + r
    requires AllSpaces(sp) && AllDigits(d) && (|d| == 0 || |d| > 3)
    requires |r| >= 1 && !IsDigit(r[0]) && (|d| > 0 || !IsSpace(r[0]))
    ensures |open| <= |t| && Channel(t, |open|) == None
  {
    var a := |open| + |sp|;
    Pieces(t, open, sp, d, r);
    RedStart(t, a, d, r);
    ChannelRefused(t, |open|, a, a + |d|);
  }

  /** After `rgb(` or `rgba(` and white space, a red channel with no
      digits or with more than three is refused, whatever comes after it
      up to the final `)`. */
  lemma RgbaRejectsRed(open: string, sp: string, d: string, r: string)
    requires open == "rgb(" || open == "rgba("
    requires AllSpaces(sp) && AllDigits(d) && (|d| == 0 || |d| > 3)
    requires |r| >= 1 && !IsDigit(r[0]) && (|d| > 0 || !IsSpace(r[0])) && r[|r| - 1] == ')'
    ensures ParseColor(open + sp + d + r) == None
  {
    var t := open + sp + d + r;
    assert t == open + (sp + d + r);
    OpenAt(open, sp + d + r);
    RedRefusedIn(t, open, sp, d, r);
    RedRefused(t, |open|);
    assert t[0] == 'r' && t[|t| - 1] == ')';
    RgbForm(t);
  }
}
