/** Exact decimal numbers standing in for the IEEE doubles of the card's
    JavaScript, and a model of `parseFloat` on decimal text. Every quantity
    the card reads is decimal text from a sensor, so an exact decimal holds
    it without rounding; rounding happens only where the card asks for it. */
module Numbers {
  import opened JsText
  import opened Digits

  /** The number `mant / 10^scale`. */
  datatype Dec = Dec(mant: int, scale: nat)

  /** What `parseFloat` returns: not-a-number, or a finite value. */
  datatype Num = NaN | Fin(x: Dec)

  function Den(x: Dec): (d: nat)
    ensures d >= 1
  {
    Pow(10, x.scale)
  }

  function FromInt(k: int): (x: Dec)
    ensures Den(x) == 1 && x.mant == k
  {
    Dec(k, 0)
  }

  /** `x <= y`, decided by cross-multiplication. */
  predicate Le(x: Dec, y: Dec) {
    x.mant * Den(y) <= y.mant * Den(x)
  }

  /** `x <= k` for an integer bound `k`. */
  predicate AtMost(x: Dec, k: int) {
    x.mant <= k * Den(x)
  }

  /** `x < k` for an integer bound `k`. */
  predicate Below(x: Dec, k: int) {
    x.mant < k * Den(x)
  }

  /** `x - y`, exactly, over the common denominator `Den(x) * Den(y)`; the
      difference is non-negative exactly when `y <= x`. */
  function Minus(x: Dec, y: Dec): (r: Dec)
    ensures Den(r) == Den(x) * Den(y)
    ensures r.mant >= 0 <==> Le(y, x)
  {
    PowAdd(10, x.scale, y.scale);
    Dec(x.mant * Den(y) - y.mant * Den(x), x.scale + y.scale)
  }

  /** `x * k` for an integer factor `k` (the card multiplies mmol/L by 18). */
  function Times(x: Dec, k: int): (r: Dec)
    ensures Den(r) == Den(x) && r.mant == x.mant * k
  {
    Dec(x.mant * k, x.scale)
  }

  /** `|x|`. */
  function Magnitude(x: Dec): (r: Dec)
    ensures Den(r) == Den(x) && r.mant >= 0
    ensures r.mant == x.mant || r.mant == -x.mant
  {
    if x.mant < 0 then Dec(-x.mant, x.scale) else x
  }

  /** `n / d` rounded to the nearest integer, halves upwards: what
      `Math.round` does to a non-negative number. */
  function RoundHalfUp(n: nat, d: nat): (r: nat)
    requires d > 0
    ensures 2 * r * d <= 2 * n + d < 2 * r * d + 2 * d
  {
    (2 * n + d) / (2 * d)
  }

  /** `|x|` rounded half-up to `places` decimal places, counted in units
      of `10^-places`: with `t = |x| * 10^places`, the result `r` satisfies
      `r - 1/2 <= t < r + 1/2`, scaled here by `2 * Den(x)`. */
  function RoundMagnitude(x: Dec, places: nat): (r: nat)
    ensures var n := Magnitude(x).mant * Pow(10, places);
            2 * r * Den(x) <= 2 * n + Den(x) < 2 * r * Den(x) + 2 * Den(x)
  {
    RoundHalfUp(Magnitude(x).mant * Pow(10, places), Den(x))
  }

  /* ---- parseFloat ---- */

  /** The text after an optional leading sign. */
  function Unsigned(t: string): string {
    if |t| > 0 && (t[0] == '-' || t[0] == '+') then t[1..] else t
  }

  predicate Negative(t: string) {
    |t| > 0 && t[0] == '-'
  }

  /** Whether `u` begins with an unsigned decimal literal: a digit, or a
      point followed by a digit. */
  predicate StartsNumeric(u: string) {
    || (|u| > 0 && IsDigit(u[0]))
    || (|u| > 1 && u[0] == '.' && IsDigit(u[1]))
  }

  /** The value of an exponent part (`e`, optional sign, digits) at the front
      of `s`, or 0 when `s` does not start with a complete one. */
  function Exponent(s: string): int {
    if |s| > 0 && (s[0] == 'e' || s[0] == 'E') then
      var u := Unsigned(s[1..]);
      var n := DigitRun(u);
      if n == 0 then 0
      else if Negative(s[1..]) then -(DecimalValue(u[..n]) as int)
      else DecimalValue(u[..n])
    else 0
  }

  /** `m * 10^(e - f)`. */
  function Shift(m: int, f: nat, e: int): (r: Dec)
    ensures e == 0 && f == 0 ==> r == Dec(m, 0)
    ensures e == 0 ==> r == Dec(m, f)
    ensures m >= 0 ==> r.mant >= 0
    ensures m <= 0 ==> r.mant <= 0
  {
    if e >= f then
      var p := Pow(10, e - f);
      assert m >= 0 ==> m * p >= 0;
      assert m <= 0 ==> m * p <= 0;
      Dec(m * p, 0)
    else Dec(m, f - e)
  }

  /** The pieces of an unsigned decimal literal at the front of `u`: the
      integer digits, the fraction digits, and the text after them. */
  datatype Literal = Literal(whole: string, frac: string, tail: string)

  function ScanMantissa(u: string): (l: Literal)
    ensures AllDigits(l.whole) && AllDigits(l.frac)
    ensures |l.whole| > 0 || |l.frac| > 0 <==> StartsNumeric(u)
  {
    var i := DigitRun(u);
    var rest := u[i..];
    if |rest| > 0 && rest[0] == '.' then
      var afterDot := rest[1..];
      var k := DigitRun(afterDot);
      Literal(u[..i], afterDot[..k], afterDot[k..])
    else
      Literal(u[..i], "", rest)
  }

  /** `parseFloat(s)`: skip leading white space, read the longest prefix of
      the form `[+-] digits [. digits] [e [+-] digits]`, and ignore the rest. */
  function ParseFloat(s: string): (r: Num)
    ensures r.NaN? <==> !StartsNumeric(Unsigned(TrimStart(s)))
    ensures r.Fin? && Negative(TrimStart(s)) ==> r.x.mant <= 0
    ensures r.Fin? && !Negative(TrimStart(s)) ==> r.x.mant >= 0
  {
    var t := TrimStart(s);
    ReadLiteral(Negative(t), ScanMantissa(Unsigned(t)))
  }

  /** The number a scanned literal denotes, with its sign applied; `NaN`
      when the literal has no digits at all. */
  function ReadLiteral(negative: bool, l: Literal): (r: Num)
    requires AllDigits(l.whole) && AllDigits(l.frac)
    ensures r.NaN? <==> |l.whole| == 0 && |l.frac| == 0
    ensures r.Fin? && negative ==> r.x.mant <= 0
    ensures r.Fin? && !negative ==> r.x.mant >= 0
  {
    if |l.whole| == 0 && |l.frac| == 0 then NaN
    else
      DecimalValueAppend(l.whole, l.frac);
      var m: int := DecimalValue(l.whole + l.frac);
      Fin(Shift(if negative then -m else m, |l.frac|, Exponent(l.tail)))
  }

  /** A plain decimal numeral reads back as its integer value. */
  lemma ParseInteger(w: string)
    requires |w| >= 1 && AllDigits(w)
    ensures ParseFloat(w) == Fin(Dec(DecimalValue(w), 0))
  {
    assert TrimStart(w) == w;
    assert Unsigned(w) == w;
    DigitRunStopsAt(w, |w|);
    assert w[..|w|] == w;
    assert w + "" == w;
  }

  lemma ScanFraction(w: string, f: string)
    requires AllDigits(w) && |f| >= 1 && AllDigits(f)
    ensures ScanMantissa(w + "." + f) == Literal(w, f, "")
  {
    var s := w + "." + f;
    assert s[..|w|] == w;
    assert s[|w|] == '.';
    DigitRunStopsAt(s, |w|);
    assert s[|w|..][1..] == f;
    DigitRunStopsAt(f, |f|);
    assert f[..|f|] == f;
  }

  /** A text starting with a digit has nothing to trim and no sign. */
  lemma PlainStart(s: string)
    requires |s| >= 1 && IsDigit(s[0])
    ensures Unsigned(TrimStart(s)) == s && !Negative(TrimStart(s))
  {
    DigitIsNoSpace(s[0]);
    assert TrimStart(s) == s;
  }

  /** A numeral with a fractional part reads back exactly. */
  lemma ParseFraction(w: string, f: string)
    requires |w| >= 1 && AllDigits(w) && |f| >= 1 && AllDigits(f)
    ensures ParseFloat(w + "." + f) == Fin(Dec(DecimalValue(w) * Pow(10, |f|) + DecimalValue(f), |f|))
  {
    PointedParse(w + "." + f, w, f);
  }

  lemma PointedParse(s: string, w: string, f: string)
    requires s == w + "." + f
    requires |w| >= 1 && AllDigits(w) && |f| >= 1 && AllDigits(f)
    ensures ParseFloat(s) == Fin(Dec(DecimalValue(w) * Pow(10, |f|) + DecimalValue(f), |f|))
  {
    assert s[0] == w[0];
    PlainStart(s);
    ScanFraction(w, f);
    assert ParseFloat(s) == ReadLiteral(false, Literal(w, f, ""));
    FractionValue(w, f);
  }

  /** A literal with a fraction and nothing after it denotes its digits
      over `10^|frac|`. */
  lemma FractionValue(w: string, f: string)
    requires AllDigits(w) && AllDigits(f) && |f| >= 1
    ensures ReadLiteral(false, Literal(w, f, ""))
         == Fin(Dec(DecimalValue(w) * Pow(10, |f|) + DecimalValue(f), |f|))
  {
    DecimalValueAppend(w, f);
    assert Exponent("") == 0;
  }

  /** The digits of `amount / 10^places` for `places` of 0 or 1, with a
      decimal point and no digit grouping. */
  function Numeral(amount: nat, places: nat): (s: string)
    requires places <= 1
  {
    if places == 0 then NatDigits(amount)
    else NatDigits(amount / 10) + "." + [DigitChar(amount % 10)]
  }

  /** Reading a numeral back gives the amount it was written from. */
  lemma WholeReadsBack(amount: nat)
    ensures ParseFloat(Numeral(amount, 0)) == Fin(Dec(amount, 0))
  {
    ParseInteger(NatDigits(amount));
  }

  lemma TenthsReadBack(amount: nat)
    ensures ParseFloat(Numeral(amount, 1)) == Fin(Dec(amount, 1))
  {
    var w := NatDigits(amount / 10);
    var c := DigitChar(amount % 10);
    assert Numeral(amount, 1) == w + "." + [c];
    PointedParse(Numeral(amount, 1), w, [c]);
    TenthsValue(amount, w, c);
  }

  lemma TenthsValue(amount: nat, w: string, c: char)
    requires w == NatDigits(amount / 10) && c == DigitChar(amount % 10)
    ensures AllDigits([c])
    ensures DecimalValue(w) * Pow(10, |[c]|) + DecimalValue([c]) == amount
  {
    DecimalValueSingle(c);
    assert Pow(10, 1) == 10 by { assert Pow(10, 0) == 1; }
    TensAndUnits(amount, DecimalValue(w), Pow(10, |[c]|), DecimalValue([c]));
  }

  lemma TensAndUnits(amount: nat, q: nat, p: nat, d: nat)
    requires q == amount / 10 && p == 10 && d == amount % 10
    ensures q * p + d == amount
  {
  }
}
