/** The range colour behind the reading (`_getBackgroundColor`,
    src/sugartv-card.js:353-392). Thresholds are in mg/dL; an mmol/L
    reading is multiplied by 18 first. */
module Background {
  import opened Basics
  import opened Numbers
  import opened Values
  import opened History
  import opened Settings

  datatype Band = Low | Mid | High

  function Rank(b: Band): nat {
    match b
    case Low => 0
    case Mid => 1
    case High => 2
  }

  /** The reading in mg/dL. */
  function ToMgdl(x: Dec, unit: Option<string>): (r: Dec)
    ensures unit == Some(MmolL) ==> Den(r) == Den(x) && r.mant == 18 * x.mant
    ensures unit != Some(MmolL) ==> r == x
  {
    if unit == Some(MmolL) then Times(x, 18) else x
  }

  /** The three effective bands, as a reference: at most 69, at most 149,
      above. */
  function BandOf(x: Dec): (b: Band)
    ensures b == Low <==> AtMost(x, 69)
    ensures b == High <==> !AtMost(x, 149)
  {
    if AtMost(x, 69) then Low else if AtMost(x, 149) then Mid else High
  }

  /** The configured colour of a band, if that band has one. */
  function TierColor(c: Config, b: Band): (r: Option<string>)
    ensures r.Some? ==> r == match b case Low => c.colorLow case Mid => c.colorMid case High => c.colorHigh
  {
    match b
    case Low => Picked(c.colorLow)
    case Mid => Picked(c.colorMid)
    case High => Picked(c.colorHigh)
  }

  /** `_getBackgroundColor`, branch for branch: four threshold tests (five
      branches) over three colours, and no fallback from an unconfigured band to another. */
  function BackgroundColor(c: Config, unit: Option<string>, v: Value): (r: Option<string>)
    ensures !IsValid(v) || Parse(v).NaN? ==> r.None?
    ensures IsValid(v) && Parse(v).Fin? ==> r == TierColor(c, BandOf(ToMgdl(Parse(v).x, unit)))
    ensures r.Some? ==> r.value != "" && r in {c.colorLow, c.colorMid, c.colorHigh}
  {
    if !IsValid(v) then None
    else
      match Parse(v)
      case NaN => None
      case Fin(x) =>
        var mgdl := ToMgdl(x, unit);
        if !Given(c.colorLow) && !Given(c.colorMid) && !Given(c.colorHigh) then None
        else if Below(mgdl, 1) then Picked(c.colorLow)
        else if AtMost(mgdl, 69) then Picked(c.colorLow)
        else if AtMost(mgdl, 149) then Picked(c.colorMid)
        else if AtMost(mgdl, 600) then Picked(c.colorHigh)
        else Picked(c.colorHigh)
  }

  lemma MulCancel(a: int, b: int, c: int)
    requires c > 0 && a * c <= b * c
    ensures a <= b
  {
  }

  lemma MulMono(a: int, b: int, c: nat)
    requires a <= b
    ensures a * c <= b * c
  {
  }

  /** An integer bound on `y` carries over to any `x <= y`. */
  lemma AtMostBelow(x: Dec, y: Dec, k: int)
    requires Le(x, y) && AtMost(y, k)
    ensures AtMost(x, k)
  {
    var dx, dy := Den(x), Den(y);
    MulMono(y.mant, k * dy, dx);
    assert x.mant * dy <= (k * dx) * dy;
    MulCancel(x.mant, k * dx, dy);
  }

  /** A higher reading never falls into a lower band. */
  lemma BandMonotone(x: Dec, y: Dec)
    requires Le(x, y)
    ensures Rank(BandOf(x)) <= Rank(BandOf(y))
  {
    if AtMost(y, 69) { AtMostBelow(x, y, 69); }
    if AtMost(y, 149) { AtMostBelow(x, y, 149); }
  }

  /** The boundaries are those of the code: 69 is low but 69.5 is mid, and
      149 is mid but 149.5 is high. */
  lemma Boundaries()
    ensures BandOf(Dec(69, 0)) == Low && BandOf(Dec(695, 1)) == Mid
    ensures BandOf(Dec(149, 0)) == Mid && BandOf(Dec(1495, 1)) == High
  {
  }

  /** 9.0 mmol/L is 162 mg/dL: the high colour. */
  lemma NineMmolIsHigh(c: Config, s: string, w: string, f: string)
    requires s == w + "." + f
    requires |w| >= 1 && JsText.AllDigits(w) && |f| >= 1 && JsText.AllDigits(f)
    requires Digits.DecimalValue(w) == 9 && Digits.DecimalValue(f) == 0
    ensures BackgroundColor(c, Some(MmolL), Text(s)) == Picked(c.colorHigh)
  {
    assert s[0] == w[0];
    DigitTextValid(s);
    ParsePointed(w, f);
    NineIsHigh(Digits.DecimalValue(w), Digits.DecimalValue(f), |f|);
  }

  /** A text starting with a digit is a reading. */
  lemma DigitTextValid(s: string)
    requires |s| >= 1 && JsText.IsDigit(s[0])
    ensures IsValid(Text(s))
  {
  }

  /** 9 mmol/L, written with any number `p` of decimals as a whole part
      worth `a` and a fraction worth `b`, is 162 mg/dL and falls in the
      high band. */
  lemma NineIsHigh(a: nat, b: nat, p: nat)
    requires a == 9 && b == 0
    ensures BandOf(ToMgdl(Dec(a * Digits.Pow(10, p) + b, p), Some(MmolL))) == High
  {
    var x := Dec(9 * Digits.Pow(10, p), p);
    assert Dec(a * Digits.Pow(10, p) + b, p) == x;
    assert ToMgdl(x, Some(MmolL)).mant == 162 * Digits.Pow(10, p);
  }
}
