/** The change since the previous reading, shown beside the value
    (`_calculateDelta`, src/sugartv-card.js:281-325). */
module Delta {
  import opened Basics
  import opened JsText
  import opened Digits
  import opened Numbers
  import opened Values
  import opened History

  /** Readings further apart than 7.5 minutes get no delta. */
  const MaxGapMs := 450000

  /** A delta as the card prints it: the sign glyph (`＋` when rising or
      flat, `－` when falling) and the magnitude, counted in units of
      `10^-places`. */
  datatype Delta = Delta(rising: bool, amount: nat, places: nat)

  /** The full-width signs the card writes before the amount. */
  const PlusSign := '\U{FF0B}'
  const MinusSign := '\U{FF0D}'

  /** `Math.abs(new Date(a) - new Date(b)) >= 450000`. A timestamp that does
      not parse makes the difference NaN, and the comparison false. */
  predicate TooFarApart(a: Stamp, b: Stamp) {
    match (Millis(a), Millis(b))
    case (Some(x), Some(y)) => x - y >= MaxGapMs || y - x >= MaxGapMs
    case _ => false
  }

  /** Decimal places of a delta: one for mmol/L, none otherwise. */
  function Places(unit: Option<string>): (p: nat)
    ensures p == 1 <==> unit == Some(MmolL)
    ensures p == 0 <==> unit != Some(MmolL)
  {
    if unit == Some(MmolL) then 1 else 0
  }

  /** The conditions under which a delta is shown at all. */
  predicate HasDelta(d: Reading) {
    && IsValid(d.value) && IsValid(d.previousValue)
    && d.lastChanged != d.previousLastChanged
    && !TooFarApart(d.lastChanged, d.previousLastChanged)
    && Parse(d.value).Fin? && Parse(d.previousValue).Fin?
  }

  function CalculateDelta(d: Reading): (r: Option<Delta>)
    ensures !IsValid(d.value) || !IsValid(d.previousValue) ==> r.None?
    ensures d.lastChanged == d.previousLastChanged ==> r.None?
    ensures TooFarApart(d.lastChanged, d.previousLastChanged) ==> r.None?
    ensures Parse(d.value).NaN? || Parse(d.previousValue).NaN? ==> r.None?
    ensures r.Some? <==> HasDelta(d)
    ensures r.Some? ==>
      var cur := Parse(d.value).x;
      var prev := Parse(d.previousValue).x;
      var diff := Numbers.Minus(cur, prev);
      var n := Magnitude(diff).mant * Pow(10, r.value.places);
      && (r.value.rising <==> Le(prev, cur))
      && r.value.places == Places(d.unit)
      && 2 * r.value.amount * Den(diff) <= 2 * n + Den(diff) < 2 * r.value.amount * Den(diff) + 2 * Den(diff)
  {
    if !IsValid(d.value) || !IsValid(d.previousValue) || d.lastChanged == d.previousLastChanged then
      None
    else if TooFarApart(d.lastChanged, d.previousLastChanged) then
      None
    else
      match (Parse(d.value), Parse(d.previousValue))
      case (Fin(cur), Fin(prev)) =>
        var diff := Numbers.Minus(cur, prev);
        var places := Places(d.unit);
        Some(Delta(diff.mant >= 0, RoundMagnitude(diff, places), places))
      case _ => None
  }

  /** The delta text in a locale that writes a decimal point and groups no
      digits. */
  function DeltaText(x: Delta): (s: string)
    requires x.places <= 1
    ensures |s| >= 2
    ensures s[0] == (if x.rising then PlusSign else MinusSign)
    ensures x.places == 0 ==> ParseFloat(s[1..]) == Fin(Dec(x.amount, 0))
    ensures x.places == 1 ==> ParseFloat(s[1..]) == Fin(Dec(x.amount, 1))
  {
    var s := [if x.rising then PlusSign else MinusSign] + Numeral(x.amount, x.places);
    assert s[1..] == Numeral(x.amount, x.places);
    WholeReadsBack(x.amount);
    TenthsReadBack(x.amount);
    s
  }

  /** Once a missing entity has reset the record there is no delta, and the
      first snapshot after the reset has none either: the number 0 left
      behind is not a valid reading. */
  lemma NoDeltaAfterReset(s: Snapshot)
    ensures CalculateDelta(NoData()) == None
    ensures CalculateDelta(Merge(NoData(), s)) == None
  {
  }

  /** Two integer readings two minutes apart, the newer 10 mg/dL higher
      (say "100" then "110"), show as `＋10`. */
  lemma RiseOfTen(now: string, before: string, t: int, trend: Option<string>)
    requires |now| >= 1 && AllDigits(now) && |before| >= 1 && AllDigits(before)
    requires DecimalValue(now) == DecimalValue(before) + 10
    ensures CalculateDelta(Reading(Text(now), At(t + 120000), trend, Some(MgDl),
                                   Text(before), At(t), trend))
         == Some(Delta(true, 10, 0))
  {
    var d := Reading(Text(now), At(t + 120000), trend, Some(MgDl), Text(before), At(t), trend);
    ParseWhole(now);
    ParseWhole(before);
    assert now[0] != 'u' && before[0] != 'u';
    TenMoreIsPlusTen(d, DecimalValue(now), DecimalValue(before));
  }

  lemma TenMoreIsPlusTen(d: Reading, a: nat, b: nat)
    requires IsValid(d.value) && IsValid(d.previousValue)
    requires Parse(d.value) == Fin(Dec(a, 0)) && Parse(d.previousValue) == Fin(Dec(b, 0))
    requires a == b + 10 && d.unit == Some(MgDl)
    requires d.lastChanged.At? && d.previousLastChanged.At?
    requires d.lastChanged.ms == d.previousLastChanged.ms + 120000
    ensures CalculateDelta(d) == Some(Delta(true, 10, 0))
  {
    var diff := Numbers.Minus(Dec(a, 0), Dec(b, 0));
    assert diff == Dec(10, 0);
    assert RoundMagnitude(diff, 0) == 10;
  }
}
