/** The trend table of `_getTrendDescriptions` and the lookup `render`
    performs in it (src/sugartv-card.js:53-126, 463-467). */
module Trends {
  import opened Basics
  import opened JsText
  import opened Numbers

  /** The eight keys of the trend table. */
  datatype Trend =
    | RisingQuickly | Rising | RisingSlightly | Steady
    | FallingSlightly | Falling | FallingQuickly | Unknown

  /** The table key of each trend. */
  function Key(t: Trend): string {
    match t
    case RisingQuickly => "rising_quickly"
    case Rising => "rising"
    case RisingSlightly => "rising_slightly"
    case Steady => "steady"
    case FallingSlightly => "falling_slightly"
    case Falling => "falling"
    case FallingQuickly => "falling_quickly"
    case Unknown => "unknown"
  }

  /** The table's own property named `k`, if it has one. */
  function TrendNamed(k: string): (r: Option<Trend>)
    ensures r.Some? ==> Key(r.value) == k
  {
    if k == "rising_quickly" then Some(RisingQuickly)
    else if k == "rising" then Some(Rising)
    else if k == "rising_slightly" then Some(RisingSlightly)
    else if k == "steady" then Some(Steady)
    else if k == "falling_slightly" then Some(FallingSlightly)
    else if k == "falling" then Some(Falling)
    else if k == "falling_quickly" then Some(FallingQuickly)
    else if k == "unknown" then Some(Unknown)
    else None
  }

  /** Every trend is found under its own key, and under no other. */
  lemma KeyRoundTrip(t: Trend, k: string)
    ensures TrendNamed(Key(t)) == Some(t)
    ensures TrendNamed(k) == Some(t) <==> k == Key(t)
  {
  }

  /** The Material Design icon of each trend. */
  function Icon(t: Trend): string {
    match t
    case RisingQuickly => "mdi:chevron-double-up"
    case Rising => "mdi:arrow-up"
    case RisingSlightly => "mdi:arrow-top-right"
    case Steady => "mdi:arrow-right"
    case FallingSlightly => "mdi:arrow-bottom-right"
    case Falling => "mdi:arrow-down"
    case FallingQuickly => "mdi:chevron-double-down"
    case Unknown => "mdi:help-circle-outline"
  }

  /** No two trends share an icon, so the icon shown identifies the trend. */
  lemma IconsDistinct(t: Trend, u: Trend)
    ensures Icon(t) == Icon(u) <==> t == u
  {
  }

  /** The wording of a prediction: the localisation key it uses. */
  datatype Phrase = RiseOver | RiseIn | FallIn | FallOver

  /** A prediction: its phrase and the amount or range it quotes, in the
      display unit (`to` is the upper end of a range). */
  datatype Prediction = Prediction(phrase: Phrase, from: Dec, to: Option<Dec>)

  /** The prediction entry of each trend in mg/dL (`mgdl`) or mmol/L;
      `steady` and `unknown` carry none. */
  function PredictionOf(t: Trend, mgdl: bool): (r: Option<Prediction>)
    ensures r.Some? <==> t !in {Steady, Unknown}
  {
    match t
    case RisingQuickly => Some(if mgdl then Prediction(RiseOver, Dec(45, 0), None)
                               else Prediction(RiseOver, Dec(25, 1), None))
    case Rising => Some(if mgdl then Prediction(RiseIn, Dec(30, 0), Some(Dec(45, 0)))
                        else Prediction(RiseIn, Dec(17, 1), Some(Dec(25, 1))))
    case RisingSlightly => Some(if mgdl then Prediction(RiseIn, Dec(15, 0), Some(Dec(30, 0)))
                                else Prediction(RiseIn, Dec(8, 1), Some(Dec(17, 1))))
    case FallingSlightly => Some(if mgdl then Prediction(FallIn, Dec(15, 0), Some(Dec(30, 0)))
                                 else Prediction(FallIn, Dec(8, 1), Some(Dec(17, 1))))
    case Falling => Some(if mgdl then Prediction(FallIn, Dec(30, 0), Some(Dec(45, 0)))
                         else Prediction(FallIn, Dec(17, 1), Some(Dec(25, 1))))
    case FallingQuickly => Some(if mgdl then Prediction(FallOver, Dec(45, 0), None)
                                else Prediction(FallOver, Dec(25, 1), None))
    case Steady => None
    case Unknown => None
  }

  /** A whole number of mg/dL in mmol/L, to one decimal place half-up:
      the result counts tenths of a mmol/L. */
  function MmolTenths(mgdl: nat): nat {
    RoundHalfUp(mgdl * 10, 18)
  }

  /** The two unit tables say the same thing: each mmol/L figure is its
      mg/dL counterpart divided by 18 and rounded to one decimal, and the
      phrases agree. */
  lemma UnitTablesAgree(t: Trend)
    requires t !in {Steady, Unknown}
    ensures var m := PredictionOf(t, true).value;
      var n := PredictionOf(t, false).value;
      && n.phrase == m.phrase
      && n.from == Dec(MmolTenths(m.from.mant), 1)
      && (n.to.Some? <==> m.to.Some?)
      && (n.to.Some? ==> n.to.value == Dec(MmolTenths(m.to.value.mant), 1))
  {
    assert MmolTenths(45) == 25 && MmolTenths(30) == 17 && MmolTenths(15) == 8;
  }

  /** The two ASCII-lower-case names that `Object.prototype` supplies to
      every object literal, and both are truthy. */
  const InheritedNames: set<string> := {"constructor", "__proto__"}

  /** What `trendSymbols[key]` finds: an own entry of the table, or a
      truthy inherited property that is not a trend entry at all. */
  datatype Found = Own(trend: Trend) | Inherited(name: string)

  /** The lookup as written, `(trend && trendSymbols[trend.toLowerCase()])
      || trendSymbols.unknown`: a missing or empty trend, or a key the
      table does not own, falls back to `unknown` unless the key names an
      inherited property. */
  function LookupAsWritten(trend: Option<string>): (r: Found)
    ensures r.Inherited? <==> trend.Some? && ToLower(trend.value) in InheritedNames
  {
    if trend.None? || trend.value == "" then Own(Unknown)
    else
      var k := ToLower(trend.value);
      match TrendNamed(k)
      case Some(t) => Own(t)
      case None => if k in InheritedNames then Inherited(k) else Own(Unknown)
  }

  /** The icon the card shows as written: an inherited property has no
      `icon`, so nothing is shown. */
  function IconAsWritten(trend: Option<string>): (r: Option<string>)
    ensures r.None? <==> trend.Some? && ToLower(trend.value) in InheritedNames
    ensures r.Some? ==> r == Some(Icon(TrendOf(trend)))
  {
    match LookupAsWritten(trend)
    case Own(t) => Some(Icon(t))
    case Inherited(_) => None
  }

  /** The lookup the fallback evidently intends: only the table's own keys
      count, anything else is `unknown`. */
  function TrendOf(trend: Option<string>): (r: Trend)
    ensures trend.Some? ==> (r == Unknown || Key(r) == ToLower(trend.value))
    ensures trend.Some? && TrendNamed(ToLower(trend.value)).Some? ==>
      r == TrendNamed(ToLower(trend.value)).value
  {
    if trend.None? then Unknown
    else
      match TrendNamed(ToLower(trend.value))
      case Some(t) => t
      case None => Unknown
  }

  /** Both lookups agree on every trend text except the inherited names. */
  lemma LookupsAgree(trend: Option<string>)
    requires !(trend.Some? && ToLower(trend.value) in InheritedNames)
    ensures LookupAsWritten(trend) == Own(TrendOf(trend))
  {
  }

  /** A trend state "constructor" is no trend, yet the lookup as written
      finds the inherited `Object` constructor instead of falling back, and
      the card shows no icon where the `unknown` icon was due. By
      `TrendIgnoresCase` the same holds for "Constructor" and any other
      capitalisation. */
  lemma ConstructorShowsNoIcon()
    ensures LookupAsWritten(Some("constructor")) == Inherited("constructor")
    ensures IconAsWritten(Some("constructor")) == None
    ensures TrendOf(Some("constructor")) == Unknown
    ensures Icon(TrendOf(Some("constructor"))) == "mdi:help-circle-outline"
  {
    LowerKeepsLower("constructor");
    assert TrendNamed("constructor") == None;
  }

  /** Text without capitals is its own lower case. */
  lemma LowerKeepsLower(s: string)
    requires forall i :: 0 <= i < |s| ==> 'a' <= s[i] <= 'z'
    ensures ToLower(s) == s
  {
  }

  /** The lookup ignores letter case. */
  lemma TrendIgnoresCase(s: string)
    ensures TrendOf(Some(s)) == TrendOf(Some(ToLower(s)))
  {
    var l := ToLower(s);
    assert ToLower(l) == l by {
      forall i | 0 <= i < |l| ensures ToLower(l)[i] == l[i] {
        assert LowerChar(LowerChar(s[i])) == LowerChar(s[i]);
      }
    }
  }

  /** A host trend outside the table, such as "Flat", reads as `unknown`:
      the card has no synonym for `steady`. */
  lemma FlatIsUnknown()
    ensures TrendOf(Some("Flat")) == Unknown
  {
    assert ToLower("Flat") == "flat";
  }

  /** The trend the card shows has a prediction exactly when it is neither
      `steady` nor `unknown`. */
  predicate HasPrediction(t: Trend) {
    t !in {Steady, Unknown}
  }
}
