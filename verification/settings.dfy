/** The card's configuration object as `setConfig` receives it
    (src/sugartv-card.js:129-164) and the JavaScript truthiness tests the
    card applies to its optional fields. */
module Settings {
  import opened Basics

  datatype Config = Config(
    glucoseValue: Option<string>,
    glucoseTrend: Option<string>,
    showPrediction: Option<bool>,
    colorLow: Option<string>,
    colorMid: Option<string>,
    colorHigh: Option<string>,
    locale: Option<string>,
    disableStorage: bool)

  /** A string option is truthy when present and non-empty. */
  predicate Given(o: Option<string>) {
    o.Some? && o.value != ""
  }

  /** `o || null`. */
  function Picked(o: Option<string>): (r: Option<string>)
    ensures r.Some? <==> Given(o)
    ensures r.Some? ==> r == o
  {
    if Given(o) then o else None
  }

  /** What `setConfig` demands: both entity ids present and non-empty. */
  predicate Accepted(c: Config) {
    Given(c.glucoseValue) && Given(c.glucoseTrend)
  }
}
