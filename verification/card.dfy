/** The card itself: `setConfig`, the `sessionStorage` record that carries
    the last reading across page loads, `_formatValue`, and one `render`
    (src/sugartv-card.js:129-217, 331-351, 394-495) reduced to the values it
    shows. */
module Card {
  import opened Basics
  import opened Numbers
  import opened Values
  import opened History
  import opened Settings
  import opened Delta
  import opened Background
  import opened Colors
  import opened Trends

  /** The record the card keeps in `sessionStorage`: the last valid reading
      and its timestamp. */
  datatype Seed = Seed(value: string, lastChanged: Stamp)

  type Storage = map<string, Seed>

  /** The storage key of the card showing entity `valueId`. */
  function StorageKey(valueId: string): string {
    "sugartv-card-" + valueId
  }

  /** The two errors `setConfig` throws. */
  datatype ConfigError = MissingGlucoseValue | MissingGlucoseTrend

  /** `setConfig`: reject a configuration without both entity ids, the
      value entity checked first; otherwise keep the current record and,
      unless storage is disabled, seed the previous value and timestamp
      from the stored record of this entity. The previous trend is not
      stored and stays as it was. */
  function SetConfig(c: Config, d: Reading, storage: Storage): (r: Result<Reading, ConfigError>)
    ensures r == Failure(MissingGlucoseValue) <==> !Given(c.glucoseValue)
    ensures r == Failure(MissingGlucoseTrend) <==> Given(c.glucoseValue) && !Given(c.glucoseTrend)
    ensures r.Success? <==> Accepted(c)
    ensures r.Success? ==>
      && Current(r.value) == Current(d) && r.value.unit == d.unit
      && r.value.previousTrend == d.previousTrend
    ensures r.Success? ==>
      var key := StorageKey(c.glucoseValue.value);
      if !c.disableStorage && key in storage then
        r.value.previousValue == Text(storage[key].value)
        && r.value.previousLastChanged == storage[key].lastChanged
      else r.value == d
  {
    if !Given(c.glucoseValue) then Failure(MissingGlucoseValue)
    else if !Given(c.glucoseTrend) then Failure(MissingGlucoseTrend)
    else
      var key := StorageKey(c.glucoseValue.value);
      if !c.disableStorage && key in storage then
        Success(d.(previousValue := Text(storage[key].value),
                   previousLastChanged := storage[key].lastChanged))
      else Success(d)
  }

  /** `_updateData`: nothing happens without host data; a missing entity
      resets the record; otherwise a valid reading is stored (unless storage
      is disabled) and the snapshot is merged. */
  function UpdateData(c: Config, d: Reading, hass: Option<States>, storage: Storage): (r: (Reading, Storage))
    requires Accepted(c)
    ensures hass.None? ==> r == (d, storage)
    ensures hass.Some? ==> r.0 == Step(d, hass.value, c.glucoseValue.value, c.glucoseTrend.value)
    ensures forall k :: k in r.1 && k != StorageKey(c.glucoseValue.value) ==> k in storage && r.1[k] == storage[k]
    ensures forall k :: k in storage ==> k in r.1
  {
    match hass
    case None => (d, storage)
    case Some(states) =>
      var valueId := c.glucoseValue.value;
      match Fetch(states, valueId, c.glucoseTrend.value)
      case None => (NoData(), storage)
      case Some(s) =>
        var stored :=
          if !c.disableStorage && IsValid(Text(s.value))
          then storage[StorageKey(valueId) := Seed(s.value, s.lastChanged)]
          else storage;
        (Merge(d, s), stored)
  }

  /** How `_formatValue` shows a reading: not available, or a number with
      its sign and its magnitude counted in units of `10^-places`. */
  datatype Display = NotAvailable | Figure(negative: bool, amount: nat, places: nat)

  /** `_formatValue`: invalid or unreadable values are not available;
      anything else is rounded half away from zero to one decimal place in
      mmol/L and to a whole number otherwise. */
  function FormatValue(v: Value, unit: Option<string>): (r: Display)
    ensures r.NotAvailable? <==> !IsValid(v) || Parse(v).NaN?
    ensures r.Figure? ==>
      var x := Parse(v).x;
      var n := Magnitude(x).mant * Digits.Pow(10, r.places);
      && r.places == Places(unit)
      && (r.negative <==> x.mant < 0)
      && 2 * r.amount * Den(x) <= 2 * n + Den(x) < 2 * r.amount * Den(x) + 2 * Den(x)
  {
    if !IsValid(v) then NotAvailable
    else
      match Parse(v)
      case NaN => NotAvailable
      case Fin(x) =>
        var places := Places(unit);
        Figure(x.mant < 0, RoundMagnitude(x, places), places)
  }

  /** A multiple of the divisor rounds to its exact quotient. */
  lemma RoundsExactly(m: nat, d: nat)
    requires d > 0
    ensures RoundHalfUp(m * d, d) == m
  {
    RoundUnique(m * d, d, m);
  }

  /** Half-up rounding has exactly one answer. */
  lemma RoundUnique(n: nat, d: nat, r: nat)
    requires d > 0 && 2 * r * d <= 2 * n + d < 2 * r * d + 2 * d
    ensures RoundHalfUp(n, d) == r
  {
    var q := RoundHalfUp(n, d);
    if q > r {
      Digits.MulLe(r + 1, q, d);
    } else if q < r {
      Digits.MulLe(q + 1, r, d);
    }
  }

  /** A reading whose exact value already has the display's decimal places
      is shown as it is. */
  lemma FormatExact(v: Value, unit: Option<string>, m: nat)
    requires IsValid(v) && Parse(v) == Fin(Dec(m, Places(unit)))
    ensures FormatValue(v, unit) == Figure(false, m, Places(unit))
  {
    RoundsExactly(m, Den(Dec(m, Places(unit))));
  }

  /** A whole number outside mmol/L is shown as exactly that number. */
  lemma FormatWhole(w: string, unit: Option<string>)
    requires |w| >= 1 && JsText.AllDigits(w) && unit != Some(MmolL)
    ensures FormatValue(Text(w), unit) == Figure(false, Digits.DecimalValue(w), 0)
  {
    var n := Digits.DecimalValue(w);
    assert Parse(Text(w)) == Fin(Dec(n, 0)) by {
      ParseWhole(w);
    }
    assert IsValid(Text(w)) by {
      assert JsText.IsDigit(w[0]);
    }
    FormatExact(Text(w), unit, n);
  }

  /** An mmol/L reading with one decimal, written with a point or a comma,
      is shown with exactly that decimal. */
  lemma FormatTenths(s: string, w: string, f: string)
    requires s == w + "." + f || s == w + "," + f
    requires |w| >= 1 && JsText.AllDigits(w) && |f| == 1 && JsText.AllDigits(f)
    ensures FormatValue(Text(s), Some(MmolL))
         == Figure(false, Digits.DecimalValue(w) * 10 + Digits.DecimalValue(f), 1)
  {
    TenthsParse(s, w, f);
    FormatExact(Text(s), Some(MmolL), Digits.DecimalValue(w) * 10 + Digits.DecimalValue(f));
  }

  lemma TenthsParse(s: string, w: string, f: string)
    requires s == w + "." + f || s == w + "," + f
    requires |w| >= 1 && JsText.AllDigits(w) && |f| == 1 && JsText.AllDigits(f)
    ensures IsValid(Text(s))
    ensures Parse(Text(s)) == Fin(Dec(Digits.DecimalValue(w) * 10 + Digits.DecimalValue(f), 1))
  {
    PointTenths(w, f);
    if s == w + "," + f {
      assert ',' !in w && ',' !in f by {
        assert forall i :: 0 <= i < |w| ==> JsText.IsDigit(w[i]);
      }
      CommaReadsAsPoint(w, f);
    }
    assert s[0] == w[0] && JsText.IsDigit(w[0]);
  }

  lemma PointTenths(w: string, f: string)
    requires |w| >= 1 && JsText.AllDigits(w) && |f| == 1 && JsText.AllDigits(f)
    ensures Parse(Text(w + "." + f)) == Fin(Dec(Digits.DecimalValue(w) * 10 + Digits.DecimalValue(f), 1))
  {
    assert Digits.Pow(10, 1) == 10;
    ParsePointed(w, f);
  }

  /** The background and the text colour chosen against it. */
  datatype Style = Style(background: string, text: string)

  /** `_getBackgroundStyles`: no style without a background colour. */
  function StyleOf(c: Config, unit: Option<string>, v: Value): (r: Option<Style>)
    ensures r.Some? <==> BackgroundColor(c, unit, v).Some?
    ensures r.Some? ==>
      && r.value.background == BackgroundColor(c, unit, v).value
      && r.value.text == ContrastColor(r.value.background)
  {
    match BackgroundColor(c, unit, v)
    case None => None
    case Some(bg) => Some(Style(bg, ContrastColor(bg)))
  }

  /** What one render shows: the value, the trend icon, the prediction if
      shown, the wrapper style if any, and the delta (in its place a clock
      icon is shown). */
  datatype View = View(
    value: Display,
    icon: string,
    prediction: Option<Prediction>,
    style: Option<Style>,
    delta: Option<Delta>)

  /** The view of a record. The prediction table is the mg/dL one exactly
      when the unit is mg/dL; a missing unit gets the mmol/L table. */
  function ViewOf(c: Config, d: Reading): (r: View)
    ensures r.value == FormatValue(d.value, d.unit)
    ensures r.icon == Icon(TrendOf(d.trend))
    ensures r.prediction.Some? <==> c.showPrediction != Some(false) && HasPrediction(TrendOf(d.trend))
    ensures r.prediction.Some? ==> r.prediction == PredictionOf(TrendOf(d.trend), d.unit == Some(MgDl))
    ensures r.style == StyleOf(c, d.unit, d.value)
    ensures r.delta == CalculateDelta(d)
    ensures r.delta.Some? <==> HasDelta(d)
    ensures r.value.NotAvailable? ==> r.style.None? && r.delta.None?
  {
    var t := TrendOf(d.trend);
    View(FormatValue(d.value, d.unit),
         Icon(t),
         if c.showPrediction != Some(false) then PredictionOf(t, d.unit == Some(MgDl)) else None,
         StyleOf(c, d.unit, d.value),
         CalculateDelta(d))
  }

  /** One render: the record and storage after `_updateData`, and the view. */
  datatype Frame = Frame(data: Reading, storage: Storage, view: View)

  function Render(c: Config, d: Reading, hass: Option<States>, storage: Storage): (r: Frame)
    requires Accepted(c)
    ensures (r.data, r.storage) == UpdateData(c, d, hass, storage)
    ensures r.view == ViewOf(c, r.data)
  {
    var (data, stored) := UpdateData(c, d, hass, storage);
    Frame(data, stored, ViewOf(c, data))
  }

  /** Without host data a render changes nothing and shows the record as
      it stands. */
  lemma RenderWithoutHost(c: Config, d: Reading, storage: Storage)
    requires Accepted(c)
    ensures Render(c, d, None, storage) == Frame(d, storage, ViewOf(c, d))
  {
  }

  /** A missing entity resets the record, writes nothing to storage, and
      shows "not available" with the `unknown` icon, no prediction, no
      colour and no delta. */
  lemma MissingEntityRender(c: Config, d: Reading, states: States, storage: Storage)
    requires Accepted(c)
    requires c.glucoseValue.value !in states || c.glucoseTrend.value !in states
    ensures var f := Render(c, d, Some(states), storage);
      && f.data == NoData() && f.storage == storage
      && f.view == View(NotAvailable, Icon(Unknown), None, None, None)
  {
    assert UpdateData(c, d, Some(states), storage) == (NoData(), storage);
    NoDataView(c);
  }

  /** The record with no data shows "not available" and nothing else. */
  lemma NoDataView(c: Config)
    ensures ViewOf(c, NoData()) == View(NotAvailable, Icon(Unknown), None, None, None)
  {
    var d := NoData();
    assert TrendOf(d.trend) == Unknown by {
      assert d.trend == Some("unknown");
      LowerKeepsLower("unknown");
    }
    assert FormatValue(d.value, d.unit) == NotAvailable;
    assert StyleOf(c, d.unit, d.value) == None;
    assert CalculateDelta(d) == None;
  }

  /** Rendering again with the same host data changes nothing: neither the
      record, nor the storage, nor the view. */
  lemma RenderIdempotent(c: Config, d: Reading, hass: Option<States>, storage: Storage)
    requires Accepted(c)
    ensures var f := Render(c, d, hass, storage);
      Render(c, f.data, hass, f.storage) == f
  {
    var f := Render(c, d, hass, storage);
    UpdateIdempotent(c, d, hass, storage);
    assert UpdateData(c, f.data, hass, f.storage) == (f.data, f.storage);
  }

  lemma UpdateIdempotent(c: Config, d: Reading, hass: Option<States>, storage: Storage)
    requires Accepted(c)
    ensures var (d1, s1) := UpdateData(c, d, hass, storage);
      UpdateData(c, d1, hass, s1) == (d1, s1)
  {
    if hass.Some? {
      var valueId := c.glucoseValue.value;
      match Fetch(hass.value, valueId, c.glucoseTrend.value)
      case None =>
      case Some(s) =>
        MergeIdempotent(d, s);
        var (_, s1) := UpdateData(c, d, hass, storage);
        if !c.disableStorage && IsValid(Text(s.value)) {
          var key := StorageKey(valueId);
          assert s1[key := Seed(s.value, s.lastChanged)] == s1;
        }
    }
  }

  /** Storage only ever receives the valid reading just shown, under this
      card's key; every other record is left alone. */
  lemma StorageHoldsShownReading(c: Config, d: Reading, hass: Option<States>, storage: Storage)
    requires Accepted(c)
    ensures var f := Render(c, d, hass, storage);
      forall k :: k in f.storage && (k !in storage || f.storage[k] != storage[k]) ==>
        && !c.disableStorage
        && k == StorageKey(c.glucoseValue.value)
        && IsValid(f.data.value)
        && f.data.value == Text(f.storage[k].value)
        && f.data.lastChanged == f.storage[k].lastChanged
  {
  }

  /** The storage round trip: after a render stored a reading, a card
      configured afresh on a reloaded page holds that reading as its
      previous one, with no current reading yet. */
  lemma ReloadRestoresReading(c: Config, d: Reading, states: States, storage: Storage)
    requires Accepted(c) && !c.disableStorage
    requires c.glucoseValue.value in states && c.glucoseTrend.value in states
    requires IsValid(Text(states[c.glucoseValue.value].state))
    ensures var f := Render(c, d, Some(states), storage);
      SetConfig(c, Initial(), f.storage)
        == Success(Initial().(previousValue := f.data.value,
                              previousLastChanged := f.data.lastChanged))
  {
  }

  /** The first render after a reload compares against the stored reading:
      there is no current reading to shift, so the seed stays the previous
      one. With storage disabled nothing is seeded and no delta shows. */
  lemma FirstRenderAfterReload(c: Config, states: States, storage: Storage)
    requires Accepted(c)
    requires c.glucoseValue.value in states && c.glucoseTrend.value in states
    ensures var key := StorageKey(c.glucoseValue.value);
      var f := Render(c, SetConfig(c, Initial(), storage).value, Some(states), storage);
      && (!c.disableStorage && key in storage ==>
            Previous(f.data) == Entry(Text(storage[key].value), storage[key].lastChanged, None))
      && (c.disableStorage ==> f.view.delta.None?)
  {
  }
}
