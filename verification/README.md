# SugarTV card: the derived-reading pipeline in Dafny

The SugarTV card is a Home Assistant dashboard card. It shows a
continuous-glucose-monitor reading: the value, an arrow for its trend, the
change since the previous reading, and a background colour for the glucose
range. This project models the logic behind that display, which lives in
the `SugarTvCard` element of `src/sugartv-card.js`, as pure functions over
immutable values, and proves properties of them.

- **History** (`history.dfy`). The card keeps a one-step history record:
  the current value, timestamp, trend and unit, plus the `previous_*`
  triple. A render either resets the record, when an entity is missing, or
  merges a fresh snapshot of the two entities. The current reading moves
  into `previous_*` only when there was one and the new timestamp differs.
- **Values** (`values.dfy`, `numbers.dfy`, `jstext.dfy`, `digits.dfy`).
  - Host states are JavaScript values: `null`, the number 0 left by a
    reset, or a state string.
  - `_isValidValue` is JavaScript truthiness plus two sentinel states.
  - Numbers are read by `parseFloat` after the first comma becomes a point.
    `parseFloat` is modelled on text and yields exact decimals
    (`Dec(mant, scale)` = `mant / 10^scale`) instead of doubles.
- **Delta** (`delta.dfy`). `_calculateDelta` shows a change only when:
  - both values are valid;
  - the timestamps differ and are less than 450 000 ms apart;
  - both values parse.

  The sign glyph is `＋` exactly when the value did not fall. The magnitude
  is rounded half-up to a whole number, or to one decimal in mmol/L.
- **Background colour** (`background.dfy`). `_getBackgroundColor` scales
  mmol/L by 18 and tests four thresholds (five branches). Each tier uses
  only its own colour, and an unconfigured tier gives no colour.
- **Colours** (`colors.dfy`, `colorforms.dfy`).
  - `_parseColor` accepts `#rgb`, `#rrggbb` and `rgb()`/`rgba()` after
    trimming; rgb channels are capped at 255. `colorforms.dfy` states which
    texts each pattern accepts, and rejects wrong hex lengths and a
    malformed red channel.
  - `_getContrastColor` picks black text exactly when
    `299 r + 587 g + 114 b > 153000`. That is the card's `luminance > 0.6`
    test, scaled by 255 000 to integers.
- **Trends** (`trends.dfy`). This is the table of `_getTrendDescriptions`:
  icons, and predictions in both units. `render` looks up the lower-cased
  trend in that table and falls back to `unknown`.
- **Card** (`card.dfy`). This file holds:
  - `setConfig`: validation, and seeding `previous_*` from the stored
    record;
  - `_updateData` with its `sessionStorage` record, modelled as a map;
  - `_formatValue` and `_getBackgroundStyles`;
  - one `render`, reduced to the values it shows.

Two edge cases of the code deserve a note:

- The low band ends at `mgdlValue <= 69` and the mid band at
  `mgdlValue <= 149` (src/sugartv-card.js:379-389), so 69.5 is mid and
  149.5 is high (`Background.Boundaries`).
- A host trend such as `"Flat"` is not a key of the trend table
  (src/sugartv-card.js:71-125), so it falls back to `unknown`
  (`Trends.FlatIsUnknown`).

## Model

| member | source | states |
|---|---|---|
| History.Initial | src/sugartv-card.js:41-51 | The initial record has no current reading and no history (value and timestamp unset, trend absent), and its unit is mg/dL. |
| History.NoData | src/sugartv-card.js:219-233 | A missing entity leaves the number 0 at the epoch with trend "unknown" and unit mg/dL. The history is cleared, and neither value is a valid reading. |
| History.Merge | src/sugartv-card.js:200-257 | The current fields always take the snapshot, including its unit. `previous_*` becomes the prior current reading exactly when there was a value and the timestamp changed; otherwise it is unchanged. |
| History.MergeIdempotent | src/sugartv-card.js:200-216 | Merging the same snapshot twice is the same as merging it once. |
| History.StepIdempotent | src/sugartv-card.js:172-216 | Re-rendering with unchanged host states leaves the record as the first render left it. |
| History.StepHistorySource | src/sugartv-card.js:200-216 | After a step, `previous_*` is the old history, the old current reading, or cleared, and nothing else. |
| History.RunKeepsOneStep | src/sugartv-card.js:200-216 | After any sequence of snapshots, `previous_*` is the last snapshot before the final run of equal timestamps. If there is no such snapshot, it is what the first merge left. |
| Card.SetConfig | src/sugartv-card.js:129-164 | Fails with the glucose_value error exactly when that id is missing or empty. Fails with the glucose_trend error exactly when only that id is. Succeeds exactly when both are given. On success, the stored value and timestamp of this entity are seeded into `previous_*` unless storage is disabled. The current fields and the previous trend are untouched. |
| Card.UpdateData | src/sugartv-card.js:166-217 | Without host data nothing changes. Otherwise the record takes one history step. Storage changes at most under this card's key, and no key is removed. |
| Values.InvalidValues | src/sugartv-card.js:327-329 | A value is invalid exactly when it is null, the number 0, the empty string, "unknown" or "unavailable"; the string "0" is valid. |
| Values.CommaReadsAsPoint | src/sugartv-card.js:301-304 | A state with a decimal comma parses exactly like the same state with a decimal point. |
| Values.ParseWhole | src/sugartv-card.js:301-304 | A plain digit string parses to its integer value. |
| Values.ParsePointed | src/sugartv-card.js:301-304 | Digits, a point and digits parse to the exact decimal they denote. |
| Numbers.ParseFloat | src/sugartv-card.js:301-308 | `parseFloat` is NaN exactly when the text, after leading white space and an optional sign, does not start with a digit or with a point followed by a digit. A leading minus gives a non-positive result; otherwise the result is non-negative. |
| Numbers.Minus | src/sugartv-card.js:310-312 | The exact difference of two decimals is non-negative exactly when the subtrahend is at most the minuend. |
| Numbers.RoundHalfUp | src/sugartv-card.js:324 | The result r satisfies r - 1/2 <= n/d < r + 1/2, which is `Math.round` on a non-negative number. |
| Delta.CalculateDelta | src/sugartv-card.js:281-325 | There is no delta when: either value is invalid; the timestamps are equal; they are 450 000 ms or more apart; or either value is NaN. A delta exists exactly when none of these holds. Its glyph is rising exactly when previous <= current. Its amount is the absolute difference rounded half-up to the unit's places. |
| Delta.DeltaText | src/sugartv-card.js:310-324 | The text starts with `＋` or `－` by direction, and the rest reads back by `parseFloat` as the rounded amount. |
| Delta.NoDeltaAfterReset | src/sugartv-card.js:283-290 | There is no delta on the reset record, nor on the first reading merged after a reset. |
| Delta.RiseOfTen | src/sugartv-card.js:281-325 | Two whole mg/dL readings two minutes apart, the newer 10 higher, show as `＋10`. |
| Background.BackgroundColor | src/sugartv-card.js:353-392 | There is no colour for an invalid or NaN value. Otherwise the colour is the configured colour of the reading's band, or none when that band has no colour. A colour, when given, is non-empty and one of the three configured ones. |
| Background.BandMonotone | src/sugartv-card.js:375-391 | A higher reading never falls into a lower band. |
| Background.Boundaries | src/sugartv-card.js:379-389 | 69 is low, 69.5 is mid, 149 is mid and 149.5 is high. |
| Background.NineMmolIsHigh | src/sugartv-card.js:363-389 | A reading of 9.0 (any number of zero decimals) in mmol/L gets the high colour, because it is 162 mg/dL. |
| Card.FormatValue | src/sugartv-card.js:331-351 | Not available exactly when the value is invalid or NaN. Otherwise the display has the value's sign and one place in mmol/L, none elsewhere. Its amount is the magnitude rounded half-up to those places. |
| Card.FormatExact | src/sugartv-card.js:331-351 | A value whose exact decimal already has the display's places is shown unchanged. |
| Card.FormatWhole | src/sugartv-card.js:331-351 | A whole number outside mmol/L is shown as that number. |
| Card.FormatTenths | src/sugartv-card.js:331-351 | An mmol/L reading with one decimal, written with a point or a comma, is shown with that decimal. |
| Card.RoundUnique | src/sugartv-card.js:324 | Half-up rounding has exactly one answer: any r within half a unit of n/d is the rounded value. |
| Colors.ParseColor | src/sugartv-card.js:419-456 | Every parsed colour has all channels in 0..255. |
| Colors.ShortHex | src/sugartv-card.js:426-434 | `#abc` parses exactly as `#aabbcc`, to channels 17 times each hex digit. |
| Colors.HexRoundTrip | src/sugartv-card.js:424-440 | Writing any in-range colour as `#rrggbb` and parsing it gives the colour back. |
| ColorForms.RgbReadsBack | src/sugartv-card.js:443-453 | `rgb(x,y,z)` with one to three digits per channel parses to the three decimal values, each capped at 255. |
| ColorForms.HexLengths | src/sugartv-card.js:426-427 | `#` followed by hex digits is a colour exactly when there are three or six of them. |
| ColorForms.PaddedColor | src/sugartv-card.js:424-426 | White space around a colour text does not change how it parses. |
| ColorForms.RgbaReadsBack | src/sugartv-card.js:443-453 | `rgb(` or `rgba(`, three channels of one to three digits with white space around each, and an optional alpha of digits with an optional fraction, parse to the three decimal values, each capped at 255. The alpha is ignored. |
| ColorForms.RgbaRejectsRed | src/sugartv-card.js:443-453 | After `rgb(` or `rgba(` and white space, a red channel with no digits or with more than three is not a colour, whatever comes after it up to the final `)`. |
| JsText.TrimPadded | src/sugartv-card.js:424 | `trim` removes exactly the white space around a text that neither starts nor ends with white space. |
| Colors.ContrastColor | src/sugartv-card.js:407-417 | The result is black or white, and black exactly when the colour parses and `299 r + 587 g + 114 b > 153000`. Anything that does not parse gets white. |
| Colors.ContrastMonotone | src/sugartv-card.js:414-416 | Raising channels never turns black text back to white. |
| Trends.KeyRoundTrip | src/sugartv-card.js:71-125 | Each trend is found under its own key and under no other. |
| Trends.IconsDistinct | src/sugartv-card.js:71-125 | No two trends share an icon. |
| Trends.PredictionOf | src/sugartv-card.js:71-125 | A trend has a prediction exactly when it is neither steady nor unknown. |
| Trends.UnitTablesAgree | src/sugartv-card.js:53-126 | Each mmol/L prediction figure is the mg/dL figure divided by 18, rounded to one decimal, with the same phrase and range shape. |
| Trends.LookupAsWritten | src/sugartv-card.js:463-466 | The lookup as written finds an inherited `Object.prototype` property exactly when the lower-cased trend is "constructor" or "__proto__". |
| Trends.IconAsWritten | src/sugartv-card.js:463-467 | The card as written shows no icon exactly when the lower-cased trend is an inherited name. Otherwise it shows the icon of the trend the intended lookup finds. |
| Trends.TrendOf | src/sugartv-card.js:463-466 | The intended lookup gives a trend whose key is the lower-cased text, or `unknown`. Every key the table owns is found. |
| Trends.LookupsAgree | src/sugartv-card.js:463-466 | Apart from the two inherited names, the lookup as written and the intended one agree. |
| Trends.ConstructorShowsNoIcon | src/sugartv-card.js:463-467 | The trend "constructor" makes the card as written show no icon, where the intended lookup shows the `unknown` icon. |
| Trends.TrendIgnoresCase | src/sugartv-card.js:465 | The lookup gives the same trend for a text and for its lower case. |
| Trends.FlatIsUnknown | src/sugartv-card.js:463-466 | The host trend "Flat" is not a key of the table and reads as `unknown`. |
| Card.ViewOf | src/sugartv-card.js:461-493 | What one render shows: the value as `FormatValue` shows it; the delta `CalculateDelta` gives; the icon of the looked-up trend; a prediction exactly when enabled and the trend has one, taken from the mg/dL table exactly when the unit is mg/dL; the style of the value; a delta exactly when the delta conditions hold. When the value is not available, neither a colour nor a delta shows; the trend icon and the prediction still do. |
| Card.RenderWithoutHost | src/sugartv-card.js:166-169 | Without host data, a render changes neither record nor storage. |
| Card.MissingEntityRender | src/sugartv-card.js:219-233 | A missing entity resets the record, writes nothing to storage, and shows "not available" with the unknown icon, no prediction, no colour and no delta. |
| Card.RenderIdempotent | src/sugartv-card.js:166-216 | Rendering again with the same host data changes neither the record, nor the storage, nor the view. |
| Card.StorageHoldsShownReading | src/sugartv-card.js:183-198 | Storage only ever changes under this card's key, only when storage is enabled, and only to the valid reading just shown with its timestamp. |
| Card.ReloadRestoresReading | src/sugartv-card.js:151-198 | After a render stored a reading, a card configured afresh holds that reading and timestamp as its previous one. |
| Card.FirstRenderAfterReload | src/sugartv-card.js:151-216 | The first render after a reload keeps the stored reading as the previous one. With storage disabled it shows no delta. |
| JsText.ReplaceFirstAfter | src/sugartv-card.js:301 | `replace(',', '.')` changes only the first comma: text before it has none, and text after it is untouched. |
| JsText.ToLower | src/sugartv-card.js:465 | `toLowerCase` keeps the length. It maps each ASCII capital to its lower-case letter and the KELVIN SIGN to `k`, and leaves every other character unchanged. |

## Left out

- Lit rendering, the `html` templates, `ifDefined`, the element's styles and the registration in `customElements` and `window.customCards`: these are user-interface glue. The view is reduced to the values it would show.
- `sessionStorage` is modelled as a map from keys to `{value, last_changed}` records. JSON encoding, storage exceptions and `console` logging are left out. A stored record is assumed to have the shape the card writes.
- The locale-dependent formatting of `toLocaleString` and `toLocaleTimeString` is left out: digit grouping, locale decimal separators and the time display of `_formatTime`. The model stops at the sign, the rounded amount and the number of decimals. `DeltaText` writes a plain numeral with a point.
- The `localize` lookups and the prediction sentences are left out. A prediction is modelled as its phrase key and the figures it quotes.
- `_formatTime` is left out. It only formats the timestamp for display and feeds nothing else.
- Floating point is not modelled. Readings are exact decimals, so a sum or a rounding that a double would get slightly wrong is exact here. The contrast test is the integer form of the card's luminance comparison.
- Numbers.ParseFloat: reads numbers as exact decimals, with no double range. It does not read the literal `Infinity`. A numeral beyond the double range, such as `1e400`, stays finite here. It gets a colour and an exact delta, where the card gives no colour (`Number.isFinite` fails in `_getBackgroundColor`) and an infinite or NaN delta. It also does not keep the sign of a negative zero ("-0" reads as 0).
- Timestamps are represented by the instant they denote. Two different strings for the same instant compare equal here, while `===` in the card would tell them apart.
- The call to `_getTrendDescriptions` inside `_updateCurrentData` (src/sugartv-card.js:250-254) is left out: its result is discarded, and it has no effect on the record.
- `getConfigElement`, `getStubConfig`, `getCardSize` and `src/sugartv-card-editor.js` are not part of this model. They are editor plumbing and defaults with no logic of their own.
- `this.config` is absent before `setConfig`; the model starts from an accepted configuration.
- Colours are typed as strings. `setConfig` checks only the entity ids (src/sugartv-card.js:136-146), so a non-string colour can reach `_parseColor`. There it returns null (src/sugartv-card.js:420-422), and the contrast colour is white, as for any text that does not parse.
- JsText.ToLower: lower-cases only the ASCII capitals and the KELVIN SIGN. Other capitals, such as `Ä` or `Σ`, keep their case, and the one-to-many mappings of `toLowerCase` (`İ` becomes two characters) are not modelled. Neither can turn a text into one of the trend table's keys, which are ASCII lower case and `_`, so the lookup is unaffected.
- Colors.ParseColor: its own contract states only that every channel is in 0..255. Which texts it accepts is stated by ColorForms.HexLengths, ColorForms.PaddedColor, ColorForms.RgbaReadsBack and ColorForms.RgbaRejectsRed. Rejection is proved for a malformed red channel only, not for malformed green or blue channels, a malformed alpha or a missing `)`.
- Card.ViewOf: uses the corrected trend lookup `TrendOf`. The behaviour as written, where an inherited name shows no icon, is modelled by `Trends.LookupAsWritten` and `Trends.IconAsWritten` (see Findings).

## Findings

| source | as written | input that shows it | evidently intended | confidence | as-written member | corrected member |
|---|---|---|---|---|---|---|
| src/sugartv-card.js:463-467 | The trend is looked up with plain property access on an object literal, `trendSymbols[trend.toLowerCase()]`. Inherited `Object.prototype` properties therefore count as entries. | trend state "constructor" (or "Constructor", or "__proto__") | Text that is not one of the table's own keys should fall back to the `unknown` entry and its icon. | not executed | Trends.ConstructorShowsNoIcon | Trends.LookupsAgree |
