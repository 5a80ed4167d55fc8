/** The loosely typed JavaScript values a reading is made of, and the card's
    validity test on them (`_isValidValue`, src/sugartv-card.js:327-329). */
module Values {
  import opened Basics
  import opened JsText
  import opened Numbers

  /** A reading's value: `null` before the first reading, the number `0`
      written when an entity is missing, or an entity's state string.
      `Number` is kept general; only `Number(0)` ever arises. */
  datatype Value = Null | Number(n: int) | Text(s: string)

  /** A `last_changed` field. Host timestamps are represented by the instant
      they denote, in milliseconds; `Unset` is `null` (which `new Date`
      reads as the epoch) and `Garbled` is text that `new Date` cannot read. */
  datatype Stamp = Unset | At(ms: int) | Garbled(text: string)

  /** JavaScript truthiness. */
  predicate Truthy(v: Value) {
    match v
    case Null => false
    case Number(n) => n != 0
    case Text(s) => s != ""
  }

  /** `_isValidValue`: truthy and not one of the host's two sentinel states. */
  predicate IsValid(v: Value) {
    Truthy(v) && v != Text("unknown") && v != Text("unavailable")
  }

  /** The values the card treats as "no reading" are exactly `null`, the
      number 0, the empty string and the two sentinels; in particular the
      string "0" is a reading. */
  lemma InvalidValues(v: Value)
    ensures !IsValid(v) <==> v in {Null, Number(0), Text(""), Text("unknown"), Text("unavailable")}
    ensures IsValid(Text("0"))
  {
  }

  /** `parseFloat(String(v).replace(',', '.'))`: a host state may use a
      comma as its decimal separator; only the first comma is replaced. */
  function Parse(v: Value): (r: Num)
    ensures v.Null? ==> r.NaN?
    ensures v.Number? ==> r == Fin(FromInt(v.n))
    ensures v.Text? ==> r == ParseFloat(ReplaceFirst(v.s, ',', '.'))
  {
    match v
    case Null => NaN                        // String(null) is "null"
    case Number(n) => Fin(FromInt(n))
    case Text(s) => ParseFloat(ReplaceFirst(s, ',', '.'))
  }

  /** A decimal comma reads exactly like a decimal point. */
  lemma CommaReadsAsPoint(w: string, f: string)
    requires ',' !in w && ',' !in f
    ensures Parse(Text(w + "," + f)) == Parse(Text(w + "." + f))
  {
    ReplaceFirstAfter(w, ',', '.', f);
    assert ',' !in w + "." + f;
  }

  /** A state written as a plain decimal numeral parses to its value. */
  lemma ParseWhole(w: string)
    requires |w| >= 1 && AllDigits(w)
    ensures Parse(Text(w)) == Fin(Dec(Digits.DecimalValue(w), 0))
  {
    assert ',' !in w by {
      forall i | 0 <= i < |w| ensures w[i] != ',' { assert IsDigit(w[i]); }
    }
    ParseInteger(w);
  }

  /** A state written with a decimal point parses to its exact value. */
  lemma ParsePointed(w: string, f: string)
    requires |w| >= 1 && AllDigits(w) && |f| >= 1 && AllDigits(f)
    ensures Parse(Text(w + "." + f)) == Fin(Dec(Digits.DecimalValue(w) * Digits.Pow(10, |f|) + Digits.DecimalValue(f), |f|))
  {
    var s := w + "." + f;
    NoComma(w, f);
    assert ReplaceFirst(s, ',', '.') == s;
    ParseFraction(w, f);
  }

  lemma NoComma(w: string, f: string)
    requires AllDigits(w) && AllDigits(f)
    ensures ',' !in w + "." + f
  {
    var s := w + "." + f;
    forall i | 0 <= i < |s| ensures s[i] != ',' {
      if i < |w| { assert s[i] == w[i]; }
      else if i > |w| { assert s[i] == f[i - |w| - 1]; }
    }
  }

  /** `new Date(s).getTime()`: `None` stands for NaN. */
  function Millis(s: Stamp): (r: Option<int>)
    ensures r.None? <==> s.Garbled?
    ensures s.At? ==> r == Some(s.ms)
    ensures s.Unset? ==> r == Some(0)
  {
    match s
    case Unset => Some(0)
    case At(ms) => Some(ms)
    case Garbled(_) => None
  }
}
