/** Positional notation: the value of a digit string in a given base
    (what `parseInt(s, 10)` and `parseInt(s, 16)` compute for strings made
    only of digits) and the decimal digits of a natural number. */
module Digits {
  import opened JsText

  function Pow(base: nat, n: nat): (r: nat)
    ensures base >= 1 ==> r >= 1
  {
    if n == 0 then 1 else base * Pow(base, n - 1)
  }

  lemma {:induction false} PowAdd(base: nat, a: nat, b: nat)
    ensures Pow(base, a + b) == Pow(base, a) * Pow(base, b)
    decreases b
  {
    if b > 0 {
      PowAdd(base, a, b - 1);
      MulSwap(base, Pow(base, a), Pow(base, b - 1));
    }
  }

  lemma MulSwap(x: int, y: int, z: int)
    ensures x * (y * z) == y * (x * z)
  {
  }

  lemma MulAddShift(a: int, p: int, h: int, b: int)
    ensures (a * p + h) * b == a * (p * b) + h * b
  {
  }

  /** Horner evaluation of a most-significant-first digit sequence. */
  function Horner(ds: seq<nat>, base: nat): nat {
    if |ds| == 0 then 0 else Horner(ds[..|ds| - 1], base) * base + ds[|ds| - 1]
  }

  /** Reading the digits of `xs + ys` is reading `xs`, shifting it by
      `|ys|` places, and adding the value of `ys`. */
  lemma {:induction false} HornerAppend(xs: seq<nat>, ys: seq<nat>, base: nat)
    ensures Horner(xs + ys, base) == Horner(xs, base) * Pow(base, |ys|) + Horner(ys, base)
    decreases |ys|
  {
    if |ys| == 0 {
      assert xs + ys == xs;
    } else {
      var init := ys[..|ys| - 1];
      var last := ys[|ys| - 1];
      assert (xs + ys)[..|xs + ys| - 1] == xs + init;
      HornerAppend(xs, init, base);
      var hx := Horner(xs, base);
      var p := Pow(base, |init|);
      assert Horner(xs + ys, base) == Horner(xs + init, base) * base + last;
      assert Horner(ys, base) == Horner(init, base) * base + last;
      assert p * base == Pow(base, |ys|);
      MulAddShift(hx, p, Horner(init, base), base);
    }
  }

  lemma MulLe(a: int, b: int, c: nat)
    requires a <= b
    ensures a * c <= b * c
  {
  }

  /** The digit values of a string of decimal digits. */
  function DecimalDigits(s: string): (ds: seq<nat>)
    requires AllDigits(s)
    ensures |ds| == |s|
    ensures forall i :: 0 <= i < |s| ==> ds[i] == DigitValue(s[i]) && ds[i] < 10
  {
    seq(|s|, i requires 0 <= i < |s| => DigitValue(s[i]))
  }

  /** `parseInt(s, 10)` for a non-empty string of decimal digits. */
  function DecimalValue(s: string): nat
    requires AllDigits(s)
  {
    Horner(DecimalDigits(s), 10)
  }

  lemma DecimalValueAppend(a: string, b: string)
    requires AllDigits(a) && AllDigits(b)
    ensures AllDigits(a + b)
    ensures DecimalValue(a + b) == DecimalValue(a) * Pow(10, |b|) + DecimalValue(b)
  {
    AllDigitsAppend(a, b);
    DigitsOfAppend(a, b);
    HornerAppend(DecimalDigits(a), DecimalDigits(b), 10);
  }

  lemma AllDigitsAppend(a: string, b: string)
    requires AllDigits(a) && AllDigits(b)
    ensures AllDigits(a + b)
  {
    forall i | 0 <= i < |a + b| ensures IsDigit((a + b)[i]) {
      if i >= |a| { assert (a + b)[i] == b[i - |a|]; }
    }
  }

  lemma DigitsOfAppend(a: string, b: string)
    requires AllDigits(a) && AllDigits(b) && AllDigits(a + b)
    ensures DecimalDigits(a + b) == DecimalDigits(a) + DecimalDigits(b)
  {
    var da, db := DecimalDigits(a), DecimalDigits(b);
    forall i | 0 <= i < |a + b| ensures DecimalDigits(a + b)[i] == (da + db)[i] {
      if i < |a| {
        assert (a + b)[i] == a[i];
      } else {
        assert (a + b)[i] == b[i - |a|];
      }
    }
  }

  /** Appending one digit shifts the value by one place. */
  lemma DigitAppend(w: string, c: char)
    requires AllDigits(w) && IsDigit(c)
    ensures AllDigits(w + [c])
    ensures DecimalValue(w + [c]) == DecimalValue(w) * 10 + DigitValue(c)
  {
    AllDigitsAppend(w, [c]);
    var ds := DecimalDigits(w + [c]);
    assert ds[..|w|] == DecimalDigits(w);
  }

  lemma DecimalValueSingle(c: char)
    requires IsDigit(c)
    ensures DecimalValue([c]) == DigitValue(c)
  {
    var ds := DecimalDigits([c]);
    assert ds == [DigitValue(c)];
    assert ds[..0] == [];
    assert Horner(ds, 10) == Horner([], 10) * 10 + DigitValue(c);
  }

  function DigitChar(d: nat): (c: char)
    requires d < 10
    ensures IsDigit(c) && DigitValue(c) == d
  {
    ('0' as int + d) as char
  }

  /** The shortest decimal numeral of `n`; reading it back gives `n`. */
  function NatDigits(n: nat): (s: string)
    ensures |s| >= 1 && AllDigits(s)
    ensures DecimalValue(s) == n
    ensures |s| > 1 ==> s[0] != '0'
    decreases n
  {
    if n < 10 then
      DecimalValueSingle(DigitChar(n));
      [DigitChar(n)]
    else
      var front := NatDigits(n / 10);
      var s := front + [DigitChar(n % 10)];
      DecimalValueAppend(front, [DigitChar(n % 10)]);
      DecimalValueSingle(DigitChar(n % 10));
      s
  }
}
