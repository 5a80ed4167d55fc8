/** The handful of ECMAScript string primitives the card relies on:
    `trim`, `toLowerCase`, `replace` with a one-character pattern, and the
    character classes `\s` and `\d` of its regular expressions. */
module JsText {

  /** ECMAScript WhiteSpace and LineTerminator code points: the set that
      `String.prototype.trim` removes, `\s` matches and `parseFloat` skips. */
  predicate IsSpace(c: char) {
    || c == '\t' || c == '\n' || c == '\U{B}' || c == '\U{C}' || c == '\r'
    || c == ' ' || c == '\U{A0}' || c == '\U{1680}'
    || ('\U{2000}' <= c <= '\U{200A}')
    || c == '\U{2028}' || c == '\U{2029}' || c == '\U{202F}' || c == '\U{205F}'
    || c == '\U{3000}' || c == '\U{FEFF}'
  }

  /** `\d`: the ASCII decimal digits only. */
  predicate IsDigit(c: char) {
    '0' <= c <= '9'
  }

  lemma DigitIsNoSpace(c: char)
    requires IsDigit(c)
    ensures !IsSpace(c)
  {
  }

  function DigitValue(c: char): (d: nat)
    requires IsDigit(c)
    ensures d < 10
  {
    (c as int - '0' as int) as nat
  }

  predicate AllDigits(s: string) {
    forall i :: 0 <= i < |s| ==> IsDigit(s[i])
  }

  /** Length of the longest run of digits at the front of `s`. */
  function DigitRun(s: string): (n: nat)
    ensures n <= |s|
    ensures AllDigits(s[..n])
    ensures n == |s| || !IsDigit(s[n])
  {
    if |s| == 0 || !IsDigit(s[0]) then 0 else 1 + DigitRun(s[1..])
  }

  /** A digit run is determined by where it stops: any prefix of digits
      that is followed by a non-digit (or the end) is the run. */
  lemma {:induction false} DigitRunStopsAt(s: string, k: nat)
    requires k <= |s| && AllDigits(s[..k])
    requires k == |s| || !IsDigit(s[k])
    ensures DigitRun(s) == k
  {
    if k > 0 {
      assert IsDigit(s[..k][0]);
      assert s[1..][..k - 1] == s[1..k];
      DigitRunStopsAt(s[1..], k - 1);
    }
  }

  /** `s` with its leading white space removed. */
  function TrimStart(s: string): (r: string)
    ensures |r| <= |s| && r == s[|s| - |r|..]
    ensures |r| == 0 || !IsSpace(r[0])
  {
    if |s| > 0 && IsSpace(s[0]) then TrimStart(s[1..]) else s
  }

  /** What `TrimStart` removes is white space only. */
  lemma {:induction false} TrimStartDropsSpace(s: string)
    ensures forall i :: 0 <= i < |s| - |TrimStart(s)| ==> IsSpace(s[i])
  {
    if |s| > 0 && IsSpace(s[0]) {
      var r := TrimStart(s[1..]);
      assert TrimStart(s) == r;
      TrimStartDropsSpace(s[1..]);
      forall i | 1 <= i < |s| - |r| ensures IsSpace(s[i]) {
        assert s[i] == s[1..][i - 1];
      }
    }
  }

  /** `s` with its trailing white space removed. */
  function TrimEnd(s: string): (r: string)
    ensures |r| <= |s| && r == s[..|r|]
    ensures |r| == 0 || !IsSpace(r[|r| - 1])
  {
    if |s| > 0 && IsSpace(s[|s| - 1]) then TrimEnd(s[..|s| - 1]) else s
  }

  /** What `TrimEnd` removes is white space only. */
  lemma {:induction false} TrimEndDropsSpace(s: string)
    ensures forall i :: |TrimEnd(s)| <= i < |s| ==> IsSpace(s[i])
  {
    if |s| > 0 && IsSpace(s[|s| - 1]) {
      var r := TrimEnd(s[..|s| - 1]);
      assert TrimEnd(s) == r;
      TrimEndDropsSpace(s[..|s| - 1]);
      forall i | |r| <= i < |s| - 1 ensures IsSpace(s[i]) {
        assert s[i] == s[..|s| - 1][i];
      }
    }
  }

  /** `String.prototype.trim`. */
  function Trim(s: string): (r: string)
    ensures |r| == 0 || (!IsSpace(r[0]) && !IsSpace(r[|r| - 1]))
    ensures |s| == 0 || (!IsSpace(s[0]) && !IsSpace(s[|s| - 1])) ==> r == s
  {
    TrimEnd(TrimStart(s))
  }

  predicate AllSpaces(s: string) {
    forall i :: 0 <= i < |s| ==> IsSpace(s[i])
  }

  /** Leading white space before a non-space character is what
      `TrimStart` removes. */
  lemma TrimStartPadded(sp: string, r: string)
    requires AllSpaces(sp) && |r| >= 1 && !IsSpace(r[0])
    ensures TrimStart(sp + r) == r
  {
    var s := sp + r;
    var k := |s| - |TrimStart(s)|;
    TrimStartDropsSpace(s);
    assert s[|sp|] == r[0];
    assert forall i :: 0 <= i < |sp| ==> IsSpace(s[i]) by {
      assert s[..|sp|] == sp;
    }
    assert k == |sp|;
  }

  /** Trailing white space after a non-space character is what `TrimEnd`
      removes. */
  lemma TrimEndPadded(t: string, sq: string)
    requires AllSpaces(sq) && |t| >= 1 && !IsSpace(t[|t| - 1])
    ensures TrimEnd(t + sq) == t
  {
    var a := t + sq;
    TrimEndDropsSpace(a);
    assert a[|t| - 1] == t[|t| - 1];
    assert forall i :: |t| <= i < |a| ==> IsSpace(a[i]) by {
      assert a[|t|..] == sq;
    }
    assert |TrimEnd(a)| == |t|;
  }

  /** `trim` removes exactly the white space around a text that neither
      starts nor ends with white space. */
  lemma TrimPadded(sp: string, t: string, sq: string)
    requires AllSpaces(sp) && AllSpaces(sq)
    requires |t| >= 1 && !IsSpace(t[0]) && !IsSpace(t[|t| - 1])
    ensures Trim(sp + t + sq) == t
  {
    assert sp + t + sq == sp + (t + sq);
    TrimStartPadded(sp, t + sq);
    TrimEndPadded(t, sq);
  }

  /** Lower-casing as far as it can change whether a string equals a key
      made of ASCII lower-case letters and `_`: the ASCII capitals and the
      KELVIN SIGN, the one other code point whose lower case is plain ASCII.
      Every other character keeps a non-ASCII image and cannot match either way. */
  function LowerChar(c: char): char {
    if 'A' <= c <= 'Z' then (c as int + 32) as char
    else if c == '\U{212A}' then 'k'
    else c
  }

  function ToLower(s: string): (r: string)
    ensures |r| == |s|
    ensures forall i :: 0 <= i < |s| ==> r[i] == LowerChar(s[i])
  {
    if |s| == 0 then "" else [LowerChar(s[0])] + ToLower(s[1..])
  }

  /** `s.replace(from, to)` with a one-character string pattern: only the
      first occurrence is replaced. */
  function ReplaceFirst(s: string, from: char, to: char): (r: string)
    ensures |r| == |s|
    ensures from !in s ==> r == s
  {
    if |s| == 0 then s
    else if s[0] == from then [to] + s[1..]
    else [s[0]] + ReplaceFirst(s[1..], from, to)
  }

  /** Replacing the first `from` in a text whose prefix `w` has none touches
      exactly the character after `w`. */
  lemma {:induction false} ReplaceFirstAfter(w: string, from: char, to: char, f: string)
    requires from !in w
    ensures ReplaceFirst(w + [from] + f, from, to) == w + [to] + f
    decreases |w|
  {
    var s := w + [from] + f;
    if |w| > 0 {
      var rest := w[1..] + [from] + f;
      assert s[0] == w[0] && s[1..] == rest by {
        assert s == [w[0]] + rest;
      }
      assert w[0] != from by {
        assert w[0] in w;
      }
      assert ReplaceFirst(s, from, to) == [w[0]] + ReplaceFirst(rest, from, to);
      ReplaceFirstAfter(w[1..], from, to, f);
      assert [w[0]] + (w[1..] + [to] + f) == w + [to] + f by {
        assert w == [w[0]] + w[1..];
      }
    } else {
      assert s[1..] == f;
    }
  }
}
