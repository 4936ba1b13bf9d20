/**
 * Python's `float(str)` on the decimal forms the receipt code feeds it, with the
 * value kept as an exact rational (`real`) rather than the nearest binary double.
 */
module PyFloat {
  import opened Text
  import opened Wrappers

  function Pow10(n: nat): (p: nat)
    ensures p >= 1
  {
    if n == 0 then 1 else 10 * Pow10(n - 1)
  }

  /** The value of a string of ASCII digits, most significant first. */
  function DigitsValue(s: string): nat
    requires AllDigits(s)
  {
    if s == [] then 0 else 10 * DigitsValue(s[..|s| - 1]) + DigitValue(s[|s| - 1])
  }

  lemma {:induction false} DigitsValueConcat(a: string, b: string)
    requires AllDigits(a) && AllDigits(b)
    ensures AllDigits(a + b)
    ensures DigitsValue(a + b) == DigitsValue(a) * Pow10(|b|) + DigitsValue(b)
  {
    if b == [] {
      assert a + b == a;
    } else {
      var ab, b' := a + b, b[..|b| - 1];
      assert ab[..|ab| - 1] == a + b';
      assert ab[|ab| - 1] == b[|b| - 1];
      DigitsValueConcat(a, b');
      ShiftDigit(DigitsValue(a), Pow10(|b'|), DigitsValue(b'), DigitValue(b[|b| - 1]));
    }
  }

  lemma ShiftDigit(va: nat, p: nat, vb: nat, d: nat)
    ensures 10 * (va * p + vb) + d == va * (10 * p) + (10 * vb + d)
  {
  }

  /** The shortest decimal numeral of `n`, as `str(n)` writes it. */
  function NatDigits(n: nat): (s: string)
    ensures |s| >= 1 && AllDigits(s)
    ensures DigitsValue(s) == n
  {
    if n < 10 then [DigitChar(n)]
    else
      var s := NatDigits(n / 10) + [DigitChar(n % 10)];
      assert s[..|s| - 1] == NatDigits(n / 10);
      s
  }

  /** The number written `whole.frac`. */
  function DecimalValue(whole: string, frac: string): real
    requires AllDigits(whole) && AllDigits(frac)
  {
    DigitsValue(whole) as real + DigitsValue(frac) as real / Pow10(|frac|) as real
  }

  /** The unsigned forms accepted here: `ddd`, `ddd.`, `ddd.ddd` and `.ddd`. */
  function ParseUnsigned(t: string): (r: Option<real>)
    ensures r.Some? ==> HasDigit(t) && r.value >= 0.0
  {
    if '.' in t then
      var k := IndexOf(t, '.');
      var whole, frac := t[..k], t[k + 1..];
      if AllDigits(whole) && AllDigits(frac) && |whole| + |frac| > 0 then
        assert HasDigit(t) by {
          if |whole| > 0 { assert IsDigit(t[0]); } else { assert IsDigit(t[k + 1]); }
        }
        Some(DecimalValue(whole, frac))
      else None
    else if |t| > 0 && AllDigits(t) then
      assert IsDigit(t[0]);
      Some(DigitsValue(t) as real)
    else None
  }

  /**
   * `float(s)`: surrounding whitespace ignored, an optional sign, then an unsigned
   * decimal. `None` stands for the `ValueError` Python raises.
   */
  function ParseFloat(s: string): (r: Option<real>)
    ensures r.Some? ==> HasDigit(s)
  {
    var t := Strip(s);
    var r := if |t| > 0 && (t[0] == '+' || t[0] == '-') then
      match ParseUnsigned(t[1..])
      case None => None
      case Some(x) => Some(if t[0] == '-' then -x else x)
    else ParseUnsigned(t);
    assert r.Some? ==> HasDigit(s) by {
      if r.Some? {
        var a := StripParts(s);
        var i :| 0 <= i < |t| && IsDigit(t[i]);
        assert s[a + i] == t[i];
      }
    }
    r
  }

  /** A numeral with a decimal point reads back as its whole part plus its scaled fraction. */
  lemma DecimalNumeral(whole: string, frac: string)
    requires AllDigits(whole) && AllDigits(frac) && |whole| > 0
    ensures ParseFloat(whole + "." + frac)
         == Some(DecimalValue(whole, frac))
  {
    var t := whole + "." + frac;
    NumeralUnstripped(whole, frac);
    NumeralUnsigned(whole, frac);
    UnsignedText(t);
  }

  lemma NumeralUnstripped(whole: string, frac: string)
    requires AllDigits(whole) && AllDigits(frac) && |whole| > 0
    ensures Strip(whole + "." + frac) == whole + "." + frac
    ensures IsDigit((whole + "." + frac)[0])
  {
    var t := whole + "." + frac;
    assert t[0] == whole[0];
    assert t[|t| - 1] == if frac == [] then '.' else frac[|frac| - 1];
    StripUnchanged(t);
  }

  lemma NumeralUnsigned(whole: string, frac: string)
    requires AllDigits(whole) && AllDigits(frac) && |whole| > 0
    ensures ParseUnsigned(whole + "." + frac)
         == Some(DecimalValue(whole, frac))
  {
    var t := whole + "." + frac;
    IndexOfConcat(whole, frac);
    var k := IndexOf(t, '.');
    assert k == |whole|;
    assert t[..k] == whole && t[k + 1..] == frac;
    assert '.' in t;
    assert |t[..k]| + |t[k + 1..]| > 0;
  }

  lemma UnsignedText(t: string)
    requires Strip(t) == t && t != [] && IsDigit(t[0])
    ensures ParseFloat(t) == ParseUnsigned(t)
  {
  }

  lemma IndexOfConcat(whole: string, frac: string)
    requires AllDigits(whole)
    ensures IndexOf(whole + "." + frac, '.') == |whole|
  {
    var t := whole + "." + frac;
    assert t[|whole|] == '.';
  }

  /** A numeral with no decimal point reads back as an integer. */
  lemma WholeNumeral(whole: string)
    requires AllDigits(whole) && |whole| > 0
    ensures ParseFloat(whole) == Some(DigitsValue(whole) as real)
  {
    StripUnchanged(whole);
    assert IsDigit(whole[0]);
    UnsignedText(whole);
    WholeUnsigned(whole);
  }

  lemma WholeUnsigned(whole: string)
    requires AllDigits(whole) && |whole| > 0
    ensures ParseUnsigned(whole) == Some(DigitsValue(whole) as real)
  {
    assert '.' !in whole by {
      forall i | 0 <= i < |whole| ensures whole[i] != '.' {
        assert IsDigit(whole[i]);
      }
    }
  }

  /** Text with no digit at all is refused, like `float("abc")`. */
  lemma NoDigitNoNumber(s: string)
    requires !HasDigit(s)
    ensures ParseFloat(s) == None
  {
  }
}
