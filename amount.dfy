/**
 * Amounts in the Serbian convention, where `.` groups thousands and `,` is the
 * decimal point: `_num_to_cents` for text scraped from the receipt page, and the
 * cleanup `_try_params` applies to an amount taken from the query string.
 */
module Amount {
  import opened Text
  import opened Wrappers
  import opened PyFloat

  predicate IsDot(c: char) { c == '.' }

  /** The text `_num_to_cents` hands to `float()`: whitespace and `.` removed, `,` turned into `.`. */
  function SerbianClean(s: string): string {
    ReplaceChar(Remove(Remove(s, IsSpace), IsDot), ',', '.')
  }

  /**
   * The cleaned text has no whitespace and no `,`, as many `.` as the input had `,`,
   * and every other character comes from the input.
   */
  lemma SerbianCleanShape(s: string)
    ensures forall i :: 0 <= i < |SerbianClean(s)| ==> !IsSpace(SerbianClean(s)[i]) && SerbianClean(s)[i] != ','
    ensures Count(SerbianClean(s), '.') == Count(s, ',')
    ensures forall i :: 0 <= i < |SerbianClean(s)| && SerbianClean(s)[i] != '.' ==> SerbianClean(s)[i] in s
  {
    CleanedChars(s);
    CleanedDots(s);
  }

  lemma CleanedChars(s: string)
    ensures forall i :: 0 <= i < |SerbianClean(s)| ==> !IsSpace(SerbianClean(s)[i]) && SerbianClean(s)[i] != ','
    ensures forall i :: 0 <= i < |SerbianClean(s)| && SerbianClean(s)[i] != '.' ==> SerbianClean(s)[i] in s
  {
    var kept := Remove(Remove(s, IsSpace), IsDot);
    var r := ReplaceChar(kept, ',', '.');
    assert forall i :: 0 <= i < |r| && r[i] != '.' ==> r[i] == kept[i] && kept[i] in Remove(s, IsSpace);
  }

  lemma CleanedDots(s: string)
    ensures Count(SerbianClean(s), '.') == Count(s, ',')
  {
    var kept := Remove(Remove(s, IsSpace), IsDot);
    CountRemove(s, IsSpace, ',');
    CountRemove(Remove(s, IsSpace), IsDot, ',');
    CountRemove(Remove(s, IsSpace), IsDot, '.');
    CountReplace(kept, ',', '.');
  }

  lemma {:induction false} SerbianCleanConcat(a: string, b: string)
    ensures SerbianClean(a + b) == SerbianClean(a) + SerbianClean(b)
  {
    RemoveConcat(a, b, IsSpace);
    RemoveConcat(Remove(a, IsSpace), Remove(b, IsSpace), IsDot);
    ReplaceConcat(Remove(Remove(a, IsSpace), IsDot), Remove(Remove(b, IsSpace), IsDot), ',', '.');
  }

  lemma ReplaceConcat(a: string, b: string, x: char, y: char)
    ensures ReplaceChar(a + b, x, y) == ReplaceChar(a, x, y) + ReplaceChar(b, x, y)
  {
    var l, r := ReplaceChar(a + b, x, y), ReplaceChar(a, x, y) + ReplaceChar(b, x, y);
    assert forall i :: 0 <= i < |l| ==> l[i] == r[i] by {
      forall i | 0 <= i < |l| ensures l[i] == r[i] {
        if i < |a| { assert (a + b)[i] == a[i]; } else { assert (a + b)[i] == b[i - |a|]; }
      }
    }
  }

  /** Digits pass the page cleanup unchanged. */
  lemma SerbianCleanDigits(s: string)
    requires AllDigits(s)
    ensures SerbianClean(s) == s
  {
    assert forall i :: 0 <= i < |s| ==> !IsSpace(s[i]) && !IsDot(s[i]);
    assert Remove(Remove(s, IsSpace), IsDot) == s;
    assert ReplaceChar(s, ',', '.') == s;
  }

  /** `_num_to_cents`: the float value of the cleaned text; `None` where `float()` raises. */
  function NumToCents(s: string): (r: Option<real>)
    ensures r.Some? ==> HasDigit(s)
  {
    var r := ParseFloat(SerbianClean(s));
    assert r.Some? ==> HasDigit(s) by {
      if r.Some? {
        var c := SerbianClean(s);
        SerbianCleanShape(s);
        var i :| 0 <= i < |c| && IsDigit(c[i]);
        assert c[i] != '.' && c[i] in s;
      }
    }
    r
  }

  /** The query-string path of `_try_params`: `.` removed and `,` turned into `.`, whitespace kept. */
  function QueryClean(s: string): string {
    ReplaceChar(Remove(s, IsDot), ',', '.')
  }

  /** The query cleanup leaves no `,` and as many `.` as the input had `,`; whitespace stays where it was. */
  lemma QueryCleanShape(s: string)
    ensures forall i :: 0 <= i < |QueryClean(s)| ==> QueryClean(s)[i] != ','
    ensures Count(QueryClean(s), '.') == Count(s, ',')
    ensures Count(QueryClean(s), ' ') == Count(s, ' ')
  {
    CountRemove(s, IsDot, ',');
    CountRemove(s, IsDot, '.');
    CountRemove(s, IsDot, ' ');
    CountReplace(Remove(s, IsDot), ',', '.');
    CountReplaceOther(Remove(s, IsDot), ',', '.', ' ');
  }

  function QueryAmount(s: string): Option<real> {
    ParseFloat(QueryClean(s))
  }

  /** Without whitespace in the text, the query path and the page path read the same amount. */
  lemma QueryAgreesWithoutSpace(s: string)
    requires forall i :: 0 <= i < |s| ==> !IsSpace(s[i])
    ensures QueryAmount(s) == NumToCents(s)
  {
    assert Remove(s, IsSpace) == s;
  }

  /** Three-digit group `n` with leading zeros. */
  function Group3(n: nat): (s: string)
    requires n < 1000
    ensures |s| == 3 && AllDigits(s) && DigitsValue(s) == n
  {
    var s := [DigitChar(n / 100), DigitChar(n / 10 % 10), DigitChar(n % 10)];
    assert s[..2][..1] == s[..1];
    assert DigitsValue(s[..1]) == n / 100 by { assert s[..1][..0] == []; }
    assert DigitsValue(s[..2]) == 10 * (n / 100) + n / 10 % 10;
    s
  }

  /** `units` written with `.` between groups of three digits, as on a Serbian receipt. */
  function Grouped(units: nat): (s: string)
    ensures |s| >= 1 && IsDigit(s[0]) && IsDigit(s[|s| - 1])
  {
    if units < 1000 then NatDigits(units)
    else
      var s := Grouped(units / 1000) + "." + Group3(units % 1000);
      assert s[0] == Grouped(units / 1000)[0];
      s
  }

  /** The two-digit cents field. */
  function Cents2(cents: nat): (s: string)
    requires cents < 100
    ensures |s| == 2 && AllDigits(s) && DigitsValue(s) == cents
  {
    var s := [DigitChar(cents / 10), DigitChar(cents % 10)];
    assert s[..1] == [DigitChar(cents / 10)];
    assert s[..1][..0] == [];
    assert DigitsValue(s[..1]) == cents / 10;
    s
  }

  /** An amount as the receipt page prints it: grouped units, `,`, two-digit cents. */
  function SerbianAmountText(units: nat, cents: nat): (s: string)
    requires cents < 100
  {
    Grouped(units) + "," + Cents2(cents)
  }

  lemma GroupedUnfold(units: nat)
    requires units >= 1000
    ensures Grouped(units) == (Grouped(units / 1000) + ".") + Group3(units % 1000)
  {
  }

  /** Cleaning `Grouped(units)` leaves a numeral of `units`. */
  lemma {:induction false} GroupedClean(units: nat)
    ensures AllDigits(SerbianClean(Grouped(units)))
    ensures |SerbianClean(Grouped(units))| >= 1
    ensures DigitsValue(SerbianClean(Grouped(units))) == units
  {
    if units < 1000 {
      SerbianCleanDigits(NatDigits(units));
    } else {
      var hi, lo := Grouped(units / 1000), Group3(units % 1000);
      GroupedClean(units / 1000);
      GroupedUnfold(units);
      var d := SerbianClean(hi);
      assert SerbianClean(Grouped(units)) == d + lo by {
        SerbianCleanConcat(hi + ".", lo);
        SerbianCleanConcat(hi, ".");
        assert SerbianClean(".") == "";
        SerbianCleanDigits(lo);
        assert d + "" == d;
      }
      DigitsValueConcat(d, lo);
      assert Pow10(3) == 1000;
      assert DigitsValue(d + lo) == (units / 1000) * 1000 + units % 1000;
    }
  }

  lemma NoDotKept(s: string)
    requires forall i :: 0 <= i < |s| ==> s[i] != '.'
    ensures Remove(s, IsDot) == s
  {
    assert forall i :: 0 <= i < |s| ==> !IsDot(s[i]);
  }

  /** What `_num_to_cents` hands to `float()` for a printed amount: the bare numeral `units.cents`. */
  lemma SerbianAmountCleaned(units: nat, cents: nat)
    requires cents < 100
    ensures SerbianClean(SerbianAmountText(units, cents))
         == SerbianClean(Grouped(units)) + "." + Cents2(cents)
  {
    var g := Grouped(units);
    var c2 := Cents2(cents);
    SerbianCleanConcat(g + ",", c2);
    SerbianCleanConcat(g, ",");
    CommaCleaned(",");
    SerbianCleanDigits(c2);
  }

  lemma CommaCleaned(s: string)
    requires s == ","
    ensures SerbianClean(s) == "."
  {
    assert Remove(s, IsSpace) == s by { assert !IsSpace(s[0]); }
    assert Remove(s, IsDot) == s;
  }

  lemma CentsValue(d: string, c2: string, units: nat, cents: nat)
    requires AllDigits(d) && AllDigits(c2) && |c2| == 2
    requires DigitsValue(d) == units && DigitsValue(c2) == cents
    ensures DecimalValue(d, c2) == units as real + cents as real / 100.0
  {
    assert Pow10(2) == 100;
  }

  /** Round trip of the Serbian convention: a printed amount reads back as units plus cents. */
  lemma SerbianAmountRoundTrip(units: nat, cents: nat)
    requires cents < 100
    ensures NumToCents(SerbianAmountText(units, cents)) == Some(units as real + cents as real / 100.0)
  {
    var c2 := Cents2(cents);
    GroupedClean(units);
    var d := SerbianClean(Grouped(units));
    calc {
      NumToCents(SerbianAmountText(units, cents));
      ParseFloat(SerbianClean(SerbianAmountText(units, cents)));
      { SerbianAmountCleaned(units, cents); }
      ParseFloat(d + "." + c2);
      { DecimalNumeral(d, c2); }
      Some(DecimalValue(d, c2));
      { CentsValue(d, c2, units, cents); }
      Some(units as real + cents as real / 100.0);
    }
  }

  /** `"1.234,56"` is 1234.56. */
  lemma ExampleThousands()
    ensures NumToCents("1.234,56") == Some(1234.56)
  {
    assert Group3(234) == "234";
    assert Grouped(1234) == "1.234";
    assert SerbianAmountText(1234, 56) == "1.234,56";
    SerbianAmountRoundTrip(1234, 56);
  }

  /** The same text in a query string: no whitespace, so the same value. */
  lemma ExampleThousandsQuery(a: string)
    requires a == "1.234,56"
    ensures QueryAmount(a) == Some(1234.56)
  {
    assert forall i :: 0 <= i < |a| ==> !IsSpace(a[i]);
    QueryAgreesWithoutSpace(a);
    ExampleThousands();
  }

  lemma QueryCleanPlain(t: string)
    requires forall i :: 0 <= i < |t| ==> t[i] != '.' && t[i] != ','
    ensures QueryClean(t) == t
  {
    NoDotKept(t);
  }

  /** Digits, a space, digits: none of the characters either cleanup rewrites. */
  lemma SpacedDigits(a: string, b: string)
    requires AllDigits(a) && AllDigits(b) && |a| > 0 && |b| > 0
    ensures forall i :: 0 <= i < |a + " " + b| ==> IsDigit((a + " " + b)[i]) || (a + " " + b)[i] == ' '
    ensures Strip(a + " " + b) == a + " " + b
    ensures !AllDigits(a + " " + b)
  {
    var t := a + " " + b;
    forall i | 0 <= i < |t| ensures IsDigit(t[i]) || t[i] == ' ' {
      if i < |a| { assert t[i] == a[i]; } else if i > |a| { assert t[i] == b[i - |a| - 1]; }
    }
    assert t[0] == a[0] && t[|t| - 1] == b[|b| - 1];
    StripUnchanged(t);
    assert t[|a|] == ' ';
  }

  /**
   * The query path keeps whitespace, so digit groups separated by a space are
   * refused there, while the page path reads them as one number.
   */
  lemma SpaceSplitsQueryAmount(a: string, b: string)
    requires AllDigits(a) && AllDigits(b) && |a| > 0 && |b| > 0
    ensures QueryAmount(a + " " + b) == None
    ensures NumToCents(a + " " + b) == Some(DigitsValue(a + b) as real)
  {
    SpacedQuery(a, b);
    SpacedPage(a, b);
  }

  lemma SpacedQuery(a: string, b: string)
    requires AllDigits(a) && AllDigits(b) && |a| > 0 && |b| > 0
    ensures QueryAmount(a + " " + b) == None
  {
    var t := a + " " + b;
    SpacedDigits(a, b);
    QueryCleanPlain(t);
    assert '.' !in t;
    assert t[0] == a[0];
    UnsignedText(t);
  }

  lemma SpacedPage(a: string, b: string)
    requires AllDigits(a) && AllDigits(b) && |a| > 0 && |b| > 0
    ensures NumToCents(a + " " + b) == Some(DigitsValue(a + b) as real)
  {
    SpacedClean(a, b);
    DigitsValueConcat(a, b);
    WholeNumeral(a + b);
  }

  /** The page cleanup drops the space between two digit groups. */
  lemma SpacedClean(a: string, b: string)
    requires AllDigits(a) && AllDigits(b)
    ensures SerbianClean(a + " " + b) == a + b
  {
    SpaceGapRemoved(a, b);
    SerbianCleanDigits(a + b);
  }

  lemma SpaceGapRemoved(a: string, b: string)
    requires AllDigits(a) && AllDigits(b)
    ensures Remove(a + " " + b, IsSpace) == a + b
  {
    TrailingSpaceRemoved(a);
    assert Remove(b, IsSpace) == b by { assert forall i :: 0 <= i < |b| ==> !IsSpace(b[i]); }
    RemoveConcat(a + " ", b, IsSpace);
  }

  lemma TrailingSpaceRemoved(a: string)
    requires AllDigits(a)
    ensures Remove(a + " ", IsSpace) == a
  {
    assert Remove(a, IsSpace) == a by { assert forall i :: 0 <= i < |a| ==> !IsSpace(a[i]); }
    RemoveConcat(a, " ", IsSpace);
    SpaceRemoved(" ");
  }

  lemma SpaceRemoved(s: string)
    requires s == " "
    ensures Remove(s, IsSpace) == []
  {
    assert IsSpace(s[0]) && s[1..] == [];
  }
}
