/**
 * Character classes and string helpers with Python's meaning:
 * `str.isspace()` (which is also what `\s` matches in a `str` pattern),
 * `str.strip()`, `str.replace` of one character, and splitting into lines.
 */
module Text {

  /** Python's `str.isspace()`; the regex class `\s` on `str` matches the same characters. */
  predicate IsSpace(c: char) {
    c == ' ' || ('\t' <= c <= '\r') || ('\U{1C}' <= c <= '\U{1F}') || c == '\U{85}' || c == '\U{A0}'
    || c == '\U{1680}' || ('\U{2000}' <= c <= '\U{200A}') || c == '\U{2028}' || c == '\U{2029}'
    || c == '\U{202F}' || c == '\U{205F}' || c == '\U{3000}'
  }

  /** The ASCII digits; `\d` is modelled by this class (see README). */
  predicate IsDigit(c: char) {
    '0' <= c <= '9'
  }

  function DigitValue(c: char): (d: nat)
    requires IsDigit(c)
    ensures d < 10
  {
    c as int - '0' as int
  }

  function DigitChar(d: nat): (c: char)
    requires d < 10
    ensures IsDigit(c) && DigitValue(c) == d
  {
    ('0' as int + d) as char
  }

  predicate AllDigits(s: string) {
    forall i :: 0 <= i < |s| ==> IsDigit(s[i])
  }

  predicate HasDigit(s: string) {
    exists i :: 0 <= i < |s| && IsDigit(s[i])
  }

  /** Number of leading whitespace characters of `s`. */
  function LeadingSpace(s: string): (n: nat)
    ensures n <= |s|
    ensures forall i :: 0 <= i < n ==> IsSpace(s[i])
    ensures n < |s| ==> !IsSpace(s[n])
  {
    if s == [] || !IsSpace(s[0]) then 0 else 1 + LeadingSpace(s[1..])
  }

  /** Number of trailing whitespace characters of `s`. */
  function TrailingSpace(s: string): (n: nat)
    ensures n <= |s|
    ensures forall i :: |s| - n <= i < |s| ==> IsSpace(s[i])
    ensures n < |s| ==> !IsSpace(s[|s| - n - 1])
  {
    if s == [] || !IsSpace(s[|s| - 1]) then 0 else 1 + TrailingSpace(s[..|s| - 1])
  }

  /** Python's `s.strip()`: the longest infix with no whitespace at either end. */
  function Strip(s: string): (r: string)
    ensures |r| <= |s|
    ensures Stripped(r)
    ensures (forall i :: 0 <= i < |s| ==> !IsSpace(s[i])) ==> r == s
  {
    var a := LeadingSpace(s);
    if a == |s| then [] else
      var t := s[a..];
      var b := TrailingSpace(t);
      assert b < |t|;
      t[..|t| - b]
  }

  /** What `str.strip()` leaves: no whitespace at either end. */
  predicate Stripped(s: string) {
    s == [] || (!IsSpace(s[0]) && !IsSpace(s[|s| - 1]))
  }

  /** What `Strip` removes is whitespace: `s` is `Strip(s)` with a whitespace prefix and suffix. */
  lemma StripParts(s: string) returns (a: nat)
    ensures a + |Strip(s)| <= |s| && Strip(s) == s[a..a + |Strip(s)|]
    ensures forall i :: 0 <= i < a ==> IsSpace(s[i])
    ensures forall i :: a + |Strip(s)| <= i < |s| ==> IsSpace(s[i])
  {
    a := LeadingSpace(s);
    if a < |s| {
      var t := s[a..];
      var b := TrailingSpace(t);
      assert Strip(s) == t[..|t| - b];
      assert Strip(s) == s[a..a + |Strip(s)|];
      assert forall i :: a + |Strip(s)| <= i < |s| ==> s[i] == t[i - a];
    } else {
      assert Strip(s) == [];
    }
  }

  lemma StripUnchanged(s: string)
    requires s != [] && !IsSpace(s[0]) && !IsSpace(s[|s| - 1])
    ensures Strip(s) == s
  {
    assert LeadingSpace(s) == 0;
    assert TrailingSpace(s) == 0;
  }

  /** A space added at the end makes no difference once the text is stripped. */
  lemma StripSpaceEnd(s: string)
    ensures Strip(s + " ") == Strip(s)
  {
    var t := s + " ";
    var a := LeadingSpace(s);
    if a == |s| {
      LeadingAllSpace(t);
      StripEmpty(s);
    } else {
      LeadingSpaceAppend(s, " ");
      var u := s[a..];
      assert t[a..] == u + " ";
      assert (u + " ")[..|u + " "| - 1] == u;
      assert TrailingSpace(u + " ") == 1 + TrailingSpace(u);
    }
  }

  lemma {:induction false} LeadingSpaceAppend(s: string, t: string)
    requires LeadingSpace(s) < |s|
    ensures LeadingSpace(s + t) == LeadingSpace(s)
  {
    assert (s + t)[0] == s[0];
    if IsSpace(s[0]) {
      assert (s + t)[1..] == s[1..] + t;
      LeadingSpaceAppend(s[1..], t);
    }
  }

  lemma {:induction false} LeadingAllSpace(s: string)
    requires forall i :: 0 <= i < |s| ==> IsSpace(s[i])
    ensures LeadingSpace(s) == |s|
  {
    if s != [] {
      LeadingAllSpace(s[1..]);
    }
  }

  /** Python's `bool(s.strip())`: `s` holds something other than whitespace. */
  lemma {:induction false} StripEmpty(s: string)
    ensures Strip(s) == [] <==> forall i :: 0 <= i < |s| ==> IsSpace(s[i])
  {
    var a := LeadingSpace(s);
    if a < |s| {
      var t := s[a..];
      var b := TrailingSpace(t);
      assert !IsSpace(s[a]);
    }
  }

  /** `s` with every character `c` for which `drop(c)` holds removed (`re.sub('[...]', '', s)`). */
  function Remove(s: string, drop: char -> bool): (r: string)
    ensures |r| <= |s|
    ensures forall i :: 0 <= i < |r| ==> !drop(r[i])
    ensures forall i :: 0 <= i < |r| ==> r[i] in s
    ensures (forall i :: 0 <= i < |s| ==> !drop(s[i])) ==> r == s
  {
    if s == [] then []
    else if drop(s[0]) then Remove(s[1..], drop)
    else [s[0]] + Remove(s[1..], drop)
  }

  lemma {:induction false} RemoveConcat(a: string, b: string, drop: char -> bool)
    ensures Remove(a + b, drop) == Remove(a, drop) + Remove(b, drop)
  {
    if a == [] {
      assert a + b == b;
    } else {
      assert (a + b)[0] == a[0];
      assert (a + b)[1..] == a[1..] + b;
      RemoveConcat(a[1..], b, drop);
    }
  }

  /** Python's `s.replace(a, b)` for single characters. */
  function ReplaceChar(s: string, a: char, b: char): (r: string)
    ensures |r| == |s|
    ensures forall i :: 0 <= i < |s| ==> r[i] == if s[i] == a then b else s[i]
  {
    if s == [] then [] else [if s[0] == a then b else s[0]] + ReplaceChar(s[1..], a, b)
  }

  function Count(s: string, c: char): nat {
    if s == [] then 0 else (if s[0] == c then 1 else 0) + Count(s[1..], c)
  }

  lemma {:induction false} CountConcat(s: string, t: string, c: char)
    ensures Count(s + t, c) == Count(s, c) + Count(t, c)
  {
    if s != [] {
      var st := s + t;
      assert st[0] == s[0];
      assert st[1..] == s[1..] + t;
      CountConcat(s[1..], t, c);
      assert Count(st, c) == (if st[0] == c then 1 else 0) + Count(st[1..], c);
    } else {
      assert s + t == t;
    }
  }

  lemma {:induction false} CountRemove(s: string, drop: char -> bool, c: char)
    ensures Count(Remove(s, drop), c) == if drop(c) then 0 else Count(s, c)
  {
    if s != [] {
      CountRemove(s[1..], drop, c);
      if !drop(s[0]) {
        var r := [s[0]] + Remove(s[1..], drop);
        assert r[0] == s[0] && r[1..] == Remove(s[1..], drop);
      }
    }
  }

  lemma {:induction false} CountReplace(s: string, a: char, b: char)
    requires a != b
    ensures Count(ReplaceChar(s, a, b), b) == Count(s, b) + Count(s, a)
    ensures Count(ReplaceChar(s, a, b), a) == 0
  {
    if s != [] {
      CountReplace(s[1..], a, b);
      var r := ReplaceChar(s, a, b);
      assert r[1..] == ReplaceChar(s[1..], a, b);
    }
  }

  lemma {:induction false} CountReplaceOther(s: string, a: char, b: char, c: char)
    requires c != a && c != b
    ensures Count(ReplaceChar(s, a, b), c) == Count(s, c)
  {
    if s != [] {
      CountReplaceOther(s[1..], a, b, c);
      var r := ReplaceChar(s, a, b);
      assert r[1..] == ReplaceChar(s[1..], a, b);
    }
  }

  /** The lines of `s` as `re.M` anchors see them: the pieces between `'\n'` characters. */
  function Lines(s: string): (ls: seq<string>)
    ensures |ls| >= 1
    ensures forall i :: 0 <= i < |ls| ==> '\n' !in ls[i]
    decreases |s|
  {
    if '\n' !in s then [s]
    else
      var k := IndexOf(s, '\n');
      [s[..k]] + Lines(s[k + 1..])
  }

  function IndexOf(s: string, c: char): (k: nat)
    requires c in s
    ensures k < |s| && s[k] == c && c !in s[..k]
  {
    if s[0] == c then 0 else 1 + IndexOf(s[1..], c)
  }

  /**
   * BeautifulSoup's `get_text(sep, strip=True)` over an element's text pieces:
   * every piece stripped, empty ones dropped, the rest joined with `sep`.
   */
  function JoinStripped(pieces: seq<string>, sep: string): (r: string)
    ensures Stripped(r)
  {
    if pieces == [] then []
    else
      var head := Strip(pieces[0]);
      var rest := JoinStripped(pieces[1..], sep);
      if head == [] then rest
      else if rest == [] then head
      else head + sep + rest
  }

  lemma {:induction false} JoinStrippedEmpty(pieces: seq<string>, sep: string)
    ensures JoinStripped(pieces, sep) == [] <==> forall i :: 0 <= i < |pieces| ==> Strip(pieces[i]) == []
  {
    if pieces != [] {
      JoinStrippedEmpty(pieces[1..], sep);
      assert forall i :: 1 <= i < |pieces| ==> pieces[i] == pieces[1..][i - 1];
    }
  }

  /** Simple case folding for ASCII and basic Cyrillic, as `re.I` compares those letters. */
  function Fold(c: char): char {
    if 'A' <= c <= 'Z' then (c as int + 32) as char
    else if '\U{410}' <= c <= '\U{42F}' then (c as int + 32) as char
    else if '\U{400}' <= c <= '\U{40F}' then (c as int + 80) as char
    else c
  }

  /** `w` occurs at position `i` of `s`, letters compared case-insensitively. */
  predicate OccursAtFolded(s: string, i: nat, w: string) {
    i + |w| <= |s| && forall j :: 0 <= j < |w| ==> Fold(s[i + j]) == Fold(w[j])
  }
}
