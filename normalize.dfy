/**
 * `normalize_store`: the merchant name with its legal-form token (`d.o.o.`, `a.d.`,
 * `doo`, `ad`, any case, dots optional) removed wherever it stands as a word, then
 * a handful of punctuation characters deleted and the ends trimmed.
 */
module StoreName {
  import opened Wrappers
  import opened Text

  /**
   * `\w` on a `str` pattern: letters, digits and `_`. Letters and digits are taken
   * to be ASCII, Latin-1, Latin Extended-A/B and Cyrillic, which covers the names
   * this code sees.
   */
  predicate IsWordChar(c: char) {
    ('a' <= c <= 'z') || ('A' <= c <= 'Z') || ('0' <= c <= '9') || c == '_'
    || c == '\U{AA}' || c == '\U{B5}' || c == '\U{BA}'
    || ('\U{C0}' <= c <= '\U{FF}' && c != '\U{D7}' && c != '\U{F7}')
    || ('\U{100}' <= c <= '\U{24F}') || ('\U{400}' <= c <= '\U{481}') || ('\U{48A}' <= c <= '\U{4FF}')
  }

  /** `\b` at position `p`: a word character on exactly one side of it. */
  predicate Boundary(s: string, p: nat)
    requires p <= |s|
  {
    (p > 0 && IsWordChar(s[p - 1])) != (p < |s| && IsWordChar(s[p]))
  }

  /** The letter `c` (lower case) at `j`, compared as `re.I` does. */
  predicate LetterAt(s: string, j: nat, c: char) {
    j < |s| && Fold(s[j]) == c
  }

  /** `\.?` in the middle of the token: taken when there. */
  function SkipDot(s: string, j: nat): (k: nat)
    ensures k == j || k == j + 1
  {
    if j < |s| && s[j] == '.' then j + 1 else j
  }

  /**
   * `\.?\b` closing an alternative at `j`: the dot is tried first and kept if a
   * boundary follows it, otherwise the match ends before it if a boundary is there.
   */
  function CloseToken(s: string, j: nat): (e: Option<nat>)
    requires j <= |s|
    ensures e.Some? ==> (e.value == j || e.value == j + 1) && e.value <= |s| && Boundary(s, e.value)
  {
    if j < |s| && s[j] == '.' && Boundary(s, j + 1) then Some(j + 1)
    else if Boundary(s, j) then Some(j)
    else None
  }

  /** The alternative `d\.?o\.?o\.?` followed by `\b`, at `i`: where the match ends. */
  function MatchDoo(s: string, i: nat): Option<nat> {
    if LetterAt(s, i, 'd') then
      var j := SkipDot(s, i + 1);
      if LetterAt(s, j, 'o') then
        var k := SkipDot(s, j + 1);
        if LetterAt(s, k, 'o') then CloseToken(s, k + 1) else None
      else None
    else None
  }

  /** The alternative `a\.?d\.?` followed by `\b`, at `i`. */
  function MatchAd(s: string, i: nat): Option<nat> {
    if LetterAt(s, i, 'a') then
      var j := SkipDot(s, i + 1);
      if LetterAt(s, j, 'd') then CloseToken(s, j + 1) else None
    else None
  }

  /** The alternative `doo` followed by `\b`, at `i`. */
  function MatchDooPlain(s: string, i: nat): Option<nat> {
    if LetterAt(s, i, 'd') && LetterAt(s, i + 1, 'o') && LetterAt(s, i + 2, 'o') && Boundary(s, i + 3)
    then Some(i + 3) else None
  }

  /** The alternative `ad` followed by `\b`, at `i`. */
  function MatchAdPlain(s: string, i: nat): Option<nat> {
    if LetterAt(s, i, 'a') && LetterAt(s, i + 1, 'd') && Boundary(s, i + 2)
    then Some(i + 2) else None
  }

  /** `\b(d\.?o\.?o\.?|a\.?d\.?|doo|ad)\b` at `i`, alternatives in order: where the match ends. */
  function TokenAt(s: string, i: nat): (e: Option<nat>)
    requires i <= |s|
    ensures e.Some? ==> i < e.value <= |s| && Boundary(s, i) && Boundary(s, e.value)
  {
    if !Boundary(s, i) then None
    else if MatchDoo(s, i).Some? then MatchDoo(s, i)
    else if MatchAd(s, i).Some? then MatchAd(s, i)
    else if MatchDooPlain(s, i).Some? then MatchDooPlain(s, i)
    else MatchAdPlain(s, i)
  }

  /**
   * `re.sub` of the token pattern by `''`, scanning from `i`: each match is cut out
   * and the scan resumes after it; boundaries are judged on the original text.
   */
  function RemoveTokens(s: string, i: nat): (r: string)
    requires i <= |s|
    ensures |r| <= |s| - i
    decreases |s| - i
  {
    if i == |s| then []
    else match TokenAt(s, i)
      case Some(e) => RemoveTokens(s, e)
      case None => [s[i]] + RemoveTokens(s, i + 1)
  }

  /** The class `[,.؛;·•]`. */
  predicate IsPunct(c: char) {
    c == ',' || c == '.' || c == '\U{61B}' || c == ';' || c == '\U{B7}' || c == '\U{2022}'
  }

  /** `normalize_store` */
  function NormalizeStore(s: Option<string>): (r: string)
    ensures s.None? || s.value == "" ==> r == ""
  {
    if s.None? || s.value == "" then ""
    else Strip(Remove(RemoveTokens(s.value, 0), IsPunct))
  }

  /** The result never holds one of the removed punctuation marks, and it is trimmed. */
  lemma NormalizedShape(s: Option<string>)
    ensures forall i :: 0 <= i < |NormalizeStore(s)| ==> !IsPunct(NormalizeStore(s)[i])
    ensures Stripped(NormalizeStore(s))
    ensures s.Some? ==> |NormalizeStore(s)| <= |s.value|
  {
    if s.Some? && s.value != "" {
      var t := Remove(RemoveTokens(s.value, 0), IsPunct);
      var a := StripParts(t);
      assert forall i :: 0 <= i < |Strip(t)| ==> Strip(t)[i] == t[a + i];
    }
  }

  /** A stretch with no token start is copied through unchanged. */
  lemma {:induction false} NoTokenKept(s: string, i: nat, k: nat)
    requires i <= k <= |s|
    requires forall j :: i <= j < k ==> TokenAt(s, j).None?
    ensures RemoveTokens(s, i) == s[i..k] + RemoveTokens(s, k)
    decreases k - i
  {
    if i < k {
      var rest := RemoveTokens(s, k);
      calc {
        RemoveTokens(s, i);
      == { KeepStep(s, i); }
        [s[i]] + RemoveTokens(s, i + 1);
      == { NoTokenKept(s, i + 1, k); }
        [s[i]] + (s[i + 1..k] + rest);
      == { assert [s[i]] + s[i + 1..k] == s[i..k]; }
        s[i..k] + rest;
      }
    }
  }

  lemma KeepStep(s: string, i: nat)
    requires i < |s| && TokenAt(s, i).None?
    ensures RemoveTokens(s, i) == [s[i]] + RemoveTokens(s, i + 1)
  {
  }

  /** Text with no token anywhere passes the substitution unchanged. */
  lemma NoTokenUnchanged(s: string)
    requires forall j :: 0 <= j < |s| ==> TokenAt(s, j).None?
    ensures RemoveTokens(s, 0) == s
  {
    NoTokenKept(s, 0, |s|);
    assert s[0..|s|] == s;
  }

  /**
   * Letters inside a longer word are never a token: no match can start where a
   * word character precedes, nor end where one follows.
   */
  lemma InsideWordKept(s: string, i: nat)
    requires 0 < i <= |s| && IsWordChar(s[i - 1])
    requires i < |s| && IsWordChar(s[i])
    ensures TokenAt(s, i).None?
    ensures forall j :: 0 <= j < i ==> TokenAt(s, j) != Some(i)
  {
  }

  /** A cut-out stretch starts with `d` or `a`, whatever the case. */
  lemma TokenStartsWithLetter(s: string, i: nat)
    requires i <= |s| && TokenAt(s, i).Some?
    ensures Fold(s[i]) == 'd' || Fold(s[i]) == 'a'
  {
  }

  /**
   * `s[i..e]` spells `letters` as the token pattern writes them: each letter,
   * compared as `re.I` does, optionally followed by one dot.
   */
  predicate Spells(s: string, i: nat, e: nat, letters: string)
    requires i <= e <= |s|
    decreases |letters|
  {
    if letters == [] then i == e
    else
      i < e && Fold(s[i]) == letters[0]
      && (Spells(s, i + 1, e, letters[1..])
          || (i + 1 < e && s[i + 1] == '.' && Spells(s, i + 2, e, letters[1..])))
  }

  /**
   * What the pattern can cut out from `i` to `e`: `d.o.o.` or `a.d.` with every dot
   * optional, in any case, with a word boundary before and after. A final dot can
   * only be part of it when a boundary follows the dot.
   */
  predicate BoundedToken(s: string, i: nat, e: nat) {
    i < e <= |s| && Boundary(s, i) && Boundary(s, e)
    && (Spells(s, i, e, "doo") || Spells(s, i, e, "ad"))
  }

  /**
   * `TokenAt` finds exactly the pattern's matches: the longest word-bounded spelling
   * that starts at `i`, and nothing when there is none.
   */
  lemma TokenAtSpec(s: string, i: nat, e: nat)
    requires i <= |s|
    ensures TokenAt(s, i) == Some(e)
      <==> BoundedToken(s, i, e) && forall e' :: e < e' <= |s| ==> !BoundedToken(s, i, e')
    ensures TokenAt(s, i).None? <==> forall e' :: i < e' <= |s| ==> !BoundedToken(s, i, e')
  {
    TokenSound(s, i);
    if BoundedToken(s, i, e) {
      TokenComplete(s, i, e);
    }
    forall e' | e < e' <= |s| && BoundedToken(s, i, e')
      ensures TokenAt(s, i).Some? && TokenAt(s, i).value >= e'
    {
      TokenComplete(s, i, e');
    }
    forall e' | i < e' <= |s| && BoundedToken(s, i, e')
      ensures TokenAt(s, i).Some?
    {
      TokenComplete(s, i, e');
    }
  }

  /** Whatever `TokenAt` cuts out is a word-bounded spelling of the token. */
  lemma TokenSound(s: string, i: nat)
    requires i <= |s|
    ensures TokenAt(s, i).Some? ==> BoundedToken(s, i, TokenAt(s, i).value)
  {
    if TokenAt(s, i).Some? {
      if MatchDoo(s, i).Some? {
        DooSpelled(s, i);
      } else {
        AdSpelled(s, i);
      }
    }
  }

  /** Every word-bounded spelling at `i` is cut out, or a longer one is. */
  lemma TokenComplete(s: string, i: nat, e: nat)
    requires BoundedToken(s, i, e)
    ensures TokenAt(s, i).Some? && TokenAt(s, i).value >= e
  {
    if Spells(s, i, e, "doo") {
      DooFound(s, i, e);
    } else {
      assert Fold(s[i]) == 'a';
      AdFound(s, i, e);
    }
  }

  lemma DooSpelled(s: string, i: nat)
    requires MatchDoo(s, i).Some?
    ensures i < MatchDoo(s, i).value <= |s| && Spells(s, i, MatchDoo(s, i).value, "doo")
  {
    var j := SkipDot(s, i + 1);
    var k := SkipDot(s, j + 1);
    var e := MatchDoo(s, i).value;
    assert Spells(s, k, e, "o");
    assert Spells(s, j, e, "oo");
  }

  lemma AdSpelled(s: string, i: nat)
    requires MatchAd(s, i).Some?
    ensures i < MatchAd(s, i).value <= |s| && Spells(s, i, MatchAd(s, i).value, "ad")
  {
    var j := SkipDot(s, i + 1);
    var e := MatchAd(s, i).value;
    assert Spells(s, j, e, "d");
  }

  lemma DooFound(s: string, i: nat, e: nat)
    requires i < e <= |s| && Boundary(s, e) && Spells(s, i, e, "doo")
    ensures MatchDoo(s, i).Some? && MatchDoo(s, i).value >= e
  {
    var j: nat :| i < j <= e && Fold(s[i]) == 'd' && Spells(s, j, e, "oo")
      && (j == i + 1 || (j == i + 2 && s[i + 1] == '.'));
    assert SkipDot(s, i + 1) == j;
    var k: nat :| j < k <= e && Fold(s[j]) == 'o' && Spells(s, k, e, "o")
      && (k == j + 1 || (k == j + 2 && s[j + 1] == '.'));
    assert SkipDot(s, j + 1) == k;
    assert Fold(s[k]) == 'o';
    LastLetterCloses(s, k, e, 'o');
  }

  lemma AdFound(s: string, i: nat, e: nat)
    requires i < e <= |s| && Boundary(s, e) && Spells(s, i, e, "ad")
    ensures MatchAd(s, i).Some? && MatchAd(s, i).value >= e
  {
    var j: nat :| i < j <= e && Fold(s[i]) == 'a' && Spells(s, j, e, "d")
      && (j == i + 1 || (j == i + 2 && s[i + 1] == '.'));
    assert SkipDot(s, i + 1) == j;
    assert Fold(s[j]) == 'd';
    LastLetterCloses(s, j, e, 'd');
  }

  /** The last letter, with or without its dot, up to a boundary: `\.?\b` ends there or later. */
  lemma LastLetterCloses(s: string, k: nat, e: nat, c: char)
    requires k < e <= |s| && Boundary(s, e) && Spells(s, k, e, [c])
    ensures CloseToken(s, k + 1).Some? && CloseToken(s, k + 1).value >= e
  {
    var rest := [c][1..];
    assert rest == [];
    if !Spells(s, k + 1, e, rest) {
      assert k + 1 < e && s[k + 1] == '.' && Spells(s, k + 2, e, rest);
    }
  }

  /** Text in which no word-bounded spelling of the token occurs passes the substitution unchanged. */
  lemma NoSpellingUnchanged(s: string)
    requires forall j, k :: 0 <= j < k <= |s| ==> !BoundedToken(s, j, k)
    ensures RemoveTokens(s, 0) == s
  {
    forall j | 0 <= j < |s| ensures TokenAt(s, j).None? {
      TokenSound(s, j);
    }
    NoTokenUnchanged(s);
  }

  /**
   * The substitution cuts out the first match and copies what precedes it: when
   * `s[i..e]` is the longest word-bounded spelling at `i` and none starts before `i`,
   * the result is `s[..i]` followed by what the substitution makes of the text from `e`.
   */
  lemma TokenRemoved(s: string, i: nat, e: nat)
    requires BoundedToken(s, i, e) && forall e' :: e < e' <= |s| ==> !BoundedToken(s, i, e')
    requires forall j, k :: 0 <= j < i && j < k <= |s| ==> !BoundedToken(s, j, k)
    ensures RemoveTokens(s, 0) == s[..i] + RemoveTokens(s, e)
  {
    TokenAtSpec(s, i, e);
    forall j | 0 <= j < i ensures TokenAt(s, j).None? {
      TokenSound(s, j);
    }
    NoTokenKept(s, 0, i);
    assert s[0..i] == s[..i];
  }

  /**
   * A name followed by a space and a legal-form word, with or without a final dot,
   * normalizes as the name alone (`"MAXI D.O.O."`, `"Maxi doo"`, `"Firma a.d"`),
   * provided the name itself holds no such word.
   */
  lemma LegalFormDropped(p: string, w: string, dot: string)
    requires Spells(w, 0, |w|, "doo") || Spells(w, 0, |w|, "ad")
    requires |w| > 0 && IsWordChar(w[|w| - 1])
    requires dot == "" || dot == "."
    requires forall j, k :: 0 <= j < k <= |p| ==> !BoundedToken(p, j, k)
    ensures NormalizeStore(Some(p + " " + w + dot)) == NormalizeStore(Some(p))
    ensures NormalizeStore(Some(p)) == Strip(Remove(p, IsPunct))
  {
    var s := p + " " + w + dot;
    NameSpaceWordCut(s, p, w, dot);
    Finish(s, p + " " + dot);
    SpaceAndDotRemoved(p, dot);
    if p != "" {
      NoSpellingUnchanged(p);
      Finish(p, p);
    }
  }

  /** What the punctuation removal and the trim make of the name, the space and the final dot. */
  lemma SpaceAndDotRemoved(p: string, dot: string)
    requires dot == "" || dot == "."
    ensures Strip(Remove(p + " " + dot, IsPunct)) == Strip(Remove(p, IsPunct))
  {
    var r := Remove(p, IsPunct);
    RemoveConcat(p + " ", dot, IsPunct);
    RemoveConcat(p, " ", IsPunct);
    assert Remove(" ", IsPunct) == " " by {
      assert " "[1..] == [];
    }
    assert Remove(dot, IsPunct) == [] by {
      if dot == "." {
        assert dot[1..] == [];
      }
    }
    assert Remove(p + " " + dot, IsPunct) == r + " ";
    StripSpaceEnd(r);
  }

  /** The substitution on the name-space-word shape leaves the name, the space and the final dot. */
  lemma NameSpaceWordCut(s: string, p: string, w: string, dot: string)
    requires s == p + " " + w + dot
    requires Spells(w, 0, |w|, "doo") || Spells(w, 0, |w|, "ad")
    requires |w| > 0 && IsWordChar(w[|w| - 1])
    requires dot == "" || dot == "."
    requires forall j, k :: 0 <= j < k <= |p| ==> !BoundedToken(p, j, k)
    ensures RemoveTokens(s, 0) == p + " " + dot
  {
    var i := |p| + 1;
    var e := i + |w|;
    var letters := if Spells(w, 0, |w|, "doo") then "doo" else "ad";
    LegalFormIsToken(s, p, w, dot, i, e, letters);
    assert s[..|p|] == p;
    PrefixClear(p, s);
    TokenRemoved(s, i, e);
    assert s[..i] == p + " ";
    if dot == "." {
      assert TokenAt(s, e).None?;
    }
    assert RemoveTokens(s, e) == dot;
  }

  /** In the name-space-word shape the word is the longest match at its start. */
  lemma LegalFormIsToken(s: string, p: string, w: string, dot: string, i: nat, e: nat, letters: string)
    requires s == p + " " + w + dot && i == |p| + 1 && e == i + |w|
    requires (letters == "doo" || letters == "ad") && Spells(w, 0, |w|, letters)
    requires |w| > 0 && IsWordChar(w[|w| - 1])
    requires dot == "" || dot == "."
    ensures BoundedToken(s, i, e) && forall e' :: e < e' <= |s| ==> !BoundedToken(s, i, e')
  {
    WordInside(s, p, w, dot, i, e);
    SpellsShift(s, w, i, 0, |w|, letters);
    SpelledStartsWord(s, i, e, letters);
    assert s[i - 1] == ' ' && s[e - 1] == w[|w| - 1];
    assert Boundary(s, i) && Boundary(s, e);
    assert !Boundary(s, |s|) || e == |s|;
  }

  lemma WordInside(s: string, p: string, w: string, dot: string, i: nat, e: nat)
    requires s == p + " " + w + dot && i == |p| + 1 && e == i + |w|
    ensures e <= |s| && s[i..e] == w && s[i - 1] == ' ' && s[e..] == dot
  {
  }

  /** A spelling of the token starts with a word character (`d` or `a` in some case). */
  lemma SpelledStartsWord(s: string, i: nat, e: nat, letters: string)
    requires i <= e <= |s| && (letters == "doo" || letters == "ad") && Spells(s, i, e, letters)
    ensures i < e && IsWordChar(s[i])
  {
    assert Fold(s[i]) == letters[0];
  }

  /** A spelling is letters and dots, so it never runs across a space. */
  lemma {:induction false} SpellsNoSpace(s: string, i: nat, e: nat, letters: string, x: nat)
    requires i <= x < e <= |s| && Spells(s, i, e, letters) && ' ' !in letters
    ensures s[x] != ' '
    decreases |letters|
  {
    assert letters[0] in letters;
    if x > i {
      assert letters[1..] <= letters[1..] && forall c :: c in letters[1..] ==> c in letters;
      if Spells(s, i + 1, e, letters[1..]) {
        SpellsNoSpace(s, i + 1, e, letters[1..], x);
      } else if x > i + 1 {
        SpellsNoSpace(s, i + 2, e, letters[1..], x);
      }
    }
  }

  /** Spelling is judged on the characters alone: a copy of `w` inside `s` spells the same. */
  lemma {:induction false} SpellsShift(s: string, w: string, off: nat, i: nat, e: nat, letters: string)
    requires off + |w| <= |s| && s[off..off + |w|] == w && i <= e <= |w|
    ensures Spells(w, i, e, letters) == Spells(s, off + i, off + e, letters)
    decreases |letters|
  {
    if letters != [] && i < e {
      assert w[i] == s[off + i];
      SpellsShift(s, w, off, i + 1, e, letters[1..]);
      if i + 1 < e {
        assert w[i + 1] == s[off + i + 1];
        SpellsShift(s, w, off, i + 2, e, letters[1..]);
      }
    }
  }

  /** A name free of tokens stays free of them with a space and more text after it. */
  lemma PrefixClear(p: string, s: string)
    requires |p| < |s| && s[..|p|] == p && s[|p|] == ' '
    requires forall j, k :: 0 <= j < k <= |p| ==> !BoundedToken(p, j, k)
    ensures forall j, k :: 0 <= j <= |p| && j < k <= |s| ==> !BoundedToken(s, j, k)
  {
    forall j, k | 0 <= j <= |p| && j < k <= |s| ensures !BoundedToken(s, j, k) {
      if BoundedToken(s, j, k) {
        var letters := if Spells(s, j, k, "doo") then "doo" else "ad";
        assert ' ' !in letters;
        if k > |p| {
          SpellsNoSpace(s, j, k, letters, |p|);
        }
        assert j < k <= |p|;
        assert s[0..|p|] == p;
        SpellsShift(s, p, 0, j, k, letters);
        assert j > 0 ==> p[j - 1] == s[j - 1];
        assert p[j] == s[j] && (k < |p| ==> p[k] == s[k]);
        assert BoundedToken(p, j, k);
      }
    }
  }

  /** The last two steps of `normalize_store`, on the text the substitution left. */
  lemma Finish(s: string, t: string)
    requires s != "" && RemoveTokens(s, 0) == t
    ensures NormalizeStore(Some(s)) == Strip(Remove(t, IsPunct))
  {
  }

  /** `normalize_store("MAXI D.O.O.")` is `"MAXI"`: the token ends before the last dot, which goes with the punctuation. */
  lemma ExampleLegalForm(s: string)
    requires s == "MAXI D.O.O."
    ensures NormalizeStore(Some(s)) == "MAXI"
  {
    LegalFormCut(s);
    LegalFormPunct(s);
    LegalFormTrim(s);
    Normalizes(s, s[..5] + s[10..], s[..5], s[..4]);
  }

  /** The three steps of `normalize_store`, chained. */
  lemma Normalizes(s: string, cut: string, kept: string, r: string)
    requires s != "" && RemoveTokens(s, 0) == cut && Remove(cut, IsPunct) == kept && Strip(kept) == r
    ensures NormalizeStore(Some(s)) == r
  {
  }

  lemma LegalFormTrim(s: string)
    requires s == "MAXI D.O.O."
    ensures Strip(s[..5]) == s[..4] == "MAXI"
  {
    TrailingBlank(s[..4], s[..5]);
  }

  lemma LegalFormCut(s: string)
    requires s == "MAXI D.O.O."
    ensures RemoveTokens(s, 0) == s[..5] + s[10..]
  {
    assert TokenAt(s, 10).None?;
    assert RemoveTokens(s, 10) == s[10..];
    assert TokenAt(s, 5) == Some(10);
    forall j | 0 < j < 4 ensures TokenAt(s, j).None? {
      InsideWordKept(s, j);
    }
    assert TokenAt(s, 0).None? && TokenAt(s, 4).None?;
    NoTokenKept(s, 0, 5);
    assert s[0..5] == s[..5];
  }

  lemma LegalFormPunct(s: string)
    requires s == "MAXI D.O.O."
    ensures Remove(s[..5] + s[10..], IsPunct) == s[..5]
  {
    RemoveConcat(s[..5], s[10..], IsPunct);
    assert Remove(s[10..], IsPunct) == [];
  }

  /** A word followed by one space strips to the word. */
  lemma TrailingBlank(w: string, t: string)
    requires t == w + " " && w != [] && !IsSpace(w[0]) && !IsSpace(w[|w| - 1])
    ensures Strip(t) == w
  {
    var a := StripParts(t);
    assert t[0] == w[0];
    assert t[|t| - 2] == w[|w| - 1];
    assert a == 0;
    assert |Strip(t)| == |w| by {
      assert IsSpace(t[|t| - 1]);
    }
    assert Strip(t) == t[0..|w|] == w;
  }

  /** `normalize_store("ADRIA")` is `"ADRIA"`: `AD` is followed by a letter, so no boundary. */
  lemma ExampleInsideWord(s: string)
    requires s == "ADRIA"
    ensures NormalizeStore(Some(s)) == "ADRIA"
  {
    assert forall j :: 0 <= j < |s| ==> IsWordChar(s[j]) && !IsPunct(s[j]) && !IsSpace(s[j]);
    assert TokenAt(s, 0).None?;
    WordKept(s);
    Finish(s, s);
  }

  /** A single word whose start is no token comes through the substitution whole. */
  lemma WordKept(s: string)
    requires forall j :: 0 <= j < |s| ==> IsWordChar(s[j])
    requires |s| > 0 ==> TokenAt(s, 0).None?
    ensures RemoveTokens(s, 0) == s
  {
    forall j | 0 < j < |s| ensures TokenAt(s, j).None? {
      InsideWordKept(s, j);
    }
    NoTokenUnchanged(s);
  }

  /**
   * Normalizing twice can remove more than normalizing once: the commas in
   * `"X d,o,o"` hide the token from the substitution, and are deleted only after it.
   */
  lemma NotIdempotent(s: string, t: string)
    requires s == "X d,o,o" && t == "X doo"
    ensures NormalizeStore(Some(s)) == t
    ensures NormalizeStore(Some(t)) == "X"
  {
    FirstPass(s, t);
    SecondPass(t);
  }

  lemma FirstPass(s: string, t: string)
    requires s == "X d,o,o" && t == "X doo"
    ensures NormalizeStore(Some(s)) == t
  {
    CommasHideToken(s);
    Finish(s, s);
    CommasRemoved(s, t);
    TrimmedAlready(t);
  }

  lemma SecondPass(t: string)
    requires t == "X doo"
    ensures NormalizeStore(Some(t)) == "X"
  {
    BareTokenCut(t);
    Finish(t, t[..2]);
    KeptAfterCut(t);
  }

  lemma TrimmedAlready(t: string)
    requires t == "X doo"
    ensures Strip(t) == t
  {
    assert !IsSpace(t[0]) && !IsSpace(t[|t| - 1]);
    StripUnchanged(t);
  }

  lemma KeptAfterCut(t: string)
    requires t == "X doo"
    ensures Strip(Remove(t[..2], IsPunct)) == "X"
  {
    assert NoPunct(t[..2]);
    assert Remove(t[..2], IsPunct) == t[..2];
    TrailingBlank(t[..1], t[..2]);
  }

  lemma CommasHideToken(s: string)
    requires s == "X d,o,o"
    ensures RemoveTokens(s, 0) == s
  {
    assert TokenAt(s, 0).None? && TokenAt(s, 1).None? && TokenAt(s, 2).None?;
    assert TokenAt(s, 3).None? && TokenAt(s, 4).None? && TokenAt(s, 5).None? && TokenAt(s, 6).None?;
    NoTokenUnchanged(s);
  }

  lemma CommasRemoved(s: string, t: string)
    requires s == "X d,o,o" && t == "X doo"
    ensures Remove(s, IsPunct) == t
  {
    assert s == s[..3] + ([s[3]] + (s[4..5] + ([s[5]] + s[6..])));
    DropSeparators(s[..3], s[4..5], s[6..], s[3], s[5]);
    assert t == s[..3] + (s[4..5] + s[6..]);
  }

  predicate NoPunct(s: string) {
    forall i :: 0 <= i < |s| ==> !IsPunct(s[i])
  }

  /** Two punctuation marks between three stretches without any are deleted. */
  lemma DropSeparators(a: string, b: string, c: string, x: char, y: char)
    requires IsPunct(x) && IsPunct(y) && NoPunct(a) && NoPunct(b) && NoPunct(c)
    ensures Remove(a + ([x] + (b + ([y] + c))), IsPunct) == a + (b + c)
  {
    DropOne(a, x, b + ([y] + c));
    DropOne(b, y, c);
    assert Remove(a, IsPunct) == a && Remove(b, IsPunct) == b && Remove(c, IsPunct) == c;
  }

  lemma DropOne(a: string, x: char, b: string)
    requires IsPunct(x)
    ensures Remove(a + ([x] + b), IsPunct) == Remove(a, IsPunct) + Remove(b, IsPunct)
  {
    RemoveConcat(a, [x] + b, IsPunct);
    assert ([x] + b)[0] == x && ([x] + b)[1..] == b;
  }

  lemma BareTokenCut(t: string)
    requires t == "X doo"
    ensures RemoveTokens(t, 0) == t[..2]
  {
    assert TokenAt(t, 2) == Some(5);
    assert TokenAt(t, 0).None? && TokenAt(t, 1).None?;
    NoTokenKept(t, 0, 2);
    assert t[0..2] == t[..2];
  }
}
