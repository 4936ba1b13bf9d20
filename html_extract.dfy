/**
 * `_extract_html`: store, amount and timestamp scraped from the receipt page, each by
 * a cascade of strategies in which a later one is consulted only when the earlier
 * ones produced nothing.
 *
 * BeautifulSoup's parsing, CSS selection and tree walking are not modelled. A page is
 * given as what those calls hand back: for each selector that finds an element, the
 * element's text pieces; the text of the first `<pre>`; and, for each label search,
 * the text nodes it finds in document order, each with its parent's text pieces and
 * the string `parent.find_next` returns: the first string holding a digit from the
 * parent on, in document order, so the parent's own strings (the label's text among
 * them) come first.
 */
module HtmlExtract {
  import opened Wrappers
  import opened Text
  import opened Fields
  import opened Amount
  import opened DateTimeIso

  /** One text node found by a label search. */
  datatype LabelHit = LabelHit(parentPieces: seq<string>, nextDigitString: Option<string>)

  datatype Page = Page(
    selected: map<string, seq<string>>,
    pre: Option<string>,
    amountHits: seq<LabelHit>,
    dateHits: seq<LabelHit>)

  /** The CSS selectors tried, in order, for each field. */
  datatype Selectors = Selectors(store: seq<string>, amount: seq<string>, date: seq<string>)

  const ReceiptSelectors: Selectors := Selectors(
    ["#shopFullNameLabel", "#sellerNameLabel", "span.badge", "[data-testid='shopFullName']"],
    ["#totalAmountLabel", "#amountToPayLabel", "#amountToPayWithVATLabel", "#totalLabel"],
    ["#sdcDateTimeLabel", "#issueDateTimeLabel", "[data-testid='issueDateTime']"])

  // ----- _find_text -----

  /** `el.get_text(strip=True)` for the element `select_one(sel)` finds, if any. */
  function SelectedText(selected: map<string, seq<string>>, sel: string): Option<string> {
    if sel in selected then Some(JoinStripped(selected[sel], "")) else None
  }

  /** The selector finds an element and that element has some text. */
  predicate Yields(selected: map<string, seq<string>>, sel: string) {
    SelectedText(selected, sel).Some? && SelectedText(selected, sel).value != ""
  }

  /** `_find_text`: the stripped text of the first selector that yields one. */
  function FirstText(selected: map<string, seq<string>>, sels: seq<string>): (r: Option<string>)
    ensures r.Some? ==> r.value != "" && Stripped(r.value)
    ensures r.None? <==> forall i :: 0 <= i < |sels| ==> !Yields(selected, sels[i])
    ensures r.Some? ==> exists i :: 0 <= i < |sels| && Yields(selected, sels[i]) && r == SelectedText(selected, sels[i])
                                    && forall j :: 0 <= j < i ==> !Yields(selected, sels[j])
  {
    if sels == [] then None
    else if Yields(selected, sels[0]) then SelectedText(selected, sels[0])
    else
      var r := FirstText(selected, sels[1..]);
      assert forall i :: 1 <= i < |sels| ==> sels[i] == sels[1..][i - 1];
      r
  }

  lemma {:induction false} FirstYieldDecides(selected: map<string, seq<string>>, sels: seq<string>, i: nat)
    requires i < |sels| && Yields(selected, sels[i])
    requires forall j :: 0 <= j < i ==> !Yields(selected, sels[j])
    ensures FirstText(selected, sels) == SelectedText(selected, sels[i])
  {
    if i > 0 {
      FirstYieldDecides(selected, sels[1..], i - 1);
    }
  }

  /** `_find_text`: the loop over the selectors with its early return. */
  method FindText(selected: map<string, seq<string>>, sels: seq<string>) returns (r: Option<string>)
    ensures r == FirstText(selected, sels)
  {
    for i := 0 to |sels|
      invariant forall j :: 0 <= j < i ==> !Yields(selected, sels[j])
    {
      var sel := sels[i];
      if sel in selected {
        var txt := JoinStripped(selected[sel], "");
        if txt != "" {
          FirstYieldDecides(selected, sels, i);
          return Some(txt);
        }
      }
    }
    return None;
  }

  // ----- _find_by_label_text -----

  /** The class `[0-9\.\,\s ]`. */
  predicate NumberChar(c: char) {
    IsDigit(c) || c == '.' || c == ',' || IsSpace(c)
  }

  /** Where the first character of the class at or after `from` is, if any. */
  function FirstNumberChar(s: string, from: nat): (k: Option<nat>)
    requires from <= |s|
    ensures k.Some? ==> from <= k.value < |s|
    decreases |s| - from
  {
    if from == |s| then None
    else if NumberChar(s[from]) then Some(from)
    else FirstNumberChar(s, from + 1)
  }

  lemma {:induction false} FirstNumberCharIsFirst(s: string, from: nat)
    requires from <= |s|
    ensures FirstNumberChar(s, from).Some? ==>
              NumberChar(s[FirstNumberChar(s, from).value])
              && forall j :: from <= j < FirstNumberChar(s, from).value ==> !NumberChar(s[j])
    ensures FirstNumberChar(s, from).None? ==> forall j :: from <= j < |s| ==> !NumberChar(s[j])
    decreases |s| - from
  {
    if from < |s| && !NumberChar(s[from]) {
      FirstNumberCharIsFirst(s, from + 1);
    }
  }

  /** The end of the longest run of class characters starting at `i`. */
  function RunEnd(s: string, i: nat): (e: nat)
    requires i <= |s|
    ensures i <= e <= |s|
    decreases |s| - i
  {
    if i < |s| && NumberChar(s[i]) then RunEnd(s, i + 1) else i
  }

  lemma {:induction false} RunEndIsLongest(s: string, i: nat)
    requires i <= |s|
    ensures forall j :: i <= j < RunEnd(s, i) ==> NumberChar(s[j])
    ensures RunEnd(s, i) < |s| ==> !NumberChar(s[RunEnd(s, i)])
    decreases |s| - i
  {
    if i < |s| && NumberChar(s[i]) {
      RunEndIsLongest(s, i + 1);
    }
  }

  /**
   * Group 1 of a search for `([0-9\.\,\s\u00A0]+)(RSD|дин|RSD)?` from `from`: the
   * leftmost run of class characters, as long as it goes (the optional currency
   * group never changes it).
   */
  function FirstNumberRun(s: string, from: nat): Option<string>
    requires from <= |s|
  {
    match FirstNumberChar(s, from)
    case None => None
    case Some(k) => Some(s[k..RunEnd(s, k)])
  }

  /** The run is a non-empty maximal stretch of class characters, and nothing before it is one. */
  lemma NumberRunShape(s: string, from: nat)
    requires from <= |s|
    ensures FirstNumberRun(s, from).None? <==> forall j :: from <= j < |s| ==> !NumberChar(s[j])
    ensures FirstNumberRun(s, from).Some? ==>
              var r := FirstNumberRun(s, from).value;
              r != [] && forall j :: 0 <= j < |r| ==> NumberChar(r[j])
  {
    FirstNumberCharIsFirst(s, from);
    if FirstNumberChar(s, from).Some? {
      var k := FirstNumberChar(s, from).value;
      RunEndIsLongest(s, k);
      RunEndIsLongest(s, k + 1);
    }
  }

  /** The parent's part: the first run of the parent's text, stripped (maybe empty). */
  function ParentValue(parentPieces: seq<string>): string {
    match FirstNumberRun(JoinStripped(parentPieces, " "), 0)
    case None => ""
    case Some(run) => Strip(run)
  }

  /** The string `find_next` found, stripped, when it still holds a digit. */
  function SiblingValue(sib: Option<string>): (r: Option<string>)
    ensures r.Some? ==> HasDigit(r.value)
  {
    match sib
    case None => None
    case Some(x) => if HasDigit(Strip(x)) then Some(Strip(x)) else None
  }

  /**
   * One iteration of `_find_by_label_text`: the first number run of the parent's
   * text (pieces joined with spaces), stripped, if it holds a digit; otherwise the
   * string `find_next` found from the parent on.
   */
  function LabelValue(hit: LabelHit): Option<string>
  {
    var fromParent := ParentValue(hit.parentPieces);
    if HasDigit(fromParent) then Some(fromParent) else SiblingValue(hit.nextDigitString)
  }

  /** A label value holds a digit and has no whitespace at either end. */
  lemma LabelValueShape(hit: LabelHit)
    ensures LabelValue(hit).Some? ==> HasDigit(LabelValue(hit).value) && Stripped(LabelValue(hit).value)
  {
  }

  /** The value of the first hit that gives one, under `value`. */
  function FirstValueOf(hits: seq<LabelHit>, value: LabelHit -> Option<string>): Option<string>
  {
    if hits == [] then None
    else if value(hits[0]).Some? then value(hits[0])
    else FirstValueOf(hits[1..], value)
  }

  /** `_find_by_label_text`: the value of the first label hit that gives one. */
  function FirstLabelValue(hits: seq<LabelHit>): Option<string>
  {
    FirstValueOf(hits, LabelValue)
  }

  /** The first hit with a value decides; hits after it are not looked at. */
  lemma FirstLabelValueSpec(hits: seq<LabelHit>)
    ensures FirstLabelValue(hits).None? <==> forall i :: 0 <= i < |hits| ==> LabelValue(hits[i]).None?
    ensures FirstLabelValue(hits).Some? ==>
              exists i :: 0 <= i < |hits| && FirstLabelValue(hits) == LabelValue(hits[i])
                          && forall j :: 0 <= j < i ==> LabelValue(hits[j]).None?
  {
    NoValue(hits, LabelValue);
    if FirstLabelValue(hits).Some? {
      var i := FirstValueAt(hits, LabelValue);
    }
  }

  lemma {:induction false} NoValue(hits: seq<LabelHit>, value: LabelHit -> Option<string>)
    ensures FirstValueOf(hits, value).None? <==> forall i :: 0 <= i < |hits| ==> value(hits[i]).None?
  {
    if hits != [] {
      NoValue(hits[1..], value);
      assert forall i :: 1 <= i < |hits| ==> hits[i] == hits[1..][i - 1];
    }
  }

  lemma {:induction false} FirstValueAt(hits: seq<LabelHit>, value: LabelHit -> Option<string>) returns (i: nat)
    requires FirstValueOf(hits, value).Some?
    ensures i < |hits| && FirstValueOf(hits, value) == value(hits[i])
    ensures forall j :: 0 <= j < i ==> value(hits[j]).None?
  {
    if value(hits[0]).Some? {
      i := 0;
    } else {
      var k := FirstValueAt(hits[1..], value);
      i := k + 1;
      assert hits[i] == hits[1..][k];
      assert forall j :: 1 <= j < i ==> hits[j] == hits[1..][j - 1];
    }
  }

  /** `_find_by_label_text`: the loop over the label hits with its early returns. */
  method FindByLabelText(hits: seq<LabelHit>) returns (r: Option<string>)
    ensures r == FirstLabelValue(hits)
  {
    for i := 0 to |hits|
      invariant FirstLabelValue(hits[i..]) == FirstLabelValue(hits)
    {
      assert hits[i..][1..] == hits[i + 1..];
      var hit := hits[i];
      var val := ParentValue(hit.parentPieces);
      if HasDigit(val) {
        return Some(val);
      }
      if hit.nextDigitString.Some? {
        val := Strip(hit.nextDigitString.value);
        if HasDigit(val) {
          return Some(val);
        }
      }
    }
    assert hits[|hits|..] == [];
    return None;
  }

  /**
   * The label word hides the number: when the parent's text starts with a word free
   * of class characters followed by a single space and a non-class character, the
   * first run is that lone space, which strips to nothing, so the value is the string
   * `find_next` finds instead. For `"Ukupan iznos: 1.234,56"` that is the label's own
   * text, whole, which `float()` later refuses.
   */
  lemma LabelSpaceFallsThrough(hit: LabelHit, w: string, rest: string)
    requires JoinStripped(hit.parentPieces, " ") == w + " " + rest
    requires forall i :: 0 <= i < |w| ==> !NumberChar(w[i])
    requires rest != [] && !NumberChar(rest[0])
    ensures LabelValue(hit) == SiblingValue(hit.nextDigitString)
  {
    LoneSpaceRun(w + " " + rest, w, rest);
    assert Strip(" ") == "" by {
      StripEmpty(" ");
    }
    assert ParentValue(hit.parentPieces) == "";
  }

  lemma LoneSpaceRun(t: string, w: string, rest: string)
    requires t == w + " " + rest
    requires forall i :: 0 <= i < |w| ==> !NumberChar(w[i])
    requires rest != [] && !NumberChar(rest[0])
    ensures FirstNumberRun(t, 0) == Some(" ")
  {
    assert t[|w|] == ' ';
    assert forall i :: 0 <= i < |w| ==> t[i] == w[i];
    FirstNumberCharIsFirst(t, 0);
    assert FirstNumberChar(t, 0) == Some(|w|);
    assert t[|w| + 1] == rest[0];
    assert RunEnd(t, |w| + 1) == |w| + 1;
    assert RunEnd(t, |w|) == |w| + 1;
    assert t[|w|..|w| + 1] == " ";
  }

  /** A value taken from the parent's run holds only class characters, so never a `:`. */
  lemma ParentRunHasNoColon(hit: LabelHit)
    requires HasDigit(ParentValue(hit.parentPieces))
    ensures LabelValue(hit).Some? && ':' !in LabelValue(hit).value
  {
    var t := JoinStripped(hit.parentPieces, " ");
    NumberRunShape(t, 0);
    var run := FirstNumberRun(t, 0).value;
    assert ParentValue(hit.parentPieces) == Strip(run);
    StrippedClass(run);
  }

  lemma StrippedClass(run: string)
    requires forall j :: 0 <= j < |run| ==> NumberChar(run[j])
    ensures ':' !in Strip(run)
  {
    var a := StripParts(run);
    assert forall j :: 0 <= j < |Strip(run)| ==> Strip(run)[j] == run[a + j];
  }

  // ----- the <pre> fallbacks -----

  predicate StoreLead(c: char) {
    'A' <= c <= 'Z' || IsDigit(c)
  }

  predicate StoreTail(c: char) {
    StoreLead(c) || c == ' ' || c == '_' || c == '.' || c == '-'
  }

  /** A whole line `[A-Z0-9][A-Z0-9 _\.\-]{2,}`, as `^…$` under `re.M` demands. */
  predicate StoreLine(line: string) {
    |line| >= 3 && StoreLead(line[0]) && forall i :: 1 <= i < |line| ==> StoreTail(line[i])
  }

  function FirstStoreLine(lines: seq<string>): (r: Option<string>)
    ensures r.Some? ==> StoreLine(r.value)
    ensures r.None? <==> forall i :: 0 <= i < |lines| ==> !StoreLine(lines[i])
    ensures r.Some? ==> exists i :: 0 <= i < |lines| && r.value == lines[i]
                                    && forall j :: 0 <= j < i ==> !StoreLine(lines[j])
  {
    if lines == [] then None
    else if StoreLine(lines[0]) then Some(lines[0])
    else
      var r := FirstStoreLine(lines[1..]);
      assert forall i :: 1 <= i < |lines| ==> lines[i] == lines[1..][i - 1];
      r
  }

  /** The store found in the `<pre>` block: the first line that matches, stripped. */
  function PreStore(pre: string): (r: Option<string>)
    ensures r.Some? ==> r.value != "" && StoreLead(r.value[0])
    ensures r.Some? ==> exists line :: line in Lines(pre) && StoreLine(line) && r.value == Strip(line)
  {
    match FirstStoreLine(Lines(pre))
    case None => None
    case Some(line) =>
      StoreLineStrip(line);
      Some(Strip(line))
  }

  lemma StoreLineStrip(line: string)
    requires StoreLine(line)
    ensures Strip(line) != "" && Strip(line)[0] == line[0]
  {
    assert !IsSpace(line[0]);
    var a := StripParts(line);
    assert a == 0;
  }

  const PreAmountLabels: seq<string> := ["Укупан износ", "За уплату"]

  /** Label `w` occurs at `i` (letters compared case-insensitively) and a class character follows somewhere. */
  predicate LabelRunAt(s: string, i: nat, w: string)
    requires i <= |s|
  {
    OccursAtFolded(s, i, w) && FirstNumberRun(s, i + |w|).Some?
  }

  /**
   * At position `i`, the first label of `labels` that occurs there and has a class
   * character somewhere after it; the run that follows the lazy gap.
   */
  function AmountAt(s: string, i: nat, labels: seq<string>): Option<string>
    requires i <= |s|
  {
    if labels == [] then None
    else if LabelRunAt(s, i, labels[0]) then FirstNumberRun(s, i + |labels[0]|)
    else AmountAt(s, i, labels[1..])
  }

  /**
   * Group 2 of a search for `(Укупан износ|За уплату).*?([0-9\.\,\s\u00A0]+)` under
   * `re.I|re.S`, from position `i`: the match at the leftmost position where one exists.
   */
  function PreAmountFrom(s: string, i: nat, labels: seq<string>): Option<string>
    requires i <= |s|
    decreases |s| - i
  {
    if i == |s| then None
    else match AmountAt(s, i, labels)
      case Some(run) => Some(run)
      case None => PreAmountFrom(s, i + 1, labels)
  }

  /**
   * The search succeeds iff some position has a match, and then takes the one at the
   * leftmost position `k`.
   */
  lemma PreAmountLeftmost(s: string, i: nat, labels: seq<string>) returns (k: nat)
    requires i <= |s|
    ensures PreAmountFrom(s, i, labels).Some? <==> exists k' :: i <= k' < |s| && AmountAt(s, k', labels).Some?
    ensures PreAmountFrom(s, i, labels).Some? ==>
              i <= k < |s| && PreAmountFrom(s, i, labels) == AmountAt(s, k, labels)
              && forall j :: i <= j < k ==> AmountAt(s, j, labels).None?
  {
    k := i;
    if PreAmountFrom(s, i, labels).Some? {
      k := PreAmountFound(s, i, labels);
      assert i <= k < |s| && AmountAt(s, k, labels).Some?;
    } else {
      PreAmountNone(s, i, labels);
    }
  }

  /** A found amount comes from the leftmost position with a match. */
  lemma {:induction false} PreAmountFound(s: string, i: nat, labels: seq<string>) returns (k: nat)
    requires i <= |s| && PreAmountFrom(s, i, labels).Some?
    ensures i <= k < |s| && PreAmountFrom(s, i, labels) == AmountAt(s, k, labels)
    ensures forall j :: i <= j < k ==> AmountAt(s, j, labels).None?
    decreases |s| - i
  {
    if AmountAt(s, i, labels).Some? {
      k := i;
    } else {
      assert PreAmountFrom(s, i, labels) == PreAmountFrom(s, i + 1, labels);
      k := PreAmountFound(s, i + 1, labels);
    }
  }

  /** No amount found means no position from `i` on has a match. */
  lemma {:induction false} PreAmountNone(s: string, i: nat, labels: seq<string>)
    requires i <= |s| && PreAmountFrom(s, i, labels).None?
    ensures forall k :: i <= k < |s| ==> AmountAt(s, k, labels).None?
    decreases |s| - i
  {
    if i < |s| {
      assert PreAmountFrom(s, i, labels) == PreAmountFrom(s, i + 1, labels);
      PreAmountNone(s, i + 1, labels);
    }
  }

  /** At one position, the first label, in the listed order, that has a run after it decides. */
  lemma {:induction false} AmountAtSpec(s: string, i: nat, labels: seq<string>)
    requires i <= |s|
    ensures AmountAt(s, i, labels).Some? <==> exists l :: 0 <= l < |labels| && LabelRunAt(s, i, labels[l])
    ensures AmountAt(s, i, labels).Some? ==>
              exists l :: 0 <= l < |labels| && LabelRunAt(s, i, labels[l])
                          && AmountAt(s, i, labels) == FirstNumberRun(s, i + |labels[l]|)
                          && forall m :: 0 <= m < l ==> !LabelRunAt(s, i, labels[m])
  {
    if AmountAt(s, i, labels).Some? {
      var l := AmountLabel(s, i, labels);
      assert 0 <= l < |labels| && LabelRunAt(s, i, labels[l]);
    } else {
      AmountNone(s, i, labels);
    }
  }

  /** The label that decides a found amount: the first one with a run after it. */
  lemma {:induction false} AmountLabel(s: string, i: nat, labels: seq<string>) returns (l: nat)
    requires i <= |s| && AmountAt(s, i, labels).Some?
    ensures l < |labels| && LabelRunAt(s, i, labels[l])
    ensures AmountAt(s, i, labels) == FirstNumberRun(s, i + |labels[l]|)
    ensures forall m :: 0 <= m < l ==> !LabelRunAt(s, i, labels[m])
  {
    if LabelRunAt(s, i, labels[0]) {
      l := 0;
    } else {
      var k := AmountLabel(s, i, labels[1..]);
      l := k + 1;
      assert labels[l] == labels[1..][k];
      forall m | 0 <= m < l ensures !LabelRunAt(s, i, labels[m]) {
        if m > 0 {
          assert labels[m] == labels[1..][m - 1];
        }
      }
    }
  }

  /** No amount at a position means no label there has a run after it. */
  lemma {:induction false} AmountNone(s: string, i: nat, labels: seq<string>)
    requires i <= |s| && AmountAt(s, i, labels).None?
    ensures forall l :: 0 <= l < |labels| ==> !LabelRunAt(s, i, labels[l])
    decreases |labels|
  {
    if labels != [] {
      AmountNone(s, i, labels[1..]);
      forall l | 0 < l < |labels| ensures !LabelRunAt(s, i, labels[l]) {
        assert labels[l] == labels[1..][l - 1];
      }
    }
  }


  /**
   * What the `<pre>` amount search yields: the run after the leftmost position where
   * a label occurs with a class character after it, the first such label there; it
   * exists iff such a position does, and is non-empty and made only of digits, `.`,
   * `,` and whitespace.
   */
  lemma PreAmountIsRun(s: string, i: nat, labels: seq<string>)
    requires i <= |s|
    ensures PreAmountFrom(s, i, labels).Some? <==>
              exists k, l :: i <= k < |s| && 0 <= l < |labels| && LabelRunAt(s, k, labels[l])
    ensures PreAmountFrom(s, i, labels).Some? ==>
              exists k, l :: i <= k < |s| && 0 <= l < |labels| && LabelRunAt(s, k, labels[l])
                             && PreAmountFrom(s, i, labels) == FirstNumberRun(s, k + |labels[l]|)
                             && (forall j, m :: i <= j < k && 0 <= m < |labels| ==> !LabelRunAt(s, j, labels[m]))
                             && (forall m :: 0 <= m < l ==> !LabelRunAt(s, k, labels[m]))
    ensures PreAmountFrom(s, i, labels).Some? ==>
              var r := PreAmountFrom(s, i, labels).value;
              r != [] && forall j :: 0 <= j < |r| ==> NumberChar(r[j])
  {
    var k := PreAmountLeftmost(s, i, labels);
    if exists k', l :: i <= k' < |s| && 0 <= l < |labels| && LabelRunAt(s, k', labels[l]) {
      var k', l :| i <= k' < |s| && 0 <= l < |labels| && LabelRunAt(s, k', labels[l]);
      AmountAtSpec(s, k', labels);
      assert i <= k' < |s| && AmountAt(s, k', labels).Some?;
    }
    if PreAmountFrom(s, i, labels).Some? {
      var l := PreAmountAt(s, k, labels);
      forall j, m | i <= j < k && 0 <= m < |labels|
        ensures !LabelRunAt(s, j, labels[m])
      {
        AmountAtSpec(s, j, labels);
      }
      assert i <= k < |s| && 0 <= l < |labels| && LabelRunAt(s, k, labels[l]);
    }
  }

  /** The run found at position `k`: the label it follows, and its shape. */
  lemma PreAmountAt(s: string, k: nat, labels: seq<string>) returns (l: nat)
    requires k <= |s| && AmountAt(s, k, labels).Some?
    ensures l < |labels| && LabelRunAt(s, k, labels[l])
    ensures AmountAt(s, k, labels) == FirstNumberRun(s, k + |labels[l]|)
    ensures forall m :: 0 <= m < l ==> !LabelRunAt(s, k, labels[m])
    ensures var r := AmountAt(s, k, labels).value; r != [] && forall j :: 0 <= j < |r| ==> NumberChar(r[j])
  {
    l := AmountLabel(s, k, labels);
    NumberRunShape(s, k + |labels[l]|);
  }

  /** `m.group(2).strip()` for the amount search of the `<pre>` text; may be empty. */
  function PreAmount(pre: string): Option<string> {
    match PreAmountFrom(pre, 0, PreAmountLabels)
    case None => None
    case Some(run) => Some(Strip(run))
  }

  /** `\d{2}\.\d{2}\.\d{4}\.\s+\d{2}:\d{2}:\d{2}` anchored at `i`: where the match ends. */
  function DateAt(s: string, i: nat): (e: Option<nat>)
    ensures e.Some? ==> i < e.value <= |s|
  {
    if i + 11 < |s| && IsDigit(s[i]) && IsDigit(s[i + 1]) && s[i + 2] == '.'
       && IsDigit(s[i + 3]) && IsDigit(s[i + 4]) && s[i + 5] == '.'
       && IsDigit(s[i + 6]) && IsDigit(s[i + 7]) && IsDigit(s[i + 8]) && IsDigit(s[i + 9])
       && s[i + 10] == '.' && IsSpace(s[i + 11]) then
      var j := SkipSpace(s, i + 11);
      if j + 8 <= |s| && IsDigit(s[j]) && IsDigit(s[j + 1]) && s[j + 2] == ':'
         && IsDigit(s[j + 3]) && IsDigit(s[j + 4]) && s[j + 5] == ':'
         && IsDigit(s[j + 6]) && IsDigit(s[j + 7])
      then Some(j + 8) else None
    else None
  }

  /** The leftmost match of the date pattern at or after `from`. */
  function FindDate(s: string, from: nat): (r: Option<string>)
    requires from <= |s|
    ensures r.Some? <==> exists i :: from <= i < |s| && DateAt(s, i).Some?
    ensures r.Some? ==> exists i :: from <= i < |s| && DateAt(s, i).Some? && r.value == s[i..DateAt(s, i).value]
                                    && forall j :: from <= j < i ==> DateAt(s, j).None?
    decreases |s| - from
  {
    if from == |s| then None
    else match DateAt(s, from)
      case Some(e) => Some(s[from..e])
      case None => FindDate(s, from + 1)
  }

  /** `re.search` of the date pattern finds something. */
  predicate ContainsDate(s: string) {
    FindDate(s, 0).Some?
  }

  lemma DateNeedsColon(s: string)
    requires ':' !in s
    ensures !ContainsDate(s)
  {
  }

  // ----- _extract_html -----

  /** Python truthiness of an optional string: present and not empty. */
  predicate Given(t: Option<string>) {
    t.Some? && t.value != ""
  }

  function StoreText(page: Page, sels: Selectors): Option<string> {
    var byId := FirstText(page.selected, sels.store);
    if Given(byId) then byId
    else match page.pre
      case None => byId
      case Some(pre) => match PreStore(pre) case None => byId case Some(s) => Some(s)
  }

  function AmountText(page: Page, sels: Selectors): Option<string> {
    var byId := FirstText(page.selected, sels.amount);
    var byLabel := if Given(byId) then byId else FirstLabelValue(page.amountHits);
    if Given(byLabel) then byLabel
    else match page.pre
      case None => byLabel
      case Some(pre) => match PreAmount(pre) case None => byLabel case Some(a) => Some(a)
  }

  function DateText(page: Page, sels: Selectors): Option<string> {
    var byId := FirstText(page.selected, sels.date);
    var byLabel := if Given(byId) then byId
      else
        var cand := FirstLabelValue(page.dateHits);
        if Given(cand) && ContainsDate(cand.value) then cand else byId;
    if Given(byLabel) then byLabel
    else match page.pre
      case None => byLabel
      case Some(pre) => match FindDate(pre, 0) case None => byLabel case Some(d) => Some(d)
  }

  /** The dict `_extract_html` returns. */
  function HtmlFields(page: Page, sels: Selectors): Fields {
    var store := StoreText(page, sels);
    var amount := AmountText(page, sels);
    var dt := DateText(page, sels);
    Fields(
      if Given(store) then store else None,
      if Given(amount) then NumToCents(amount.value) else None,
      if Given(dt) then Some(FromStringToIso(dt.value)) else None)
  }

  /** The store section of `_extract_html`: selectors, then the `<pre>` line. */
  method FindStore(page: Page, sels: Selectors) returns (store: Option<string>)
    ensures store == StoreText(page, sels)
  {
    store := FindText(page.selected, sels.store);
    if !(store.Some? && store.value != "") {
      if page.pre.Some? {
        var m := FirstStoreLine(Lines(page.pre.value));
        if m.Some? {
          store := Some(Strip(m.value));
        }
      }
    }
  }

  /** The amount section of `_extract_html`: selectors, then labels, then the `<pre>` search. */
  method FindAmountText(page: Page, sels: Selectors) returns (amountText: Option<string>)
    ensures amountText == AmountText(page, sels)
  {
    amountText := FindText(page.selected, sels.amount);
    if !(amountText.Some? && amountText.value != "") {
      amountText := FindByLabelText(page.amountHits);
    }
    if !(amountText.Some? && amountText.value != "") {
      if page.pre.Some? {
        var m := PreAmountFrom(page.pre.value, 0, PreAmountLabels);
        if m.Some? {
          amountText := Some(Strip(m.value));
        }
      }
    }
  }

  /** The date section of `_extract_html`: selectors, then a label candidate with the pattern, then `<pre>`. */
  method FindDateText(page: Page, sels: Selectors) returns (dt: Option<string>)
    ensures dt == DateText(page, sels)
  {
    dt := FindText(page.selected, sels.date);
    if !(dt.Some? && dt.value != "") {
      var cand := FindByLabelText(page.dateHits);
      if cand.Some? && cand.value != "" && FindDate(cand.value, 0).Some? {
        dt := cand;
      }
    }
    if !(dt.Some? && dt.value != "") {
      if page.pre.Some? {
        var m := FindDate(page.pre.value, 0);
        if m.Some? {
          dt := m;
        }
      }
    }
  }

  /** `_extract_html`: `out` filled field by field; a refused amount is skipped. */
  method ExtractHtml(page: Page, sels: Selectors) returns (out: Fields)
    ensures out == HtmlFields(page, sels)
  {
    out := NoFields;
    var store := FindStore(page, sels);
    if store.Some? && store.value != "" {
      out := out.(store := store);
    }
    var amountText := FindAmountText(page, sels);
    if amountText.Some? && amountText.value != "" {
      var x := NumToCents(amountText.value);
      if x.Some? {
        out := out.(amount := x);
      }
    }
    var dt := FindDateText(page, sels);
    if dt.Some? && dt.value != "" {
      out := out.(ts := Some(FromStringToIso(dt.value)));
    }
  }

  // ----- properties of the cascade -----

  /** A store found by selector is taken, and the `<pre>` block is not consulted. */
  lemma StoreSelectorWins(page: Page, sels: Selectors, other: Option<string>)
    requires FirstText(page.selected, sels.store).Some?
    ensures StoreText(page, sels) == FirstText(page.selected, sels.store)
    ensures StoreText(page.(pre := other), sels) == StoreText(page, sels)
  {
  }

  /** Without a selector store, the store is a whole matching line of `<pre>`, stripped. */
  lemma PreStoreIsLine(page: Page, sels: Selectors)
    requires FirstText(page.selected, sels.store).None? && StoreText(page, sels).Some?
    ensures page.pre.Some?
    ensures exists line :: line in Lines(page.pre.value) && StoreLine(line)
                           && StoreText(page, sels).value == Strip(line)
  {
  }

  /** An amount text found by selector is taken; label hits and `<pre>` are not consulted. */
  lemma AmountSelectorWins(page: Page, sels: Selectors, hits: seq<LabelHit>, other: Option<string>)
    requires FirstText(page.selected, sels.amount).Some?
    ensures AmountText(page, sels) == FirstText(page.selected, sels.amount)
    ensures AmountText(page.(amountHits := hits, pre := other), sels) == AmountText(page, sels)
  {
  }

  /** Without a selector amount, a label value is taken and `<pre>` is not consulted. */
  lemma AmountLabelWins(page: Page, sels: Selectors, other: Option<string>)
    requires FirstText(page.selected, sels.amount).None? && FirstLabelValue(page.amountHits).Some?
    ensures AmountText(page, sels) == FirstLabelValue(page.amountHits)
    ensures AmountText(page.(pre := other), sels) == AmountText(page, sels)
  {
    FirstLabelValueSpec(page.amountHits);
    var i :| 0 <= i < |page.amountHits| && FirstLabelValue(page.amountHits) == LabelValue(page.amountHits[i]);
    LabelValueShape(page.amountHits[i]);
  }

  /**
   * Without selector and label values, the amount text is the `<pre>` run after a
   * label, stripped; it may strip to nothing, which counts as no amount.
   */
  lemma AmountFromPre(page: Page, sels: Selectors)
    requires FirstText(page.selected, sels.amount).None? && FirstLabelValue(page.amountHits).None?
    ensures page.pre.None? ==> AmountText(page, sels).None?
    ensures page.pre.Some? ==> AmountText(page, sels) == PreAmount(page.pre.value)
  {
  }

  /** An amount is recorded exactly when some strategy gave a text and `float()` took its cleaned form. */
  lemma AmountRecorded(page: Page, sels: Selectors)
    ensures HtmlFields(page, sels).amount.Some? <==>
              Given(AmountText(page, sels)) && NumToCents(AmountText(page, sels).value).Some?
    ensures HtmlFields(page, sels).amount.Some? ==> HasDigit(AmountText(page, sels).value)
  {
  }

  /** A date text found by selector is taken; label hits and `<pre>` are not consulted. */
  lemma DateSelectorWins(page: Page, sels: Selectors, hits: seq<LabelHit>, other: Option<string>)
    requires FirstText(page.selected, sels.date).Some?
    ensures DateText(page, sels) == FirstText(page.selected, sels.date)
    ensures DateText(page.(dateHits := hits, pre := other), sels) == DateText(page, sels)
  {
  }

  /** A label candidate without the date pattern is ignored: as if there were no label hits. */
  lemma LabelDateNeedsPattern(page: Page, sels: Selectors)
    requires FirstText(page.selected, sels.date).None?
    requires FirstLabelValue(page.dateHits).Some? && !ContainsDate(FirstLabelValue(page.dateHits).value)
    ensures DateText(page, sels) == DateText(page.(dateHits := []), sels)
  {
  }

  /** A label candidate with the date pattern is taken whole, and `<pre>` is not consulted. */
  lemma LabelDateTaken(page: Page, sels: Selectors, other: Option<string>)
    requires FirstText(page.selected, sels.date).None?
    requires FirstLabelValue(page.dateHits).Some? && ContainsDate(FirstLabelValue(page.dateHits).value)
    ensures DateText(page, sels) == FirstLabelValue(page.dateHits)
    ensures DateText(page.(pre := other), sels) == DateText(page, sels)
  {
  }

  /** Any date text that is used holds the date pattern unless a selector supplied it. */
  lemma DateTextHasPattern(page: Page, sels: Selectors)
    requires FirstText(page.selected, sels.date).None? && DateText(page, sels).Some?
    ensures ContainsDate(DateText(page, sels).value) || FindDate(page.pre.value, 0) == DateText(page, sels)
  {
  }

  /**
   * A label's date can only come from the string `find_next` finds: a value cut from the parent's
   * text has no `:` and so never passes the date check.
   */
  lemma ParentRunNeverDate(hit: LabelHit)
    requires HasDigit(ParentValue(hit.parentPieces))
    ensures !ContainsDate(LabelValue(hit).value)
  {
    ParentRunHasNoColon(hit);
    DateNeedsColon(LabelValue(hit).value);
  }
}
