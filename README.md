# Receipt parsing and categorization, modelled in Dafny

This project models the core of a receipt analyzer for Serbian fiscal receipts.

- **Receipt parsing** (`src/receipt.py`). A receipt QR code carries a URL. `parse_from_url`
  reads the merchant, the amount and the timestamp from the URL's query string first. It
  fetches the receipt page only when one of the three is missing or falsy. The page is
  scraped by `_extract_html`, which tries a cascade of strategies per field: CSS selectors,
  label search, then the text of the `<pre>` block. The page's fields fill the gaps, but
  every key the query set keeps its query value. Amounts follow the Serbian convention
  (`1.234,56`) and are converted by `_num_to_cents`. Timestamps are rewritten from
  `dd.mm.yyyy. HH:MM:SS` to ISO by `_from_string_to_iso`, and `''` stands for "unparseable".
- **Categorization** (`src/categorize.py`). `normalize_store` removes the legal-form token
  (`d.o.o.`, `a.d.`, `doo`, `ad`), some punctuation and the surrounding whitespace from a
  merchant name. `guess_category` reads the enabled rules in `(priority, id)` order, compiles
  them, and returns the category of the first rule whose pattern is found in the normalized
  name, or `'other'`.

Modules, in dependency order:

- `Wrappers`: `Option`.
- `Text`: Python's whitespace class, `str.strip`, character filters, lines, and `get_text(strip=True)`.
- `PyFloat`: `float()` on decimal text, with exact reals.
- `DateTimeIso`: `_from_string_to_iso`, including the leniency of `strptime`.
- `Amount`: `_num_to_cents` and the amount cleanup of `_try_params`.
- `Fields`: the result dict and `{**page, **query}`.
- `QueryParams`: `parse_qs`, `pick` and `_try_params`.
- `HtmlExtract`: `_find_text`, `_find_by_label_text` and `_extract_html`.
- `Receipt`: `parse_from_url` and the QR fallback.
- `StoreName`: `normalize_store`.
- `Categorize`: `_compile_rules`, `_db_rules` and `guess_category`.

Each loop of the source is a method, proved equal to a specification function. The
properties below are proved about those functions. These are `pick`, `_find_text`,
`_find_by_label_text`, the three sections of `_extract_html`, `_try_params`, `parse_from_url`,
`_compile_rules` and `guess_category`.

`normalize_store` is not idempotent, and it does not change letter case:

- Commas inside the token hide it from the substitution and are deleted only afterwards. So
  `"X d,o,o"` becomes `"X doo"`, which normalizes again to `"X"` (`StoreName.NotIdempotent`).
- Letter case is kept, so `"Maxi doo"` becomes `"Maxi"`.

## Model

| member | source | states |
|---|---|---|
| DateTimeIso.FromStringToIso | src/receipt.py:9-15 | The result is `''` or the ISO text of a real calendar date and time. |
| DateTimeIso.ConvertsRenderings | src/receipt.py:9-15 | The result is non-empty iff the text is a rendering that `strptime` accepts of a real date and time, and it is then that date and time in ISO form. A rendering is one- or two-digit day, month, hour, minute and second, a day that may be a space and a digit, a four-digit year, the dots and colons, and a run of whitespace. |
| DateTimeIso.RenderingParses | src/receipt.py:9-15 | Every rendering of a real date and time parses back to it. |
| DateTimeIso.ParsedRenders | src/receipt.py:10-12 | Every text that parses is a rendering of what it parses to. |
| DateTimeIso.MatchSerbianText | src/receipt.py:10-12 | Reading back a date written as `dd.mm.yyyy. HH:MM:SS` gives back its components, exactly when `strptime`'s field patterns admit them. |
| DateTimeIso.StrictForm | src/receipt.py:9-15 | On strictly formatted text, a real date and time converts to its ISO form. Anything else converts to `''`: 30 February, hour 24, second 60, year 0. |
| DateTimeIso.ExampleValid | src/receipt.py:9-15 | `"15.03.2024. 13:45:02"` becomes `"2024-03-15T13:45:02"`. |
| DateTimeIso.ExampleNoSuchDay | src/receipt.py:9-15 | `"30.02.2024. 13:45:02"` becomes `''`. |
| DateTimeIso.ExampleHour24 | src/receipt.py:9-15 | `"15.03.2024. 24:00:00"` becomes `''`. |
| DateTimeIso.ExampleMissingDot | src/receipt.py:9-15 | Without the dot after the year, the result is `''`. |
| DateTimeIso.ExampleLenient | src/receipt.py:9-15 | One-digit fields and a run of spaces are accepted: `"1.3.2024.  9:05:07"` becomes `"2024-03-01T09:05:07"`. |
| Receipt.QrUrl | src/receipt.py:39-42 | The primary decoder's text wins when it is non-empty. Otherwise the secondary's is used. Only a non-empty text gives a URL. |
| QueryParams.ParseQs | src/receipt.py:50-51 | A name is in the dict iff some pair with that name has a non-blank value. Every list is non-empty. |
| QueryParams.ParseQsValues | src/receipt.py:51 | Each name's list is exactly the non-blank values given for it, in query order. A name without one is absent. |
| QueryParams.FirstValueIsFirstGiven | src/receipt.py:51-56 | The first value of a name's list, the one `pick` takes, is its first non-blank value in the query. |
| QueryParams.FirstAlias | src/receipt.py:52-57 | None iff no alias is usable. Otherwise the result is the first value of the first usable alias, in the listed order. |
| QueryParams.FirstUsableDecides | src/receipt.py:52-57 | The first usable alias decides, whatever the aliases after it hold. |
| QueryParams.Pick | src/receipt.py:52-57 | The loop returns the value of the first usable alias, or None. |
| QueryParams.TryParams | src/receipt.py:44-68 | The method builds the dict step by step and yields the `Params` result, including the early exit on a refused amount. |
| QueryParams.StoreAlwaysKept | src/receipt.py:60-61 | The store alias is recorded whatever happens to the amount and the timestamp. |
| QueryParams.AmountFailureDropsTs | src/receipt.py:62-67 | An amount that `float()` refuses ends the function: the store stays, and no amount or timestamp is recorded. |
| QueryParams.UnparseableTsIsEmpty | src/receipt.py:65 | A timestamp that does not parse is recorded as `''`, not dropped. |
| QueryParams.AllInQuery | src/receipt.py:58-65 | For `?amt=a&store=s&crtd=t`, all three are recorded: the amount converted and the timestamp rewritten. |
| QueryParams.ExampleAllInQuery | src/receipt.py:58-65 | `amt=1.234,56&store=MAXI&crtd=15.03.2024. 13:45:02` gives MAXI, 1234.56 and `2024-03-15T13:45:02`. |
| Amount.NumToCents | src/receipt.py:86-90 | A converted amount comes from a text that holds a digit. |
| Amount.SerbianCleanShape | src/receipt.py:89 | The cleaned text has no whitespace and no `,`. It has as many `.` as the input had `,`. Every other character comes from the input. |
| Amount.SerbianAmountRoundTrip | src/receipt.py:88-90 | An amount printed with grouped units, `,` and two-digit cents reads back as units + cents/100. |
| Amount.ExampleThousands | src/receipt.py:88-90 | `"1.234,56"` is 1234.56. |
| Amount.QueryCleanShape | src/receipt.py:63 | The query cleanup leaves no `,`, turns each `,` into one `.`, and keeps the spaces. |
| Amount.QueryAgreesWithoutSpace | src/receipt.py:63-64 | Without whitespace in the text, the query path reads the same amount as the page path. |
| Amount.SpaceSplitsQueryAmount | src/receipt.py:63-64 | Digit groups separated by a space are refused on the query path, but read as one number on the page path. |
| PyFloat.ParseFloat | src/receipt.py:90 | `float()` accepts only text that holds a digit. |
| PyFloat.DecimalNumeral | src/receipt.py:90 | `whole.frac` reads as its whole part plus its scaled fraction. |
| PyFloat.WholeNumeral | src/receipt.py:90 | A digit string reads as its integer value. |
| PyFloat.NoDigitNoNumber | src/receipt.py:90 | Text with no digit is refused. |
| Text.Strip | src/receipt.py:108 | `str.strip`: the result is no longer than the input and has no whitespace at either end. Text without whitespace is unchanged. |
| Text.StripParts | src/receipt.py:108 | The stripped text is an infix of the input, with only whitespace around it. |
| Text.JoinStripped | src/receipt.py:96 | `get_text(strip=True)` has no whitespace at either end. |
| HtmlExtract.FirstText | src/receipt.py:92-99 | The result is None iff no selector yields text. Otherwise it is the non-empty, stripped text of the first selector that does. |
| HtmlExtract.FirstYieldDecides | src/receipt.py:93-98 | The first selector that yields text decides. |
| HtmlExtract.FindText | src/receipt.py:92-99 | The loop with its early return computes `FirstText`. |
| HtmlExtract.FirstNumberCharIsFirst | src/receipt.py:106 | The search starts at the leftmost character of the class. |
| HtmlExtract.RunEndIsLongest | src/receipt.py:106 | The greedy run covers only class characters and stops before a non-class character. |
| HtmlExtract.NumberRunShape | src/receipt.py:106 | The run is None iff no class character exists. Otherwise it is non-empty and made only of class characters. |
| HtmlExtract.SiblingValue | src/receipt.py:111-115 | A value from `parent.find_next` holds a digit. `find_next` finds the first string holding a digit from the parent on, in document order, so the parent's own strings come first. |
| HtmlExtract.LabelValueShape | src/receipt.py:105-115 | A label value holds a digit and has no whitespace at either end. |
| HtmlExtract.FirstLabelValueSpec | src/receipt.py:103-116 | None iff no hit gives a value. Otherwise the result is the value of the first hit that gives one. |
| HtmlExtract.FindByLabelText | src/receipt.py:101-116 | The loop with its early returns computes `FirstLabelValue`. |
| HtmlExtract.LabelSpaceFallsThrough | src/receipt.py:105-111 | A parent text of a label word, one space and a non-class character has the lone space as its first run. That run strips to nothing, so the value comes from `parent.find_next`. |
| HtmlExtract.ParentRunHasNoColon | src/receipt.py:106-110 | A value taken from the parent's run holds no `:`. |
| HtmlExtract.FirstStoreLine | src/receipt.py:132 | None iff no line is a whole match of the store pattern. Otherwise the result is the first line that is. |
| HtmlExtract.PreStore | src/receipt.py:130-134 | A `<pre>` store is a matching whole line, stripped, non-empty and starting with `[A-Z0-9]`. |
| HtmlExtract.PreAmountIsRun | src/receipt.py:153-155 | A `<pre>` amount exists iff some position holds a label with a class character after it. It is then the run after the leftmost such position, using the first listed label that fits there. It is non-empty and made only of digits, `.`, `,` and whitespace. |
| HtmlExtract.AmountAtSpec | src/receipt.py:153 | At one position, a match exists iff some label occurs there with a class character after it. The first such label, in the listed order, gives the run. |
| HtmlExtract.PreAmountLeftmost | src/receipt.py:153-155 | The search succeeds iff some position from the start has a match, and it takes the leftmost one. |
| HtmlExtract.FindDate | src/receipt.py:176-178 | The result is the leftmost match of the date pattern, and exists iff some match does. |
| HtmlExtract.DateNeedsColon | src/receipt.py:171 | Text without `:` never holds the date pattern. |
| HtmlExtract.FindStore | src/receipt.py:122-134 | The store section returns the selector text, else the `<pre>` line. |
| HtmlExtract.FindAmountText | src/receipt.py:138-155 | The amount section returns the selector text, else the label value, else the `<pre>` run. |
| HtmlExtract.FindDateText | src/receipt.py:162-178 | The date section returns the selector text, else a label value holding the date pattern, else the `<pre>` match. |
| HtmlExtract.ExtractHtml | src/receipt.py:118-182 | The method builds the result field by field. A refused amount is skipped. The timestamp is the ISO rewrite. |
| HtmlExtract.StoreSelectorWins | src/receipt.py:123-129 | A selector store is taken, and `<pre>` is not consulted. |
| HtmlExtract.PreStoreIsLine | src/receipt.py:129-134 | Without a selector store, any store is a whole matching line of `<pre>`, stripped. |
| HtmlExtract.AmountSelectorWins | src/receipt.py:139-145 | A selector amount is taken. Label hits and `<pre>` play no part. |
| HtmlExtract.AmountLabelWins | src/receipt.py:145-150 | Otherwise a label value is taken, and `<pre>` plays no part. |
| HtmlExtract.AmountFromPre | src/receipt.py:150-155 | Otherwise the amount text is the `<pre>` search's result. |
| HtmlExtract.AmountRecorded | src/receipt.py:156-160 | An amount is recorded iff some strategy gave a text and `float()` took its cleaned form. |
| HtmlExtract.DateSelectorWins | src/receipt.py:163-168 | A selector date is taken. Label hits and `<pre>` play no part. |
| HtmlExtract.LabelDateNeedsPattern | src/receipt.py:168-172 | A label candidate without the date pattern is ignored. |
| HtmlExtract.LabelDateTaken | src/receipt.py:168-173 | A label candidate with the pattern is taken whole, and `<pre>` plays no part. |
| HtmlExtract.DateTextHasPattern | src/receipt.py:168-178 | A date text not from a selector holds the date pattern, or is the `<pre>` match. |
| HtmlExtract.ParentRunNeverDate | src/receipt.py:168-172 | A label date can come only from `parent.find_next`, never from the parent's run. |
| Fields.Merge | src/receipt.py:200 | The merged keys are those of both dicts. A query key keeps its value, even `''`. A page value fills only keys the query lacks. |
| Receipt.ParseFromUrl | src/receipt.py:184-204 | The result is `UrlFields`. The page is requested iff the URL is non-empty and the query result is not complete. |
| Receipt.EmptyUrl | src/receipt.py:185-186 | An empty URL gives `{}` and no request. |
| Receipt.QueryKeysKept | src/receipt.py:198-200 | Every key the query set survives with its query value. |
| Receipt.MergedKeys | src/receipt.py:198-200 | After a usable fetch, the keys are those of the query and the page together. |
| Receipt.CompleteQuerySkipsFetch | src/receipt.py:189 | A complete query decides the result, whatever the page holds. |
| Receipt.FalsyQueryFieldFetches | src/receipt.py:189 | An amount of `0.0` or a timestamp of `''` counts as missing and causes a fetch. |
| Receipt.UnusableFetchKeepsQuery | src/receipt.py:198-202 | A failed request, a non-ok status or an empty body leave the query result unchanged. |
| Receipt.PageFillsGaps | src/receipt.py:198-200 | A field the query lacks takes the page's value. |
| StoreName.CloseToken | src/categorize.py:8 | The token ends just before or just after its optional last dot, and always at a word boundary within the text. |
| StoreName.TokenAt | src/categorize.py:8 | A token match is non-empty and has a word boundary at both ends. |
| StoreName.TokenAtSpec | src/categorize.py:8 | A match at a position ends at `e` iff the text up to `e` is the longest spelling there, with a word boundary before and after. A spelling is `d.o.o.` or `a.d.` in any case, every dot optional. No match exists iff there is no such spelling. |
| StoreName.TokenSound | src/categorize.py:8 | Whatever is cut out is a word-bounded spelling of the token. |
| StoreName.TokenComplete | src/categorize.py:8 | Every word-bounded spelling is cut out, or a longer one starting at the same place is. |
| StoreName.TokenRemoved | src/categorize.py:8 | The first word-bounded spelling is cut out and the text before it is kept. |
| StoreName.NoSpellingUnchanged | src/categorize.py:8 | Text with no word-bounded spelling passes the substitution unchanged. |
| StoreName.LegalFormDropped | src/categorize.py:6-10 | A token-free name followed by a space and a legal form ending in a letter, with or without a final dot, normalizes as the name alone. |
| StoreName.RemoveTokens | src/categorize.py:8 | The substitution never lengthens the text. |
| StoreName.NoTokenKept | src/categorize.py:8 | A stretch where no token starts is copied through unchanged. |
| StoreName.NoTokenUnchanged | src/categorize.py:8 | Text with no token passes the substitution unchanged. |
| StoreName.InsideWordKept | src/categorize.py:8 | Letters inside a longer word never start or end a token. |
| StoreName.TokenStartsWithLetter | src/categorize.py:8 | A removed stretch starts with `d` or `a`, in either case. |
| StoreName.NormalizeStore | src/categorize.py:6-10 | An absent or empty name gives `''`. |
| StoreName.NormalizedShape | src/categorize.py:9-10 | The result has none of the listed punctuation marks, no whitespace at either end, and is no longer than the input. |
| StoreName.ExampleLegalForm | src/categorize.py:6-10 | `"MAXI D.O.O."` becomes `"MAXI"`. The final dot is left by the token and removed as punctuation. |
| StoreName.ExampleInsideWord | src/categorize.py:6-10 | `"ADRIA"` is unchanged: `AD` is followed by a letter, so there is no boundary. |
| StoreName.NotIdempotent | src/categorize.py:6-10 | `"X d,o,o"` becomes `"X doo"`, and normalizing that again gives `"X"`. |
| Categorize.CompiledRules | src/categorize.py:13-21 | The result has no more rules than there are rows. |
| Categorize.CompileRules | src/categorize.py:13-21 | The loop appends exactly the enabled, compiling rows' rules. An exception other than `re.error` leaves the function with no list. |
| Categorize.EscapeAborts | src/categorize.py:16-20 | An enabled row whose pattern raises something other than `re.error` means no list is returned, whatever the other rows hold. |
| Categorize.CompileConcat | src/categorize.py:15-20 | Compiling a concatenation compiles each part, so the rows keep their order. |
| Categorize.DroppedAlone | src/categorize.py:16-20 | A disabled row, or one whose compile raises `re.error`, is dropped alone. The outcome is that of the other rows. |
| Categorize.CompiledFromKeptRows | src/categorize.py:13-21 | Each rule comes from an enabled, compiling row, and the rules keep the rows' order. |
| Categorize.AllKept | src/categorize.py:15-18 | When every row is enabled and compiles, rule i comes from row i. |
| Categorize.OrderRows | src/categorize.py:28 | The rows come back as a permutation of the table, ordered by `(priority, id)`. |
| Categorize.OrderedUnique | src/categorize.py:28 | With unique ids, there is only one ordered arrangement of a set of rows. |
| Categorize.InsertionOrderIrrelevant | src/categorize.py:28 | Tables holding the same rows are read in the same order. |
| Categorize.ReadRules | src/categorize.py:23-33 | The result is `[]` on an unreadable database, or when compiling escapes with an exception. Otherwise it is the ordered rows, compiled. |
| Categorize.EscapingRuleEmpties | src/categorize.py:17-44 | One enabled rule whose compile raises something other than `re.error` empties the rule set, so every name is `'other'`. |
| Categorize.FirstMatch | src/categorize.py:41-43 | The result is None iff no rule matches. Otherwise it is the category of the first rule that does. |
| Categorize.FirstMatchAt | src/categorize.py:41-43 | The first matching rule decides, whatever rules follow. |
| Categorize.GuessCategory | src/categorize.py:36-44 | The method with its early returns computes `Category`. |
| Categorize.OtherCases | src/categorize.py:36-40 | The result is `'other'` when the name normalizes to nothing, when no database is given, or when it cannot be read. |
| Categorize.FirstRuleDecides | src/categorize.py:40-43 | Otherwise the result is the category of the first rule, in `(priority, id)` order, that is enabled, compiles and matches. |
| Categorize.NoRuleMatches | src/categorize.py:41-44 | The result is `'other'` when no rule matches. |
| Categorize.SameNameSameCategory | src/categorize.py:37 | Names that normalize alike get the same category. |
| Categorize.SameRulesSameCategory | src/categorize.py:28 | The category does not depend on the order the rules were inserted in. |

## Left out

- Splitting the URL and percent-decoding (`urlparse`, `parse_qs`'s decoding) are left out. The query is given as decoded `(name, value)` pairs, or as `Malformed` where `urlparse` raises.
- HTML parsing, CSS selection and the label text-node search are left out. A page is given as what BeautifulSoup returns for each call the code makes.
- The HTTP request is left out: its headers, timeout and text decoding. It is given as its outcome: an exception, or `ok`, the body and the parsed page.
- The QR decoders (`pyzbar`, OpenCV) and image loading are left out. Only the `a or b` fallback over their results is modelled.
- The SQLite connection and query are left out. The table is given as its rows, or as unreadable. `ORDER BY` is an insertion sort, proved ordered and a permutation.
- Regular expressions given by rules are left out. `re.compile(p, re.I)` is a parameter with three outcomes: it compiles, raises `re.error`, or raises another exception (`OverflowError` for a huge repeat count, say). Whether `search` finds a match is a parameter too.
- PyFloat.ParseFloat: values are exact reals, not rounded doubles. The model accepts only optionally signed `ddd`, `ddd.`, `ddd.ddd` and `.ddd` after stripping. Exponents, `_` separators, `inf` and `nan` are not accepted.
- Text.IsDigit: `\d` is taken as the ASCII digits. Python also matches other Unicode decimal digits.
- StoreName.IsWordChar: `\w` is approximated by ASCII, Latin-1, Latin Extended and Cyrillic letters and digits, plus `_`.
- Text.Fold: `re.I` case folding covers ASCII and the basic Cyrillic alphabet only.
- `_SERB_STORE_PATTERNS`, `_SERB_TOTAL_PATTERNS` and `_SERB_DATE_PATTERNS` (src/receipt.py:70-84) are never used by the code, so they are not modelled.
- Exceptions that the code cannot raise on the modelled inputs have no error path. This covers a missing `pattern` key in a rule row and a BeautifulSoup parse failure.
