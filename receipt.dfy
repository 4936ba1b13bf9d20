/**
 * `parse_from_url` and `parse_from_qr_image`: the top of the receipt pipeline.
 *
 * The query string is read first; the receipt page is fetched only when the query
 * left one of the three fields missing or falsy, and on a usable response the page's
 * fields fill the gaps while every key the query set keeps its query value.
 */
module Receipt {
  import opened Wrappers
  import opened Fields
  import opened QueryParams
  import opened HtmlExtract

  /**
   * The outcome of `requests.get(url, ...)`: an exception, or a response with its
   * `ok` flag, its decoded text and the page BeautifulSoup parses from that text.
   */
  datatype Fetch = Failed | Response(ok: bool, body: string, page: Page)

  /** The condition under which `parse_from_url` goes to the network. */
  predicate NeedsFetch(url: string, query: Query) {
    url != "" && !Complete(Params(query))
  }

  /** A response `_extract_html` is run on: `r.ok and r.text`. */
  predicate Usable(fetch: Fetch) {
    fetch.Response? && fetch.ok && fetch.body != ""
  }

  /**
   * The dict `parse_from_url(url)` returns, where `query` is what `urlparse` and
   * `parse_qs` make of `url` and `fetch` is what fetching `url` would give.
   */
  function UrlFields(url: string, query: Query, fetch: Fetch): Fields {
    if url == "" then NoFields
    else if NeedsFetch(url, query) && Usable(fetch) then
      Merge(HtmlFields(fetch.page, ReceiptSelectors), Params(query))
    else Params(query)
  }

  /** `parse_from_url`; `fetched` tells whether the page was requested. */
  method ParseFromUrl(url: string, query: Query, fetch: Fetch) returns (result: Fields, fetched: bool)
    ensures result == UrlFields(url, query, fetch)
    ensures fetched <==> NeedsFetch(url, query)
  {
    if url == "" {
      return NoFields, false;
    }
    result := TryParams(query);
    fetched := false;
    if !(Truthy(result, Store) && Truthy(result, Amount) && Truthy(result, Ts)) {
      fetched := true;
      if fetch.Response? && fetch.ok && fetch.body != "" {
        var htmlData := ExtractHtml(fetch.page, ReceiptSelectors);
        result := Merge(htmlData, result);
      }
    }
  }

  /** An empty URL gives `{}` without looking at the query or the network. */
  lemma EmptyUrl(query: Query, fetch: Fetch)
    ensures UrlFields("", query, fetch) == NoFields
    ensures !NeedsFetch("", query)
  {
  }

  /**
   * Every key the query string set survives with its query value, even `''`,
   * whatever the page holds.
   */
  lemma QueryKeysKept(url: string, query: Query, fetch: Fetch)
    requires url != ""
    ensures Params(query).store.Some? ==> UrlFields(url, query, fetch).store == Params(query).store
    ensures Params(query).amount.Some? ==> UrlFields(url, query, fetch).amount == Params(query).amount
    ensures Params(query).ts.Some? ==> UrlFields(url, query, fetch).ts == Params(query).ts
  {
  }

  /** After a usable fetch the keys are those of the query and the page together. */
  lemma MergedKeys(url: string, query: Query, fetch: Fetch)
    requires NeedsFetch(url, query) && Usable(fetch)
    ensures forall k :: (Has(UrlFields(url, query, fetch), k)
                         <==> Has(Params(query), k) || Has(HtmlFields(fetch.page, ReceiptSelectors), k))
  {
  }

  /** A query with all three fields truthy decides the result: the page plays no part. */
  lemma CompleteQuerySkipsFetch(url: string, query: Query, f1: Fetch, f2: Fetch)
    requires url != "" && Complete(Params(query))
    ensures !NeedsFetch(url, query)
    ensures UrlFields(url, query, f1) == UrlFields(url, query, f2) == Params(query)
  {
  }

  /** An amount of `0.0` or a timestamp of `''` from the query counts as missing: the page is fetched. */
  lemma FalsyQueryFieldFetches(url: string, query: Query)
    requires url != ""
    requires Params(query).amount == Some(0.0) || Params(query).ts == Some("")
    ensures NeedsFetch(url, query)
  {
  }

  /** A failed request, a non-ok status or an empty body leave the query's result as it is. */
  lemma UnusableFetchKeepsQuery(url: string, query: Query, fetch: Fetch)
    requires url != "" && !Usable(fetch)
    ensures UrlFields(url, query, fetch) == Params(query)
  {
  }

  /** A field missing from the query is the page's, after a usable fetch. */
  lemma PageFillsGaps(url: string, query: Query, fetch: Fetch)
    requires NeedsFetch(url, query) && Usable(fetch)
    ensures Params(query).store.None? ==> UrlFields(url, query, fetch).store == HtmlFields(fetch.page, ReceiptSelectors).store
    ensures Params(query).amount.None? ==> UrlFields(url, query, fetch).amount == HtmlFields(fetch.page, ReceiptSelectors).amount
    ensures Params(query).ts.None? ==> UrlFields(url, query, fetch).ts == HtmlFields(fetch.page, ReceiptSelectors).ts
  {
  }

  /**
   * `parse_from_qr_image`: `primary or secondary` over the two decoders' results, kept
   * only when it is a non-empty text; the image decoding itself is not modelled.
   */
  function QrUrl(primary: Option<string>, secondary: Option<string>): (r: Option<string>)
    ensures r.Some? ==> r.value != ""
    ensures Given(primary) ==> r == primary
    ensures !Given(primary) ==> (r.Some? <==> Given(secondary)) && (r.Some? ==> r == secondary)
  {
    var data := if Given(primary) then primary else secondary;
    if Given(data) then data else None
  }
}
