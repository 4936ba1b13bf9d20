/**
 * The partial record every extraction stage returns: the dict with optional keys
 * `store`, `amount` and `ts`. A key the source never sets is `None`; its three
 * possible keys are the record's fields.
 */
module Fields {
  import opened Wrappers

  datatype Fields = Fields(store: Option<string>, amount: Option<real>, ts: Option<string>)

  /** `{}` */
  const NoFields := Fields(None, None, None)

  datatype Key = Store | Amount | Ts

  /** `key in d` */
  predicate Has(f: Fields, k: Key) {
    match k
    case Store => f.store.Some?
    case Amount => f.amount.Some?
    case Ts => f.ts.Some?
  }

  /** The truthiness of `d.get(key)`: present, and not `''` or `0.0`. */
  predicate Truthy(f: Fields, k: Key) {
    match k
    case Store => f.store.Some? && f.store.value != ""
    case Amount => f.amount.Some? && f.amount.value != 0.0
    case Ts => f.ts.Some? && f.ts.value != ""
  }

  /** `d.get("store") and d.get("amount") and d.get("ts")` */
  predicate Complete(f: Fields) {
    Truthy(f, Store) && Truthy(f, Amount) && Truthy(f, Ts)
  }

  /**
   * `{**page, **query}`: the keys of both, each with the query's value where the
   * query has that key (even `''`), otherwise the page's.
   */
  function Merge(page: Fields, query: Fields): (r: Fields)
    ensures forall k :: Has(r, k) <==> Has(page, k) || Has(query, k)
    ensures query.store.Some? ==> r.store == query.store
    ensures query.amount.Some? ==> r.amount == query.amount
    ensures query.ts.Some? ==> r.ts == query.ts
    ensures query.store.None? ==> r.store == page.store
    ensures query.amount.None? ==> r.amount == page.amount
    ensures query.ts.None? ==> r.ts == page.ts
  {
    Fields(query.store.OrElse(page.store), query.amount.OrElse(page.amount), query.ts.OrElse(page.ts))
  }
}
