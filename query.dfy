/**
 * `_try_params`: merchant, amount and timestamp read straight from the receipt
 * URL's query string. Splitting the URL and percent-decoding are `urllib`'s and are
 * not modelled: the input is the list of decoded `(name, value)` pairs in order,
 * or `Malformed` when `urlparse` raises.
 */
module QueryParams {
  import opened Wrappers
  import opened Fields
  import opened Amount
  import opened DateTimeIso

  datatype Query = Malformed | Pairs(pairs: seq<(string, string)>)

  /** What `parse_qs` returns: each name with its values, in order of appearance. */
  type QueryDict = map<string, seq<string>>

  /**
   * `parse_qs` over the decoded pairs: blank values are dropped (the default
   * `keep_blank_values=False`), the others appended to their name's list.
   */
  function ParseQs(pairs: seq<(string, string)>): (q: QueryDict)
    ensures forall k :: k in q ==> |q[k]| > 0
    ensures forall k :: k in q <==> exists i :: 0 <= i < |pairs| && pairs[i].0 == k && pairs[i].1 != ""
  {
    if pairs == [] then map[]
    else
      var q := ParseQs(pairs[..|pairs| - 1]);
      var (k, v) := pairs[|pairs| - 1];
      assert forall i :: 0 <= i < |pairs| - 1 ==> pairs[..|pairs| - 1][i] == pairs[i];
      if v == "" then q else q[k := (if k in q then q[k] else []) + [v]]
  }

  /** The non-blank values given to `k`, in order of appearance. */
  function ValuesOf(pairs: seq<(string, string)>, k: string): seq<string> {
    if pairs == [] then []
    else (if pairs[0].0 == k && pairs[0].1 != "" then [pairs[0].1] else []) + ValuesOf(pairs[1..], k)
  }

  lemma {:induction false} ValuesOfSnoc(pairs: seq<(string, string)>, p: (string, string), k: string)
    ensures ValuesOf(pairs + [p], k) == ValuesOf(pairs, k) + (if p.0 == k && p.1 != "" then [p.1] else [])
    decreases |pairs|
  {
    if pairs == [] {
      assert [p][1..] == [];
    } else {
      assert (pairs + [p])[1..] == pairs[1..] + [p];
      ValuesOfSnoc(pairs[1..], p, k);
    }
  }

  /** Each name's list holds exactly its non-blank values, in order of appearance. */
  lemma {:induction false} ParseQsValues(pairs: seq<(string, string)>)
    ensures forall k :: k in ParseQs(pairs) ==> ParseQs(pairs)[k] == ValuesOf(pairs, k)
    ensures forall k :: k !in ParseQs(pairs) ==> ValuesOf(pairs, k) == []
    decreases |pairs|
  {
    if pairs != [] {
      var init, p := pairs[..|pairs| - 1], pairs[|pairs| - 1];
      assert pairs == init + [p];
      ParseQsValues(init);
      forall k
        ensures ValuesOf(pairs, k) == ValuesOf(init, k) + (if p.0 == k && p.1 != "" then [p.1] else [])
      {
        ValuesOfSnoc(init, p, k);
      }
    }
  }

  lemma {:induction false} ValuesOfHead(pairs: seq<(string, string)>, k: string)
    requires ValuesOf(pairs, k) != []
    ensures exists i :: 0 <= i < |pairs| && pairs[i] == (k, ValuesOf(pairs, k)[0]) && pairs[i].1 != ""
                        && forall j :: 0 <= j < i ==> !(pairs[j].0 == k && pairs[j].1 != "")
    decreases |pairs|
  {
    if !(pairs[0].0 == k && pairs[0].1 != "") {
      ValuesOfHead(pairs[1..], k);
      var i :| 0 <= i < |pairs[1..]| && pairs[1..][i] == (k, ValuesOf(pairs[1..], k)[0]) && pairs[1..][i].1 != ""
               && forall j :: 0 <= j < i ==> !(pairs[1..][j].0 == k && pairs[1..][j].1 != "");
      forall j | 0 <= j < i + 1
        ensures !(pairs[j].0 == k && pairs[j].1 != "")
      {
        if j > 0 {
          assert pairs[j] == pairs[1..][j - 1];
        }
      }
      assert pairs[i + 1] == pairs[1..][i];
    }
  }

  /**
   * The value `pick` takes from a name is the first non-blank value the query gives
   * it: `?amt=&amt=5` yields `"5"`, `?amt=1&amt=2` yields `"1"`.
   */
  lemma FirstValueIsFirstGiven(pairs: seq<(string, string)>, k: string)
    requires k in ParseQs(pairs)
    ensures exists i :: 0 <= i < |pairs| && pairs[i] == (k, ParseQs(pairs)[k][0]) && pairs[i].1 != ""
                        && forall j :: 0 <= j < i ==> !(pairs[j].0 == k && pairs[j].1 != "")
  {
    ParseQsValues(pairs);
    ValuesOfHead(pairs, k);
  }

  /** `v and v[0]` for `v = q.get(k)`: the name is there and its first value is not empty. */
  predicate Usable(q: QueryDict, k: string) {
    k in q && |q[k]| > 0 && q[k][0] != ""
  }

  /**
   * `pick(*keys)`: the first value of the first alias, in the listed order, that is
   * usable; later aliases are not looked at.
   */
  function FirstAlias(q: QueryDict, keys: seq<string>): (r: Option<string>)
    ensures r.Some? ==> r.value != ""
    ensures r.None? <==> forall i :: 0 <= i < |keys| ==> !Usable(q, keys[i])
    ensures r.Some? ==> exists i :: 0 <= i < |keys| && Usable(q, keys[i]) && r.value == q[keys[i]][0]
                                    && forall j :: 0 <= j < i ==> !Usable(q, keys[j])
  {
    if keys == [] then None
    else if Usable(q, keys[0]) then Some(q[keys[0]][0])
    else
      var r := FirstAlias(q, keys[1..]);
      assert forall i :: 1 <= i < |keys| ==> keys[i] == keys[1..][i - 1];
      r
  }

  /** The alias found at position `i` decides, whatever the aliases after it hold. */
  lemma {:induction false} FirstUsableDecides(q: QueryDict, keys: seq<string>, i: nat)
    requires i < |keys| && Usable(q, keys[i])
    requires forall j :: 0 <= j < i ==> !Usable(q, keys[j])
    ensures FirstAlias(q, keys) == Some(q[keys[i]][0])
    ensures FirstAlias(q, keys) == FirstAlias(q, keys[..i + 1])
  {
    if i > 0 {
      assert keys[1..][..i] == keys[..i + 1][1..];
      FirstUsableDecides(q, keys[1..], i - 1);
    }
  }

  /** `pick`: the loop over the aliases with its early return. */
  method Pick(q: QueryDict, keys: seq<string>) returns (r: Option<string>)
    ensures r == FirstAlias(q, keys)
  {
    var i := 0;
    while i < |keys|
      invariant i <= |keys|
      invariant forall j :: 0 <= j < i ==> !Usable(q, keys[j])
    {
      var k := keys[i];
      if k in q && |q[k]| > 0 && q[k][0] != "" {
        FirstUsableDecides(q, keys, i);
        return Some(q[k][0]);
      }
      i := i + 1;
    }
    return None;
  }

  const AmountAliases: seq<string> := ["amt", "total", "amount", "zaUplatu"]
  const TsAliases: seq<string> := ["crtd", "dt", "time", "date"]
  const StoreAliases: seq<string> := ["tinName", "seller", "store", "merchant", "company"]

  /**
   * The dict `_try_params` returns. The store is recorded first; an amount that
   * `float()` refuses raises, which abandons the timestamp step; a timestamp that
   * does not parse is recorded as `''`.
   */
  function Params(query: Query): Fields {
    match query
    case Malformed => NoFields
    case Pairs(pairs) =>
      var q := ParseQs(pairs);
      var store := FirstAlias(q, StoreAliases);
      var ts := match FirstAlias(q, TsAliases)
        case Some(t) => Some(FromStringToIso(t))
        case None => None;
      match FirstAlias(q, AmountAliases)
      case None => Fields(store, None, ts)
      case Some(a) =>
        match QueryAmount(a)
        case None => Fields(store, None, None)
        case Some(x) => Fields(store, Some(x), ts)
  }

  /** `_try_params`: builds `out` key by key; an exception leaves it as far as it got. */
  method TryParams(query: Query) returns (out: Fields)
    ensures out == Params(query)
  {
    out := NoFields;
    if query.Malformed? {
      return;
    }
    var q := ParseQs(query.pairs);
    var amt := Pick(q, AmountAliases);
    var ts := Pick(q, TsAliases);
    var store := Pick(q, StoreAliases);
    ghost var tsPart := if ts.Some? then Some(FromStringToIso(ts.value)) else None;
    assert Params(query) == match amt
      case None => Fields(store, None, tsPart)
      case Some(a) => (match QueryAmount(a)
        case None => Fields(store, None, None)
        case Some(x) => Fields(store, Some(x), tsPart));
    if store.Some? && store.value != "" {
      out := out.(store := store);
    }
    assert out.store == store;
    if amt.Some? && amt.value != "" {
      var x := QueryAmount(amt.value);
      if x.None? {
        return;
      }
      out := out.(amount := x);
    }
    if ts.Some? && ts.value != "" {
      out := out.(ts := Some(FromStringToIso(ts.value)));
    }
  }

  /** The store alias is recorded whatever happens to the amount and the timestamp. */
  lemma StoreAlwaysKept(pairs: seq<(string, string)>)
    ensures Params(Pairs(pairs)).store == FirstAlias(ParseQs(pairs), StoreAliases)
  {
  }

  /**
   * An amount alias whose value `float()` refuses ends `_try_params` early: the store
   * found so far stays, no amount and no timestamp are recorded, even if a timestamp alias is there.
   */
  lemma AmountFailureDropsTs(pairs: seq<(string, string)>, a: string)
    requires FirstAlias(ParseQs(pairs), AmountAliases) == Some(a) && QueryAmount(a) == None
    ensures Params(Pairs(pairs)) == Fields(FirstAlias(ParseQs(pairs), StoreAliases), None, None)
  {
  }

  /** A timestamp alias whose value does not parse is recorded as `''`, not left out. */
  lemma UnparseableTsIsEmpty(pairs: seq<(string, string)>, t: string)
    requires FirstAlias(ParseQs(pairs), TsAliases) == Some(t) && FromStringToIso(t) == ""
    requires forall a :: FirstAlias(ParseQs(pairs), AmountAliases) == Some(a) ==> QueryAmount(a).Some?
    ensures Params(Pairs(pairs)).ts == Some("")
  {
  }

  /**
   * A receipt URL carrying all three fields under their first aliases,
   * `?amt=<a>&store=<s>&crtd=<t>`: each is recorded, the amount converted and the
   * timestamp rewritten.
   */
  lemma AllInQuery(pairs: seq<(string, string)>, a: string, s: string, t: string, x: real)
    requires pairs == [("amt", a), ("store", s), ("crtd", t)]
    requires a != "" && s != "" && t != ""
    requires QueryAmount(a) == Some(x)
    ensures Params(Pairs(pairs)) == Fields(Some(s), Some(x), Some(FromStringToIso(t)))
  {
    ThreeNames(pairs, a, s, t);
    ThreeAliases(ParseQs(pairs), a, s, t);
  }

  lemma ThreeAliases(q: QueryDict, a: string, s: string, t: string)
    requires q == map["amt" := [a], "store" := [s], "crtd" := [t]]
    requires a != "" && s != "" && t != ""
    ensures FirstAlias(q, AmountAliases) == Some(a)
    ensures FirstAlias(q, TsAliases) == Some(t)
    ensures FirstAlias(q, StoreAliases) == Some(s)
  {
    FirstUsableDecides(q, AmountAliases, 0);
    FirstUsableDecides(q, TsAliases, 0);
    assert StoreAliases[0] !in q && StoreAliases[1] !in q;
    FirstUsableDecides(q, StoreAliases, 2);
  }

  lemma ThreeNames(pairs: seq<(string, string)>, a: string, s: string, t: string)
    requires pairs == [("amt", a), ("store", s), ("crtd", t)]
    requires a != "" && s != "" && t != ""
    ensures ParseQs(pairs) == map["amt" := [a], "store" := [s], "crtd" := [t]]
  {
    var p1, p2 := pairs[..1], pairs[..2];
    assert p1[..|p1| - 1] == [];
    assert p1[|p1| - 1] == ("amt", a);
    var q1 := ParseQs(p1);
    assert q1 == map[]["amt" := [] + [a]];
    assert [] + [a] == [a];
    assert p2[..|p2| - 1] == p1;
    assert p2[|p2| - 1] == ("store", s);
    var q2 := ParseQs(p2);
    assert q2 == q1["store" := [] + [s]];
    assert [] + [s] == [s];
    assert pairs[..|pairs| - 1] == p2;
    assert pairs[|pairs| - 1] == ("crtd", t);
    assert ParseQs(pairs) == q2["crtd" := [] + [t]];
    assert [] + [t] == [t];
  }

  /** `?amt=1.234,56&store=MAXI&crtd=15.03.2024.%2013:45:02`. */
  lemma ExampleAllInQuery(pairs: seq<(string, string)>, a: string, t: string)
    requires a == "1.234,56" && t == "15.03.2024. 13:45:02"
    requires pairs == [("amt", a), ("store", "MAXI"), ("crtd", t)]
    ensures Params(Pairs(pairs)) == Fields(Some("MAXI"), Some(1234.56), Some("2024-03-15T13:45:02"))
  {
    Amount.ExampleThousandsQuery(a);
    DateTimeIso.ExampleValid();
    AllInQuery(pairs, a, "MAXI", t, 1234.56);
  }
}
