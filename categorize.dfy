/**
 * The categorization rule engine: rules stored with a priority, read back in
 * `(priority, id)` order, compiled (a rule that is disabled or whose pattern raises
 * `re.error` is skipped), then tried in order against the normalized store name.
 *
 * The regular-expression engine is not modelled: `compile(p)` says how
 * `re.compile(p, re.I)` ends (a pattern, `re.error`, or another exception such as the
 * `OverflowError` of an oversized repeat count), and `matches(p, s)` whether that
 * pattern's `search` finds something in `s`.
 */
module Categorize {
  import opened Wrappers
  import opened StoreName

  // ----- _compile_rules -----

  /** One row as `_compile_rules` sees it; `enabled` is `None` when the key is absent. */
  datatype Row = Row(pattern: string, category: string, enabled: Option<int>)

  /** A compiled rule: the pattern it was compiled from and its category. */
  datatype Rule = Rule(pattern: string, category: string)

  /** How `re.compile(pattern, re.I)` ends. */
  datatype CompileResult = Compiles | ReError | Raises

  /** `r.get("enabled", 1)` is truthy. */
  predicate Enabled(r: Row) {
    r.enabled.None? || r.enabled.value != 0
  }

  /** The row gives a rule: it is enabled and its pattern compiles. */
  predicate Kept(r: Row, compile: string -> CompileResult) {
    Enabled(r) && compile(r.pattern) == Compiles
  }

  /** The row's compile raises something `except re.error` does not catch. */
  predicate Escapes(r: Row, compile: string -> CompileResult) {
    Enabled(r) && compile(r.pattern) == Raises
  }

  predicate AnyEscapes(rows: seq<Row>, compile: string -> CompileResult) {
    exists i :: 0 <= i < |rows| && Escapes(rows[i], compile)
  }

  /** The list of the kept rows' rules, in order: what `_compile_rules` returns when nothing escapes. */
  function CompiledRules(rows: seq<Row>, compile: string -> CompileResult): (rules: seq<Rule>)
    ensures |rules| <= |rows|
  {
    if rows == [] then []
    else
      var last := rows[|rows| - 1];
      CompiledRules(rows[..|rows| - 1], compile)
      + (if Kept(last, compile) then [Rule(last.pattern, last.category)] else [])
  }

  /** `_compile_rules(rows)`: its list, or `None` when an exception escapes it. */
  function CompileOutcome(rows: seq<Row>, compile: string -> CompileResult): Option<seq<Rule>> {
    if AnyEscapes(rows, compile) then None else Some(CompiledRules(rows, compile))
  }

  /** `_compile_rules`: the loop appending each kept row's rule, left by an escaping exception. */
  method CompileRules(rows: seq<Row>, compile: string -> CompileResult) returns (outcome: Option<seq<Rule>>)
    ensures outcome == CompileOutcome(rows, compile)
  {
    var compiled := [];
    for i := 0 to |rows|
      invariant compiled == CompiledRules(rows[..i], compile)
      invariant forall j :: 0 <= j < i ==> !Escapes(rows[j], compile)
    {
      var r := rows[i];
      assert rows[..i + 1][..i] == rows[..i];
      if r.enabled.None? || r.enabled.value != 0 {
        match compile(r.pattern)
        case Compiles =>
          compiled := compiled + [Rule(r.pattern, r.category)];
        case ReError =>
        case Raises =>
          assert Escapes(rows[i], compile);
          return None;
      }
    }
    assert rows[..|rows|] == rows;
    return Some(compiled);
  }

  /** Compiling a concatenation compiles each part: the rows keep their relative order. */
  lemma {:induction false} CompileConcat(a: seq<Row>, b: seq<Row>, compile: string -> CompileResult)
    ensures CompiledRules(a + b, compile) == CompiledRules(a, compile) + CompiledRules(b, compile)
    decreases |b|
  {
    if b == [] {
      assert a + b == a;
    } else {
      var b' := b[..|b| - 1];
      assert (a + b)[..|a + b| - 1] == a + b';
      assert (a + b)[|a + b| - 1] == b[|b| - 1];
      CompileConcat(a, b', compile);
    }
  }

  lemma CompileOne(r: Row, compile: string -> CompileResult)
    ensures CompiledRules([r], compile) == if Kept(r, compile) then [Rule(r.pattern, r.category)] else []
  {
    assert [r][..0] == [];
  }

  /**
   * A row that is disabled, or whose pattern raises `re.error`, is dropped alone: the
   * outcome is the one for the other rows.
   */
  lemma DroppedAlone(rows: seq<Row>, i: nat, compile: string -> CompileResult)
    requires i < |rows| && (!Enabled(rows[i]) || compile(rows[i].pattern) == ReError)
    ensures CompileOutcome(rows, compile) == CompileOutcome(rows[..i] + rows[i + 1..], compile)
  {
    var rest := rows[..i] + rows[i + 1..];
    assert rows == rows[..i] + [rows[i]] + rows[i + 1..];
    DropMiddle(rows[..i], rows[i], rows[i + 1..], compile);
    if AnyEscapes(rows, compile) {
      var j :| 0 <= j < |rows| && Escapes(rows[j], compile);
      if j < i {
        assert rest[j] == rows[j];
      } else {
        assert rest[j - 1] == rows[j];
      }
    }
    if AnyEscapes(rest, compile) {
      var j :| 0 <= j < |rest| && Escapes(rest[j], compile);
      if j < i {
        assert rest[j] == rows[j];
      } else {
        assert rest[j] == rows[j + 1];
      }
    }
  }

  /**
   * An enabled row whose pattern raises anything but `re.error` makes the whole of
   * `_compile_rules` raise, whatever the other rows are.
   */
  lemma EscapeAborts(rows: seq<Row>, i: nat, compile: string -> CompileResult)
    requires i < |rows| && Enabled(rows[i]) && compile(rows[i].pattern) == Raises
    ensures CompileOutcome(rows, compile) == None
  {
    assert Escapes(rows[i], compile);
  }

  lemma DropMiddle(pre: seq<Row>, r: Row, post: seq<Row>, compile: string -> CompileResult)
    requires !Kept(r, compile)
    ensures CompiledRules(pre + [r] + post, compile) == CompiledRules(pre + post, compile)
  {
    CompileConcat(pre + [r], post, compile);
    CompileConcat(pre, [r], compile);
    CompileOne(r, compile);
    CompileConcat(pre, post, compile);
  }

  /**
   * Every compiled rule comes from a kept row, and the rules appear in the rows'
   * order: rule `k` comes from a row after the one rule `k - 1` came from.
   */
  lemma {:induction false} CompiledFromKeptRows(rows: seq<Row>, compile: string -> CompileResult) returns (from: seq<nat>)
    ensures |from| == |CompiledRules(rows, compile)|
    ensures forall k :: 0 <= k < |from| ==>
              (from[k] < |rows| && Kept(rows[from[k]], compile)
               && CompiledRules(rows, compile)[k] == Rule(rows[from[k]].pattern, rows[from[k]].category))
    ensures forall k, l :: 0 <= k < l < |from| ==> from[k] < from[l]
  {
    if rows == [] {
      from := [];
    } else {
      var n := |rows| - 1;
      var init := rows[..n];
      var prev := CompiledFromKeptRows(init, compile);
      var c, ci := CompiledRules(rows, compile), CompiledRules(init, compile);
      assert c == ci + (if Kept(rows[n], compile) then [Rule(rows[n].pattern, rows[n].category)] else []);
      from := if Kept(rows[n], compile) then prev + [n] else prev;
      forall k | 0 <= k < |from|
        ensures from[k] < |rows| && Kept(rows[from[k]], compile)
                && c[k] == Rule(rows[from[k]].pattern, rows[from[k]].category)
      {
        if k < |prev| {
          assert from[k] == prev[k] && c[k] == ci[k] && rows[from[k]] == init[from[k]];
        }
      }
    }
  }

  /** When every row is enabled and compiles, each row gives its rule, in the same position. */
  lemma {:induction false} AllKept(rows: seq<Row>, compile: string -> CompileResult)
    requires forall i :: 0 <= i < |rows| ==> Kept(rows[i], compile)
    ensures |CompiledRules(rows, compile)| == |rows|
    ensures forall i :: 0 <= i < |rows| ==> CompiledRules(rows, compile)[i] == Rule(rows[i].pattern, rows[i].category)
  {
    if rows != [] {
      AllKept(rows[..|rows| - 1], compile);
    }
  }

  // ----- _db_rules -----

  /** A row of the `rules` table. */
  datatype StoredRule = StoredRule(id: int, pattern: string, category: string, enabled: int, priority: int)

  /** `a` comes before `b` under `ORDER BY priority ASC, id ASC`. */
  predicate Before(a: StoredRule, b: StoredRule) {
    a.priority < b.priority || (a.priority == b.priority && a.id < b.id)
  }

  predicate Ordered(s: seq<StoredRule>) {
    forall i, j :: 0 <= i < j < |s| ==> !Before(s[j], s[i])
  }

  /** `id` is the table's primary key: no two distinct rows share one. */
  predicate UniqueIds(rows: multiset<StoredRule>) {
    forall a, b :: a in rows && b in rows && a.id == b.id ==> a == b
  }

  function Insert(x: StoredRule, s: seq<StoredRule>): (r: seq<StoredRule>)
    ensures multiset(r) == multiset(s) + multiset{x}
  {
    if s == [] then [x]
    else if Before(s[0], x) then
      assert s == [s[0]] + s[1..];
      [s[0]] + Insert(x, s[1..])
    else [x] + s
  }

  /** The first row of an ordered list comes before none of the others. */
  lemma HeadIsLeast(s: seq<StoredRule>, y: StoredRule)
    requires Ordered(s) && y in multiset(s)
    ensures !Before(y, s[0])
  {
    var m :| 0 <= m < |s| && s[m] == y;
    if m > 0 {
      assert !Before(s[m], s[0]);
    }
  }

  lemma {:induction false} InsertOrdered(x: StoredRule, s: seq<StoredRule>)
    requires Ordered(s)
    ensures Ordered(Insert(x, s))
  {
    if s == [] {
    } else if Before(s[0], x) {
      TailOrdered(s);
      InsertOrdered(x, s[1..]);
      HeadStaysFirst(x, s);
      ConsOrdered(s[0], Insert(x, s[1..]));
    } else {
      forall j | 0 <= j < |s|
        ensures !Before(s[j], x)
      {
        HeadIsLeast(s, s[j]);
      }
      ConsOrdered(x, s);
    }
  }

  /** Inserting after the head keeps the head before everything else. */
  lemma HeadStaysFirst(x: StoredRule, s: seq<StoredRule>)
    requires Ordered(s) && s != [] && Before(s[0], x)
    ensures forall j :: 0 <= j < |Insert(x, s[1..])| ==> !Before(Insert(x, s[1..])[j], s[0])
  {
    var rest := Insert(x, s[1..]);
    forall j | 0 <= j < |rest|
      ensures !Before(rest[j], s[0])
    {
      assert rest[j] in multiset(rest);
      if rest[j] != x {
        assert s == [s[0]] + s[1..];
        HeadIsLeast(s, rest[j]);
      }
    }
  }

  lemma ConsOrdered(h: StoredRule, s: seq<StoredRule>)
    requires Ordered(s) && forall j :: 0 <= j < |s| ==> !Before(s[j], h)
    ensures Ordered([h] + s)
  {
    forall i, j | 0 <= i < j < |s| + 1
      ensures !Before(([h] + s)[j], ([h] + s)[i])
    {
      assert ([h] + s)[j] == s[j - 1];
      if i > 0 { assert ([h] + s)[i] == s[i - 1]; }
    }
  }

  /** The rows of the table in `ORDER BY priority ASC, id ASC` order. */
  function OrderRows(table: seq<StoredRule>): (r: seq<StoredRule>)
    ensures multiset(r) == multiset(table)
    ensures Ordered(r)
  {
    if table == [] then []
    else
      assert table == [table[0]] + table[1..];
      InsertOrdered(table[0], OrderRows(table[1..]));
      Insert(table[0], OrderRows(table[1..]))
  }

  /**
   * With unique ids there is only one ordered arrangement of a set of rows, so the
   * order the rules are read in does not depend on the order they were inserted in.
   */
  lemma {:induction false} OrderedUnique(s: seq<StoredRule>, t: seq<StoredRule>)
    requires Ordered(s) && Ordered(t) && multiset(s) == multiset(t) && UniqueIds(multiset(s))
    ensures s == t
    decreases |s|
  {
    if s == [] {
      assert |t| == |multiset(t)| == 0;
    } else {
      SameHead(s, t);
      DropHead(s, t);
      TailOrdered(s);
      TailOrdered(t);
      UniqueSub(multiset(s[1..]), multiset(s));
      OrderedUnique(s[1..], t[1..]);
      SameParts(s, t);
    }
  }

  lemma SameHead(s: seq<StoredRule>, t: seq<StoredRule>)
    requires s != [] && Ordered(s) && Ordered(t) && multiset(s) == multiset(t) && UniqueIds(multiset(s))
    ensures t != [] && s[0] == t[0]
  {
    assert s[0] in multiset(s);
    assert |t| == |multiset(t)| == |s|;
    assert t[0] in multiset(t);
    HeadIsLeast(t, s[0]);
    HeadIsLeast(s, t[0]);
  }

  lemma DropHead(s: seq<StoredRule>, t: seq<StoredRule>)
    requires s != [] && t != [] && s[0] == t[0] && multiset(s) == multiset(t)
    ensures multiset(s[1..]) == multiset(t[1..]) && multiset(s[1..]) <= multiset(s)
  {
    assert s == [s[0]] + s[1..];
    assert t == [t[0]] + t[1..];
    assert multiset(s) == multiset{s[0]} + multiset(s[1..]);
    assert multiset(t) == multiset{s[0]} + multiset(t[1..]);
    forall y ensures multiset(s[1..])[y] == multiset(t[1..])[y] {
      assert multiset(s)[y] == multiset{s[0]}[y] + multiset(s[1..])[y];
      assert multiset(t)[y] == multiset{s[0]}[y] + multiset(t[1..])[y];
    }
  }

  lemma SameParts(s: seq<StoredRule>, t: seq<StoredRule>)
    requires s != [] && t != [] && s[0] == t[0] && s[1..] == t[1..]
    ensures s == t
  {
    assert s == [s[0]] + s[1..];
    assert t == [t[0]] + t[1..];
  }

  lemma TailOrdered(s: seq<StoredRule>)
    requires s != [] && Ordered(s)
    ensures Ordered(s[1..])
  {
    forall i, j | 0 <= i < j < |s| - 1
      ensures !Before(s[1..][j], s[1..][i])
    {
      assert s[1..][j] == s[j + 1] && s[1..][i] == s[i + 1];
    }
  }

  lemma UniqueSub(a: multiset<StoredRule>, b: multiset<StoredRule>)
    requires a <= b && UniqueIds(b)
    ensures UniqueIds(a)
  {
  }

  /** Two tables holding the same rows, however inserted, are read in the same order. */
  lemma InsertionOrderIrrelevant(t1: seq<StoredRule>, t2: seq<StoredRule>)
    requires multiset(t1) == multiset(t2) && UniqueIds(multiset(t1))
    ensures OrderRows(t1) == OrderRows(t2)
  {
    OrderedUnique(OrderRows(t1), OrderRows(t2));
  }

  /** The dict `dict(r)` made of a selected row: pattern, category, enabled. */
  function AsRow(r: StoredRule): Row {
    Row(r.pattern, r.category, Some(r.enabled))
  }

  function AsRows(s: seq<StoredRule>): (rows: seq<Row>)
    ensures |rows| == |s|
    ensures forall i :: 0 <= i < |s| ==> rows[i] == AsRow(s[i])
  {
    if s == [] then [] else [AsRow(s[0])] + AsRows(s[1..])
  }

  /** What opening and querying the database gives: an exception, or the table's rows. */
  datatype RuleSource = Unreadable | Table(rows: seq<StoredRule>)

  /**
   * The list `_db_rules(db)` returns: `[]` on any exception, whether from the
   * database or escaping `_compile_rules`.
   */
  function DbRules(source: RuleSource, compile: string -> CompileResult): seq<Rule> {
    match source
    case Unreadable => []
    case Table(rows) =>
      match CompileOutcome(AsRows(OrderRows(rows)), compile)
      case None => []
      case Some(rules) => rules
  }

  /** `_db_rules`: query in order, then compile; `except Exception` gives `[]`. */
  method ReadRules(source: RuleSource, compile: string -> CompileResult) returns (rules: seq<Rule>)
    ensures rules == DbRules(source, compile)
  {
    if source.Unreadable? {
      return [];
    }
    var rows := AsRows(OrderRows(source.rows));
    var outcome := CompileRules(rows, compile);
    match outcome
    case None =>
      return [];
    case Some(compiled) =>
      return compiled;
  }

  /**
   * A stored rule that is enabled and whose pattern raises anything but `re.error`
   * empties the rule set, so that every name is `'other'`.
   */
  lemma EscapingRuleEmpties(store: Option<string>, table: seq<StoredRule>, compile: string -> CompileResult,
                            matches: (string, string) -> bool, i: nat)
    requires i < |table| && table[i].enabled != 0 && compile(table[i].pattern) == Raises
    ensures DbRules(Table(table), compile) == []
    ensures Category(store, Some(Table(table)), compile, matches) == Other
  {
    EscapeSurvivesOrder(table, compile, i);
    assert DbRules(Table(table), compile) == [];
  }

  lemma EscapeSurvivesOrder(table: seq<StoredRule>, compile: string -> CompileResult, i: nat)
    requires i < |table| && table[i].enabled != 0 && compile(table[i].pattern) == Raises
    ensures CompileOutcome(AsRows(OrderRows(table)), compile) == None
  {
    var sorted := OrderRows(table);
    assert table[i] in multiset(sorted) by {
      assert table[i] in multiset(table);
    }
    var j := IndexOf(sorted, table[i]);
    EscapeAborts(AsRows(sorted), j, compile);
  }

  lemma {:induction false} IndexOf(s: seq<StoredRule>, x: StoredRule) returns (j: nat)
    requires x in multiset(s)
    ensures j < |s| && s[j] == x
  {
    assert x in s;
    j :| 0 <= j < |s| && s[j] == x;
  }

  // ----- guess_category -----

  const Other := "other"

  /** The category of the first rule whose pattern is found in `s`. */
  function FirstMatch(rules: seq<Rule>, s: string, matches: (string, string) -> bool): (r: Option<string>)
    ensures r.None? <==> forall i :: 0 <= i < |rules| ==> !matches(rules[i].pattern, s)
    ensures r.Some? ==> exists i :: 0 <= i < |rules| && matches(rules[i].pattern, s) && r.value == rules[i].category
                                    && forall j :: 0 <= j < i ==> !matches(rules[j].pattern, s)
  {
    if rules == [] then None
    else if matches(rules[0].pattern, s) then Some(rules[0].category)
    else
      var r := FirstMatch(rules[1..], s, matches);
      assert forall i :: 1 <= i < |rules| ==> rules[i] == rules[1..][i - 1];
      r
  }

  /** The string `guess_category(store, db)` returns; `db` is `None` when no database is given. */
  function Category(store: Option<string>, db: Option<RuleSource>, compile: string -> CompileResult,
                    matches: (string, string) -> bool): string
  {
    var s := NormalizeStore(store);
    if s == "" || db.None? then Other
    else match FirstMatch(DbRules(db.value, compile), s, matches)
      case None => Other
      case Some(c) => c
  }

  /** `guess_category`: the scan over the rules with its early return. */
  method GuessCategory(store: Option<string>, db: Option<RuleSource>, compile: string -> CompileResult,
                       matches: (string, string) -> bool) returns (category: string)
    ensures category == Category(store, db, compile, matches)
  {
    var s := NormalizeStore(store);
    if s == "" {
      return Other;
    }
    if db.Some? {
      var rules := ReadRules(db.value, compile);
      for i := 0 to |rules|
        invariant FirstMatch(rules[i..], s, matches) == FirstMatch(rules, s, matches)
      {
        assert rules[i..][1..] == rules[i + 1..];
        if matches(rules[i].pattern, s) {
          return rules[i].category;
        }
      }
      assert rules[|rules|..] == [];
    }
    return Other;
  }

  /** `'other'` when the name normalizes to nothing, when there is no database, or when it cannot be read. */
  lemma OtherCases(store: Option<string>, db: Option<RuleSource>, compile: string -> CompileResult,
                   matches: (string, string) -> bool)
    requires NormalizeStore(store) == "" || db.None? || db == Some(Unreadable)
    ensures Category(store, db, compile, matches) == Other
  {
  }

  /** The rule found at position `i` decides, whatever the rules after it are. */
  lemma {:induction false} FirstMatchAt(rules: seq<Rule>, s: string, matches: (string, string) -> bool, i: nat)
    requires i < |rules| && matches(rules[i].pattern, s)
    requires forall j :: 0 <= j < i ==> !matches(rules[j].pattern, s)
    ensures FirstMatch(rules, s, matches) == Some(rules[i].category)
  {
    if i > 0 {
      FirstMatchAt(rules[1..], s, matches, i - 1);
    }
  }

  /**
   * Otherwise the category is that of the first rule, in `(priority, id)` order,
   * that is enabled, compiles and is found in the normalized name.
   */
  lemma FirstRuleDecides(store: Option<string>, table: seq<StoredRule>, compile: string -> CompileResult,
                         matches: (string, string) -> bool, i: nat)
    requires NormalizeStore(store) != ""
    requires i < |DbRules(Table(table), compile)|
    requires matches(DbRules(Table(table), compile)[i].pattern, NormalizeStore(store))
    requires forall j :: 0 <= j < i ==> !matches(DbRules(Table(table), compile)[j].pattern, NormalizeStore(store))
    ensures Category(store, Some(Table(table)), compile, matches) == DbRules(Table(table), compile)[i].category
  {
    FirstMatchAt(DbRules(Table(table), compile), NormalizeStore(store), matches, i);
  }

  /** ... and `'other'` when no rule is found in it. */
  lemma NoRuleMatches(store: Option<string>, table: seq<StoredRule>, compile: string -> CompileResult,
                      matches: (string, string) -> bool)
    requires forall j :: 0 <= j < |DbRules(Table(table), compile)| ==>
               !matches(DbRules(Table(table), compile)[j].pattern, NormalizeStore(store))
    ensures Category(store, Some(Table(table)), compile, matches) == Other
  {
  }

  /** Classification sees only the normalized name: names that normalize alike get the same category. */
  lemma SameNameSameCategory(a: Option<string>, b: Option<string>, db: Option<RuleSource>,
                             compile: string -> CompileResult, matches: (string, string) -> bool)
    requires NormalizeStore(a) == NormalizeStore(b)
    ensures Category(a, db, compile, matches) == Category(b, db, compile, matches)
  {
  }

  /** The category does not depend on the order the rules were inserted in. */
  lemma SameRulesSameCategory(store: Option<string>, t1: seq<StoredRule>, t2: seq<StoredRule>,
                              compile: string -> CompileResult, matches: (string, string) -> bool)
    requires multiset(t1) == multiset(t2) && UniqueIds(multiset(t1))
    ensures Category(store, Some(Table(t1)), compile, matches) == Category(store, Some(Table(t2)), compile, matches)
  {
    InsertionOrderIrrelevant(t1, t2);
  }
}
