/** routes/products.js: the product search query builder, the parameter arrays of the
    create and update statements, the 404 answers, and the admin gate on mutations. */
module Products {
  import opened Optional
  import opened Text
  import opened JsonValues
  import opened Jwt
  import opened AccessGuard

  // ---------------------------------------------------------------- placeholders in SQL text

  /** The end of the run of digits that starts at index `i` of `s`. */
  function DigitsEnd(s: string, i: nat): (j: nat)
    requires i <= |s|
    ensures i <= j <= |s|
    ensures forall k :: i <= k < j ==> IsDigit(s[k])
    ensures j < |s| ==> !IsDigit(s[j])
    decreases |s| - i
  {
    if i < |s| && IsDigit(s[i]) then DigitsEnd(s, i + 1) else i
  }

  /** The digit texts of the `$n` placeholders of an SQL text from index `i` on, in
      order of appearance: a `$` followed by at least one digit opens a placeholder,
      and its number is the whole run of digits. */
  function PlaceholderTextsFrom(sql: string, i: nat): seq<string>
    requires i <= |sql|
    decreases |sql| - i
  {
    if i == |sql| then []
    else
      var j := DigitsEnd(sql, i + 1);
      if sql[i] == '$' && j > i + 1 then [sql[i + 1..j]] + PlaceholderTextsFrom(sql, j)
      else PlaceholderTextsFrom(sql, i + 1)
  }

  function PlaceholderTexts(sql: string): (r: seq<string>)
    ensures forall k :: 0 <= k < |r| ==> AllDigits(r[k])
  {
    PlaceholderTextsAreDigits(sql, 0);
    PlaceholderTextsFrom(sql, 0)
  }

  lemma {:induction false} PlaceholderTextsAreDigits(sql: string, i: nat)
    requires i <= |sql|
    ensures forall k :: 0 <= k < |PlaceholderTextsFrom(sql, i)| ==> AllDigits(PlaceholderTextsFrom(sql, i)[k])
    decreases |sql| - i
  {
    if i < |sql| {
      var j := DigitsEnd(sql, i + 1);
      if sql[i] == '$' && j > i + 1 {
        PlaceholderTextsAreDigits(sql, j);
      } else {
        PlaceholderTextsAreDigits(sql, i + 1);
      }
    }
  }

  /** The numbers of the `$n` placeholders of an SQL text, in order of appearance:
      what node-postgres binds each parameter position to. */
  function Placeholders(sql: string): (r: seq<nat>)
    ensures |r| == |PlaceholderTexts(sql)|
    ensures forall k :: 0 <= k < |r| ==> r[k] == DigitsValue(PlaceholderTexts(sql)[k])
  {
    var ts := PlaceholderTexts(sql);
    seq(|ts|, k requires 0 <= k < |ts| => DigitsValue(ts[k]))
  }

  predicate StartsWithNonDigit(s: string) {
    s == [] || !IsDigit(s[0])
  }

  /** A digit run inside `a` ends where it ends in `a + b`, if `b` does not start with
      a digit. */
  lemma {:induction false} DigitsEndConcat(a: string, b: string, i: nat)
    requires i <= |a| && StartsWithNonDigit(b)
    ensures DigitsEnd(a + b, i) == DigitsEnd(a, i)
    decreases |a| - i
  {
    if i < |a| {
      assert (a + b)[i] == a[i];
      DigitsEndConcat(a, b, i + 1);
    } else if b != [] {
      assert (a + b)[i] == b[0];
    }
  }

  /** Scanning `s` after a prefix `p` finds the same digit runs, shifted by `|p|`. */
  lemma {:induction false} DigitsEndShift(p: string, s: string, i: nat)
    requires i <= |s|
    ensures DigitsEnd(p + s, |p| + i) == |p| + DigitsEnd(s, i)
    decreases |s| - i
  {
    if i < |s| {
      assert (p + s)[|p| + i] == s[i];
      DigitsEndShift(p, s, i + 1);
    }
  }

  /** A run of digits up to the end of `s` ends at `|s|`. */
  lemma {:induction false} DigitsEndAll(s: string, i: nat)
    requires i <= |s| && forall k :: i <= k < |s| ==> IsDigit(s[k])
    ensures DigitsEnd(s, i) == |s|
    decreases |s| - i
  {
    if i < |s| {
      DigitsEndAll(s, i + 1);
    }
  }

  /** Scanning `s` after a prefix `p` finds the same placeholders. */
  lemma {:induction false} PlaceholderTextsShift(p: string, s: string, i: nat)
    requires i <= |s|
    ensures PlaceholderTextsFrom(p + s, |p| + i) == PlaceholderTextsFrom(s, i)
    decreases |s| - i, 1
  {
    if i < |s| {
      if s[i] == '$' && DigitsEnd(s, i + 1) > i + 1 {
        ShiftAtPlaceholder(p, s, i);
      } else {
        ShiftAtOther(p, s, i);
      }
    }
  }

  /** A slice of `s` read at the same positions past a prefix `p`. */
  lemma SliceAfterPrefix(p: string, s: string, a: nat, b: nat)
    requires a <= b <= |s|
    ensures (p + s)[|p| + a..|p| + b] == s[a..b]
  {
    var l, r := (p + s)[|p| + a..|p| + b], s[a..b];
    assert |l| == |r|;
    forall k | 0 <= k < |l| ensures l[k] == r[k] {
      assert l[k] == (p + s)[|p| + a + k];
    }
  }

  lemma {:induction false} ShiftAtPlaceholder(p: string, s: string, i: nat)
    requires i < |s| && s[i] == '$' && DigitsEnd(s, i + 1) > i + 1
    ensures PlaceholderTextsFrom(p + s, |p| + i) == PlaceholderTextsFrom(s, i)
    decreases |s| - i, 0
  {
    var j := DigitsEnd(s, i + 1);
    var ps := p + s;
    PlaceholderTextsShift(p, s, j);
    DigitsEndShift(p, s, i + 1);
    assert ps[|p| + i] == s[i];
    SliceAfterPrefix(p, s, i + 1, j);
    assert PlaceholderTextsFrom(s, i) == [s[i + 1..j]] + PlaceholderTextsFrom(s, j);
    assert PlaceholderTextsFrom(ps, |p| + i) == [ps[|p| + i + 1..|p| + j]] + PlaceholderTextsFrom(ps, |p| + j);
  }

  lemma {:induction false} ShiftAtOther(p: string, s: string, i: nat)
    requires i < |s| && !(s[i] == '$' && DigitsEnd(s, i + 1) > i + 1)
    ensures PlaceholderTextsFrom(p + s, |p| + i) == PlaceholderTextsFrom(s, i)
    decreases |s| - i, 0
  {
    PlaceholderTextsShift(p, s, i + 1);
    DigitsEndShift(p, s, i + 1);
    assert (p + s)[|p| + i] == s[i];
  }

  /** Placeholders of `a + b` from a position inside `a`: those of `a` from there, then
      those of `b`, provided `b` cannot extend a number that ends `a`. */
  lemma {:induction false} PlaceholderTextsFromConcat(a: string, b: string, i: nat)
    requires i <= |a| && StartsWithNonDigit(b)
    ensures PlaceholderTextsFrom(a + b, i) == PlaceholderTextsFrom(a, i) + PlaceholderTexts(b)
    decreases |a| - i, 1
  {
    if i == |a| {
      PlaceholderTextsShift(a, b, 0);
    } else if a[i] == '$' && DigitsEnd(a, i + 1) > i + 1 {
      ConcatAtPlaceholder(a, b, i);
    } else {
      ConcatAtOther(a, b, i);
    }
  }

  /** A placeholder at index `i` of `a` is scanned alike in `a` and in `a + b`. */
  lemma {:induction false} ConcatAtPlaceholder(a: string, b: string, i: nat)
    requires i < |a| && StartsWithNonDigit(b)
    requires a[i] == '$' && DigitsEnd(a, i + 1) > i + 1
    ensures PlaceholderTextsFrom(a + b, i) == PlaceholderTextsFrom(a, i) + PlaceholderTexts(b)
    decreases |a| - i, 0
  {
    var j := DigitsEnd(a, i + 1);
    PlaceholderTextsFromConcat(a, b, j);
    DigitsEndConcat(a, b, i + 1);
    assert (a + b)[i] == a[i];
    assert (a + b)[i + 1..j] == a[i + 1..j];
  }

  /** Any other character at index `i` of `a` is skipped alike in `a` and in `a + b`. */
  lemma {:induction false} ConcatAtOther(a: string, b: string, i: nat)
    requires i < |a| && StartsWithNonDigit(b)
    requires !(a[i] == '$' && DigitsEnd(a, i + 1) > i + 1)
    ensures PlaceholderTextsFrom(a + b, i) == PlaceholderTextsFrom(a, i) + PlaceholderTexts(b)
    decreases |a| - i, 0
  {
    PlaceholderTextsFromConcat(a, b, i + 1);
    DigitsEndConcat(a, b, i + 1);
    assert (a + b)[i] == a[i];
  }

  /** Placeholders of a concatenation are those of its parts, provided the second part
      cannot extend a number that ends the first. */
  lemma PlaceholderTextsConcat(a: string, b: string)
    requires StartsWithNonDigit(b)
    ensures PlaceholderTexts(a + b) == PlaceholderTexts(a) + PlaceholderTexts(b)
  {
    PlaceholderTextsFromConcat(a, b, 0);
  }

  lemma {:induction false} NoPlaceholderTextsFrom(s: string, i: nat)
    requires i <= |s| && '$' !in s
    ensures PlaceholderTextsFrom(s, i) == []
    decreases |s| - i
  {
    if i < |s| {
      NoPlaceholderTextsFrom(s, i + 1);
    }
  }

  lemma NoPlaceholderTexts(s: string)
    requires '$' !in s
    ensures PlaceholderTexts(s) == []
  {
    NoPlaceholderTextsFrom(s, 0);
  }

  /** `$` followed by the decimal text of `k` is one placeholder with those digits. */
  lemma PlaceholderToken(k: nat, rest: string)
    requires StartsWithNonDigit(rest)
    ensures PlaceholderTexts("$" + Decimal(k) + rest) == [Decimal(k)] + PlaceholderTexts(rest)
  {
    var d := Decimal(k);
    var token := "$" + d;
    var s := token + rest;
    DigitsEndConcat(token, rest, 1);
    DigitsEndAll(token, 1);
    assert s[0] == '$';
    assert s[1..1 + |d|] == d;
    PlaceholderTextsShift(token, rest, 0);
  }

  /** A literal without `$` followed by the placeholder `k` holds just that placeholder. */
  lemma LiteralThenToken(lit: string, k: nat, rest: string)
    requires '$' !in lit && StartsWithNonDigit(rest)
    ensures PlaceholderTexts(lit + ("$" + Decimal(k) + rest)) == [Decimal(k)] + PlaceholderTexts(rest)
  {
    PlaceholderTextsConcat(lit, "$" + Decimal(k) + rest);
    NoPlaceholderTexts(lit);
    PlaceholderToken(k, rest);
  }

  /** `[1, 2, ..., n]`. */
  function Consecutive(n: nat): (r: seq<nat>)
    ensures |r| == n
    ensures forall i :: 0 <= i < n ==> r[i] == i + 1
  {
    if n == 0 then [] else Consecutive(n - 1) + [n]
  }

  /** The texts `1`, `2`, ..., `n`. */
  function DecimalsUpTo(n: nat): (r: seq<string>)
    ensures |r| == n
    ensures forall i :: 0 <= i < n ==> r[i] == Decimal(i + 1)
  {
    if n == 0 then [] else DecimalsUpTo(n - 1) + [Decimal(n)]
  }

  /** Placeholders spelled `$1 .. $n` are numbered `1 .. n`. */
  lemma NumberedPlaceholders(sql: string, n: nat)
    requires PlaceholderTexts(sql) == DecimalsUpTo(n)
    ensures Placeholders(sql) == Consecutive(n)
  {
    forall i | 0 <= i < n ensures Placeholders(sql)[i] == i + 1 {
      DecimalRoundTrip(i + 1);
    }
  }

  // ---------------------------------------------------------------- the search query

  const FEATURES: seq<string> := ["isTopSelling", "isFeatured", "isBudgetFriendly"]
  const SEARCH_SELECT: string := "SELECT * FROM products WHERE 1=1"
  const SEARCH_ORDER: string := " ORDER BY name"

  /** The condition on the name, its pattern bound to placeholder `k`. */
  function NameSql(k: nat): string {
    " AND LOWER(name) LIKE $" + Decimal(k)
  }

  /** The condition on a feature flag: the flag name itself is spliced into the SQL. */
  function FeatureSql(flag: string): string {
    " AND " + flag + " = true"
  }

  /** The JSONB containment condition, its filter bound to placeholder `k`. */
  function CustomFieldSql(k: nat): string {
    " AND customFields::jsonb @> $" + Decimal(k) + "::jsonb"
  }

  /** A query-string parameter counts when present and non-empty (`if (name)`). */
  predicate Given(q: Option<string>) {
    q.Some? && q.value != ""
  }

  /** The `LIKE` pattern for a name: `"%" + name.toLowerCase() + "%"`. */
  function NamePattern(name: string): (r: string)
    ensures |r| == |name| + 2 && r[0] == '%' && r[|r| - 1] == '%'
    ensures forall i :: 0 <= i < |name| ==> r[i + 1] == Lower(name[i])
    ensures NoUpper(r)
  {
    "%" + LowerString(name) + "%"
  }

  /** Names that differ only in letter case search for the same pattern. */
  lemma NamePatternIgnoresCase(a: string, b: string)
    requires |a| == |b| && forall i :: 0 <= i < |a| ==> Lower(a[i]) == Lower(b[i])
    ensures NamePattern(a) == NamePattern(b)
  {
    assert LowerString(a) == LowerString(b);
  }

  /** `JSON.stringify({ [fieldKey]: fieldValue })`. */
  function CustomFieldFilter(key: string, value: string): (r: string)
    ensures r == "{" + Quote(key) + ":" + Quote(value) + "}"
  {
    var es := [(key, JString(value))];
    assert seq(|es|, i requires 0 <= i < |es| => Quote(es[i].0) + ":" + Stringify(es[i].1)) == [Quote(key) + ":" + Quote(value)];
    Stringify(JObject(es))
  }

  /** `pre` with a condition appended per given filter, in the order name, feature,
      custom field. Placeholders are numbered in order of appearance, so the custom-field
      one is `$2` exactly when a name is given. */
  function Filtered(pre: string, byName: bool, feature: Option<string>, byCustomField: bool): string {
    var named := if byName then pre + NameSql(1) else pre;
    var featured := if feature.Some? then named + FeatureSql(feature.value) else named;
    if byCustomField then featured + CustomFieldSql(if byName then 2 else 1) else featured
  }

  /** The statement for a request: the SELECT, the conditions, then the ORDER BY. */
  function SearchSql(byName: bool, feature: Option<string>, byCustomField: bool): string {
    Filtered(SEARCH_SELECT, byName, feature, byCustomField) + SEARCH_ORDER
  }

  /** The parameters for a request: the name pattern, then the custom-field filter. */
  function SearchValues(name: Option<string>, fieldKey: Option<string>, fieldValue: Option<string>): seq<string> {
    var named := if Given(name) then [NamePattern(name.value)] else [];
    if Given(fieldKey) && Given(fieldValue) then named + [CustomFieldFilter(fieldKey.value, fieldValue.value)] else named
  }

  lemma NameSqlPlaceholders(k: nat)
    ensures PlaceholderTexts(NameSql(k)) == [Decimal(k)]
  {
    var lit := " AND LOWER(name) LIKE ";
    assert NameSql(k) == lit + ("$" + Decimal(k) + "");
    LiteralThenToken(lit, k, "");
  }

  lemma FeatureSqlPlaceholders(flag: string)
    requires flag in FEATURES
    ensures PlaceholderTexts(FeatureSql(flag)) == []
  {
    assert '$' !in flag;
    NoPlaceholderTexts(FeatureSql(flag));
  }

  lemma CustomFieldSqlPlaceholders(k: nat)
    ensures PlaceholderTexts(CustomFieldSql(k)) == [Decimal(k)]
  {
    var lit := " AND customFields::jsonb @> ";
    assert CustomFieldSql(k) == lit + ("$" + Decimal(k) + "::jsonb");
    LiteralThenToken(lit, k, "::jsonb");
    NoPlaceholderTexts("::jsonb");
  }

  /** Placeholders of five pieces, none of the later ones starting with a digit. */
  lemma PlaceholdersOfPieces(p: string, a: string, b: string, c: string, o: string)
    requires StartsWithNonDigit(a) && StartsWithNonDigit(b) && StartsWithNonDigit(c) && StartsWithNonDigit(o)
    ensures PlaceholderTexts(p + a + b + c + o)
         == PlaceholderTexts(p) + PlaceholderTexts(a) + PlaceholderTexts(b) + PlaceholderTexts(c) + PlaceholderTexts(o)
  {
    PlaceholderTextsConcat(p + a + b + c, o);
    PlaceholderTextsConcat(p + a + b, c);
    PlaceholderTextsConcat(p + a, b);
    PlaceholderTextsConcat(p, a);
  }

  /** The conditions a request adds between the SELECT and the ORDER BY. */
  function Conditions(byName: bool, feature: Option<string>, byCustomField: bool): (string, string, string) {
    ( if byName then NameSql(1) else "",
      if feature.Some? then FeatureSql(feature.value) else "",
      if byCustomField then CustomFieldSql(if byName then 2 else 1) else "" )
  }

  /** Between texts without `$`, the conditions number their placeholders `$1 .. $n`. */
  lemma ConditionsPlaceholders(pre: string, byName: bool, feature: Option<string>, byCustomField: bool, post: string)
    requires '$' !in pre && '$' !in post && StartsWithNonDigit(post)
    requires feature.Some? ==> feature.value in FEATURES
    ensures var (a, b, c) := Conditions(byName, feature, byCustomField);
      PlaceholderTexts(pre + a + b + c + post) == DecimalsUpTo((if byName then 1 else 0) + (if byCustomField then 1 else 0))
  {
    var (a, b, c) := Conditions(byName, feature, byCustomField);
    PlaceholdersOfPieces(pre, a, b, c, post);
    NoPlaceholderTexts(pre);
    NoPlaceholderTexts(post);
    if byName { NameSqlPlaceholders(1); }
    if feature.Some? { FeatureSqlPlaceholders(feature.value); }
    if byCustomField { CustomFieldSqlPlaceholders(if byName then 2 else 1); }
  }

  /** Whatever filters are given, the statement's placeholders are `$1 .. $n` in order,
      one per parameter, provided the feature is an accepted one. */
  lemma SearchSqlPlaceholders(byName: bool, feature: Option<string>, byCustomField: bool)
    requires feature.Some? ==> feature.value in FEATURES
    ensures Placeholders(SearchSql(byName, feature, byCustomField))
         == Consecutive((if byName then 1 else 0) + (if byCustomField then 1 else 0))
  {
    FilteredPlaceholders(SEARCH_SELECT, byName, feature, byCustomField, SEARCH_ORDER);
    NumberedPlaceholders(SearchSql(byName, feature, byCustomField), (if byName then 1 else 0) + (if byCustomField then 1 else 0));
  }

  lemma FilteredPlaceholders(pre: string, byName: bool, feature: Option<string>, byCustomField: bool, post: string)
    requires '$' !in pre && '$' !in post && StartsWithNonDigit(post)
    requires feature.Some? ==> feature.value in FEATURES
    ensures PlaceholderTexts(Filtered(pre, byName, feature, byCustomField) + post)
         == DecimalsUpTo((if byName then 1 else 0) + (if byCustomField then 1 else 0))
  {
    FilteredPieces(pre, byName, feature, byCustomField);
    ConditionsPlaceholders(pre, byName, feature, byCustomField, post);
  }

  /** The conditions appended by `Filtered`, one piece per filter. */
  lemma FilteredPieces(pre: string, byName: bool, feature: Option<string>, byCustomField: bool)
    ensures var (a, b, c) := Conditions(byName, feature, byCustomField);
      Filtered(pre, byName, feature, byCustomField) == pre + a + b + c
  {
  }

  /** The statement starts with the fixed SELECT and ends with `ORDER BY name`. */
  lemma SearchSqlFrame(byName: bool, feature: Option<string>, byCustomField: bool)
    ensures var sql := SearchSql(byName, feature, byCustomField);
      && |sql| >= |SEARCH_SELECT| + |SEARCH_ORDER|
      && sql[..|SEARCH_SELECT|] == SEARCH_SELECT
      && sql[|sql| - |SEARCH_ORDER|..] == SEARCH_ORDER
  {
    FilteredPieces(SEARCH_SELECT, byName, feature, byCustomField);
    ConditionsFramed(SEARCH_SELECT, byName, feature, byCustomField, SEARCH_ORDER);
  }

  lemma ConditionsFramed(pre: string, byName: bool, feature: Option<string>, byCustomField: bool, post: string)
    ensures var (a, b, c) := Conditions(byName, feature, byCustomField);
      var sql := pre + a + b + c + post;
      && |sql| >= |pre| + |post|
      && sql[..|pre|] == pre
      && sql[|sql| - |post|..] == post
  {
    var (a, b, c) := Conditions(byName, feature, byCustomField);
    Framed(pre, a, b, c, post);
  }

  /** A text built as `pre + a + b + c + post` starts with `pre` and ends with `post`. */
  lemma Framed(pre: string, a: string, b: string, c: string, post: string)
    ensures var sql := pre + a + b + c + post;
      && |sql| >= |pre| + |post|
      && sql[..|pre|] == pre
      && sql[|sql| - |post|..] == post
  {
    var sql := pre + a + b + c + post;
    assert sql == pre + (a + b + c + post);
  }

  /** What the search handler does: refuse the request, or run `sql` with `values`. */
  datatype Search = InvalidFeature | Query(sql: string, values: seq<string>)

  /** The search handler up to running the query. An unknown `feature` is refused with
      400 before anything runs. Otherwise the statement is the fixed SELECT, one
      condition per given filter (name, feature, custom field, in that order), then
      `ORDER BY name`; its placeholders are `$1 .. $n` in order where `n` is the number of
      values; and the values are the lowered name pattern and the custom-field JSON. */
  method BuildSearch(name: Option<string>, feature: Option<string>, fieldKey: Option<string>, fieldValue: Option<string>)
    returns (r: Search)
    ensures r.InvalidFeature? <==> Given(feature) && feature.value !in FEATURES
    ensures r.Query? ==>
      && r.sql == SearchSql(Given(name), if Given(feature) then feature else None, Given(fieldKey) && Given(fieldValue))
      && r.values == SearchValues(name, fieldKey, fieldValue)
      && Placeholders(r.sql) == Consecutive(|r.values|)
  {
    var q := SEARCH_SELECT;
    var values: seq<string> := [];
    var idx := 1;

    if Given(name) {
      q := q + NameSql(idx);
      idx := idx + 1;
      values := values + [NamePattern(name.value)];
      assert values == [NamePattern(name.value)];
    }

    if Given(feature) {
      if feature.value in FEATURES {
        q := q + FeatureSql(feature.value);
      } else {
        return InvalidFeature;
      }
    }

    if Given(fieldKey) && Given(fieldValue) {
      q := q + CustomFieldSql(idx);
      idx := idx + 1;
      values := values + [CustomFieldFilter(fieldKey.value, fieldValue.value)];
    }

    q := q + SEARCH_ORDER;
    r := Query(q, values);
    SearchSqlPlaceholders(Given(name), if Given(feature) then feature else None, Given(fieldKey) && Given(fieldValue));
  }

  // ---------------------------------------------------------------- create and update

  /** How a column's parameter is formed from the request body: the property as sent,
      `JSON.stringify(property || [])`, or `property || false`. */
  datatype ColumnKind = AsSent | JsonList | Flag

  datatype Column = Column(name: string, kind: ColumnKind)

  /** The INSERT statement's column list; column `i` takes placeholder `$(i+1)`. */
  const INSERT_COLUMNS: seq<Column> :=
    [ Column("id", AsSent), Column("name", AsSent), Column("brandName", AsSent), Column("buyingPrice", AsSent),
      Column("sellingPrice", AsSent), Column("vendorPrice", AsSent), Column("quantity", AsSent), Column("date", AsSent),
      Column("images", JsonList),
      Column("isTopSelling", Flag), Column("isFeatured", Flag), Column("isBudgetFriendly", Flag),
      Column("customFields", JsonList) ]

  /** The UPDATE statement's assignments; column `i` takes placeholder `$(i+1)` and the
      row is chosen by `id=$13`. */
  const UPDATE_COLUMNS: seq<Column> :=
    [ Column("name", AsSent), Column("brandName", AsSent), Column("buyingPrice", AsSent),
      Column("sellingPrice", AsSent), Column("vendorPrice", AsSent), Column("quantity", AsSent), Column("date", AsSent),
      Column("images", JsonList),
      Column("isTopSelling", Flag), Column("isFeatured", Flag), Column("isBudgetFriendly", Flag),
      Column("customFields", JsonList) ]

  /** The flag columns are exactly the feature columns the search filters on, and the
      list columns are `images` and `customFields`. */
  lemma ColumnKinds()
    ensures forall i :: 0 <= i < |INSERT_COLUMNS| ==> (INSERT_COLUMNS[i].kind == Flag <==> INSERT_COLUMNS[i].name in FEATURES)
    ensures forall f :: f in FEATURES ==> exists i :: 0 <= i < |INSERT_COLUMNS| && INSERT_COLUMNS[i] == Column(f, Flag)
    ensures forall i :: 0 <= i < |INSERT_COLUMNS| ==>
      (INSERT_COLUMNS[i].kind == JsonList <==> INSERT_COLUMNS[i].name == "images" || INSERT_COLUMNS[i].name == "customFields")
  {
    assert INSERT_COLUMNS[9] == Column(FEATURES[0], Flag);
    assert INSERT_COLUMNS[10] == Column(FEATURES[1], Flag);
    assert INSERT_COLUMNS[11] == Column(FEATURES[2], Flag);
  }

  /** `JSON.stringify(v || [])`: the stored text of a list column. */
  function ListParam(v: Json): (r: Json)
    ensures !Truthy(v) ==> r == JString("[]")
    ensures Truthy(v) ==> r == JString(Stringify(v))
  {
    JString(Stringify(OrElse(v, JArray([]))))
  }

  /** `v || false`: a flag column's parameter. */
  function FlagParam(v: Json): (r: Json)
    ensures Truthy(r) == Truthy(v)
    ensures !Truthy(v) ==> r == JBool(false)
    ensures Truthy(v) ==> r == v
  {
    OrElse(v, JBool(false))
  }

  /** What a column of the products table receives from a request body: a list column
      its JSON text, a flag its value or `false`, every other column its property as
      sent (null when missing). */
  function ColumnValue(p: Json, c: Column): Json {
    match c.kind
    case JsonList => ListParam(Field(p, c.name))
    case Flag => FlagParam(Field(p, c.name))
    case AsSent => Field(p, c.name)
  }

  /** The parameters of the INSERT, written positionally as the handler writes them: each
      one is the value for the column at its position in the statement. */
  function CreateValues(p: Json): (vs: seq<Json>)
    ensures |vs| == |INSERT_COLUMNS| == 13
    ensures forall i :: 0 <= i < 13 ==> vs[i] == ColumnValue(p, INSERT_COLUMNS[i])
  {
    [ Field(p, "id"), Field(p, "name"), Field(p, "brandName"), Field(p, "buyingPrice"),
      Field(p, "sellingPrice"), Field(p, "vendorPrice"), Field(p, "quantity"), Field(p, "date"),
      ListParam(Field(p, "images")),
      FlagParam(Field(p, "isTopSelling")), FlagParam(Field(p, "isFeatured")), FlagParam(Field(p, "isBudgetFriendly")),
      ListParam(Field(p, "customFields")) ]
  }

  /** The parameters of the UPDATE: the value for each assigned column in statement
      order, then the path id last, as `$13`. */
  function UpdateValues(p: Json, id: string): (vs: seq<Json>)
    ensures |vs| == |UPDATE_COLUMNS| + 1 == 13
    ensures forall i :: 0 <= i < 12 ==> vs[i] == ColumnValue(p, UPDATE_COLUMNS[i])
    ensures vs[12] == JString(id)
  {
    [ Field(p, "name"), Field(p, "brandName"), Field(p, "buyingPrice"),
      Field(p, "sellingPrice"), Field(p, "vendorPrice"), Field(p, "quantity"), Field(p, "date"),
      ListParam(Field(p, "images")),
      FlagParam(Field(p, "isTopSelling")), FlagParam(Field(p, "isFeatured")), FlagParam(Field(p, "isBudgetFriendly")),
      ListParam(Field(p, "customFields")),
      JString(id) ]
  }

  /** Create and update write the same values to every column but `id`. */
  lemma UpdateMatchesCreate(p: Json, id: string)
    ensures UpdateValues(p, id)[..12] == CreateValues(p)[1..]
  {
    assert INSERT_COLUMNS[1..] == UPDATE_COLUMNS;
    var u, c := UpdateValues(p, id), CreateValues(p);
    forall i | 0 <= i < 12
      ensures u[i] == c[i + 1]
    {
      assert UPDATE_COLUMNS[i] == INSERT_COLUMNS[i + 1];
    }
  }

  /** A body without images, custom fields or flags stores `"[]"`, `"[]"` and `false`. */
  lemma CreateDefaults(p: Json)
    requires !Truthy(Field(p, "images")) && !Truthy(Field(p, "customFields"))
    requires forall f :: f in FEATURES ==> !Truthy(Field(p, f))
    ensures CreateValues(p)[8] == JString("[]") && CreateValues(p)[12] == JString("[]")
    ensures CreateValues(p)[9] == CreateValues(p)[10] == CreateValues(p)[11] == JBool(false)
  {
    var vs := CreateValues(p);
    forall k | 8 <= k < 13
      ensures vs[k] == (if k == 8 || k == 12 then JString("[]") else JBool(false))
    {
      var c := INSERT_COLUMNS[k];
      assert c.kind == (if k == 8 || k == 12 then JsonList else Flag);
      assert c.name == "images" || c.name == "customFields" || c.name in FEATURES;
      AbsentColumnValue(p, c);
    }
  }

  /** A column whose field is absent or falsy gets its default parameter. */
  lemma AbsentColumnValue(p: Json, c: Column)
    requires !Truthy(Field(p, c.name))
    ensures c.kind == JsonList ==> ColumnValue(p, c) == JString("[]")
    ensures c.kind == Flag ==> ColumnValue(p, c) == JBool(false)
  {
  }

  // ---------------------------------------------------------------- replies

  /** The status and JSON body a handler sends. */
  datatype Reply = Reply(status: nat, body: Json)

  const PRODUCT_NOT_FOUND: Json := JObject([("error", JString("Product not found"))])

  /** GET `/:id` and PUT `/:id` after their query: the first row, or 404 when there is
      none. */
  function RowReply(rows: seq<Json>): (r: Reply)
    ensures r.status == 404 <==> rows == []
    ensures rows != [] ==> r == Reply(200, rows[0])
    ensures rows == [] ==> r.body == PRODUCT_NOT_FOUND
  {
    if |rows| == 0 then Reply(404, PRODUCT_NOT_FOUND) else Reply(200, rows[0])
  }

  /** DELETE `/:id` after its query: the deleted row under `product`, or 404. */
  function DeleteReply(rows: seq<Json>): (r: Reply)
    ensures r.status == 404 <==> rows == []
    ensures rows == [] ==> r.body == PRODUCT_NOT_FOUND
    ensures rows != [] ==>
      && r.status == 200
      && Field(r.body, "deleted") == JBool(true)
      && Field(r.body, "product") == rows[0]
  {
    if |rows| == 0 then Reply(404, PRODUCT_NOT_FOUND)
    else
      var es := [("deleted", JBool(true)), ("product", rows[0])];
      GetAt(es, "deleted", 0);
      GetAt(es, "product", 1);
      Reply(200, JObject(es))
  }

  /** POST after its INSERT: 201 with the returned row (absent only if the database
      returned nothing, which an INSERT ... RETURNING does not do). */
  function CreateReply(rows: seq<Json>): (r: Reply)
    ensures r.status == 201
    ensures rows != [] ==> r.body == rows[0]
  {
    Reply(201, if |rows| == 0 then JNull else rows[0])
  }

  // ---------------------------------------------------------------- the admin gate

  /** A request the mutating routes let through: a verified access token whose role
      is exactly `admin`. */
  predicate AdminRequest(header: Option<string>, decode: string -> Token, secret: string, now: int) {
    var a := Authenticate(header, decode, secret, now);
    a.Authenticated? && a.user.role == Some("admin")
  }

  /** `authenticateToken` followed by `authorizeRoles('admin')`, as mounted on POST,
      PUT and DELETE. */
  method AdminGate(req: Request, decode: string -> Token, secret: string, now: int) returns (c: Continuation)
    modifies req`user
    ensures c == Next <==> AdminRequest(req.authorization, decode, secret, now)
    ensures c == SendStatus(401) <==> !HasToken(req.authorization)
    ensures c != Next ==> c == SendStatus(401) || c == SendStatus(403)
  {
    c := AuthenticateToken(req, decode, secret, now);
    if c == Next {
      c := AuthorizeRoles(req, ["admin"]);
    }
  }

  /** What a mutating handler runs once past the gate, or the status it stops with. */
  datatype Mutation = Refused(status: nat) | Insert(values: seq<Json>) | Update(values: seq<Json>) | Delete(id: string)

  /** POST `/`: only an admin reaches the INSERT, whose parameters come from the body. */
  method CreateProduct(req: Request, body: Json, decode: string -> Token, secret: string, now: int) returns (m: Mutation)
    modifies req`user
    ensures m.Refused? <==> !AdminRequest(req.authorization, decode, secret, now)
    ensures m.Refused? ==> m.status == 401 || m.status == 403
    ensures !m.Refused? ==> m == Insert(CreateValues(body))
  {
    var c := AdminGate(req, decode, secret, now);
    if c != Next {
      return Refused(c.status);
    }
    m := Insert(CreateValues(body));
  }

  /** PUT `/:id`: only an admin reaches the UPDATE, which targets the path id. */
  method UpdateProduct(req: Request, body: Json, id: string, decode: string -> Token, secret: string, now: int) returns (m: Mutation)
    modifies req`user
    ensures m.Refused? <==> !AdminRequest(req.authorization, decode, secret, now)
    ensures m.Refused? ==> m.status == 401 || m.status == 403
    ensures !m.Refused? ==> m == Update(UpdateValues(body, id))
  {
    var c := AdminGate(req, decode, secret, now);
    if c != Next {
      return Refused(c.status);
    }
    m := Update(UpdateValues(body, id));
  }

  /** DELETE `/:id`: only an admin reaches the DELETE of the path id. */
  method DeleteProduct(req: Request, id: string, decode: string -> Token, secret: string, now: int) returns (m: Mutation)
    modifies req`user
    ensures m.Refused? <==> !AdminRequest(req.authorization, decode, secret, now)
    ensures m.Refused? ==> m.status == 401 || m.status == 403
    ensures !m.Refused? ==> m == Delete(id)
  {
    var c := AdminGate(req, decode, secret, now);
    if c != Next {
      return Refused(c.status);
    }
    m := Delete(id);
  }
}
