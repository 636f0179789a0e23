/** utils/caseConverter.js: renaming camelCase object keys to snake_case, through a
    whole JSON value. */
module CaseConverter {
  import opened Optional
  import opened Text
  import opened JsonValues

  /** `key.replace(/([A-Z])/g, "_$1")`: an underscore before every ASCII capital. */
  function InsertUnderscores(s: string): (r: string)
    ensures |r| == |s| + CountUpper(s)
    ensures NoUpper(s) ==> r == s
  {
    if s == [] then []
    else (if IsUpper(s[0]) then ['_', s[0]] else [s[0]]) + InsertUnderscores(s[1..])
  }

  lemma {:induction false} InsertUnderscoresConcat(a: string, b: string)
    ensures InsertUnderscores(a + b) == InsertUnderscores(a) + InsertUnderscores(b)
  {
    if a == [] {
      assert a + b == b;
    } else {
      assert (a + b)[0] == a[0] && (a + b)[1..] == a[1..] + b;
      InsertUnderscoresConcat(a[1..], b);
    }
  }

  /** `toSnakeCaseKey`: the underscored key, lower-cased. The result has no capital
      left, is one character longer per capital of the key, and a key without
      capitals comes back unchanged. */
  function ToSnakeCaseKey(key: string): (r: string)
    ensures NoUpper(r)
    ensures |r| == |key| + CountUpper(key)
    ensures NoUpper(key) ==> r == key
  {
    LowerString(InsertUnderscores(key))
  }

  /** The conversion works character by character: it distributes over concatenation,
      and a single capital `X` becomes `_x` while any other character stays. */
  lemma {:induction false} ToSnakeCaseKeyConcat(a: string, b: string)
    ensures ToSnakeCaseKey(a + b) == ToSnakeCaseKey(a) + ToSnakeCaseKey(b)
  {
    InsertUnderscoresConcat(a, b);
    LowerStringConcat(InsertUnderscores(a), InsertUnderscores(b));
  }

  lemma ToSnakeCaseKeyChar(c: char)
    ensures ToSnakeCaseKey([c]) == if IsUpper(c) then ['_', Lower(c)] else [c]
  {
    assert [c][1..] == [];
  }

  /** A leading capital gives a leading underscore (`Id` becomes `_id`). */
  lemma LeadingCapital(key: string)
    requires |key| > 0 && IsUpper(key[0])
    ensures |ToSnakeCaseKey(key)| >= 2
    ensures ToSnakeCaseKey(key)[..2] == ['_', Lower(key[0])]
  {
    assert key == [key[0]] + key[1..];
    ToSnakeCaseKeyConcat([key[0]], key[1..]);
    ToSnakeCaseKeyChar(key[0]);
  }

  /** Converting a converted key changes nothing. */
  lemma ToSnakeCaseKeyIdempotent(key: string)
    ensures ToSnakeCaseKey(ToSnakeCaseKey(key)) == ToSnakeCaseKey(key)
  {
  }

  /** A run of capitals: each capital gets its own underscore, so the key doubles in
      length (`URL` becomes `_u_r_l`). */
  lemma {:induction false} CapitalRun(key: string)
    requires forall i :: 0 <= i < |key| ==> IsUpper(key[i])
    ensures |ToSnakeCaseKey(key)| == 2 * |key|
    ensures forall i :: 0 <= i < |key| ==>
      ToSnakeCaseKey(key)[2 * i] == '_' && ToSnakeCaseKey(key)[2 * i + 1] == Lower(key[i])
  {
    if key != [] {
      var t := key[1..];
      CapitalRun(t);
      assert ToSnakeCaseKey(key) == ['_', Lower(key[0])] + ToSnakeCaseKey(t) by {
        assert key == [key[0]] + t;
        ToSnakeCaseKeyConcat([key[0]], t);
        ToSnakeCaseKeyChar(key[0]);
      }
      PairsPrepended(key, ToSnakeCaseKey(t));
    }
  }

  /** Prepending the pair for the first capital to the pairs for the others gives the
      pairs for the whole run. */
  lemma PairsPrepended(key: string, rt: string)
    requires key != [] && |rt| == 2 * (|key| - 1)
    requires forall i :: 0 <= i < |key| - 1 ==> rt[2 * i] == '_' && rt[2 * i + 1] == Lower(key[1..][i])
    ensures var r := ['_', Lower(key[0])] + rt;
      forall i :: 0 <= i < |key| ==> r[2 * i] == '_' && r[2 * i + 1] == Lower(key[i])
  {
    var r := ['_', Lower(key[0])] + rt;
    forall i | 0 <= i < |key| ensures r[2 * i] == '_' && r[2 * i + 1] == Lower(key[i]) {
      if i > 0 {
        assert key[i] == key[1..][i - 1];
        assert r[2 * i] == rt[2 * (i - 1)] && r[2 * i + 1] == rt[2 * (i - 1) + 1];
      }
    }
  }

  /** Distinct keys can collide: a capital and the underscore with its lower-case
      letter convert alike wherever they stand (`aB` and `a_b` both become `a_b`). */
  lemma CapitalCollides(prefix: string, c: char, suffix: string)
    requires IsUpper(c)
    ensures prefix + [c] + suffix != prefix + ['_', Lower(c)] + suffix
    ensures ToSnakeCaseKey(prefix + [c] + suffix) == ToSnakeCaseKey(prefix + ['_', Lower(c)] + suffix)
  {
    var pair := ['_', Lower(c)];
    assert (prefix + [c] + suffix)[|prefix|] == c;
    assert (prefix + pair + suffix)[|prefix|] == '_';
    ToSnakeCaseKeyConcat(prefix + [c], suffix);
    ToSnakeCaseKeyConcat(prefix, [c]);
    ToSnakeCaseKeyConcat(prefix + pair, suffix);
    ToSnakeCaseKeyConcat(prefix, pair);
    ToSnakeCaseKeyChar(c);
    assert NoUpper(pair);
  }

  // ---------------------------------------------------------------- whole values

  /** `toSnakeCase`: arrays are mapped element by element, objects are rebuilt with
      `Object.fromEntries` from their renamed and converted entries, and everything
      else (null, booleans, numbers, strings) is returned as it is. */
  function ToSnakeCase(v: Json): (r: Json)
    ensures r.JArray? <==> v.JArray?
    ensures r.JObject? <==> v.JObject?
    ensures !v.JArray? && !v.JObject? ==> r == v
    ensures v.JArray? ==> |r.items| == |v.items|
    ensures v.JObject? ==> |r.entries| <= |v.entries|
    decreases v, 1
  {
    match v
    case JArray(items) => JArray(seq(|items|, i requires 0 <= i < |items| => ToSnakeCase(items[i])))
    case JObject(_) => JObject(FromEntries(RenamedEntries(v)))
    case _ => v
  }

  /** The entries `Object.entries(obj).map(([k, v]) => [toSnakeCaseKey(k), toSnakeCase(v)])`. */
  function RenamedEntries(v: Json): (es: seq<Entry>)
    requires v.JObject?
    ensures |es| == |v.entries|
    decreases v, 0
  {
    seq(|v.entries|, i requires 0 <= i < |v.entries| => (ToSnakeCaseKey(v.entries[i].0), ToSnakeCase(v.entries[i].1)))
  }

  /** Arrays keep their order: element `i` of the result is element `i` converted. */
  lemma ToSnakeCaseArray(items: seq<Json>, i: nat)
    requires i < |items|
    ensures ToSnakeCase(JArray(items)).items[i] == ToSnakeCase(items[i])
  {
  }

  /** Looking a key up in a converted object: the value comes from the LAST input
      entry whose key converts to it, converted in turn; a key no input key converts
      to is absent. */
  lemma ToSnakeCaseObjectLookup(es: seq<Entry>, k: string, i: nat)
    requires i < |es| && ToSnakeCaseKey(es[i].0) == k
    requires forall j :: i < j < |es| ==> ToSnakeCaseKey(es[j].0) != k
    ensures Get(ToSnakeCase(JObject(es)).entries, k) == Some(ToSnakeCase(es[i].1))
  {
    GetAt(RenamedEntries(JObject(es)), k, i);
  }

  lemma ToSnakeCaseObjectMissing(es: seq<Entry>, k: string)
    requires forall j :: 0 <= j < |es| ==> ToSnakeCaseKey(es[j].0) != k
    ensures Get(ToSnakeCase(JObject(es)).entries, k) == None
  {
    var renamed := RenamedEntries(JObject(es));
    assert forall j :: 0 <= j < |renamed| ==> renamed[j].0 != k;
  }

  /** When no two keys collide after conversion, the object keeps its entries in
      order, each renamed and converted. */
  lemma ToSnakeCaseObjectOrder(es: seq<Entry>)
    requires forall i, j :: 0 <= i < j < |es| ==> ToSnakeCaseKey(es[i].0) != ToSnakeCaseKey(es[j].0)
    ensures |ToSnakeCase(JObject(es)).entries| == |es|
    ensures forall i :: 0 <= i < |es| ==>
      ToSnakeCase(JObject(es)).entries[i] == (ToSnakeCaseKey(es[i].0), ToSnakeCase(es[i].1))
  {
    assert DistinctKeys(RenamedEntries(JObject(es)));
  }

  /** Two entries whose keys convert alike collapse into one, under the first key's
      position with the later value; the earlier value is lost (`{aB: 1, a_b: 2}`
      becomes `{a_b: 2}`). */
  lemma LaterCollidingEntryWins(k1: string, v1: Json, k2: string, v2: Json)
    requires ToSnakeCaseKey(k1) == ToSnakeCaseKey(k2)
    ensures ToSnakeCase(JObject([(k1, v1), (k2, v2)])) == JObject([(ToSnakeCaseKey(k2), ToSnakeCase(v2))])
  {
    RenamedPair(k1, v1, k2, v2);
    RepeatedKeyLaterWins(ToSnakeCaseKey(k2), ToSnakeCase(v1), ToSnakeCase(v2));
  }

  /** The renamed entries of a two-entry object. */
  lemma RenamedPair(k1: string, v1: Json, k2: string, v2: Json)
    ensures RenamedEntries(JObject([(k1, v1), (k2, v2)]))
      == [(ToSnakeCaseKey(k1), ToSnakeCase(v1)), (ToSnakeCaseKey(k2), ToSnakeCase(v2))]
  {
  }

  // ---------------------------------------------------------------- idempotence

  /** A value already in snake_case form: every object key anywhere has no capital,
      and no object repeats a key. */
  predicate Snaked(v: Json) {
    match v
    case JArray(items) => forall i :: 0 <= i < |items| ==> Snaked(items[i])
    case JObject(es) =>
      DistinctKeys(es) && forall i :: 0 <= i < |es| ==> NoUpper(es[i].0) && Snaked(es[i].1)
    case _ => true
  }

  /** Every result of `toSnakeCase` is in snake_case form. */
  lemma {:induction false} ToSnakeCaseIsSnaked(v: Json)
    ensures Snaked(ToSnakeCase(v))
  {
    match v
    case JArray(items) =>
      forall i | 0 <= i < |items| ensures Snaked(ToSnakeCase(items[i])) {
        ToSnakeCaseIsSnaked(items[i]);
      }
    case JObject(es) =>
      var renamed := RenamedEntries(v);
      var r := FromEntries(renamed);
      forall i | 0 <= i < |r| ensures NoUpper(r[i].0) && Snaked(r[i].1) {
        assert r[i] in renamed;
        var j :| 0 <= j < |renamed| && renamed[j] == r[i];
        ToSnakeCaseIsSnaked(es[j].1);
      }
    case _ =>
  }

  /** Values in snake_case form are fixed points of `toSnakeCase`. */
  lemma {:induction false} SnakedIsFixed(v: Json)
    requires Snaked(v)
    ensures ToSnakeCase(v) == v
  {
    match v
    case JArray(items) =>
      forall i | 0 <= i < |items| ensures ToSnakeCase(items[i]) == items[i] {
        SnakedIsFixed(items[i]);
      }
      assert ToSnakeCase(v).items == items;
    case JObject(es) =>
      var renamed := RenamedEntries(v);
      forall i | 0 <= i < |es| ensures renamed[i] == es[i] {
        SnakedIsFixed(es[i].1);
      }
      assert renamed == es;
    case _ =>
  }

  /** `toSnakeCase(toSnakeCase(v)) == toSnakeCase(v)`. */
  lemma ToSnakeCaseIdempotent(v: Json)
    ensures ToSnakeCase(ToSnakeCase(v)) == ToSnakeCase(v)
  {
    ToSnakeCaseIsSnaked(v);
    SnakedIsFixed(ToSnakeCase(v));
  }
}
