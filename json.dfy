/** JSON-like values as the JavaScript code sees them, with the three library
    operations the core relies on: property lookup (`p.name`), `Object.fromEntries`
    and `JSON.stringify`. */
module JsonValues {
  import opened Optional
  import opened Text

  /** null, booleans, numbers (integers here), strings, arrays, and objects as their
      ordered list of own entries. */
  datatype Json =
    | JNull
    | JBool(b: bool)
    | JNumber(n: int)
    | JString(s: string)
    | JArray(items: seq<Json>)
    | JObject(entries: seq<Entry>)

  type Entry = (string, Json)

  /** JavaScript truthiness: `null`, `false`, `0` and `""` are falsy. */
  predicate Truthy(v: Json) {
    match v
    case JNull => false
    case JBool(b) => b
    case JNumber(n) => n != 0
    case JString(s) => s != ""
    case _ => true
  }

  /** The values JavaScript treats as false are exactly `null`, `false`, `0` and `""`;
      every array and object, empty or not, is truthy. */
  lemma TruthyValues(v: Json)
    ensures !Truthy(v) <==> v == JNull || v == JBool(false) || v == JNumber(0) || v == JString("")
    ensures v.JArray? || v.JObject? ==> Truthy(v)
  {
  }

  /** `a || b`: the left operand when truthy, otherwise the right one; the result is
      falsy only when both operands are. */
  function OrElse(a: Json, b: Json): (r: Json)
    ensures r == a || r == b
    ensures Truthy(a) ==> r == a
    ensures Truthy(r) <==> Truthy(a) || Truthy(b)
  {
    if Truthy(a) then a else b
  }

  predicate DistinctKeys(es: seq<Entry>) {
    forall i, j :: 0 <= i < j < |es| ==> es[i].0 != es[j].0
  }

  /** Index of the first entry with key `k`. */
  function KeyIndex(es: seq<Entry>, k: string): (r: Option<nat>)
    ensures r.Some? ==> r.value < |es| && es[r.value].0 == k
    ensures r.None? <==> forall i :: 0 <= i < |es| ==> es[i].0 != k
  {
    if es == [] then None
    else if es[0].0 == k then Some(0)
    else match KeyIndex(es[1..], k)
      case Some(i) => Some(i + 1)
      case None => None
  }

  /** The value an entry list gives key `k`: the last entry with that key wins, as in
      an object literal or `JSON.parse`. */
  function Get(es: seq<Entry>, k: string): (r: Option<Json>)
    ensures r.None? <==> forall e :: e in es ==> e.0 != k
  {
    if es == [] then None
    else if es[|es| - 1].0 == k then Some(es[|es| - 1].1)
    else Get(es[..|es| - 1], k)
  }

  lemma {:induction false} GetAt(es: seq<Entry>, k: string, i: nat)
    requires i < |es| && es[i].0 == k
    requires forall j :: i < j < |es| ==> es[j].0 != k
    ensures Get(es, k) == Some(es[i].1)
  {
    if i < |es| - 1 {
      GetAt(es[..|es| - 1], k, i);
    }
  }

  /** `p.k`: the property's value, with a missing property (`undefined`) read as
      `null`. Both are falsy, and node-postgres sends both as SQL NULL. */
  function Field(p: Json, k: string): (r: Json)
    ensures p.JObject? && Get(p.entries, k).Some? ==> r == Get(p.entries, k).value
    ensures !p.JObject? || Get(p.entries, k).None? ==> r == JNull
  {
    if p.JObject? then
      match Get(p.entries, k)
      case Some(v) => v
      case None => JNull
    else JNull
  }

  /** One step of `Object.fromEntries`: assigning `obj[k] = v`. An existing key keeps
      its position and takes the new value; a new key goes last. */
  function Put(acc: seq<Entry>, k: string, v: Json): seq<Entry> {
    match KeyIndex(acc, k)
    case Some(i) => acc[i := (k, v)]
    case None => acc + [(k, v)]
  }

  lemma PutLookup(acc: seq<Entry>, k: string, v: Json)
    requires DistinctKeys(acc)
    ensures DistinctKeys(Put(acc, k, v))
    ensures Get(Put(acc, k, v), k) == Some(v)
    ensures forall k' :: k' != k ==> Get(Put(acc, k, v), k') == Get(acc, k')
    ensures forall e :: e in Put(acc, k, v) ==> e in acc || e == (k, v)
    ensures |Put(acc, k, v)| <= |acc| + 1
  {
    var r := Put(acc, k, v);
    match KeyIndex(acc, k)
    case Some(i) =>
      GetAt(r, k, i);
      forall k' | k' != k ensures Get(r, k') == Get(acc, k') {
        if j :| 0 <= j < |acc| && acc[j].0 == k' {
          GetAt(r, k', j);
          GetAt(acc, k', j);
        }
      }
      forall e | e in r ensures e in acc || e == (k, v) {
        var j :| 0 <= j < |r| && r[j] == e;
        if j != i { assert e == acc[j]; }
      }
    case None =>
      GetAt(r, k, |acc|);
      forall k' | k' != k ensures Get(r, k') == Get(acc, k') {
        assert r[..|r| - 1] == acc;
      }
  }

  /** `Object.fromEntries(es)`: entries are assigned left to right, so on a repeated
      key the later value wins while the key keeps its first position. */
  function FromEntries(es: seq<Entry>): (r: seq<Entry>)
    ensures DistinctKeys(r)
    ensures forall k :: Get(r, k) == Get(es, k)
    ensures forall e :: e in r ==> e in es
    ensures |r| <= |es|
    ensures DistinctKeys(es) ==> r == es
  {
    if es == [] then []
    else
      var acc := FromEntries(es[..|es| - 1]);
      FromEntriesStep(es, acc);
      Put(acc, es[|es| - 1].0, es[|es| - 1].1)
  }

  /** Assigning the last entry of `es` to what the earlier entries built gives what
      the whole of `es` gives. */
  lemma FromEntriesStep(es: seq<Entry>, acc: seq<Entry>)
    requires es != [] && DistinctKeys(acc)
    requires forall k :: Get(acc, k) == Get(es[..|es| - 1], k)
    requires forall e :: e in acc ==> e in es[..|es| - 1]
    requires |acc| <= |es| - 1
    requires DistinctKeys(es[..|es| - 1]) ==> acc == es[..|es| - 1]
    ensures DistinctKeys(Put(acc, es[|es| - 1].0, es[|es| - 1].1))
    ensures forall k :: Get(Put(acc, es[|es| - 1].0, es[|es| - 1].1), k) == Get(es, k)
    ensures forall e :: e in Put(acc, es[|es| - 1].0, es[|es| - 1].1) ==> e in es
    ensures |Put(acc, es[|es| - 1].0, es[|es| - 1].1)| <= |es|
    ensures DistinctKeys(es) ==> Put(acc, es[|es| - 1].0, es[|es| - 1].1) == es
  {
    var init, last := es[..|es| - 1], es[|es| - 1];
    var r := Put(acc, last.0, last.1);
    PutLookup(acc, last.0, last.1);
    forall k ensures Get(r, k) == Get(es, k) {
      if k != last.0 { assert Get(es, k) == Get(init, k); }
    }
    forall e | e in r ensures e in es {
      if e != last { assert e in init; }
    }
    if DistinctKeys(es) {
      assert DistinctKeys(init);
      assert es == init + [last];
      assert KeyIndex(acc, last.0).None?;
    }
  }

  /** Of two entries with the same key, `Object.fromEntries` keeps one, with the later
      value. */
  lemma RepeatedKeyLaterWins(k: string, x: Json, y: Json)
    ensures FromEntries([(k, x), (k, y)]) == [(k, y)]
  {
    var es := [(k, x), (k, y)];
    assert es[..1] == [(k, x)] && es[1] == (k, y);
    assert FromEntries([(k, x)]) == [(k, x)];
    assert KeyIndex([(k, x)], k) == Some(0);
  }

  // ---------------------------------------------------------------- JSON.stringify

  function HexDigit(d: nat): char
    requires d < 16
  {
    if d < 10 then DigitChar(d) else ('a' as int + d - 10) as char
  }

  /** How `JSON.stringify` writes one character inside a string literal. */
  function EscapeChar(c: char): string {
    if c == '"' then "\\\""
    else if c == '\\' then "\\\\"
    else if c as int == 8 then "\\b"
    else if c as int == 9 then "\\t"
    else if c as int == 10 then "\\n"
    else if c as int == 12 then "\\f"
    else if c as int == 13 then "\\r"
    else if c as int < 32 then "\\u00" + [HexDigit(c as int / 16), HexDigit(c as int % 16)]
    else [c]
  }

  function EscapeString(s: string): string {
    if s == [] then [] else EscapeChar(s[0]) + EscapeString(s[1..])
  }

  function Quote(s: string): string {
    "\"" + EscapeString(s) + "\""
  }

  function NumberText(n: int): string {
    if n < 0 then "-" + Decimal(-n) else Decimal(n)
  }

  /** `JSON.stringify(v)`, without whitespace: never empty, and strings, arrays and
      objects come out between quotes, brackets and braces respectively. */
  function Stringify(v: Json): (s: string)
    ensures |s| >= 2 || (v.JNumber? && 0 <= v.n < 10)
    ensures v.JString? ==> s[0] == '"' && s[|s| - 1] == '"'
    ensures v.JArray? ==> s[0] == '[' && s[|s| - 1] == ']'
    ensures v.JObject? ==> s[0] == '{' && s[|s| - 1] == '}'
    ensures v.JString? ==> s == Quote(v.s)
    ensures v == JArray([]) ==> s == "[]"
  {
    match v
    case JNull => "null"
    case JBool(b) => if b then "true" else "false"
    case JNumber(n) => NumberText(n)
    case JString(s) => Quote(s)
    case JArray(items) =>
      var parts := seq(|items|, i requires 0 <= i < |items| => Stringify(items[i]));
      "[" + Join(parts, ',') + "]"
    case JObject(es) =>
      "{" + Join(seq(|es|, i requires 0 <= i < |es| => Quote(es[i].0) + ":" + Stringify(es[i].1)), ',') + "}"
  }
}
