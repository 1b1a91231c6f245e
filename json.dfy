/**
 * JSON values (RFC 8259) and the subset of Android's `org.json` API the
 * app uses: `has`, `opt`, `optString`, `optInt`, `optJSONObject`,
 * `optJSONArray`, `put` and `toString()`. Parsing text into a value
 * (`JSONObject(text)`) is the library's job and is not modelled: callers
 * receive its outcome as an `Option<Json>`.
 */
module Json {
  import opened Common
  import opened Text

  /**
   * A JSON value. Numbers are integers (what `org.json` stores as `Integer`
   * or `Long`); an object keeps its members in insertion order, as the
   * `LinkedHashMap` behind `JSONObject` does.
   */
  datatype Json =
    | JNull
    | JBool(b: bool)
    | JNumber(n: int)
    | JString(s: string)
    | JArray(items: seq<Json>)
    | JObject(members: seq<Member>)

  datatype Member = Member(key: string, value: Json)

  /** The keys of an object's members, in order. */
  function Keys(ms: seq<Member>): (ks: seq<string>)
    ensures |ks| == |ms|
    ensures forall i | 0 <= i < |ms| :: ks[i] == ms[i].key
  {
    if ms == [] then [] else Keys(ms[..|ms| - 1]) + [ms[|ms| - 1].key]
  }

  /** `has(name)`. */
  predicate Has(ms: seq<Member>, k: string) {
    k in Keys(ms)
  }

  /** `opt(name)`: the value stored under `k` (a later duplicate wins, as in the parser's map). */
  function Opt(ms: seq<Member>, k: string): (r: Option<Json>)
    ensures r.Some? <==> Has(ms, k)
  {
    if ms == [] then None
    else if ms[|ms| - 1].key == k then Some(ms[|ms| - 1].value)
    else Opt(ms[..|ms| - 1], k)
  }

  /** `put(name, value)`: a new key is appended; an existing key keeps its place and takes the value. */
  function Put(ms: seq<Member>, k: string, v: Json): (r: seq<Member>)
    ensures !Has(ms, k) ==> r == ms + [Member(k, v)]
    ensures Has(ms, k) ==> Keys(r) == Keys(ms)
  {
    if Has(ms, k) then Replace(ms, k, v) else ms + [Member(k, v)]
  }

  /** After `put(k, v)`, `opt(k)` is `v` and every other key reads as before. */
  lemma PutRead(ms: seq<Member>, k: string, v: Json, k': string)
    ensures Opt(Put(ms, k, v), k') == if k' == k then Some(v) else Opt(ms, k')
  {
    if Has(ms, k) {
      ReplaceRead(ms, k, v, k');
    } else {
      assert (ms + [Member(k, v)])[..|ms|] == ms;
    }
  }

  /** `put` of a key the object lacks appends the member. */
  lemma PutNewKey(ms: seq<Member>, m: Member)
    requires forall i | 0 <= i < |ms| :: ms[i].key != m.key
    ensures Put(ms, m.key, m.value) == ms + [m]
  {
    assert !Has(ms, m.key);
  }

  /** Three `put`s of distinct keys into an empty object give its three members in order. */
  lemma PutThree(m1: Member, m2: Member, m3: Member)
    requires m1.key != m2.key && m1.key != m3.key && m2.key != m3.key
    ensures Put(Put(Put([], m1.key, m1.value), m2.key, m2.value), m3.key, m3.value) == [m1, m2, m3]
  {
    PutNewKey([], m1);
    PutNewKey([m1], m2);
    PutNewKey([m1, m2], m3);
  }

  /** Each of three distinct keys reads back its own member's value. */
  lemma OptOfThree(m1: Member, m2: Member, m3: Member)
    requires m1.key != m2.key && m1.key != m3.key && m2.key != m3.key
    ensures Opt([m1, m2, m3], m1.key) == Some(m1.value)
    ensures Opt([m1, m2, m3], m2.key) == Some(m2.value)
    ensures Opt([m1, m2, m3], m3.key) == Some(m3.value)
  {
    assert [m1, m2, m3][..2] == [m1, m2];
    assert [m1, m2][..1] == [m1];
    assert Opt([m1, m2], m2.key) == Some(m2.value);
    assert Opt([m1], m1.key) == Some(m1.value);
  }

  /** Gives every member with key `k` the value `v`, in place. */
  function Replace(ms: seq<Member>, k: string, v: Json): (r: seq<Member>)
    ensures Keys(r) == Keys(ms)
  {
    if ms == [] then []
    else
      var last := ms[|ms| - 1];
      Replace(ms[..|ms| - 1], k, v) + [if last.key == k then Member(k, v) else last]
  }

  /** After replacing, a present `k` reads as `v`; every other key reads as before. */
  lemma {:induction false} ReplaceRead(ms: seq<Member>, k: string, v: Json, k': string)
    ensures k' == k && Has(ms, k) ==> Opt(Replace(ms, k, v), k') == Some(v)
    ensures k' != k ==> Opt(Replace(ms, k, v), k') == Opt(ms, k')
  {
    if ms != [] {
      var init := ms[..|ms| - 1];
      var last := ms[|ms| - 1];
      var r := Replace(ms, k, v);
      assert r[..|r| - 1] == Replace(init, k, v);
      ReplaceRead(init, k, v, k');
      if last.key != k && k' == k && Has(ms, k) {
        assert Keys(ms) == Keys(init) + [last.key];
      }
    }
  }

  /** Drops every member with key `k`. */
  function Remove(ms: seq<Member>, k: string): (r: seq<Member>)
  {
    if ms == [] then []
    else if ms[|ms| - 1].key == k then Remove(ms[..|ms| - 1], k)
    else Remove(ms[..|ms| - 1], k) + [ms[|ms| - 1]]
  }

  /** After removing `k`, it is absent and every other key reads as before. */
  lemma {:induction false} RemoveRead(ms: seq<Member>, k: string, k': string)
    ensures Opt(Remove(ms, k), k') == if k' == k then None else Opt(ms, k')
  {
    if ms != [] {
      var init := ms[..|ms| - 1];
      var last := ms[|ms| - 1];
      RemoveRead(init, k, k');
      if last.key != k {
        var r := Remove(ms, k);
        assert r[..|r| - 1] == Remove(init, k);
      }
    }
  }

  /**
   * `put(name, value)` with a nullable value: Android's `put` removes the
   * key when the value is `null`.
   */
  function PutOrRemove(ms: seq<Member>, k: string, v: Option<Json>): (r: seq<Member>) {
    match v
    case Some(x) => Put(ms, k, x)
    case None => Remove(ms, k)
  }

  /** After `put(k, v)` with a nullable `v`, `opt(k)` is `v` and every other key reads as before. */
  lemma PutOrRemoveRead(ms: seq<Member>, k: string, v: Option<Json>, k': string)
    ensures Opt(PutOrRemove(ms, k, v), k') == if k' == k then v else Opt(ms, k')
  {
    match v
    case Some(x) => PutRead(ms, k, x, k');
    case None => RemoveRead(ms, k, k');
  }

  /** The lower-case hexadecimal digit of `n`, 0 <= n < 16. */
  function HexDigit(n: nat): char
    requires n < 16
  {
    if n < 10 then DigitChar(n) else ('a' as int + n - 10) as char
  }

  /** How `JSONStringer` writes one character inside a string literal. */
  function EscapeChar(c: char): string {
    if c == '"' || c == '\\' || c == '/' then ['\\', c]
    else if c == '\t' then "\\t"
    else if c == '\U{8}' then "\\b"
    else if c == '\n' then "\\n"
    else if c == '\r' then "\\r"
    else if c == '\U{C}' then "\\f"
    else if c as int <= 0x1F then
      "\\u00" + [HexDigit(c as int / 16), HexDigit(c as int % 16)]
    else [c]
  }

  function Escape(s: string): string {
    if s == [] then "" else EscapeChar(s[0]) + Escape(s[1..])
  }

  function Quote(s: string): string {
    "\"" + Escape(s) + "\""
  }

  /** `toString()` of a value: compact JSON text, members in insertion order. */
  function Serialize(v: Json): (r: string)
    decreases v, 2
  {
    match v
    case JNull => "null"
    case JBool(b) => if b then "true" else "false"
    case JNumber(n) => IntToString(n)
    case JString(s) => Quote(s)
    case JArray(items) => "[" + SerializeItems(v, items) + "]"
    case JObject(ms) => "{" + SerializeMembers(v, ms) + "}"
  }

  function SerializeItems(ghost parent: Json, items: seq<Json>): string
    requires forall i | 0 <= i < |items| :: items[i] < parent
    decreases parent, 1, |items|
  {
    if items == [] then ""
    else if |items| == 1 then Serialize(items[0])
    else Serialize(items[0]) + "," + SerializeItems(parent, items[1..])
  }

  function SerializeMembers(ghost parent: Json, ms: seq<Member>): string
    requires forall i | 0 <= i < |ms| :: ms[i].value < parent
    decreases parent, 1, |ms|
  {
    if ms == [] then ""
    else
      var first := Quote(ms[0].key) + ":" + Serialize(ms[0].value);
      if |ms| == 1 then first else first + "," + SerializeMembers(parent, ms[1..])
  }

  /**
   * The text Android's `org.json` gives for a stored value when a string is
   * asked for (`JSON.toString`): a string is itself, anything else its JSON
   * text; in particular `JSONObject.NULL` gives "null".
   */
  function ToText(v: Json): string {
    match v
    case JString(s) => s
    case _ => Serialize(v)
  }

  /** `optString(name, fallback)` with a nullable fallback. */
  function OptStringOr(ms: seq<Member>, k: string, fallback: Option<string>): (r: Option<string>)
    ensures Has(ms, k) ==> r == Some(ToText(Opt(ms, k).value))
    ensures !Has(ms, k) ==> r == fallback
  {
    match Opt(ms, k)
    case Some(v) => Some(ToText(v))
    case None => fallback
  }

  /** `optString(name)`: the fallback is the empty string. */
  function OptString(ms: seq<Member>, k: string): string {
    OptStringOr(ms, k, Some("")).value
  }

  /** `(int) Double.parseDouble(s)` for plain decimal integers: saturates at the `Int` range. */
  function SaturateInt32(x: int): (r: int)
    ensures IsInt32(r)
  {
    if x < INT_MIN then INT_MIN else if x > INT_MAX then INT_MAX else x
  }

  /** `optInt(name)`: numbers by `intValue()`, numeric strings by parsing, otherwise 0. */
  function OptInt(ms: seq<Member>, k: string): (r: int)
    ensures IsInt32(r)
  {
    match Opt(ms, k)
    case Some(JNumber(n)) => ToInt32(n)
    case Some(JString(s)) =>
      (match ParseInt(s)
       case Some(x) => SaturateInt32(x)
       case None => 0)
    case _ => 0
  }

  /** `optJSONObject(name)`. */
  function OptObject(ms: seq<Member>, k: string): Option<seq<Member>> {
    match Opt(ms, k)
    case Some(JObject(inner)) => Some(inner)
    case _ => None
  }

  /** `optJSONArray(name)`. */
  function OptArray(ms: seq<Member>, k: string): Option<seq<Json>> {
    match Opt(ms, k)
    case Some(JArray(items)) => Some(items)
    case _ => None
  }

  /** `JSONArray.optJSONObject(i)`. */
  function ItemObject(items: seq<Json>, i: nat): Option<seq<Member>> {
    if i < |items| && items[i].JObject? then Some(items[i].members) else None
  }

  /** `JSONArray.optString(i)`. */
  function ItemString(items: seq<Json>, i: nat): string {
    if i < |items| then ToText(items[i]) else ""
  }
}
