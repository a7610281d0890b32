/**
 Dynamically typed JavaScript values as they come out of `JSON.parse`, with
 JavaScript truthiness and object spreading. Numbers are modelled as
 integers: floating point is not part of this model.
 */
module Json {
  import opened Common

  datatype Json =
    | JNull
    | JBool(b: bool)
    | JNum(n: int)
    | JStr(s: string)
    | JArr(items: seq<Json>)
    | JObj(fields: map<string, Json>)

  /** A plain object: its own enumerable keys and their values. */
  type Object = map<string, Json>

  /** JavaScript truthiness: `null`, `false`, `0` and `''` are falsy; arrays and objects are truthy. */
  predicate Truthy(v: Json) {
    match v
    case JNull => false
    case JBool(b) => b
    case JNum(n) => n != 0
    case JStr(s) => s != ""
    case JArr(_) => true
    case JObj(_) => true
  }

  /** `o[k]` is truthy; a missing key reads as `undefined`, which is falsy. */
  predicate TruthyAt(o: Object, k: string) {
    k in o && Truthy(o[k])
  }

  /** `Array.isArray(v)` */
  predicate IsArray(v: Json) {
    v.JArr?
  }

  /** `typeof v === 'string'` */
  predicate IsString(v: Json) {
    v.JStr?
  }

  /** `o[k]`, with `undefined` as `None`. */
  function Get(o: Object, k: string): Option<Json> {
    if k in o then Some(o[k]) else None
  }

  /** `{ ...a, ...b }`: every key of either object, the right-hand value winning on a clash. */
  function Spread(a: Object, b: Object): (r: Object)
    ensures r.Keys == a.Keys + b.Keys
    ensures forall k :: k in b ==> r[k] == b[k]
    ensures forall k :: k in a && k !in b ==> r[k] == a[k]
  {
    a + b
  }

  /** Spreading the same updates twice is the same as spreading them once. */
  lemma SpreadIdempotent(a: Object, b: Object)
    ensures Spread(Spread(a, b), b) == Spread(a, b)
  {
  }

  /** `String(n)` for a natural number: its decimal digits, no leading zeros. */
  function Decimal(n: nat): (s: string)
    ensures |s| > 0 && '0' <= s[0] <= '9'
    ensures n >= 10 ==> |s| >= 2
    decreases n
  {
    if n < 10 then [DigitChar(n)] else Decimal(n / 10) + [DigitChar(n % 10)]
  }

  /** Different numbers are written differently. */
  lemma {:induction false} DecimalInjective(a: nat, b: nat)
    requires Decimal(a) == Decimal(b)
    ensures a == b
    decreases a
  {
    if a >= 10 && b >= 10 {
      var da, db := Decimal(a), Decimal(b);
      assert da[|da| - 1] == db[|db| - 1];
      assert a % 10 == b % 10;
      assert da[..|da| - 1] == Decimal(a / 10) && db[..|db| - 1] == Decimal(b / 10);
      DecimalInjective(a / 10, b / 10);
    }
  }

  /** The own keys of an array seen as an object: each index written in decimal, holding that item. */
  function IndexObject(items: seq<Json>): (r: Object)
    ensures forall i :: 0 <= i < |items| ==> Decimal(i) in r && r[Decimal(i)] == items[i]
    ensures forall k :: k in r ==> exists i :: 0 <= i < |items| && k == Decimal(i)
  {
    forall i: nat, j: nat | Decimal(i) == Decimal(j) ensures i == j {
      DecimalInjective(i, j);
    }
    map i | 0 <= i < |items| :: Decimal(i) := items[i]
  }
}
