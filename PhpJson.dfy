/**
  A decoded JSON document as PHP holds it after `json_decode($body, true)`:
  objects and lists both become PHP arrays. This module gives the reads the
  client performs on such a value: truthiness (`!$data`), offsets read under
  `isset` / `??`, and `array_keys`.
 */
module PhpJson {

  import opened Wrappers
  import opened PhpStrings

  /** A decoded document. `JFloat(m, e)` is the number m * 10^e; objects keep
      their members in document order. */
  datatype Json =
    | JNull
    | JBool(b: bool)
    | JNum(n: int)
    | JFloat(mantissa: int, exponent: int)
    | JStr(s: string)
    | JArr(items: seq<Json>)
    | JObj(fields: seq<(string, Json)>)

  /** The values PHP converts to `false`, apart from the float zeros. */
  const FalsyValues: set<Json> := {JNull, JBool(false), JNum(0), JStr(""), JStr("0"), JArr([]), JObj([])}

  /** PHP's conversion to boolean: null, false, zero, `""`, `"0"` and the empty
      array are false; everything else is true. */
  predicate Truthy(v: Json)
    ensures !Truthy(v) <==> v in FalsyValues || (v.JFloat? && v.mantissa == 0)
  {
    match v
    case JNull => false
    case JBool(b) => b
    case JNum(n) => n != 0
    case JFloat(m, _) => m != 0
    case JStr(s) => s != "" && s != "0"
    case JArr(items) => |items| > 0
    case JObj(fields) => |fields| > 0
  }

  /** The member names of an object, in order. */
  function Names(fields: seq<(string, Json)>): (ns: seq<string>)
    ensures |ns| == |fields|
    ensures forall i :: 0 <= i < |fields| ==> ns[i] == fields[i].0
  {
    seq(|fields|, i requires 0 <= i < |fields| => fields[i].0)
  }

  /** No member name occurs twice, as in every object `json_decode` produces. */
  predicate UniqueKeys(fields: seq<(string, Json)>)
  {
    forall i, j :: 0 <= i < j < |fields| ==> fields[i].0 != fields[j].0
  }

  /** The value stored under member name `k`, if there is one. */
  function FindField(fields: seq<(string, Json)>, k: string): (r: Option<Json>)
    ensures r.None? <==> k !in Names(fields)
    ensures r.Some? ==> (k, r.value) in fields
  {
    if |fields| == 0 then None
    else if fields[0].0 == k then Some(fields[0].1)
    else
      var r := FindField(fields[1..], k);
      assert Names(fields) == [fields[0].0] + Names(fields[1..]);
      r
  }

  /** In an object with unique names, each member is found under its own name. */
  lemma {:induction false} FindFieldAt(fields: seq<(string, Json)>, i: nat)
    requires UniqueKeys(fields) && i < |fields|
    ensures FindField(fields, fields[i].0) == Some(fields[i].1)
    decreases i
  {
    if i > 0 {
      assert fields[1..][i - 1] == fields[i];
      assert fields[0].0 != fields[i].0;
      FindFieldAt(fields[1..], i - 1);
    }
  }

  /** `$v[$k]` as read inside `isset` or before `??`: the element stored under
      key `k` when `v` is an array holding that key, `None` otherwise (a scalar
      or null has no elements). A list holds the keys `"0"` .. `"n-1"`, because
      PHP reads a canonical decimal string as an integer key. */
  function Offset(v: Json, k: string): (r: Option<Json>)
    ensures r.Some? ==> v.JArr? || v.JObj?
    ensures r.Some? && v.JObj? ==> (k, r.value) in v.fields
    ensures r.Some? && v.JArr? ==> r.value in v.items
  {
    match v
    case JObj(fields) => FindField(fields, k)
    case JArr(items) =>
      (match IntKey(k)
       case Some(i) => if 0 <= i < |items| then Some(items[i]) else None
       case None => None)
    case _ => None
  }

  /** A list's elements are at exactly the decimal strings of their indices. */
  lemma OffsetInList(items: seq<Json>, k: string)
    requires |items| <= MaxInt
    ensures Offset(JArr(items), k).Some? <==> exists j :: 0 <= j < |items| && k == IntToString(j)
    ensures forall j :: 0 <= j < |items| && k == IntToString(j) ==> Offset(JArr(items), k) == Some(items[j])
  {
    if Offset(JArr(items), k).Some? {
      var j := IntKey(k).value;
      IntKeyIff(k, j);
    }
    forall j | 0 <= j < |items| && k == IntToString(j) ensures Offset(JArr(items), k).Some? {
      IntKeyIff(k, j);
    }
  }

  /** `$v[p0][p1]...` under `isset` / `??`: the value at the end of the path when
      every step exists and that value is not null, `None` otherwise. */
  function Get(v: Json, path: seq<string>): (r: Option<Json>)
    ensures r.Some? ==> r.value != JNull
    ensures |path| == 0 ==> (r.None? <==> v == JNull)
    decreases |path|
  {
    if |path| == 0 then (if v == JNull then None else Some(v))
    else
      match Offset(v, path[0])
      case None => None
      case Some(c) => Get(c, path[1..])
  }

  /** `$v[p0][p1]... ?? default`. */
  function Coalesce(v: Json, path: seq<string>, default: Json): (r: Json)
    ensures Get(v, path).None? ==> r == default
    ensures Get(v, path).Some? ==> r == Get(v, path).value
    ensures r == JNull ==> default == JNull
  {
    Get(v, path).GetOr(default)
  }

  /** A one-step path reads one element and treats a null element as absent. */
  lemma GetOne(v: Json, k: string)
    ensures Get(v, [k]) == if Offset(v, k) == Some(JNull) then None else Offset(v, k)
  {
    assert [k][1..] == [];
  }

  /** A longer path reads one element and continues from there. */
  lemma GetStep(v: Json, k: string, rest: seq<string>)
    ensures Get(v, [k] + rest) == match Offset(v, k) case None => None case Some(c) => Get(c, rest)
  {
    assert ([k] + rest)[1..] == rest;
  }

  /** The key PHP stores for member name `k`: an integer for a canonical
      decimal integer string, the string itself otherwise. */
  function KeyValue(k: string): (r: Json)
    ensures r.JNum? || r.JStr?
    ensures r.JNum? ==> IntToString(r.n) == k
    ensures r.JStr? ==> r.s == k && IntKey(k).None?
  {
    match IntKey(k)
    case Some(n) => JNum(n)
    case None => JStr(k)
  }

  /** Distinct member names stay distinct as PHP keys. */
  lemma KeyValueInjective(a: string, b: string)
    requires KeyValue(a) == KeyValue(b)
    ensures a == b
  {
    match IntKey(a)
    case Some(n) =>
      IntKeyIff(a, n);
      IntKeyIff(b, n);
    case None =>
  }

  /** `array_keys($v)`: the keys of an array in order, `None` when `v` is not an
      array (PHP raises a TypeError). */
  function ArrayKeys(v: Json): (r: Option<seq<Json>>)
    ensures r.Some? <==> v.JArr? || v.JObj?
    ensures v.JArr? ==> |r.value| == |v.items| && forall i :: 0 <= i < |v.items| ==> r.value[i] == JNum(i)
    ensures v.JObj? ==> |r.value| == |v.fields| && forall i :: 0 <= i < |v.fields| ==> r.value[i] == KeyValue(v.fields[i].0)
  {
    match v
    case JArr(items) => Some(seq(|items|, i requires 0 <= i < |items| => JNum(i)))
    case JObj(fields) => Some(seq(|fields|, i requires 0 <= i < |fields| => KeyValue(fields[i].0)))
    case _ => None
  }

  /** Every key that `Offset` finds is listed by `array_keys`. */
  lemma OffsetKeyListed(v: Json, k: string)
    requires Offset(v, k).Some?
    ensures ArrayKeys(v).Some? && KeyValue(k) in ArrayKeys(v).value
  {
    if v.JArr? {
      var i := IntKey(k).value;
      assert ArrayKeys(v).value[i] == JNum(i);
    } else {
      var fields := v.fields;
      var i :| 0 <= i < |fields| && Names(fields)[i] == k;
      assert ArrayKeys(v).value[i] == KeyValue(k);
    }
  }

  /** Every key `array_keys` lists for an object leads to a member. */
  lemma ListedKeysFound(fields: seq<(string, Json)>, i: nat)
    requires i < |fields|
    ensures Offset(JObj(fields), fields[i].0).Some?
  {
    assert Names(fields)[i] == fields[i].0;
  }

  /** An object with unique names has no key listed twice. */
  lemma ArrayKeysDistinct(fields: seq<(string, Json)>)
    requires UniqueKeys(fields)
    ensures forall i, j :: 0 <= i < j < |fields| ==> ArrayKeys(JObj(fields)).value[i] != ArrayKeys(JObj(fields)).value[j]
  {
    var ks := ArrayKeys(JObj(fields)).value;
    forall i, j | 0 <= i < j < |fields| ensures ks[i] != ks[j] {
      if ks[i] == ks[j] {
        KeyValueInjective(fields[i].0, fields[j].0);
      }
    }
  }

  /** `$a[k] = x` on an object's members: replaces the member in place when the
      name exists, appends it otherwise. Used to state what a read depends on. */
  function Assign(fields: seq<(string, Json)>, k: string, x: Json): (r: seq<(string, Json)>)
    ensures |r| > 0
  {
    if |fields| == 0 then [(k, x)]
    else if fields[0].0 == k then [(k, x)] + fields[1..]
    else [fields[0]] + Assign(fields[1..], k, x)
  }

  /** After an assignment, the name assigned reads the new value and every other
      name reads what it read before. */
  lemma {:induction false} FindFieldAssign(fields: seq<(string, Json)>, k: string, x: Json, k': string)
    ensures FindField(Assign(fields, k, x), k') == if k' == k then Some(x) else FindField(fields, k')
    decreases |fields|
  {
    if |fields| > 0 && fields[0].0 != k {
      FindFieldAssign(fields[1..], k, x, k');
      assert ([fields[0]] + Assign(fields[1..], k, x))[1..] == Assign(fields[1..], k, x);
    } else if |fields| > 0 {
      assert ([(k, x)] + fields[1..])[1..] == fields[1..];
    }
  }
}
