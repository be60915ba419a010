/** JSON documents as the handlers receive them from the upstream client once the
    body has been decoded, together with the few pieces of Python semantics the
    handlers rely on when they pick those documents apart: truthiness, `x[key]`
    and `x[:n]`. */
module Json {

  datatype Option<+T> = None | Some(value: T)

  /** A decoded JSON value. Numbers are integral (no upstream field the handlers
      read is fractional); objects are maps, since key order never shows in a
      response of this model. */
  datatype Json =
    | JNull
    | JBool(b: bool)
    | JNum(n: int)
    | JStr(s: string)
    | JArr(items: seq<Json>)
    | JObj(fields: map<string, Json>)

  function Min(a: int, b: int): int { if a <= b then a else b }

  /** Python's truth value of a decoded value: `None`, `False`, `0`, `""`, `[]`
      and `{}` are false, everything else is true. */
  predicate Truthy(j: Json) {
    match j
    case JNull => false
    case JBool(b) => b
    case JNum(n) => n != 0
    case JStr(s) => s != ""
    case JArr(a) => a != []
    case JObj(m) => m != map[]
  }

  /** `j[key]` with a string key: only an object holding `key` answers; any other
      value raises (KeyError on an object without the key, TypeError otherwise),
      which is `None` here. */
  function Get(j: Json, key: string): Option<Json> {
    if j.JObj? && key in j.fields then Some(j.fields[key]) else None
  }

  /** The value reached from `j` by subscripting with each key of `path` in turn. */
  function Lookup(j: Json, path: seq<string>): (r: Option<Json>)
    decreases |path|
  {
    if path == [] then Some(j)
    else match Get(j, path[0])
      case None => None
      case Some(child) => Lookup(child, path[1..])
  }

  /** `j[:n]` for n >= 0: strings and arrays are cut to their first n elements,
      every other value raises TypeError (`None`). */
  function Prefix(j: Json, n: nat): (r: Option<Json>)
    ensures r.Some? <==> j.JStr? || j.JArr?
    ensures j.JStr? ==> r.value.JStr? && r.value.s <= j.s && |r.value.s| == Min(n, |j.s|)
    ensures j.JArr? ==> r.value.JArr? && r.value.items <= j.items && |r.value.items| == Min(n, |j.items|)
  {
    match j
    case JStr(s) => Some(JStr(if |s| <= n then s else s[..n]))
    case JArr(a) => Some(JArr(if |a| <= n then a else a[..n]))
    case _ => None
  }

  lemma LookupOne(j: Json, k: string)
    ensures Lookup(j, [k]) == Get(j, k)
  {
    assert [k][1..] == [];
    match Get(j, k)
    case None =>
    case Some(c) => assert Lookup(c, []) == Some(c);
  }

  /** Subscripting one key at a time agrees with looking up the two-key path. */
  lemma LookupTwo(j: Json, k1: string, k2: string)
    ensures Lookup(j, [k1, k2]) ==
      (match Get(j, k1) case None => None case Some(c) => Get(c, k2))
  {
    if Get(j, k1).Some? {
      var c := Get(j, k1).value;
      assert [k1, k2][1..] == [k2];
      assert [k2][1..] == [];
      assert Lookup(j, [k1, k2]) == Lookup(c, [k2]);
      match Get(c, k2)
      case None =>
      case Some(d) => assert Lookup(c, [k2]) == Lookup(d, []);
    }
  }

  lemma LookupThree(j: Json, k1: string, k2: string, k3: string)
    ensures Lookup(j, [k1, k2, k3]) ==
      (match Get(j, k1) case None => None case Some(c) => Lookup(c, [k2, k3]))
  {
    assert [k1, k2, k3][1..] == [k2, k3];
  }
}
