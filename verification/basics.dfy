/** Values shared by every part of the model: optional values, results that
    carry an error message in place of a raised exception, and the JSON values
    that flow through the adapter, the agent and the router. */
module Basics {

  datatype Option<T> = None | Some(value: T) {
    function GetOr(default: T): T {
      match this
      case Some(v) => v
      case None => default
    }
  }

  /** A computation that either returns a value or raises; `error` is the
      text of the raised exception. */
  datatype Result<T, E> = Success(value: T) | Failure(error: E)

  /** A decoded JSON value. Objects keep their members in document order,
      as a Python dict built by json.loads does. */
  datatype Json =
    | JNull
    | JBool(b: bool)
    | JNum(n: int)
    | JStr(s: string)
    | JArr(items: seq<Json>)
    | JObj(fields: seq<(string, Json)>)

  /** Python truthiness of a decoded JSON value (`if v:`). */
  predicate Truthy(j: Json) {
    match j
    case JNull => false
    case JBool(b) => b
    case JNum(n) => n != 0
    case JStr(s) => s != ""
    case JArr(items) => items != []
    case JObj(fields) => fields != []
  }

  /** Python truthiness of an optional string (`None` and `""` are falsy). */
  predicate Present(s: Option<string>) {
    s.Some? && s.value != ""
  }

  predicate HasKey<V>(fields: seq<(string, V)>, key: string) {
    exists i :: 0 <= i < |fields| && fields[i].0 == key
  }

  /** No key occurs twice, as in a Python dict. */
  predicate UniqueKeys<V>(fields: seq<(string, V)>) {
    forall i, j :: 0 <= i < j < |fields| ==> fields[i].0 != fields[j].0
  }

  /** `d.get(key)` on a dict read from an ordered list of members: when a key
      is repeated the last value wins, as json.loads keeps it. */
  function Get<V>(fields: seq<(string, V)>, key: string): (r: Option<V>)
    ensures r.Some? <==> HasKey(fields, key)
    ensures r.Some? ==> exists i :: 0 <= i < |fields| && fields[i] == (key, r.value)
                                    && forall m :: i < m < |fields| ==> fields[m].0 != key
    decreases |fields|
  {
    if |fields| == 0 then None
    else if fields[|fields| - 1].0 == key then Some(fields[|fields| - 1].1)
    else
      var r := Get(fields[..|fields| - 1], key);
      assert forall i :: 0 <= i < |fields| - 1 ==> fields[..|fields| - 1][i] == fields[i];
      r
  }
}
