/**
 * Parsed JSON request bodies as the route handlers see them: a value, its
 * JavaScript truthiness, property lookup (absent is `undefined`), and the
 * string a value turns into inside a template literal or `join`. Numbers are
 * integers here.
 */
module Json {

  import opened Wrappers
  import opened Text

  datatype Json =
    | JNull
    | JBool(b: bool)
    | JNum(n: int)
    | JStr(s: string)
    | JArray(items: seq<Json>)
    | JObject(fields: seq<(string, Json)>)

  /** `!!v` for a present value. Arrays and objects are truthy even when empty. */
  predicate Truthy(v: Json) {
    match v
    case JNull => false
    case JBool(b) => b
    case JNum(n) => n != 0
    case JStr(s) => s != ""
    case JArray(_) => true
    case JObject(_) => true
  }

  /** `!!v` for a possibly absent value; `undefined` is falsy. */
  predicate Present(v: Option<Json>) {
    v.Some? && Truthy(v.value)
  }

  /** The last value stored under `name` in a field list (`JSON.parse` keeps the last duplicate). */
  function LastField(fields: seq<(string, Json)>, name: string): (r: Option<Json>)
    ensures r.None? <==> forall i :: 0 <= i < |fields| ==> fields[i].0 != name
    ensures r.Some? ==> exists i :: 0 <= i < |fields| && fields[i] == (name, r.value)
                          && forall j :: i < j < |fields| ==> fields[j].0 != name
    decreases |fields|
  {
    if |fields| == 0 then None
    else if fields[|fields| - 1].0 == name then Some(fields[|fields| - 1].1)
    else
      var init := fields[..|fields| - 1];
      var r := LastField(init, name);
      assert r.Some? ==> exists i :: 0 <= i < |fields| && fields[i] == (name, r.value)
                            && forall j :: i < j < |fields| ==> fields[j].0 != name by {
        if r.Some? {
          var i :| 0 <= i < |init| && init[i] == (name, r.value)
                   && forall j :: i < j < |init| ==> init[j].0 != name;
          assert fields[i] == (name, r.value);
          assert forall j :: i < j < |fields| - 1 ==> fields[j] == init[j];
        }
      }
      r
  }

  /**
   * `v.name` on a value that is not null: objects look the field up, other
   * values have none of the fields the handlers read.
   */
  function Field(v: Json, name: string): (r: Option<Json>)
    ensures !v.JObject? ==> r.None?
  {
    if v.JObject? then LastField(v.fields, name) else None
  }

  /** An object with distinct field names reads each field back. */
  lemma FieldOfObject(fields: seq<(string, Json)>, k: nat)
    requires k < |fields|
    requires forall i, j :: 0 <= i < j < |fields| ==> fields[i].0 != fields[j].0
    ensures Field(JObject(fields), fields[k].0) == Some(fields[k].1)
  {
    var r := LastField(fields, fields[k].0);
    var i :| 0 <= i < |fields| && fields[i] == (fields[k].0, r.value)
             && forall j :: i < j < |fields| ==> fields[j].0 != fields[k].0;
    assert i == k;
  }

  /** A field no later entry repeats is the one read back. */
  lemma FieldNotRepeated(fields: seq<(string, Json)>, k: nat)
    requires k < |fields|
    requires forall j :: k < j < |fields| ==> fields[j].0 != fields[k].0
    ensures Field(JObject(fields), fields[k].0) == Some(fields[k].1)
  {
    var r := LastField(fields, fields[k].0);
    var i :| 0 <= i < |fields| && fields[i] == (fields[k].0, r.value)
             && forall j :: i < j < |fields| ==> fields[j].0 != fields[k].0;
    assert i == k;
  }

  /** `String(v)`: what a value becomes in a template literal or a `join`. */
  function ToJsString(v: Json): (s: string)
    ensures v.JStr? ==> s == v.s
    decreases v, 1
  {
    match v
    case JNull => "null"
    case JBool(b) => if b then "true" else "false"
    case JNum(n) => IntToString(n)
    case JStr(s) => s
    case JArray(items) => Join(ItemStrings(v, items), ",")
    case JObject(_) => "[object Object]"
  }

  /** The strings of an array's items as `join` sees them: null items become empty. */
  function ItemStrings(whole: Json, items: seq<Json>): (parts: seq<string>)
    requires forall i :: 0 <= i < |items| ==> items[i] < whole
    ensures |parts| == |items|
    decreases whole, 0, |items|
  {
    if |items| == 0 then []
    else [if items[0].JNull? then "" else ToJsString(items[0])] + ItemStrings(whole, items[1..])
  }

  /** `String(v)` of a truthy string, number or boolean is never empty. */
  lemma ToJsStringOfTruthyScalar(v: Json)
    requires Truthy(v) && !v.JArray? && !v.JObject?
    ensures ToJsString(v) != ""
  {
  }
}
