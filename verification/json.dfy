/**
  The JSON values that travel from the page to the consumers: the page's
  intercepted responses `{res: ..., url: ...}` and the per-panel readings
  inside `res`. An object keeps its members in the order of the Python dict
  the WebDriver bridge hands over, which is the order Python iterates them;
  keys are assumed unique, as they are in any dict.
 */
module Json {
  import opened Wrappers

  datatype Json =
    | Null
    | Bool(b: bool)
    | Number(n: real)
    | Str(s: string)
    | Array(items: seq<Json>)
    | Object(members: seq<(string, Json)>)

  /** Python `value[key]` on a value decoded from JSON. */
  function Lookup(value: Json, key: string): (r: Result<Json, PyError>)
    ensures r.Err? <==> !value.Object? || forall i :: 0 <= i < |value.members| ==> value.members[i].0 != key
    ensures r.Err? && value.Object? ==> r.error == KeyError(key)
    ensures r.Ok? ==> value.Object? && FirstWithKey(value.members, key, r.value)
  {
    if value.Object? then Member(value.members, key) else Err(TypeError)
  }

  /** The value of the first member named `key`; keys being unique, the only one. */
  function Member(members: seq<(string, Json)>, key: string): (r: Result<Json, PyError>)
    ensures r.Err? <==> forall i :: 0 <= i < |members| ==> members[i].0 != key
    ensures r.Err? ==> r.error == KeyError(key)
    ensures r.Ok? ==> FirstWithKey(members, key, r.value)
  {
    if |members| == 0 then Err(KeyError(key))
    else if members[0].0 == key then Ok(members[0].1)
    else
      var r := Member(members[1..], key);
      assert forall i :: 1 <= i < |members| ==> members[i] == members[1..][i - 1];
      r
  }

  /** The first member named `key` holds `v`. */
  predicate FirstWithKey(members: seq<(string, Json)>, key: string, v: Json)
    decreases |members|
  {
    |members| > 0 && if members[0].0 == key then members[0].1 == v else FirstWithKey(members[1..], key, v)
  }

  /** `FirstWithKey` says: `(key, v)` is a member, and no member before it has that key. */
  lemma {:induction false} FirstWithKeyAt(members: seq<(string, Json)>, key: string, v: Json)
    ensures FirstWithKey(members, key, v) <==>
      exists i :: 0 <= i < |members| && members[i] == (key, v) && forall j :: 0 <= j < i ==> members[j].0 != key
    decreases |members|
  {
    if |members| > 0 && members[0].0 != key {
      FirstWithKeyAt(members[1..], key, v);
      if FirstWithKey(members, key, v) {
        var i :| 0 <= i < |members[1..]| && members[1..][i] == (key, v)
          && forall j :: 0 <= j < i ==> members[1..][j].0 != key;
        assert members[i + 1] == (key, v);
        assert forall j :: 1 <= j < i + 1 ==> members[j] == members[1..][j - 1];
      }
      if exists i :: 0 <= i < |members| && members[i] == (key, v) && forall j :: 0 <= j < i ==> members[j].0 != key {
        var i :| 0 <= i < |members| && members[i] == (key, v) && forall j :: 0 <= j < i ==> members[j].0 != key;
        assert i > 0;
        assert members[1..][i - 1] == (key, v);
        assert forall j :: 0 <= j < i - 1 ==> members[1..][j] == members[j + 1];
      }
    } else if |members| > 0 {
      assert members[0] == (members[0].0, members[0].1);
    }
  }

  /** Python truthiness of `value and isinstance(value, dict)`: a non-empty dict. */
  predicate IsNonEmptyObject(value: Json) {
    value.Object? && |value.members| > 0
  }
}
