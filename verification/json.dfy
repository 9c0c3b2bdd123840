/** Parsed JSON values, as the front-end receives them from the inference endpoint. */
module Json {
  import opened Wrappers

  /** A parsed JSON document. Numbers keep their literal text; objects are
      dictionaries with unique keys. */
  datatype Json =
    | JNull
    | JBool(b: bool)
    | JNum(literal: string)
    | JStr(s: string)
    | JArr(items: seq<Json>)
    | JObj(fields: map<string, Json>)

  /** `fields.get(key, default)`: the value under `key`, or `default` when it is absent. */
  function Get(fields: map<string, Json>, key: string, default: Json): (r: Json)
    ensures key in fields ==> r == fields[key]
    ensures key !in fields ==> r == default
  {
    if key in fields then fields[key] else default
  }

  /** `keys[i]` is the first of `keys` present in `fields`. */
  ghost predicate FirstHit(fields: map<string, Json>, keys: seq<string>, i: int) {
    && 0 <= i < |keys|
    && keys[i] in fields
    && forall j :: 0 <= j < i ==> keys[j] !in fields
  }

  /** The value under the first of `keys` that `fields` holds, if any. */
  function FirstPresent(fields: map<string, Json>, keys: seq<string>): (r: Option<Json>)
    ensures r.None? <==> forall i :: 0 <= i < |keys| ==> keys[i] !in fields
    ensures r.Some? ==> exists i :: FirstHit(fields, keys, i) && r.value == fields[keys[i]]
  {
    if |keys| == 0 then None
    else if keys[0] in fields then
      assert FirstHit(fields, keys, 0);
      Some(fields[keys[0]])
    else
      var rest := FirstPresent(fields, keys[1..]);
      assert rest.Some? ==> exists i :: FirstHit(fields, keys, i) && rest.value == fields[keys[i]] by {
        if rest.Some? {
          var i :| FirstHit(fields, keys[1..], i) && rest.value == fields[keys[1..][i]];
          assert FirstHit(fields, keys, i + 1);
        }
      }
      assert rest.None? <==> forall i :: 0 <= i < |keys| ==> keys[i] !in fields by {
        assert forall i :: 1 <= i < |keys| ==> keys[i] == keys[1..][i - 1];
      }
      rest
  }
}
