/**
 * Decoded JSON values as the application's `json.loads` hands them over, and
 * the `dict.get(key, default)` reads that its `from_dict` methods perform.
 */
module Json {
  import opened Wrappers

  /**
   * A decoded JSON value. `JTime` is a string that `datetime.isoformat()`
   * produced; it carries the instant it denotes (see the README on how
   * timestamps are modelled). Any other string is a `JStr`, even one that
   * `datetime.fromisoformat` would accept, so `GetTime` rejects it.
   */
  datatype Json =
    | JNull
    | JBool(b: bool)
    | JInt(i: int)
    | JStr(s: string)
    | JTime(instant: nat)
    | JArr(items: seq<Json>)
    | JObj(fields: map<string, Json>)

  /** Why reading a record failed: the Python exception it stands for. */
  datatype DecodeError =
    | MissingKey(key: string)  // KeyError on data[key]
    | WrongType(key: string)   // the value under key is not of the type the record field holds
    | BadValue(key: string)    // ValueError: not an enum value, or not an ISO-8601 timestamp

  /** Python's truth value of a decoded JSON value. */
  predicate Truthy(j: Json) {
    match j
    case JNull => false
    case JBool(b) => b
    case JInt(i) => i != 0
    case JStr(s) => s != ""
    case JTime(_) => true
    case JArr(a) => a != []
    case JObj(m) => m != map[]
  }

  /** `data.get(key, default)` for a string field. */
  function GetStr(d: map<string, Json>, key: string, default: string): (r: Result<string, DecodeError>)
    ensures key !in d ==> r == Ok(default)
    ensures key in d ==> (r.Ok? <==> d[key].JStr?)
    ensures r.Ok? && key in d ==> d[key] == JStr(r.value)
  {
    if key !in d then Ok(default)
    else match d[key]
      case JStr(s) => Ok(s)
      case _ => Err(WrongType(key))
  }

  /** `data.get(key, default)` for a boolean field. */
  function GetBool(d: map<string, Json>, key: string, default: bool): (r: Result<bool, DecodeError>)
    ensures key !in d ==> r == Ok(default)
    ensures key in d ==> (r.Ok? <==> d[key].JBool?)
    ensures r.Ok? && key in d ==> d[key] == JBool(r.value)
  {
    if key !in d then Ok(default)
    else match d[key]
      case JBool(b) => Ok(b)
      case _ => Err(WrongType(key))
  }

  /** `data.get(key)` for an optional string field: a missing key and `null` both give `None`. */
  function GetOptStr(d: map<string, Json>, key: string): (r: Result<Option<string>, DecodeError>)
    ensures key !in d || d[key] == JNull ==> r == Ok(None)
    ensures r == Ok(None) ==> key !in d || d[key] == JNull
    ensures r.Ok? && r.value.Some? ==> key in d && d[key] == JStr(r.value.value)
  {
    if key !in d then Ok(None)
    else match d[key]
      case JNull => Ok(None)
      case JStr(s) => Ok(Some(s))
      case _ => Err(WrongType(key))
  }

  /** `datetime.fromisoformat(data[key]) if data.get(key) else None`. */
  function GetTime(d: map<string, Json>, key: string): (r: Result<Option<nat>, DecodeError>)
    ensures key !in d || !Truthy(d[key]) ==> r == Ok(None)
    ensures r.Ok? && r.value.Some? ==> key in d && d[key] == JTime(r.value.value)
    ensures r.Err? ==> key in d && Truthy(d[key]) && !d[key].JTime?
  {
    if key !in d || !Truthy(d[key]) then Ok(None)
    else match d[key]
      case JTime(t) => Ok(Some(t))
      case _ => Err(BadValue(key))
  }

  /** `data.get(key, [])` for a list field. */
  function GetList(d: map<string, Json>, key: string): (r: Result<seq<Json>, DecodeError>)
    ensures key !in d ==> r == Ok([])
    ensures r.Ok? && key in d ==> d[key] == JArr(r.value)
  {
    if key !in d then Ok([])
    else match d[key]
      case JArr(a) => Ok(a)
      case _ => Err(WrongType(key))
  }

  /** A list every element of which is a JSON string, as a list of strings. */
  function StringList(a: seq<Json>, key: string): (r: Result<seq<string>, DecodeError>)
    ensures r.Ok? ==> |r.value| == |a| && forall i :: 0 <= i < |a| ==> a[i] == JStr(r.value[i])
    ensures r.Err? ==> exists i :: 0 <= i < |a| && !a[i].JStr?
  {
    if a == [] then Ok([])
    else match a[0]
      case JStr(s) =>
        var rest :- StringList(a[1..], key);
        assert forall i :: 1 <= i < |a| ==> a[i] == a[1..][i - 1];
        Ok([s] + rest)
      case _ => Err(WrongType(key))
  }

  /** The JSON list of a list of strings. */
  function StringsToJson(ss: seq<string>): (r: seq<Json>)
    ensures |r| == |ss| && forall i :: 0 <= i < |ss| ==> r[i] == JStr(ss[i])
  {
    if ss == [] then [] else [JStr(ss[0])] + StringsToJson(ss[1..])
  }

  lemma {:induction false} StringListRoundTrip(ss: seq<string>, key: string)
    ensures StringList(StringsToJson(ss), key) == Ok(ss)
  {
    if ss != [] {
      StringListRoundTrip(ss[1..], key);
      assert StringsToJson(ss)[1..] == StringsToJson(ss[1..]);
      assert ss == [ss[0]] + ss[1..];
    }
  }
}
