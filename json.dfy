/**
 * The parsed JSON documents the etcd client reads, and the typed lookups
 * its JSON wrapper offers: each lookup succeeds ("is Ok") only when the
 * looked-up member exists and has the requested JSON type.
 */
module Json {
  import opened Wrappers

  datatype Json =
    | JNull
    | JBool(b: bool)
    | JInt(i: int)
    | JString(s: string)
    | JArray(items: seq<Json>)
    | JObject(fields: map<string, Json>)

  /** The member `name` of an object; fails on any other JSON value. */
  function Member(j: Json, name: string): (r: Option<Json>)
    ensures r.Some? <==> j.JObject? && name in j.fields
    ensures r.Some? ==> r.value == j.fields[name]
  {
    if j.JObject? && name in j.fields then Some(j.fields[name]) else None
  }

  /** `JsonObject(parent, name)`: the member, when it is an object. */
  function GetObject(j: Json, name: string): Option<Json>
  {
    match Member(j, name)
    case Some(JObject(f)) => Some(JObject(f))
    case _ => None
  }

  /** `JsonInt(parent, name)`. */
  function GetInt(j: Json, name: string): Option<int>
  {
    match Member(j, name)
    case Some(JInt(i)) => Some(i)
    case _ => None
  }

  /** `JsonString(parent, name)`. */
  function GetString(j: Json, name: string): Option<string>
  {
    match Member(j, name)
    case Some(JString(s)) => Some(s)
    case _ => None
  }

  /** `JsonBoolean(parent, name)`. */
  function GetBool(j: Json, name: string): Option<bool>
  {
    match Member(j, name)
    case Some(JBool(b)) => Some(b)
    case _ => None
  }

  /** `JsonArray(parent, name)`. */
  function GetArray(j: Json, name: string): Option<seq<Json>>
  {
    match Member(j, name)
    case Some(JArray(items)) => Some(items)
    case _ => None
  }

  /** `JsonObject(array, i)`: the i-th array entry, when it is an object. */
  function EntryObject(items: seq<Json>, i: nat): Option<Json>
  {
    if i < |items| && items[i].JObject? then Some(items[i]) else None
  }
}
