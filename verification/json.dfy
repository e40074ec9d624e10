/** An already-parsed JSON value, the input of the importer and of the
    persisted-layout shape check (`JSON.parse` itself is not modelled). */
module Json {
  import opened Wrappers

  datatype Json =
    | JNull
    | JBool(b: bool)
    | JNum(n: real)
    | JStr(s: string)
    | JArr(items: seq<Json>)
    | JObj(fields: map<string, Json>)

  /** `typeof obj[name] === 'number'`, giving the number. */
  function NumberField(fields: map<string, Json>, name: string): (r: Option<real>)
    ensures r.Some? <==> name in fields && fields[name].JNum?
    ensures r.Some? ==> fields[name] == JNum(r.value)
  {
    if name in fields && fields[name].JNum? then Some(fields[name].n) else None
  }

  /** A truthy string property: present, a string, and not empty. */
  function NonEmptyStringField(fields: map<string, Json>, name: string): (r: Option<string>)
    ensures r.Some? <==> name in fields && fields[name].JStr? && fields[name].s != []
    ensures r.Some? ==> fields[name] == JStr(r.value)
  {
    if name in fields && fields[name].JStr? && fields[name].s != [] then Some(fields[name].s) else None
  }
}
