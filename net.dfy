/** The outside world as the probing code sees it: HTTPS GETs that yield decoded
    JSON or fail, and DNS SRV lookups that yield records or fail. Any exception the
    script catches (timeout, refused connection, TLS error, undecodable body,
    NXDOMAIN) is a `None` here. */
module Net {
  import opened Wrappers

  /** A decoded JSON body, reduced to what the script inspects: strings and objects;
      numbers, booleans, null and arrays are all `Other`. */
  datatype Json = Str(text: string) | Obj(fields: map<string, Json>) | Other

  /** One HTTP request header. */
  datatype Header = Header(name: string, value: string)

  /** One answer to an SRV query, as the resolver returns it. */
  datatype SrvRecord = SrvRecord(host: string, port: nat)

  /** `fetch(session, url, headers)` and `resolver.query(name, 'SRV')`. */
  datatype Network = Network(
    fetch: (string, Option<Header>) -> Option<Json>,
    querySrv: string -> Option<seq<SrvRecord>>)

  /** Python's `j[key]` on a decoded body: only an object has keys, and a missing
      key raises. */
  function Member(j: Json, key: string): (r: Option<Json>)
    ensures r.Some? <==> j.Obj? && key in j.fields
  {
    if j.Obj? && key in j.fields then Some(j.fields[key]) else None
  }

  /** `j[key]` when the value found there must be a string. */
  function StringMember(j: Json, key: string): (r: Option<string>)
    ensures r.Some? <==> j.Obj? && key in j.fields && j.fields[key].Str?
  {
    match Member(j, key)
    case Some(Str(s)) => Some(s)
    case _ => None
  }
}
