/** Request headers, shared by the address lookup and the request proxy. */
module HttpHeaders {
  import opened Wrappers

  /** Header values by lower-case name; `Headers.get` answers `null` for a missing name. */
  type Headers = map<string, string>

  function Get(h: Headers, name: string): (r: Option<string>)
    ensures r.Some? <==> name in h
    ensures r.Some? ==> r.value == h[name]
  {
    if name in h then Some(h[name]) else None
  }
}
