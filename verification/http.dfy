/** Requests and responses as the dispatcher sees them. The listener's URL
    parsing and percent-decoding happen before this point: `path` is the
    already-decoded pathname and `body` is the complete request body. */
module Http {
  import opened Wrappers

  datatype Request = Request(verb: string, path: string, body: string)

  datatype Header = Header(name: string, value: string)

  /** A response: status code, whether the three CORS headers were set, the
      `Content-Type` given to `writeHead` (None when none was given) and the
      body passed to `end`. */
  datatype Response = Response(status: int, cors: bool, contentType: Option<string>, body: string)

  const JsonType: string := "application/json; charset=utf-8"
  const PlainType: string := "text/plain; charset=utf-8"

  /** The three headers `handleAPI` sets before it looks at the request. */
  const CorsHeaders: seq<Header> := [
    Header("Access-Control-Allow-Origin", "*"),
    Header("Access-Control-Allow-Methods", "GET, POST, PUT, DELETE, OPTIONS"),
    Header("Access-Control-Allow-Headers", "Content-Type")
  ]

  /** The header lines a response carries: the CORS headers when they were
      set, followed by the content type when one was given. */
  function Headers(r: Response): (hs: seq<Header>)
    ensures r.cors ==> CorsHeaders <= hs
    ensures !r.cors ==> forall h :: h in hs ==> h.name == "Content-Type"
    ensures r.contentType.Some? ==> Header("Content-Type", r.contentType.value) in hs
    ensures r.contentType.None? ==> forall h :: h in hs ==> h.name != "Content-Type"
    ensures |hs| == (if r.cors then 3 else 0) + (if r.contentType.Some? then 1 else 0)
  {
    (if r.cors then CorsHeaders else [])
      + (match r.contentType
         case Some(t) => [Header("Content-Type", t)]
         case None => [])
  }
}
