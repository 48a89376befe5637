/** The request dispatcher: `handleAPI` and the `http.createServer` callback,
    as one pure step of a state machine whose state is the task file. */
module Router {
  import opened Wrappers
  import opened Json
  import opened Http
  import opened Storage

  const ApiPrefix: string := "/api/"
  const TasksPath: string := "/api/tasks"

  /** Error messages of the JSON error bodies, in the server's own words:
      "save failed", "malformed data" and "no such endpoint". */
  const SaveFailed: string := "\U{4FDD}\U{5B58}\U{5931}\U{8D25}"
  const BadData: string := "\U{6570}\U{636E}\U{683C}\U{5F0F}\U{9519}\U{8BEF}"
  const NoEndpoint: string := "\U{63A5}\U{53E3}\U{4E0D}\U{5B58}\U{5728}"

  /** `{success: true}` */
  const SuccessBody: Json := Obj([("success", Bool(true))])

  /** `{success: false, error: msg}` */
  function FailureBody(msg: string): Json {
    Obj([("success", Bool(false)), ("error", Str(msg))])
  }

  /** The state after one request together with the response it produced. */
  datatype Transition = Transition(disk: Disk, response: Response)

  /** A JSON response carrying the CORS headers. */
  function ApiJson(codec: Codec, status: int, v: Json): Response {
    Response(status, true, Some(JsonType), codec.stringify(v))
  }

  /** The 404 for non-API paths: plain text, no CORS headers. */
  const PlainNotFound: Response := Response(404, false, Some(PlainType), "Not Found")

  /** The request is a POST to the tasks endpoint whose body parses and whose
      write succeeds: the only request that changes the task file. */
  predicate Writes(codec: Codec, req: Request, writeOk: bool) {
    && req.path == TasksPath
    && req.verb == "POST"
    && codec.parse(req.body).Some?
    && writeOk
  }

  /** `handleAPI`: None stands for its `return false`, i.e. the request was not
      handled. Every handled response carries the CORS headers, which are set
      before anything else is inspected. */
  function HandleApi(codec: Codec, disk: Disk, req: Request, readOk: bool, writeOk: bool): (r: Option<Transition>)
    ensures r.Some? <==> req.verb == "OPTIONS" || (req.path == TasksPath && req.verb in {"GET", "POST"})
    ensures r.Some? ==> r.value.response.cors
    ensures r.Some? && !Writes(codec, req, writeOk) ==> r.value.disk == disk
  {
    if req.verb == "OPTIONS" then
      Some(Transition(disk, Response(200, true, None, "")))
    else if req.path == TasksPath && req.verb == "GET" then
      Some(Transition(disk, ApiJson(codec, 200, ReadTasks(codec, disk, readOk))))
    else if req.path == TasksPath && req.verb == "POST" then
      Some(match codec.parse(req.body)
        case None =>
          Transition(disk, ApiJson(codec, 400, FailureBody(BadData)))
        case Some(tasks) =>
          var (disk', saved) := SaveTasks(codec, disk, tasks, writeOk);
          if saved then Transition(disk', ApiJson(codec, 200, SuccessBody))
          else Transition(disk', ApiJson(codec, 500, FailureBody(SaveFailed))))
    else
      None
  }

  /** The server callback for one request; `readOk` and `writeOk` say whether
      reading and writing the task file succeed. Paths under `/api/` go to `handleAPI`, and when it
      declines, a JSON 404 that still carries the CORS headers `handleAPI`
      already set; every other path gets the plain-text 404. */
  function Step(codec: Codec, disk: Disk, req: Request, readOk: bool, writeOk: bool): (t: Transition)
    ensures t.response.cors <==> ApiPrefix <= req.path
    ensures t.response.status in {200, 400, 404, 500}
    ensures Writes(codec, req, writeOk) ==> t.disk == Some(codec.pretty(codec.parse(req.body).value))
    ensures !Writes(codec, req, writeOk) ==> t.disk == disk
  {
    if ApiPrefix <= req.path then
      match HandleApi(codec, disk, req, readOk, writeOk)
      case Some(handled) => handled
      case None => Transition(disk, ApiJson(codec, 404, FailureBody(NoEndpoint)))
    else
      Transition(disk, PlainNotFound)
  }
}
