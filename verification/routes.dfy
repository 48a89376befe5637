/** One lemma per row of the dispatcher's decision table: what each kind of
    request gets back and what it does to the task file. */
module Routes {
  import opened Wrappers
  import opened Json
  import opened Http
  import opened Storage
  import opened Router

  /** Any method on a path outside `/api/` gets the plain-text 404 without CORS
      headers, and the task file is not touched. */
  lemma NonApiPathNotFound(codec: Codec, disk: Disk, req: Request, readOk: bool, writeOk: bool)
    requires !(ApiPrefix <= req.path)
    ensures Step(codec, disk, req, readOk, writeOk) == Transition(disk, PlainNotFound)
    ensures Headers(PlainNotFound) == [Header("Content-Type", PlainType)]
  {
  }

  /** A preflight is only answered under `/api/`: `OPTIONS /api` (no trailing
      slash) and `OPTIONS /index.html` both get the plain-text 404. */
  lemma OptionsOutsideApiNotFound(codec: Codec, disk: Disk, body: string, readOk: bool, writeOk: bool)
    ensures Step(codec, disk, Request("OPTIONS", "/api", body), readOk, writeOk).response == PlainNotFound
    ensures Step(codec, disk, Request("OPTIONS", "/index.html", body), readOk, writeOk).response == PlainNotFound
  {
    assert "/index.html"[1] != ApiPrefix[1];
  }

  /** `OPTIONS` on any path under `/api/`, known or not, is answered 200 with an
      empty body, the CORS headers and no content type; the file is not touched. */
  lemma PreflightAnswered(codec: Codec, disk: Disk, req: Request, readOk: bool, writeOk: bool)
    requires ApiPrefix <= req.path && req.verb == "OPTIONS"
    ensures Step(codec, disk, req, readOk, writeOk) == Transition(disk, Response(200, true, None, ""))
    ensures Headers(Step(codec, disk, req, readOk, writeOk).response) == CorsHeaders
  {
  }

  /** `GET /api/tasks` answers 200 JSON with the serialisation of whatever
      `readTasks` yields for the current file, and leaves the file as it was. */
  lemma GetServesStore(codec: Codec, disk: Disk, body: string, readOk: bool, writeOk: bool)
    ensures Step(codec, disk, Request("GET", TasksPath, body), readOk, writeOk)
         == Transition(disk, Response(200, true, Some(JsonType), codec.stringify(ReadTasks(codec, disk, readOk))))
  {
  }

  /** A GET whose read fails is answered exactly as a GET on a missing file:
      200 with `{}`. The client cannot tell a failed read from an empty
      collection. */
  lemma GetReadFailureLooksEmpty(codec: Codec, disk: Disk, body: string, writeOk: bool)
    ensures Step(codec, disk, Request("GET", TasksPath, body), false, writeOk).response
         == Step(codec, None, Request("GET", TasksPath, body), true, writeOk).response
    ensures Step(codec, disk, Request("GET", TasksPath, body), false, writeOk).response
         == Response(200, true, Some(JsonType), codec.stringify(EmptyObject))
  {
  }

  /** A POST whose body parses to `v` and whose write succeeds makes the file
      exactly the indented serialisation of `v` and answers `{success: true}`. */
  lemma PostStoresParsedValue(codec: Codec, disk: Disk, body: string, v: Json, readOk: bool)
    requires codec.parse(body) == Some(v)
    ensures Step(codec, disk, Request("POST", TasksPath, body), readOk, true)
         == Transition(Some(codec.pretty(v)), ApiJson(codec, 200, SuccessBody))
  {
  }

  /** No merge: what a successful POST leaves in the file does not depend on
      what was there before. */
  lemma PostIgnoresPriorStore(codec: Codec, disk1: Disk, disk2: Disk, body: string, readOk: bool)
    requires codec.parse(body).Some?
    ensures Step(codec, disk1, Request("POST", TasksPath, body), readOk, true)
         == Step(codec, disk2, Request("POST", TasksPath, body), readOk, true)
  {
  }

  /** A POST body that does not parse is answered 400 with the malformed-data
      message, and nothing is written whatever the write would have done. */
  lemma PostMalformedRejected(codec: Codec, disk: Disk, body: string, readOk: bool, writeOk: bool)
    requires codec.parse(body).None?
    ensures Step(codec, disk, Request("POST", TasksPath, body), readOk, writeOk)
         == Transition(disk, ApiJson(codec, 400, FailureBody(BadData)))
  {
  }

  /** A POST body that parses but whose write fails is answered 500 with the
      save-failed message. */
  lemma PostSaveFails(codec: Codec, disk: Disk, body: string, readOk: bool)
    requires codec.parse(body).Some?
    ensures Step(codec, disk, Request("POST", TasksPath, body), readOk, false)
         == Transition(disk, ApiJson(codec, 500, FailureBody(SaveFailed)))
  {
  }

  /** Every other request under `/api/` gets the JSON 404 with the
      no-such-endpoint message, still with the CORS headers, and the file is
      not touched. */
  lemma UnmatchedApiNotFound(codec: Codec, disk: Disk, req: Request, readOk: bool, writeOk: bool)
    requires ApiPrefix <= req.path
    requires req.verb != "OPTIONS"
    requires !(req.path == TasksPath && req.verb in {"GET", "POST"})
    ensures Step(codec, disk, req, readOk, writeOk) == Transition(disk, ApiJson(codec, 404, FailureBody(NoEndpoint)))
    ensures CorsHeaders <= Headers(Step(codec, disk, req, readOk, writeOk).response)
  {
  }

  /** Instances of the JSON 404: other methods on the tasks path, unknown
      endpoints, and the tasks path with a trailing slash. */
  lemma UnmatchedApiExamples(codec: Codec, disk: Disk, body: string, readOk: bool, writeOk: bool)
    ensures Step(codec, disk, Request("PUT", TasksPath, body), readOk, writeOk).response.status == 404
    ensures Step(codec, disk, Request("DELETE", TasksPath, body), readOk, writeOk).response.status == 404
    ensures Step(codec, disk, Request("GET", "/api/foo", body), readOk, writeOk).response.status == 404
    ensures Step(codec, disk, Request("GET", "/api/tasks/", body), readOk, writeOk)
         == Transition(disk, ApiJson(codec, 404, FailureBody(NoEndpoint)))
  {
  }

  /** A request changes the file exactly when it is a successful POST whose
      indented serialisation differs from the text already there. */
  lemma OnlyWritesChangeStore(codec: Codec, disk: Disk, req: Request, readOk: bool, writeOk: bool)
    ensures Step(codec, disk, req, readOk, writeOk).disk != disk
        <==> Writes(codec, req, writeOk) && Some(codec.pretty(codec.parse(req.body).value)) != disk
  {
  }
}
