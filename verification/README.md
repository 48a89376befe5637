# Task-list API server: dispatcher and task store

A model of the showcase backend's single-file Node.js server (`server.js`), which keeps one
JSON document, the task collection, in `data/tasks.json` and serves it over a two-route HTTP
API. The model treats the server as a sequential state machine. Its state is the contents of
the task file, or nothing when the file does not exist. One step takes a request (method,
already-decoded pathname, complete body) and two flags: whether reading the file would
succeed and whether writing it would succeed. It returns the new file contents and the
response: status, whether the three CORS headers are present, the content type, and the body.

The JavaScript `JSON` calls (`JSON.parse`, `JSON.stringify(x)`, `JSON.stringify(x, null, 2)`)
are the three fields of a `Codec` value passed to every operation. Nothing is assumed about
them. Where a property needs the parser to read back the server's own output (the GET after
POST round trip), the lemma takes that fact as a `requires` about the one value involved.

Modules:
- `Wrappers`: `Option`, which stands for "a value, or the call threw".
- `Json`: the abstract JSON value, the `Codec`, and `{}`.
- `Storage`: startup initialisation, `readTasks`, `saveTasks`.
- `Http`: requests, responses, the CORS header constants.
- `Router`: `handleAPI` and the `http.createServer` callback as `Step`.
- `Routes`: one lemma per row of the routing table.
- `Session`: sequences of requests, with the whole-replacement, read-only, round-trip and
  cold-start properties.

Two details of the routing are easy to miss:
- `OPTIONS` is answered only under `/api/`. `OPTIONS /api` and `OPTIONS /index.html` get the
  plain-text 404.
- CORS headers are set only on responses to `/api/` paths. They include the JSON 404, because
  `handleAPI` sets them before it declines.

## Model

| member | source | states |
|---|---|---|
| Storage.Initialize | server.js:14-16 | A missing task file is created holding the compact serialisation of `{}`. An existing file is kept unchanged, even one that cannot be read. |
| Storage.ReadTasks | server.js:19-25 | Reading yields the parsed file when the file exists, the read succeeds and the text parses. A missing file, a failed read or text that fails to parse yields `{}` instead of an error. |
| Storage.SaveTasks | server.js:28-35 | A successful write replaces the whole file with the indented serialisation of the value and reports true. A failed write reports false and leaves the file as it was. |
| Http.Headers | server.js:41-43 | A response with CORS carries the three fixed CORS headers. A response without CORS carries at most a `Content-Type` header. The content type appears exactly when one was given. |
| Router.HandleApi | server.js:39-80 | `handleAPI` handles a request exactly when it is `OPTIONS` or a GET/POST to `/api/tasks`. Every handled response carries CORS. Only a write changes the file. |
| Router.Step | server.js:83-99 | CORS is present exactly when the path starts with `/api/`. The status is one of 200/400/404/500. The file becomes the indented text of the parsed body when `Writes` holds. Otherwise it is unchanged. |
| Routes.NonApiPathNotFound | server.js:96-98 | Any method on a path outside `/api/` gets 404 `text/plain` with body `Not Found` and no CORS headers. The file is unchanged. |
| Routes.OptionsOutsideApiNotFound | server.js:87-98 | `OPTIONS /api` (no trailing slash) and `OPTIONS /index.html` get the plain-text 404, not a preflight answer. |
| Routes.PreflightAnswered | server.js:45-49 | `OPTIONS` on any `/api/` path gets 200 with an empty body. This includes unknown paths. The response has only the CORS headers and the file is unchanged. |
| Routes.GetServesStore | server.js:51-56 | `GET /api/tasks` gets 200 JSON whose body is the serialisation of what `readTasks` yields. The file is unchanged. |
| Routes.GetReadFailureLooksEmpty | server.js:19-25 | A GET whose read fails gets the same 200 `{}` response as a GET on a missing file. A failed read cannot be told apart from an empty collection. |
| Routes.PostStoresParsedValue | server.js:58-66 | A POST whose body parses to `v` and whose write succeeds leaves exactly the indented text of `v` in the file. It answers 200 `{success:true}`. |
| Routes.PostIgnoresPriorStore | server.js:28-31 | No merge: the file after a successful POST and the response do not depend on the previous file. |
| Routes.PostMalformedRejected | server.js:71-74 | An unparsable POST body gets 400 with the malformed-data message. Nothing is written, whatever the write flag says. |
| Routes.PostSaveFails | server.js:67-70 | A parsable body whose write fails gets 500 with the save-failed message. |
| Routes.UnmatchedApiNotFound | server.js:88-93 | Any other `/api/` request gets the JSON 404 with the no-such-endpoint message. It still carries the CORS headers and the file is unchanged. |
| Routes.UnmatchedApiExamples | server.js:51-58 | PUT and DELETE on `/api/tasks` and GET on `/api/foo` get 404. GET on `/api/tasks/` (trailing slash) gets the JSON 404 with the no-such-endpoint message and an unchanged file. |
| Routes.OnlyWritesChangeStore | server.js:58-66 | A request changes the file exactly when it is a POST to `/api/tasks` whose body parses, whose write succeeds, and whose indented serialisation differs from the current text. |
| Session.RunLeavesLastWritten | server.js:62-64 | After any sequence of requests, the file is the indented text of the last successfully written POST body. If there was none, it is the starting file. |
| Session.FreshStartSelfWritten | server.js:14-16 | Startup on a missing file leaves text the server wrote itself. |
| Session.RunKeepsSelfWritten | server.js:62-64 | The file only ever holds server-written text: the startup `{}` or a serialised parsed value. It never holds a client's unparsed body. |
| Session.ReadOnlyRunAnswersFromStart | server.js:51-56 | A sequence with no successful POST leaves the file unchanged. Each request is answered as it would be against the starting file. |
| Session.GetsAgreeWithoutWrites | server.js:51-56 | GET is idempotent: two GETs of the collection with no successful POST between them get identical responses. Earlier writes are allowed. This needs both reads to have the same outcome. |
| Session.GetReturnsLastPosted | server.js:51-66 | Round trip: after any sequence, a GET whose read succeeds answers with the last posted value `v`. This holds when the parser reads the server's indented text of `v` back as `v`. |
| Session.ColdStartServesEmpty | server.js:14-25 | On a fresh deployment the first GET answers `{}`, whether or not its read succeeds. This holds unless the parser misreads the startup text as some other value. |
| Session.SecondPostReplacesFirst | server.js:58-66 | POST `a`, then POST `b`, then GET answers `b`. |
| Session.MalformedPostKeepsPrevious | server.js:62-74 | POST `a`, then an unparsable POST, then GET still answers `a`. |

## Left out

- The HTTP listener, `server.listen`, the `PORT` environment lookup and the startup banner
  (server.js:6, 101-103): I/O plumbing with no effect on routing.
- `url.parse` and `decodeURIComponent` (server.js:84-85): the path is taken as already
  decoded. A malformed percent-escape throws uncaught there, and this is not modelled.
- Creating the `data` directory (server.js:10-13) and a failing startup write: these are
  file-system side effects, and a failure there crashes the process before any request.
- The internals and formatting of `JSON.parse` and `JSON.stringify`: they are library code,
  so they are opaque functions of the `Codec`. Numbers are `real` rather than IEEE doubles.
- Accumulating the body from `data`/`end` events (server.js:59-61): the body is one
  complete string.
- Overlapping POSTs and their last-write-wins race: the model is sequential.
- Session.Run orders requests by when they take effect, not by when they arrive. A POST takes
  effect only when its body has fully arrived (server.js:61-64), so a GET that arrives while a
  POST body is still streaming is answered from the old file and comes first in the sequence.
- `console.error` logging: it has no effect on responses.
- Storage.SaveTasks: a failed `writeFileSync` is modelled as leaving the file untouched. A
  write that fails after truncating or partly writing the file is not modelled.
- Session.GetsAgreeWithoutWrites: requires the two GETs' reads to have the same outcome. A GET
  whose read fails is served `{}`, so a failed read next to a successful one breaks idempotence
  in the server itself.
- Session.GetReturnsLastPosted: requires the GET's read to succeed. A failed read serves `{}`
  in place of the posted value.
- Node's own rejection of malformed or unknown HTTP methods before the callback runs: the
  method is any string, compared exactly as the code compares it.
