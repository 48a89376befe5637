/** Sequences of requests served one after another against one task file:
    what a session of the server leaves on disk and what it answers. */
module Session {
  import opened Wrappers
  import opened Json
  import opened Http
  import opened Storage
  import opened Router

  /** One request together with whether its read and its write of the task
      file, if it makes them, succeed. */
  datatype Input = Input(req: Request, readOk: bool, writeOk: bool)

  /** What a session leaves behind: the final file and every response in order. */
  datatype Trace = Trace(disk: Disk, responses: seq<Response>)

  /** Serve `inputs` in order, starting from `disk`. */
  function Run(codec: Codec, disk: Disk, inputs: seq<Input>): (r: Trace)
    ensures |r.responses| == |inputs|
    ensures |inputs| > 0 ==> r.responses[0] == Step(codec, disk, inputs[0].req, inputs[0].readOk, inputs[0].writeOk).response
    decreases |inputs|
  {
    if |inputs| == 0 then Trace(disk, [])
    else
      var t := Step(codec, disk, inputs[0].req, inputs[0].readOk, inputs[0].writeOk);
      var rest := Run(codec, t.disk, inputs[1..]);
      Trace(rest.disk, [t.response] + rest.responses)
  }

  /** Reference definition of the file after a session: the indented
      serialisation of the body of the last successful POST, or the starting
      file when there was none. */
  ghost function LastWritten(codec: Codec, disk: Disk, inputs: seq<Input>): Disk
    decreases |inputs|
  {
    if |inputs| == 0 then disk
    else
      var last := inputs[|inputs| - 1];
      if Writes(codec, last.req, last.writeOk) then Some(codec.pretty(codec.parse(last.req.body).value))
      else LastWritten(codec, disk, inputs[..|inputs| - 1])
  }

  /** The file holds text the server wrote itself: the compact `{}` written at
      startup, or the indented serialisation of some value. */
  ghost predicate SelfWritten(codec: Codec, disk: Disk) {
    disk == Some(codec.stringify(EmptyObject)) || exists v :: disk == Some(codec.pretty(v))
  }

  /** No request in the session writes the file. */
  ghost predicate ReadOnly(codec: Codec, inputs: seq<Input>) {
    forall i :: 0 <= i < |inputs| ==> !Writes(codec, inputs[i].req, inputs[i].writeOk)
  }

  /** A GET of the task collection. */
  predicate IsGetTasks(req: Request) {
    req.verb == "GET" && req.path == TasksPath
  }

  /** `LastWritten` peeled from the front: the first request's effect is
      overridden by any later write and otherwise carried forward. */
  lemma {:induction false} LastWrittenFront(codec: Codec, disk: Disk, inputs: seq<Input>)
    requires |inputs| > 0
    ensures LastWritten(codec, disk, inputs)
         == LastWritten(codec, Step(codec, disk, inputs[0].req, inputs[0].readOk, inputs[0].writeOk).disk, inputs[1..])
    decreases |inputs|
  {
    var n := |inputs|;
    if n == 1 {
      assert LastWritten(codec, disk, inputs[..0]) == disk;
    } else {
      var last := inputs[n - 1];
      assert inputs[1..][|inputs[1..]| - 1] == last;
      if !Writes(codec, last.req, last.writeOk) {
        var init := inputs[..n - 1];
        LastWrittenFront(codec, disk, init);
        assert init[0] == inputs[0];
        assert init[1..] == inputs[1..][..|inputs[1..]| - 1];
      }
    }
  }

  /** The file after a session is exactly the last successful write: each
      POST replaces the whole collection, and nothing else writes. */
  lemma {:induction false} RunLeavesLastWritten(codec: Codec, disk: Disk, inputs: seq<Input>)
    ensures Run(codec, disk, inputs).disk == LastWritten(codec, disk, inputs)
    decreases |inputs|
  {
    if |inputs| > 0 {
      var d' := Step(codec, disk, inputs[0].req, inputs[0].readOk, inputs[0].writeOk).disk;
      RunLeavesLastWritten(codec, d', inputs[1..]);
      LastWrittenFront(codec, disk, inputs);
    }
  }

  /** Serving `a` and then `b` is serving `a + b`: the second part starts from
      the file the first part left, and the responses are concatenated. */
  lemma {:induction false} RunAppend(codec: Codec, disk: Disk, a: seq<Input>, b: seq<Input>)
    ensures Run(codec, disk, a + b).disk == Run(codec, Run(codec, disk, a).disk, b).disk
    ensures Run(codec, disk, a + b).responses
         == Run(codec, disk, a).responses + Run(codec, Run(codec, disk, a).disk, b).responses
    decreases |a|
  {
    if |a| == 0 {
      assert a + b == b;
    } else {
      var d' := Step(codec, disk, a[0].req, a[0].readOk, a[0].writeOk).disk;
      assert (a + b)[0] == a[0];
      assert (a + b)[1..] == a[1..] + b;
      RunAppend(codec, d', a[1..], b);
    }
  }

  /** Startup on a missing file produces server-written text. */
  lemma FreshStartSelfWritten(codec: Codec)
    ensures SelfWritten(codec, Initialize(codec, None))
  {
  }

  /** The file never holds anything but server-written text once it does: a
      client can be refused, but cannot make the server store unparsed text. */
  lemma {:induction false} RunKeepsSelfWritten(codec: Codec, disk: Disk, inputs: seq<Input>)
    requires SelfWritten(codec, disk)
    ensures SelfWritten(codec, Run(codec, disk, inputs).disk)
    decreases |inputs|
  {
    if |inputs| > 0 {
      var x := inputs[0];
      var d' := Step(codec, disk, x.req, x.readOk, x.writeOk).disk;
      if Writes(codec, x.req, x.writeOk) {
        var v := codec.parse(x.req.body).value;
        assert d' == Some(codec.pretty(v));
      }
      RunKeepsSelfWritten(codec, d', inputs[1..]);
    }
  }

  /** In a session without writes the file stays as it was, and each request
      is answered as it would be on its own against the starting file. */
  lemma {:induction false} ReadOnlyRunAnswersFromStart(codec: Codec, disk: Disk, inputs: seq<Input>)
    requires ReadOnly(codec, inputs)
    ensures Run(codec, disk, inputs).disk == disk
    ensures forall i :: 0 <= i < |inputs| ==>
      Run(codec, disk, inputs).responses[i] == Step(codec, disk, inputs[i].req, inputs[i].readOk, inputs[i].writeOk).response
    decreases |inputs|
  {
    if |inputs| > 0 {
      var rest := inputs[1..];
      assert !Writes(codec, inputs[0].req, inputs[0].writeOk);
      assert ReadOnly(codec, rest) by {
        forall i | 0 <= i < |rest| ensures !Writes(codec, rest[i].req, rest[i].writeOk) {
          assert rest[i] == inputs[i + 1];
        }
      }
      ReadOnlyRunAnswersFromStart(codec, disk, rest);
      forall i | 0 <= i < |inputs|
        ensures Run(codec, disk, inputs).responses[i] == Step(codec, disk, inputs[i].req, inputs[i].readOk, inputs[i].writeOk).response
      {
        if i > 0 {
          assert inputs[i] == rest[i - 1];
        }
      }
    }
  }

  /** The responses to a window `inputs[i..j]` of a session are those the
      window gets when served alone from the file the requests before it left. */
  lemma RunSlice(codec: Codec, disk: Disk, inputs: seq<Input>, i: nat, j: nat)
    requires i <= j <= |inputs|
    ensures Run(codec, disk, inputs).responses[i..j]
         == Run(codec, Run(codec, disk, inputs[..i]).disk, inputs[i..j]).responses
  {
    var a, b, c := inputs[..i], inputs[i..j], inputs[j..];
    assert inputs == (a + b) + c;
    RunAppend(codec, disk, a + b, c);
    RunAppend(codec, disk, a, b);
  }

  /** A window that ends in a GET writes nothing if the part before the GET
      writes nothing. */
  lemma ReadOnlyUpToGet(codec: Codec, inputs: seq<Input>, i: nat, j: nat)
    requires i <= j < |inputs|
    requires IsGetTasks(inputs[j].req)
    requires ReadOnly(codec, inputs[i..j])
    ensures ReadOnly(codec, inputs[i..j + 1])
  {
    var b := inputs[i..j + 1];
    forall k | 0 <= k < |b| ensures !Writes(codec, b[k].req, b[k].writeOk) {
      if k < j - i {
        assert b[k] == inputs[i..j][k];
      }
    }
  }

  /** GET is idempotent: two GETs of the collection with no successful POST
      between them get the identical response, provided their reads of the
      file have the same outcome. Writes before the first GET are allowed. */
  lemma GetsAgreeWithoutWrites(codec: Codec, disk: Disk, inputs: seq<Input>, i: nat, j: nat)
    requires i <= j < |inputs|
    requires IsGetTasks(inputs[i].req) && IsGetTasks(inputs[j].req)
    requires inputs[i].readOk == inputs[j].readOk
    requires ReadOnly(codec, inputs[i..j])
    ensures Run(codec, disk, inputs).responses[i] == Run(codec, disk, inputs).responses[j]
  {
    var b := inputs[i..j + 1];
    var da := Run(codec, disk, inputs[..i]).disk;
    RunSlice(codec, disk, inputs, i, j + 1);
    ReadOnlyUpToGet(codec, inputs, i, j);
    ReadOnlyRunAnswersFromStart(codec, da, b);
    var rs := Run(codec, disk, inputs).responses;
    assert rs[i] == rs[i..j + 1][0] == Run(codec, da, b).responses[0];
    assert rs[j] == rs[i..j + 1][j - i] == Run(codec, da, b).responses[j - i];
    assert b[0] == inputs[i] && b[j - i] == inputs[j];
  }

  /** Round trip: after any session whose last successful POST carried `v`, a
      GET whose read succeeds answers with `v`, provided the codec reads its own
      indented text of `v` back as `v`. */
  lemma GetReturnsLastPosted(codec: Codec, disk: Disk, inputs: seq<Input>, get: Input, v: Json)
    requires LastWritten(codec, disk, inputs) == Some(codec.pretty(v))
    requires ReadsBack(codec, codec.pretty(v), v)
    requires IsGetTasks(get.req) && get.readOk
    ensures Run(codec, disk, inputs + [get]).responses[|inputs|]
         == Response(200, true, Some(JsonType), codec.stringify(v))
  {
    RunLeavesLastWritten(codec, disk, inputs);
    RunAppend(codec, disk, inputs, [get]);
  }

  /** Cold start: on a fresh deployment the first GET answers `{}`, whether its
      read fails or succeeds, and whether or not the codec reads its own `{}`
      back, as long as it does not misread it as some other value. */
  lemma ColdStartServesEmpty(codec: Codec, get: Request, readOk: bool, writeOk: bool)
    requires codec.parse(codec.stringify(EmptyObject)) in {None, Some(EmptyObject)}
    requires IsGetTasks(get)
    ensures Step(codec, Initialize(codec, None), get, readOk, writeOk).response
         == Response(200, true, Some(JsonType), codec.stringify(EmptyObject))
  {
  }

  /** Replacement, not merge: POST `a`, then POST `b`, then GET answers `b`. */
  lemma SecondPostReplacesFirst(codec: Codec, disk: Disk, bodyA: string, bodyB: string, b: Json)
    requires codec.parse(bodyA).Some?
    requires codec.parse(bodyB) == Some(b)
    requires ReadsBack(codec, codec.pretty(b), b)
    ensures Run(codec, disk, [Input(Request("POST", TasksPath, bodyA), true, true),
                              Input(Request("POST", TasksPath, bodyB), true, true),
                              Input(Request("GET", TasksPath, ""), true, true)]).responses[2]
         == Response(200, true, Some(JsonType), codec.stringify(b))
  {
  }

  /** A malformed POST leaves the last valid collection in place: POST `a`,
      then POST unparsable text, then GET answers `a`. */
  lemma MalformedPostKeepsPrevious(codec: Codec, disk: Disk, bodyA: string, a: Json, bad: string)
    requires codec.parse(bodyA) == Some(a)
    requires codec.parse(bad).None?
    requires ReadsBack(codec, codec.pretty(a), a)
    ensures Run(codec, disk, [Input(Request("POST", TasksPath, bodyA), true, true),
                              Input(Request("POST", TasksPath, bad), true, true),
                              Input(Request("GET", TasksPath, ""), true, true)]).responses[2]
         == Response(200, true, Some(JsonType), codec.stringify(a))
  {
  }
}
