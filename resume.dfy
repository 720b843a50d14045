/**
 * Resume correctness: against a server that answers honestly for one
 * resource body, the temp file always holds a prefix of that body and a
 * completed download holds exactly the body. This holds for the loop that
 * recomputes its Range header after every request-level error, and for the
 * loop as written only while no response body breaks off with a
 * request-level error; the concrete run at the end shows the code as written
 * duplicating bytes.
 */
module Resume {
  import opened Http
  import opened Transfer
  import Paths

  /**
   * A reply an honest server could give for the resource `body` to a request
   * with the given Range offset: an error status or a broken connection at
   * any time; 206 only for a requested range, with bytes from that offset on;
   * any other success status with bytes from the start. A body that ends
   * without error is the whole of what was asked for.
   */
  predicate HonestReply(body: Bytes, range: Option<nat>, reply: Reply)
  {
    match reply
    case Raised(_) => true
    case Response(status, chunks, ending) =>
      || IsErrorStatus(status)
      || (&& status == PartialContent
          && range.Some?
          && range.value <= |body|
          && Joined(chunks) <= body[range.value..]
          && (ending == Complete ==> Joined(chunks) == body[range.value..]))
      || (&& status != PartialContent
          && Joined(chunks) <= body
          && (ending == Complete ==> Joined(chunks) == body))
  }

  /** Every reply the retry loop consumes is honest for the request it answers. */
  predicate HonestRun(body: Bytes, policy: Policy, maxRetries: nat, name: string,
                      req: Request, files: Files, net: seq<Reply>, i: nat)
    requires i <= |net|
    decreases |net| - i
  {
    || req.retries > maxRetries
    || i == |net|
    || (&& HonestReply(body, req.range, net[i])
        && match Step(policy, name, req, files, net[i])
           case Finish(_) => true
           case Continue(req', files') => HonestRun(body, policy, maxRetries, name, req', files', net, i + 1))
  }

  /** A response whose body broke off with a request-level error (a body cut short, raised as ChunkedEncodingError). */
  predicate BreaksMidStream(reply: Reply)
  {
    reply.Response? && !IsErrorStatus(reply.status) && reply.ending == Broken(RequestError)
  }

  /**
   * What the loop must keep for resuming to be sound: start_bytes is the temp
   * file's size, the temp file is a prefix of the body, and a Range header
   * asks for exactly the bytes after it.
   */
  predicate Consistent(body: Bytes, name: string, req: Request, files: Files)
  {
    && req.start == ExistingSize(files.temp, name)
    && Content(files.temp, name) <= body
    && (req.range.Some? ==> req.range.value == req.start)
  }

  /**
   * One honest reply keeps the loop consistent, and a completed body is the
   * resource, unless the loop is the one as written and the reply broke off
   * mid-stream with a request-level error.
   */
  lemma StepKeepsConsistent(body: Bytes, policy: Policy, name: string, req: Request, files: Files, reply: Reply)
    requires Consistent(body, name, req, files)
    requires HonestReply(body, req.range, reply)
    requires policy == RefreshRange || !BreaksMidStream(reply)
    ensures match Step(policy, name, req, files, reply)
            case Finish(files') => files'.done[name] == body
            case Continue(req', files') => Consistent(body, name, req', files')
  {
  }

  /**
   * An honest run of a consistent loop stays consistent; when it completes,
   * the completed file is exactly the resource, and otherwise the temp file
   * is a prefix of it.
   */
  lemma {:induction false} RunIsCorrect(body: Bytes, policy: Policy, maxRetries: nat, name: string,
                                        req: Request, files: Files, net: seq<Reply>, i: nat)
    requires i <= |net|
    requires Consistent(body, name, req, files)
    requires HonestRun(body, policy, maxRetries, name, req, files, net, i)
    requires policy == RefreshRange || forall k :: i <= k < |net| ==> !BreaksMidStream(net[k])
    ensures var r := Run(policy, maxRetries, name, req, files, net, i);
            r.verdict == Completed ==> r.files.done[name] == body
    ensures var r := Run(policy, maxRetries, name, req, files, net, i);
            r.verdict != Completed ==> Content(r.files.temp, name) <= body
    decreases |net| - i
  {
    if req.retries <= maxRetries && i < |net| {
      StepKeepsConsistent(body, policy, name, req, files, net[i]);
      match Step(policy, name, req, files, net[i])
      case Finish(_) =>
      case Continue(req', files') =>
        RunIsCorrect(body, policy, maxRetries, name, req', files', net, i + 1);
    }
  }

  /**
   * Resume correctness of the corrected loop: starting from a temp file that
   * holds a prefix of the resource, an honest server leads to a completed
   * file equal to the resource, or leaves a temp file that is still a prefix.
   */
  lemma ResumeIsCorrect(body: Bytes, maxRetries: nat, url: string, head: HeadReply, files: Files, net: seq<Reply>)
    requires Content(files.temp, Paths.Basename(url)) <= body
    requires HonestRun(body, RefreshRange, maxRetries, Paths.Basename(url),
                       InitialRequest(files.temp, Paths.Basename(url)), files, net, 0)
    ensures var r := Download(RefreshRange, maxRetries, url, head, files, net);
            r.verdict == Completed ==> r.files.done[Paths.Basename(url)] == body
    ensures var r := Download(RefreshRange, maxRetries, url, head, files, net);
            r.verdict != Completed ==> Content(r.files.temp, Paths.Basename(url)) <= body
  {
    var name := Paths.Basename(url);
    RunIsCorrect(body, RefreshRange, maxRetries, name, InitialRequest(files.temp, name), files, net, 0);
  }

  /**
   * The code as written is just as correct as long as no response body breaks
   * off with a request-level error.
   */
  lemma AsWrittenCorrectWithoutBrokenBodies(body: Bytes, maxRetries: nat, url: string, head: HeadReply,
                                            files: Files, net: seq<Reply>)
    requires Content(files.temp, Paths.Basename(url)) <= body
    requires HonestRun(body, AsWritten, maxRetries, Paths.Basename(url),
                       InitialRequest(files.temp, Paths.Basename(url)), files, net, 0)
    requires forall k :: 0 <= k < |net| ==> !BreaksMidStream(net[k])
    ensures var r := Download(AsWritten, maxRetries, url, head, files, net);
            r.verdict == Completed ==> r.files.done[Paths.Basename(url)] == body
    ensures var r := Download(AsWritten, maxRetries, url, head, files, net);
            r.verdict != Completed ==> Content(r.files.temp, Paths.Basename(url)) <= body
  {
    var name := Paths.Basename(url);
    RunIsCorrect(body, AsWritten, maxRetries, name, InitialRequest(files.temp, name), files, net, 0);
  }

  /**
   * The code as written corrupts a resumed download. The resource is
   * [1, 2, 3] and the temp file holds [1], so the first GET asks for
   * `bytes=1-`. The server answers 206 and sends [2], then the read fails
   * with a request-level error: start_bytes becomes 2 but the header still
   * asks for `bytes=1-`. The honest 206 answer [2, 3] is appended, and the
   * completed file is [1, 2, 2, 3].
   */
  lemma StaleRangeDuplicatesBytes()
    ensures var body: Bytes := [1, 2, 3];
            var files := Files(map["f" := [1]], map[]);
            var net := [Response(PartialContent, [[2]], Broken(RequestError)),
                        Response(PartialContent, [[2, 3]], Complete)];
            var r := Download(AsWritten, 10, "http://host/f", HeadResponse(200, Some(3)), files, net);
            && Content(files.temp, "f") <= body
            && HonestRun(body, AsWritten, 10, "f", InitialRequest(files.temp, "f"), files, net, 0)
            && r.verdict == Completed
            && r.files.done["f"] == [1, 2, 2, 3]
            && r.files.done["f"] != body
  {
    var body: Bytes := [1, 2, 3];
    var files := Files(map["f" := [1]], map[]);
    var net := [Response(PartialContent, [[2]], Broken(RequestError)),
                Response(PartialContent, [[2, 3]], Complete)];
    Paths.BasenameOfJoin("http://host", "f");
    assert "http://host" + "/" + "f" == "http://host/f";
    var req0 := InitialRequest(files.temp, "f");
    assert req0 == Request(0, 1, Some(1));
    assert Joined([[2]]) == [2];
    assert Joined([[2, 3]]) == [2, 3];
    assert !Restarts(req0, PartialContent);
    assert Streamed(req0, files.temp, "f", PartialContent, [[2]]) == [1, 2];
    assert files.temp["f" := [1, 2]] == map["f" := [1, 2]];
    var files1 := Files(map["f" := [1, 2]], map[]);
    var req1 := Request(1, 2, Some(1));
    assert Step(AsWritten, "f", req0, files, net[0]) == Continue(req1, files1);
    assert Streamed(req1, files1.temp, "f", PartialContent, [[2, 3]]) == [1, 2, 2, 3];
    assert files1.temp - {"f"} == map[];
    assert Step(AsWritten, "f", req1, files1, net[1]) == Finish(Files(map[], map["f" := [1, 2, 2, 3]]));
    var files2 := Files(map[], map["f" := [1, 2, 2, 3]]);
    assert Run(AsWritten, 10, "f", req1, files1, net, 1) == Outcome(Completed, files2, 2);
    assert Run(AsWritten, 10, "f", req0, files, net, 0) == Outcome(Completed, files2, 2);
    assert HonestReply(body, req1.range, net[1]) by {
      assert body[1..] == [2, 3];
    }
    assert HonestRun(body, AsWritten, 10, "f", req1, files1, net, 1);
    assert HonestReply(body, req0.range, net[0]) by {
      assert [2] <= body[1..];
    }
    assert [1, 2, 2, 3] != body by {
      assert |body| == 3;
    }
  }
}
