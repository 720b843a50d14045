/**
 * The per-file resumable-download state machine of FileDownloader.download_file,
 * as pure functions over two directories (temporary and completed files) and a
 * finite sequence of network replies, one per GET attempt.
 */
module Transfer {
  import opened Http
  import Paths

  type Bytes = seq<Byte>

  /** A directory: file name to file content. */
  type Dir = map<string, Bytes>

  /** The temporary directory and the download (completed) directory. */
  datatype Files = Files(temp: Dir, done: Dir)

  /**
   * The two failure classes the retry loop tells apart: connection loss
   * (requests.ConnectionError, ProtocolError, IncompleteRead) and every other
   * requests.RequestException.
   */
  datatype Failure = ConnectionLoss | RequestError

  /** How the body stream of a response ended. */
  datatype Ending = Complete | Broken(cause: Failure)

  /** What one GET attempt produced. */
  datatype Reply =
    | Raised(cause: Failure)                                  // requests.get raised before a response
    | Response(status: int, chunks: seq<Bytes>, ending: Ending)

  /** What the HEAD request of the size probe produced. */
  datatype HeadReply = HeadRaised | HeadResponse(status: int, contentLength: Option<nat>)

  /** The loop variables of the retry loop: retries, start_bytes and the Range offset of headers. */
  datatype Request = Request(retries: nat, start: nat, range: Option<nat>)

  /** The state after one attempt: go round the loop again, or the download finished. */
  datatype Next = Continue(req: Request, files: Files) | Finish(files: Files)

  datatype Verdict = AlreadyComplete | Completed | Failed | Pending

  /** How a download ended, the directories after it, and how many replies it consumed. */
  datatype Outcome = Outcome(verdict: Verdict, files: Files, attempts: nat)

  /**
   * What the loop does with the Range header after a request-level error:
   * keep it as it was (the code as written), or recompute it from start_bytes.
   */
  datatype Policy = AsWritten | RefreshRange

  /** The content of a file, empty when it is absent. */
  function Content(dir: Dir, name: string): Bytes
  {
    if name in dir then dir[name] else []
  }

  /** _get_existing_download_size: 0 when the file is absent, otherwise its length. */
  function ExistingSize(dir: Dir, name: string): (size: nat)
    ensures size == 0 <==> name !in dir || dir[name] == []
    ensures size > 0 ==> size == |dir[name]|
  {
    if name in dir then |dir[name]| else 0
  }

  /**
   * _get_file_size: the Content-Length of a successful HEAD reply, and 0 when
   * the request raised, the status is an error or the header is missing.
   */
  function ProbeSize(head: HeadReply): (size: nat)
    ensures size > 0 <==>
      && head.HeadResponse?
      && !IsErrorStatus(head.status)
      && head.contentLength.Some?
      && head.contentLength.value > 0
    ensures size > 0 ==> size == head.contentLength.value
  {
    match head
    case HeadRaised => 0
    case HeadResponse(status, length) =>
      if IsErrorStatus(status) then 0
      else match length
        case None => 0
        case Some(n) => n
  }

  /** All chunks of a body, in order. */
  function Joined(chunks: seq<Bytes>): Bytes
  {
    if chunks == [] then [] else Joined(chunks[..|chunks| - 1]) + chunks[|chunks| - 1]
  }

  /** The chunks that carry data; iter_content may also yield empty ones. */
  function NonEmpty(chunks: seq<Bytes>): (r: seq<Bytes>)
    ensures |r| <= |chunks|
    ensures forall k :: 0 <= k < |r| ==> r[k] != []
  {
    if chunks == [] then []
    else if chunks[|chunks| - 1] == [] then NonEmpty(chunks[..|chunks| - 1])
    else NonEmpty(chunks[..|chunks| - 1]) + [chunks[|chunks| - 1]]
  }

  /** Skipping the empty chunks writes the same bytes as writing them all. */
  lemma {:induction false} SkippingEmptyChunks(chunks: seq<Bytes>)
    ensures Joined(NonEmpty(chunks)) == Joined(chunks)
  {
    if chunks != [] {
      var init := chunks[..|chunks| - 1];
      SkippingEmptyChunks(init);
      if chunks[|chunks| - 1] != [] {
        var r := NonEmpty(init) + [chunks[|chunks| - 1]];
        assert r[..|r| - 1] == NonEmpty(init);
      }
    }
  }

  /** The Range offset of the first request (downloader.py:84): present exactly when start_bytes is positive. */
  function RangeFor(start: nat): (range: Option<nat>)
    ensures range.Some? <==> start > 0
    ensures range.Some? ==> range.value == start
  {
    if start > 0 then Some(start) else None
  }

  /** The loop variables before the first attempt: no retries yet, resuming from the temp file's size. */
  function InitialRequest(temp: Dir, name: string): (req: Request)
    ensures req.retries == 0
    ensures req.start == ExistingSize(temp, name)
    ensures "Range" in Headers(req.range) <==> ExistingSize(temp, name) > 0
    ensures "Range" in Headers(req.range) ==>
              ParseRangeSpec(Headers(req.range)["Range"]) == Some(ExistingSize(temp, name))
  {
    var start := ExistingSize(temp, name);
    Request(0, start, RangeFor(start))
  }

  /**
   * The connection-loss handler: the retry counter is untouched, start_bytes is
   * re-read from the temp file and the next request always carries a Range
   * header, even `bytes=0-`.
   */
  function AfterConnectionLoss(req: Request, temp: Dir, name: string): (r: Request)
    ensures r.retries == req.retries
    ensures r.start == ExistingSize(temp, name) && r.range == Some(r.start)
  {
    var size := ExistingSize(temp, name);
    Request(req.retries, size, Some(size))
  }

  /**
   * The request-error handler: one more retry; start_bytes stays where the
   * failed stream left it; the Range header is kept as written, or
   * recomputed from start_bytes under RefreshRange.
   */
  function AfterRequestError(policy: Policy, req: Request): (r: Request)
    ensures r.retries == req.retries + 1 && r.start == req.start
    ensures policy == AsWritten ==> r.range == req.range
    ensures policy == RefreshRange ==> (r.range.Some? <==> r.start > 0)
    ensures policy == RefreshRange && r.range.Some? ==> r.range.value == r.start
  {
    Request(req.retries + 1, req.start,
            if policy == AsWritten then req.range else RangeFor(req.start))
  }

  /** A reply in the request-level failure class: it costs one retry. */
  predicate IsRequestLevelError(reply: Reply)
  {
    match reply
    case Raised(cause) => cause == RequestError
    case Response(status, _, ending) => IsErrorStatus(status) || ending == Broken(RequestError)
  }

  /** A reply in the connection-loss class: a broken connection, never an HTTP error status. */
  predicate IsConnectionLoss(reply: Reply)
  {
    match reply
    case Raised(cause) => cause == ConnectionLoss
    case Response(status, _, ending) => !IsErrorStatus(status) && ending == Broken(ConnectionLoss)
  }

  /**
   * Whether a response resets the download: a range was in force (start_bytes
   * positive) but the server did not answer 206 Partial Content.
   */
  predicate Restarts(req: Request, status: int)
  {
    req.start > 0 && status != PartialContent
  }

  /**
   * The temp-file content after streaming a response: opened in append mode
   * when start_bytes is still positive, in truncating mode otherwise, then
   * every non-empty chunk written in order.
   */
  function Streamed(req: Request, temp: Dir, name: string, status: int, chunks: seq<Bytes>): (content: Bytes)
    ensures Restarts(req, status) ==> content == Joined(chunks)
    ensures !Restarts(req, status) && req.start > 0 ==> content == Content(temp, name) + Joined(chunks)
    ensures req.start == 0 ==> content == Joined(chunks)
  {
    SkippingEmptyChunks(chunks);
    var start := if Restarts(req, status) then 0 else req.start;
    var base := if start > 0 then Content(temp, name) else [];
    base + Joined(NonEmpty(chunks))
  }

  /** One attempt of the retry loop: the body of `while retries <= self.max_retries`. */
  function Step(policy: Policy, name: string, req: Request, files: Files, reply: Reply): (next: Next)
    // the files of other names are never touched
    ensures next.files.temp - {name} == files.temp - {name}
    ensures next.files.done - {name} == files.done - {name}
    // the completed file appears only when the whole body arrived
    ensures next.Finish? <==> reply.Response? && !IsErrorStatus(reply.status) && reply.ending == Complete
    ensures next.Continue? ==> next.files.done == files.done
    // a finished download moves the streamed temp content to the completed directory
    ensures next.Finish? ==>
              name !in next.files.temp &&
              name in next.files.done &&
              next.files.done[name] == Streamed(req, files.temp, name, reply.status, reply.chunks)
    // a request that raised, or was answered with an error status, writes nothing
    ensures !(reply.Response? && !IsErrorStatus(reply.status)) ==> next.files == files
    // a body that broke off leaves what was streamed of it in the temp file
    ensures reply.Response? && !IsErrorStatus(reply.status) && next.Continue? ==>
              name in next.files.temp &&
              next.files.temp[name] == Streamed(req, files.temp, name, reply.status, reply.chunks)
    // after a request-level error mid-stream, start_bytes is where streaming left it
    ensures reply.Response? && !IsErrorStatus(reply.status) && reply.ending == Broken(RequestError) ==>
              next.req.start == (if Restarts(req, reply.status) then 0 else req.start) + |Joined(reply.chunks)|
    // only request-level errors cost a retry
    ensures next.Continue? ==>
              next.req.retries == req.retries + (if IsRequestLevelError(reply) then 1 else 0)
    ensures next.Continue? && IsConnectionLoss(reply) ==>
              next.req.start == ExistingSize(next.files.temp, name) && next.req.range == Some(next.req.start)
    // start_bytes keeps tracking the size of the temp file
    ensures next.Continue? && req.start == ExistingSize(files.temp, name) ==>
              next.req.start == ExistingSize(next.files.temp, name)
  {
    match reply
    case Raised(ConnectionLoss) => Continue(AfterConnectionLoss(req, files.temp, name), files)
    case Raised(RequestError) => Continue(AfterRequestError(policy, req), files)
    case Response(status, chunks, ending) =>
      if IsErrorStatus(status) then Continue(AfterRequestError(policy, req), files)
      else
        SkippingEmptyChunks(chunks);
        var content := Streamed(req, files.temp, name, status, chunks);
        var start := if Restarts(req, status) then 0 else req.start;
        var streamed := Request(req.retries,
                                start + |Joined(NonEmpty(chunks))|,
                                if Restarts(req, status) then None else req.range);
        var temp := files.temp[name := content];
        match ending
        case Complete => Finish(Files(files.temp - {name}, files.done[name := content]))
        case Broken(ConnectionLoss) => Continue(AfterConnectionLoss(streamed, temp, name), Files(temp, files.done))
        case Broken(RequestError) => Continue(AfterRequestError(policy, streamed), Files(temp, files.done))
  }

  /**
   * The retry loop from reply i on: it stops with Failed once the retry
   * counter passes maxRetries, with Completed when a body arrives whole, and
   * with Pending when the replies run out.
   */
  function Run(policy: Policy, maxRetries: nat, name: string, req: Request, files: Files,
               net: seq<Reply>, i: nat): (r: Outcome)
    requires i <= |net|
    ensures i <= r.attempts <= |net|
    ensures r.verdict != AlreadyComplete
    ensures r.verdict == Pending ==> r.attempts == |net|
    ensures r.verdict == Failed ==> req.retries > maxRetries || r.attempts > i
    ensures r.files.temp - {name} == files.temp - {name}
    ensures r.files.done - {name} == files.done - {name}
    ensures r.verdict != Completed ==> r.files.done == files.done
    ensures r.verdict == Completed ==> name !in r.files.temp && name in r.files.done
    decreases |net| - i
  {
    if req.retries > maxRetries then Outcome(Failed, files, i)
    else if i == |net| then Outcome(Pending, files, i)
    else
      match Step(policy, name, req, files, net[i])
      case Finish(files') => Outcome(Completed, files', i + 1)
      case Continue(req', files') => Run(policy, maxRetries, name, req', files', net, i + 1)
  }

  /**
   * download_file: probe the size, return at once when the completed file
   * already has that size, otherwise run the retry loop from the temp file's size.
   */
  function Download(policy: Policy, maxRetries: nat, url: string, head: HeadReply,
                    files: Files, net: seq<Reply>): (r: Outcome)
    ensures r.verdict == AlreadyComplete <==>
              Paths.Basename(url) in files.done &&
              |files.done[Paths.Basename(url)]| == ProbeSize(head)
    ensures r.verdict == AlreadyComplete ==> r.attempts == 0 && r.files == files
    ensures r.attempts <= |net|
    ensures r.verdict != Completed ==> r.files.done == files.done
  {
    var name := Paths.Basename(url);
    if name in files.done && ExistingSize(files.done, name) == ProbeSize(head) then
      Outcome(AlreadyComplete, files, 0)
    else
      Run(policy, maxRetries, name, InitialRequest(files.temp, name), files, net, 0)
  }

  /** The number of request-level errors among some replies. */
  function RequestErrors(replies: seq<Reply>): nat
  {
    if replies == [] then 0
    else (if IsRequestLevelError(replies[0]) then 1 else 0) + RequestErrors(replies[1..])
  }

  /**
   * The retry budget: a run fails exactly when the request-level errors among
   * the replies it consumed bring the counter past maxRetries; any other run
   * ends with the counter at most maxRetries.
   */
  lemma {:induction false} FailedExactlyWhenBudgetSpent(policy: Policy, maxRetries: nat, name: string,
                                                        req: Request, files: Files, net: seq<Reply>, i: nat)
    requires i <= |net|
    requires req.retries <= maxRetries + 1
    ensures var r := Run(policy, maxRetries, name, req, files, net, i);
            r.verdict == Failed <==> req.retries + RequestErrors(net[i..r.attempts]) == maxRetries + 1
    ensures var r := Run(policy, maxRetries, name, req, files, net, i);
            r.verdict != Failed ==> req.retries + RequestErrors(net[i..r.attempts]) <= maxRetries
    decreases |net| - i
  {
    var r := Run(policy, maxRetries, name, req, files, net, i);
    if req.retries > maxRetries || i == |net| {
      assert net[i..r.attempts] == [];
    } else {
      assert net[i..r.attempts][0] == net[i];
      assert net[i..r.attempts][1..] == net[i + 1..r.attempts];
      match Step(policy, name, req, files, net[i])
      case Finish(_) =>
        assert net[i + 1..r.attempts] == [];
      case Continue(req', files') =>
        FailedExactlyWhenBudgetSpent(policy, maxRetries, name, req', files', net, i + 1);
    }
  }

  /**
   * When every reply is a request-level error, the loop makes exactly
   * maxRetries + 1 GET attempts and then gives up without touching the
   * completed directory.
   */
  lemma {:induction false} OnlyRequestErrorsExhaust(policy: Policy, maxRetries: nat, name: string,
                                                    req: Request, files: Files, net: seq<Reply>, i: nat)
    requires i <= |net|
    requires req.retries <= maxRetries + 1
    requires |net| - i >= maxRetries + 1 - req.retries
    requires forall k :: i <= k < |net| ==> IsRequestLevelError(net[k])
    ensures var r := Run(policy, maxRetries, name, req, files, net, i);
            r.verdict == Failed && r.attempts == i + maxRetries + 1 - req.retries && r.files.done == files.done
    decreases |net| - i
  {
    if req.retries <= maxRetries {
      var next := Step(policy, name, req, files, net[i]);
      OnlyRequestErrorsExhaust(policy, maxRetries, name, next.req, next.files, net, i + 1);
    }
  }

  /**
   * Connection loss never exhausts the retry budget: when every reply loses
   * the connection, the loop consumes them all, keeps its counter and is
   * still pending.
   */
  lemma {:induction false} ConnectionLossNeverFails(policy: Policy, maxRetries: nat, name: string,
                                                    req: Request, files: Files, net: seq<Reply>, i: nat)
    requires i <= |net|
    requires req.retries <= maxRetries
    requires forall k :: i <= k < |net| ==> IsConnectionLoss(net[k])
    ensures var r := Run(policy, maxRetries, name, req, files, net, i);
            r.verdict == Pending && r.attempts == |net| && r.files.done == files.done
    decreases |net| - i
  {
    if i < |net| {
      var next := Step(policy, name, req, files, net[i]);
      ConnectionLossNeverFails(policy, maxRetries, name, next.req, next.files, net, i + 1);
    }
  }
}
