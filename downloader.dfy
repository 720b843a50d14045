/**
 * FileDownloader: the directories it owns and the retry loop of
 * download_file, written as the step-by-step procedure it is and proved
 * to do what Transfer.Download describes for the code as written.
 */
module Downloader {
  import opened Http
  import opened Transfer
  import Paths

  /** MAX_RETRIES, the default retry budget. */
  const DefaultMaxRetries: nat := 10

  class FileDownloader {
    const maxRetries: nat

    /** The files in the temporary directory and in the download directory. */
    var tempDir: Dir
    var downloadDir: Dir

    constructor (tempDir: Dir, downloadDir: Dir, maxRetries: nat := DefaultMaxRetries)
      ensures this.maxRetries == maxRetries
      ensures this.tempDir == tempDir && this.downloadDir == downloadDir
    {
      this.maxRetries := maxRetries;
      this.tempDir := tempDir;
      this.downloadDir := downloadDir;
    }

    function Disk(): Files
      reads this
    {
      Files(tempDir, downloadDir)
    }

    /** open(temp_path, "ab") when appending, open(temp_path, "wb") otherwise. */
    method Open(filename: string, append: bool)
      modifies this
      ensures downloadDir == old(downloadDir)
      ensures tempDir == old(tempDir)[filename := if append then Content(old(tempDir), filename) else []]
    {
      tempDir := tempDir[filename := if append then Content(tempDir, filename) else []];
    }

    /**
     * The streaming loop: every non-empty chunk is written to the open temp
     * file and start_bytes grows by its length; empty chunks are skipped.
     * start_bytes never decreases and the temp file only grows.
     */
    method WriteChunks(filename: string, chunks: seq<Bytes>, start: nat) returns (end: nat)
      requires filename in tempDir
      modifies this
      ensures downloadDir == old(downloadDir)
      ensures tempDir == old(tempDir)[filename := old(tempDir[filename]) + Joined(chunks)]
      ensures end == start + |Joined(chunks)|
      ensures start <= end && old(tempDir[filename]) <= tempDir[filename]
    {
      ghost var before := tempDir[filename];
      end := start;
      assert chunks[..0] == [];
      for j := 0 to |chunks|
        invariant downloadDir == old(downloadDir)
        invariant filename in tempDir && tempDir == old(tempDir)[filename := tempDir[filename]]
        invariant tempDir[filename] == before + Joined(NonEmpty(chunks[..j]))
        invariant end == start + |Joined(NonEmpty(chunks[..j]))|
        invariant start <= end
      {
        ghost var written := NonEmpty(chunks[..j]);
        assert chunks[..j + 1][..j] == chunks[..j];
        if chunks[j] != [] {
          ghost var more := written + [chunks[j]];
          assert NonEmpty(chunks[..j + 1]) == more;
          assert more[..|more| - 1] == written;
          tempDir := tempDir[filename := tempDir[filename] + chunks[j]];
          end := end + |chunks[j]|;
        } else {
          assert NonEmpty(chunks[..j + 1]) == written;
        }
      }
      assert chunks[..|chunks|] == chunks;
      SkippingEmptyChunks(chunks);
    }

    /** os.replace(temp_path, final_path): the temp file becomes the completed file. */
    method Replace(filename: string)
      requires filename in tempDir
      modifies this
      ensures downloadDir == old(downloadDir)[filename := old(tempDir)[filename]]
      ensures tempDir == old(tempDir) - {filename}
    {
      downloadDir := downloadDir[filename := tempDir[filename]];
      tempDir := tempDir - {filename};
    }

    /**
     * The streaming part of one pass, for a response with a success status:
     * restart from zero when a range was in force but the answer is not 206,
     * open the temp file in the matching mode and write the chunks.
     */
    method Receive(filename: string, retries: nat, startBytes: nat, range: Option<nat>, status: int, chunks: seq<Bytes>)
      returns (startBytes': nat, range': Option<nat>)
      modifies this
      ensures var req := Request(retries, startBytes, range);
              && downloadDir == old(downloadDir)
              && tempDir == old(tempDir)[filename := Streamed(req, old(tempDir), filename, status, chunks)]
              && startBytes' == (if Restarts(req, status) then 0 else startBytes) + |Joined(chunks)|
              && range' == (if Restarts(req, status) then None else range)
    {
      startBytes', range' := startBytes, range;
      if startBytes > 0 && status != PartialContent {
        startBytes' := 0;
        range' := None;
      }
      ghost var base := if startBytes' > 0 then Content(tempDir, filename) else [];
      Open(filename, startBytes' > 0);
      startBytes' := WriteChunks(filename, chunks, startBytes');
      assert base + Joined(chunks) == Streamed(Request(retries, startBytes, range), old(tempDir), filename, status, chunks);
    }

    /**
     * One pass of the body of `while retries <= self.max_retries`: the GET,
     * the streaming and the two exception handlers. Returns whether the
     * download finished and the new loop variables.
     */
    method Attempt(filename: string, retries: nat, startBytes: nat, range: Option<nat>, reply: Reply)
      returns (finished: bool, retries': nat, startBytes': nat, range': Option<nat>)
      modifies this
      ensures var next := Step(AsWritten, filename, Request(retries, startBytes, range), old(Disk()), reply);
              && finished == next.Finish?
              && Disk() == next.files
              && (!finished ==> Request(retries', startBytes', range') == next.req)
    {
      finished, retries', startBytes', range' := false, retries, startBytes, range;
      match reply {
      case Raised(ConnectionLoss) =>
        startBytes' := ExistingSize(tempDir, filename);
        range' := Some(startBytes');
      case Raised(RequestError) =>
        retries' := retries + 1;
      case Response(status, chunks, ending) =>
        if IsErrorStatus(status) {
          retries' := retries + 1;
        } else {
          ghost var files := Disk();
          ghost var content := Streamed(Request(retries, startBytes, range), files.temp, filename, status, chunks);
          SkippingEmptyChunks(chunks);
          startBytes', range' := Receive(filename, retries, startBytes, range, status, chunks);
          ghost var streamed := Request(retries, startBytes', range');
          match ending {
          case Complete =>
            Replace(filename);
            finished := true;
            assert Disk() == Files(files.temp - {filename}, files.done[filename := content]);
          case Broken(ConnectionLoss) =>
            startBytes' := ExistingSize(tempDir, filename);
            range' := Some(startBytes');
            assert Request(retries', startBytes', range') == AfterConnectionLoss(streamed, tempDir, filename);
          case Broken(RequestError) =>
            retries' := retries + 1;
            assert Request(retries', startBytes', range') == AfterRequestError(AsWritten, streamed);
          }
        }
      }
    }

    /**
     * download_file(url): `head` is what the size probe's HEAD request
     * produced and `net` what each successive GET produced. Returns how the
     * download ended and how many GET attempts it made.
     */
    method DownloadFile(url: string, head: HeadReply, net: seq<Reply>) returns (verdict: Verdict, attempts: nat)
      modifies this
      ensures var r := Download(AsWritten, maxRetries, url, head, old(Disk()), net);
              verdict == r.verdict && attempts == r.attempts && Disk() == r.files
    {
      var filename := Paths.Basename(url);
      var totalSize := ProbeSize(head);
      var startBytes: nat := ExistingSize(tempDir, filename);

      if filename in downloadDir && ExistingSize(downloadDir, filename) == totalSize {
        return AlreadyComplete, 0;
      }

      var range := RangeFor(startBytes);
      var retries: nat := 0;
      var i := 0;
      while retries <= maxRetries
        invariant i <= |net|
        invariant Run(AsWritten, maxRetries, filename, Request(retries, startBytes, range), Disk(), net, i)
               == Run(AsWritten, maxRetries, filename, InitialRequest(old(tempDir), filename), old(Disk()), net, 0)
        decreases |net| - i
      {
        if i == |net| {
          return Pending, i;
        }
        var finished;
        finished, retries, startBytes, range := Attempt(filename, retries, startBytes, range, net[i]);
        i := i + 1;
        if finished {
          return Completed, i;
        }
      }
      return Failed, i;
    }
  }
}
