# Resumable file download: a Dafny model

This project models the per-file download state machine of the
multi-downloader's `FileDownloader` (`downloader.py`). `download_file` first
probes the remote size with a HEAD request. It returns at once when the
completed file already has that size. Otherwise it resumes from the size of
the partial file in the temporary directory, sending `Range: bytes=<k>-`
(section 14.2 of RFC 9110) when `k > 0`. It streams the body into the temp
file. If a range was requested and the server does not answer
`206 Partial Content` (section 15.3.7 of RFC 9110), it restarts from zero in
truncating mode. When the body arrives whole, it moves the temp file into the
download directory.

It handles two classes of failure differently:

- Connection loss does not touch the retry counter. It re-reads the offset
  from the temp file and always sends a Range header afterwards.
- Any other request error adds one retry. The loop gives up once the counter
  passes `max_retries`.

The model has these parts:

- `Http` (`http.dfy`) holds bytes, the statuses `raise_for_status` rejects,
  and the `bytes=<k>-` header value. It also has a reader for that value and
  proves the round trip through it.
- `Paths` (`paths.dfy`) holds `os.path.basename` for the file name derived
  from a URL.
- `Transfer` (`transfer.dfy`) is the state machine as pure functions:
  - Each directory is a map from file name to bytes.
  - The network is a finite sequence of replies, one per GET attempt.
  - A reply either raised before a response (connection loss or request
    error) or is a response: a status, its chunks, and whether the stream
    completed or broke off (with either failure class).
  - `Step` is one pass of the retry loop, `Run` is the loop, and `Download`
    is `download_file`.
  - When the replies run out, the verdict is `Pending`. This is the
    "still waiting" state of a download that keeps losing its connection.
- `Resume` (`resume.dfy`) proves resume correctness against an honest
  server and holds the finding below.
- `Downloader` (`downloader.dfy`) is the class `FileDownloader`. It owns the
  temporary and download directories as fields. Its methods do the work step
  by step: `DownloadFile` with its `while retries <= max_retries` loop,
  `Attempt` for one pass of the loop body, `Receive` for its streaming
  part, and `Open`, `WriteChunks` and `Replace` for the file operations. `DownloadFile` is proved to produce
  exactly what `Transfer.Download` describes for the code as written.

`Policy` picks what happens to the Range header after a request-level error:

- `AsWritten` is the code as written: the header is kept.
- `RefreshRange` is the corrected loop: the header is recomputed from
  `start_bytes`.

This choice is the only difference between the two.

The short-circuit compares sizes only. It therefore also fires when the
probe reports size 0 (an exception, an error status or no Content-Length)
and a 0-byte completed file exists.

## Model

| member | source | states |
|---|---|---|
| `Paths.Basename` | downloader.py:68 | the file name has no '/', is a suffix of the URL, and is preceded by '/' unless it is the whole URL |
| `Paths.BasenameOfJoin` | downloader.py:68 | a directory part, '/', and a slash-free name give back that name |
| `Http.Decimal` | downloader.py:84 | the offset in the Range header is a non-empty decimal numeral without a leading zero |
| `Http.DecimalRoundTrip` | downloader.py:84 | reading the decimal numeral back gives the offset |
| `Http.RangeSpecRoundTrip` | downloader.py:84 | a server reading `bytes=<k>-` recovers exactly k |
| `Http.Headers` | downloader.py:84 | the headers are empty or hold only Range; Range is present exactly when an offset is set, and it parses back to that offset |
| `Transfer.ExistingSize` | downloader.py:56-58 | size 0 exactly when the file is absent or empty, otherwise the file's length |
| `Transfer.ProbeSize` | downloader.py:47-54 | the probed size is positive exactly when the HEAD succeeded with a non-error status and a positive Content-Length, and then equals it; any exception, error status or missing header gives 0 |
| `Transfer.InitialRequest` | downloader.py:73-85 | the first request has no retries, resumes from the temp file's size, and carries a Range header exactly when that size k is positive, asking for k |
| `Transfer.SkippingEmptyChunks` | downloader.py:99-101 | skipping empty chunks writes the same bytes as writing every chunk |
| `Transfer.NonEmpty` | downloader.py:99-100 | the chunks kept by `if chunk:` are all non-empty and no more than the chunks received |
| `Transfer.Streamed` | downloader.py:91-102 | the non-empty chunks are written in order; a restart (offset positive, status not 206) leaves exactly the received bytes; a resumed 206 leaves the old temp content followed by the received bytes; a fresh download leaves the received bytes |
| `Transfer.AfterConnectionLoss` | downloader.py:112-118 | the retry counter is unchanged; start_bytes is the temp file's size and the next Range asks for it, even when it is 0 |
| `Transfer.AfterRequestError` | downloader.py:119-122 | one more retry; start_bytes stays where streaming left it; the Range header is unchanged as written |
| `Transfer.Step` | downloader.py:88-122 | one attempt touches only this file's entries; it finishes exactly when a non-error response body arrives whole, and then the temp entry is gone and the completed entry holds the streamed content; a raised request or error status writes nothing; a broken body leaves the streamed content in the temp file; only request-level errors add a retry; connection loss re-reads the offset; start_bytes keeps equal to the temp file's size |
| `Transfer.Run` | downloader.py:87-124 | the loop consumes replies in order, touches only this file's entries, leaves the completed directory alone unless it completes, and after completing has removed the temp entry |
| `Transfer.Download` | downloader.py:67-124 | returns at once, with no GET and no change to either directory, exactly when the completed file exists with the probed size (also for size 0); no completed file changes unless the download completes |
| `Transfer.FailedExactlyWhenBudgetSpent` | downloader.py:85-124 | the loop fails exactly when its request-level errors bring the counter to max_retries + 1; any other ending keeps the counter at or below max_retries |
| `Transfer.OnlyRequestErrorsExhaust` | downloader.py:85-124 | with request-level errors only, exactly max_retries + 1 GETs are made, the verdict is Failed and the completed directory is untouched |
| `Transfer.ConnectionLossNeverFails` | downloader.py:112-118 | with connection losses only, every reply is consumed and the download is still pending, never failed |
| `Resume.StepKeepsConsistent` | downloader.py:88-122 | against an honest server, one attempt keeps the temp file a prefix of the resource, with start_bytes equal to its size and any Range asking for start_bytes; a finished attempt holds exactly the resource; this holds for the corrected loop, and for the code as written unless the body broke off with a request-level error |
| `Resume.RunIsCorrect` | downloader.py:87-124 | under the same conditions, a completed run holds exactly the resource, and an unfinished one leaves a prefix of it in the temp file |
| `Resume.ResumeIsCorrect` | downloader.py:67-124 | resume correctness of the corrected download: from a temp file holding a prefix of the resource, an honest server yields a completed file equal to the resource |
| `Resume.AsWrittenCorrectWithoutBrokenBodies` | downloader.py:67-124 | when no response body breaks off with a request-level error, the code as written is equally correct: a completed file equals the resource, and otherwise the temp file is a prefix of it |
| `Resume.StaleRangeDuplicatesBytes` | downloader.py:119-122 | an honest run of the code as written completes with the wrong content: [1, 2, 2, 3] for the resource [1, 2, 3] |
| `Downloader.FileDownloader.constructor` | downloader.py:33-37 | the downloader keeps the given retry budget (10 by default, MAX_RETRIES) and starts from the given temporary and download directories |
| `Downloader.FileDownloader.Open` | downloader.py:97-98 | append mode keeps the temp content (creating an empty file if absent), truncating mode empties it; the download directory is unchanged |
| `Downloader.FileDownloader.WriteChunks` | downloader.py:98-102 | empty chunks are skipped; the temp file grows by the received chunks in order; start_bytes grows by their total length, so it never decreases, and the old temp content stays a prefix |
| `Downloader.FileDownloader.Receive` | downloader.py:91-102 | a success response restarts from zero (no Range) when a range was in force but the status is not 206; the temp file then holds the streamed content and start_bytes has advanced by the received bytes |
| `Downloader.FileDownloader.Replace` | downloader.py:106 | the temp file becomes the completed file under the same name and leaves the temp directory |
| `Downloader.FileDownloader.Attempt` | downloader.py:88-122 | one pass of the loop body changes the directories and loop variables exactly as `Transfer.Step` describes for the code as written |
| `Downloader.FileDownloader.DownloadFile` | downloader.py:67-124 | the method returns the verdict and attempt count, and leaves the directories, exactly as `Transfer.Download` describes for the code as written |

## Findings

| source | as written | input that shows it | evidently intended | confidence | as-written member | corrected member |
|---|---|---|---|---|---|---|
| downloader.py:119-122 | After a request-level error during streaming, `start_bytes` has advanced, but `headers` keeps the old `Range: bytes=<k>-`. The next `206` answer starts at k, yet it is appended after all the bytes already written. | The resource is [1, 2, 3] and the temp file holds [1]. The first GET sends `bytes=1-` and gets `206` with [2], then the read fails with a request-level error. The second GET still sends `bytes=1-` and gets `206` with [2, 3]. The completed file is [1, 2, 2, 3]. | Recompute the Range header from `start_bytes` after the error, as at downloader.py:84, so the completed file equals the resource. | not executed; proved on the model | `Resume.StaleRangeDuplicatesBytes` | `Resume.ResumeIsCorrect` |

## Left out

- `download_files` (downloader.py:126-159) is left out, because its purpose is concurrency. That covers the thread pool, `as_completed`, catching faults from worker threads and the sleep that follows them, and the per-URL size table for the progress bars.
- Progress bars and `progress_lock` are left out, because they are display and locking only. That covers `update` per chunk and setting `n` to the total on completion or on the short-circuit.
- Logging (`_log`, `logging.basicConfig`) is left out. So are `os.makedirs`, the `main` entry point and the URL list.
- `_check_internet` polling and every `time.sleep` are left out. After a connection loss the model assumes the connectivity wait ends. The retry delay is not modelled.
- HTTP calls are replaced by given replies. Which exception class a real failure raises is decided by the library; a reply names its failure class instead. For example, a connect timeout is a connection error; a read timeout before the response arrives is not, but one while reading the body is re-raised as a connection error; a body cut short is re-raised as ChunkedEncodingError, a request-level error.
- The network is a finite sequence of replies. A download that is still retrying when the sequence runs out ends with verdict `Pending`. The real loop would go on waiting.
- `Transfer.ProbeSize`: the Content-Length header is taken as an already-parsed optional non-negative number. `int()` raises `ValueError` on malformed text, and `_get_file_size` does not catch it; that case is not modelled. `int()` also accepts a negative value such as `-5`; the size is then negative, no file length equals it, and the short-circuit never fires. The model does not represent negative sizes.
- Exceptions outside `requests.RequestException` propagate out of `download_file` and are not modelled. Examples are an `OSError` from `open` or `os.replace`, or an empty file name when the URL ends with '/'.
- Directories are maps keyed by the file name. `os.path.join` of the directory and the name is not modelled.
- `retry_delay` and the two directory names are constructor arguments in the source. The model keeps only `max_retries`; the two directories are represented by their contents.
