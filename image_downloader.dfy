/** `ImageDownloader`: fetches an image over HTTP in chunks, reporting progress and enforcing the
    size cap, retries transient failures, classifies what is thrown, and stores the image in the
    cache. The HTTP exchange of each attempt is a given `Transfer`; waits are recorded only. */
module Downloader {
  import opened Wrappers
  import opened Numbers
  import opened Errors
  import opened FileSystem
  import opened Progress
  import opened Http
  import Validation
  import Paths
  import Retry
  import Cache

  /** The size of the read buffer. */
  const BufferSize: nat := 8192

  /** What one `ReadAsync` into the buffer returns: between 1 and 8192 bytes. */
  type Chunk = c: seq<Byte> | 0 < |c| <= BufferSize witness [0]

  /** A `Content-Length` header value, a `long`. */
  type Length = n: nat | n <= MaxInt64

  /** How the body stream ends: a read of 0 bytes, or a read that throws. */
  datatype Ending = EndOfStream | Broken(error: Exception)

  /** One attempt's HTTP exchange: `GetAsync` throws, or a response arrives with a status, an
      optional declared length, the chunks its body yields and how the body ends. */
  datatype Transfer =
    | Refused(error: Exception)
    | Responded(status: int, contentLength: Option<Length>, chunks: seq<Chunk>, ending: Ending)

  /** An attempt's outcome: the bytes or the exception, and the progress reports it made. */
  datatype Run = Run(result: Result<seq<Byte>, Exception>, reports: seq<DownloadProgress>)

  /** The bytes of a sequence of chunks, in order. */
  function Flatten(chunks: seq<Chunk>): seq<Byte> {
    if chunks == [] then [] else chunks[0] + Flatten(chunks[1..])
  }

  /** `MaxImageSize / 1024 / 1024` as the messages print it. */
  const MaxSizeInMb: string := "50"

  lemma MaxSizeInMbRendered()
    ensures DecimalString(Validation.MaxImageSize / 1024 / 1024) == MaxSizeInMb
  {
  }

  function DeclaredTooLarge(length: nat): Fault {
    Fault(FileTooLarge, "Image size (" + DecimalString(length / 1024 / 1024) + " MB) exceeds maximum allowed size ("
                        + MaxSizeInMb + " MB)",
          map["ContentLength" := Number(length)])
  }

  function ReadTooLarge(total: nat): Fault {
    Fault(FileTooLarge, "Download exceeded maximum file size limit", map["BytesRead" := Number(total)])
  }

  function Then(earlier: seq<DownloadProgress>, r: Run): Run {
    Run(r.result, earlier + r.reports)
  }

  /** The read loop from the point where `data` has been read and `rest` is still to come. */
  function Stream(rest: seq<Chunk>, ending: Ending, length: Option<Length>, observed: bool, data: seq<Byte>): Run
    requires |data| <= Validation.MaxImageSize
    decreases |rest|
  {
    if rest == [] then
      Run(if ending.EndOfStream? then Success(data) else Failure(ending.error), [])
    else
      var data' := data + rest[0];
      var report := ReportAt(observed, length, |data'|);
      if |data'| > Validation.MaxImageSize then Run(Failure(Raised(ReadTooLarge(|data'|))), report)
      else Then(report, Stream(rest[1..], ending, length, observed, data'))
  }

  /** The report made after a chunk, when there is an observer and a declared length. */
  function ReportAt(observed: bool, length: Option<Length>, total: nat): seq<DownloadProgress>
    requires total <= Validation.MaxImageSize + BufferSize
  {
    if observed && length.Some? then [DownloadProgress(total, length.value)] else []
  }

  /** One turn of the read loop, at chunk `i`. */
  lemma StreamStep(chunks: seq<Chunk>, i: nat, ending: Ending, length: Option<Length>, observed: bool, data: seq<Byte>)
    requires i < |chunks| && |data| <= Validation.MaxImageSize
    ensures var total := |data| + |chunks[i]|;
      total > Validation.MaxImageSize ==>
        Stream(chunks[i..], ending, length, observed, data) == Run(Failure(Raised(ReadTooLarge(total))), ReportAt(observed, length, total))
    ensures var total := |data| + |chunks[i]|;
      total <= Validation.MaxImageSize ==>
        Stream(chunks[i..], ending, length, observed, data)
        == Then(ReportAt(observed, length, total), Stream(chunks[i + 1..], ending, length, observed, data + chunks[i]))
  {
    assert chunks[i..][0] == chunks[i] && chunks[i..][1..] == chunks[i + 1..];
  }

  lemma ThenThen(a: seq<DownloadProgress>, b: seq<DownloadProgress>, r: Run)
    ensures Then(a, Then(b, r)) == Then(a + b, r)
  {
    assert a + (b + r.reports) == (a + b) + r.reports;
  }

  /** `DownloadWithProgressAsync` for one attempt; `observed` says whether a progress observer
      was given. */
  function Fetch(t: Transfer, observed: bool): Run {
    match t
    case Refused(e) => Run(Failure(e), [])
    case Responded(status, length, chunks, ending) =>
      if !IsSuccessStatusCode(status) then Run(Failure(HttpRequestException), [])
      else if length.Some? && length.value > Validation.MaxImageSize then
        Run(Failure(Raised(DeclaredTooLarge(length.value))), [])
      else Stream(chunks, ending, length, observed, [])
  }

  /** The outcomes the download policy retries. */
  predicate Transient(e: Exception) {
    e.HttpRequestException? || e.TaskCanceledException?
  }

  function RetriedAt(attempts: nat -> Transfer, observed: bool): nat -> bool {
    (k: nat) => var r := Fetch(attempts(k), observed).result; r.Failure? && Transient(r.error)
  }

  /** The number of the attempt whose outcome the policy hands back. */
  function FinalTry(attempts: nat -> Transfer, observed: bool, maxRetries: nat): nat {
    Retry.FinalAttempt(maxRetries, RetriedAt(attempts, observed))
  }

  /** What the retried download yields: the outcome of the final attempt and the reports of
      all attempts. */
  function Retried(attempts: nat -> Transfer, observed: bool, maxRetries: nat): Run {
    var k := FinalTry(attempts, observed, maxRetries);
    Run(Fetch(attempts(k), observed).result, ReportsOf(attempts, observed, k + 1))
  }

  /** The progress reports of attempts 0 .. n-1, in order. */
  function ReportsOf(attempts: nat -> Transfer, observed: bool, n: nat): seq<DownloadProgress> {
    if n == 0 then [] else ReportsOf(attempts, observed, n - 1) + Fetch(attempts(n - 1), observed).reports
  }

  /** The catch clauses of `DownloadImageAsync`. */
  function Classify(e: Exception, imageUrl: string, imageId: string): (f: Fault)
    ensures e.Raised? ==> f == e.fault
    ensures e.TaskCanceledException? && e.byCaller ==> f.code == DownloadFailed
    ensures e.TaskCanceledException? && !e.byCaller ==> f.code == Timeout
    ensures e.HttpRequestException? ==> f.code == NetworkError
    ensures e.JsonException? || e.OtherException? ==> f.code == DownloadFailed
    ensures !e.Raised? ==> "ImageId" in f.context && f.context["ImageId"] == Text(imageId)
  {
    match e
    case TaskCanceledException(byCaller) =>
      if byCaller then Fault(DownloadFailed, "Download was cancelled", map["ImageId" := Text(imageId)])
      else Fault(Timeout, "Download timed out", IdAndUrl(imageId, imageUrl))
    case HttpRequestException => Fault(NetworkError, "Network error during download", IdAndUrl(imageId, imageUrl))
    case Raised(f) => f
    case _ => Fault(DownloadFailed, "Failed to download image", IdAndUrl(imageId, imageUrl))
  }

  /** The context `.WithContext("ImageId", id).WithContext("Url", url)` builds. */
  function IdAndUrl(imageId: string, imageUrl: string): map<string, ContextValue> {
    map["ImageId" := Text(imageId), "Url" := Text(imageUrl)]
  }

  /** The faults above are the ones the source builds by chaining `WithContext`. */
  lemma FaultsAsChained(imageUrl: string, imageId: string, n: nat)
    ensures UntrustedUrl(imageUrl) == NewFault(InvalidImage, "Invalid or untrusted image URL").WithContext("Url", Text(imageUrl))
    ensures BadImageId(imageId) == NewFault(InvalidImageId, "Invalid image ID: " + imageId).WithContext("ImageId", Text(imageId))
    ensures ReadTooLarge(n) == NewFault(FileTooLarge, "Download exceeded maximum file size limit").WithContext("BytesRead", Number(n))
    ensures Classify(HttpRequestException, imageUrl, imageId)
            == NewFault(NetworkError, "Network error during download").WithContext("ImageId", Text(imageId)).WithContext("Url", Text(imageUrl))
    ensures Classify(TaskCanceledException(false), imageUrl, imageId)
            == NewFault(Timeout, "Download timed out").WithContext("ImageId", Text(imageId)).WithContext("Url", Text(imageUrl))
  {
  }

  /** The extension the image is stored under: the URL's, or ".jpg" when it has none. */
  function StoredExtension(imageUrl: string): (ext: string)
    ensures ext != []
    ensures Paths.GetExtension(imageUrl) != [] ==> ext == Paths.GetExtension(imageUrl)
  {
    var e := Paths.GetExtension(imageUrl);
    if e == [] then ".jpg" else e
  }

  function UntrustedUrl(imageUrl: string): Fault {
    Fault(InvalidImage, "Invalid or untrusted image URL", map["Url" := Text(imageUrl)])
  }

  function BadImageId(imageId: string): Fault {
    Fault(InvalidImageId, "Invalid image ID: " + imageId, map["ImageId" := Text(imageId)])
  }

  function DownloadedTooLarge(imageId: string, size: nat): Fault {
    Fault(FileTooLarge, "Downloaded image size (" + DecimalString(size / 1024 / 1024) + " MB) exceeds maximum allowed size ("
                        + MaxSizeInMb + " MB)",
          map["ImageId" := Text(imageId), "FileSize" := Number(size)])
  }

  // ----- the read loop -----

  /** The bytes the read loop returns are the chunks' bytes after what was read before; it
      succeeds exactly when the stream ends cleanly within the cap. */
  lemma {:induction false} StreamResult(rest: seq<Chunk>, ending: Ending, length: Option<Length>, observed: bool,
                                        data: seq<Byte>)
    requires |data| <= Validation.MaxImageSize
    ensures var r := Stream(rest, ending, length, observed, data).result;
      r.Success? <==> ending.EndOfStream? && |data + Flatten(rest)| <= Validation.MaxImageSize
    ensures var r := Stream(rest, ending, length, observed, data).result;
      r.Success? ==> r.value == data + Flatten(rest)
    ensures var r := Stream(rest, ending, length, observed, data).result;
      |data + Flatten(rest)| > Validation.MaxImageSize ==> r.Failure? && r.error.Raised? && r.error.fault.code == FileTooLarge
    ensures var r := Stream(rest, ending, length, observed, data).result;
      r.Failure? && ending.EndOfStream? ==> r.error.Raised? && r.error.fault.code == FileTooLarge
  {
    if rest != [] {
      var data' := data + rest[0];
      assert data + Flatten(rest) == data' + Flatten(rest[1..]);
      if |data'| <= Validation.MaxImageSize {
        StreamResult(rest[1..], ending, length, observed, data');
      }
    } else {
      assert data + Flatten(rest) == data;
    }
  }

  /** The loop reports the running total after each chunk, with the declared length as total,
      and only when an observer and a declared length are both present. */
  lemma {:induction false} StreamReports(rest: seq<Chunk>, ending: Ending, length: Option<Length>, observed: bool,
                                         data: seq<Byte>)
    requires |data| <= Validation.MaxImageSize
    ensures var r := Stream(rest, ending, length, observed, data);
      !(observed && length.Some?) ==> r.reports == []
    ensures var r := Stream(rest, ending, length, observed, data);
      |r.reports| <= |rest| && (r.result.Success? && observed && length.Some? ==> |r.reports| == |rest|)
    ensures var r := Stream(rest, ending, length, observed, data);
      observed && length.Some? ==>
        forall k :: 0 <= k < |r.reports| ==>
          r.reports[k].bytesReceived == |data + Flatten(rest[..k + 1])| && r.reports[k].totalBytes == length.value
  {
    if rest != [] {
      var data' := data + rest[0];
      if |data'| <= Validation.MaxImageSize {
        StreamReports(rest[1..], ending, length, observed, data');
        var r := Stream(rest, ending, length, observed, data);
        var t := Stream(rest[1..], ending, length, observed, data');
        assert r.reports == ReportAt(observed, length, |data'|) + t.reports;
        if observed && length.Some? {
          forall k | 0 <= k < |r.reports|
            ensures r.reports[k].bytesReceived == |data + Flatten(rest[..k + 1])| && r.reports[k].totalBytes == length.value
          {
            FlattenPrefixStep(rest, k);
            if k > 0 {
              assert r.reports[k] == t.reports[k - 1];
            }
          }
        }
      }
    }
  }

  /** The bytes of the first `k + 1` chunks are the first chunk's and those of the next `k`. */
  lemma FlattenPrefixStep(rest: seq<Chunk>, k: nat)
    requires k < |rest|
    ensures |Flatten(rest[..k + 1])| == |rest[0]| + |Flatten(rest[1..][..k])|
  {
    var p := rest[..k + 1];
    assert p[0] == rest[0] && p[1..] == rest[1..][..k];
  }

  /** A successful attempt returns at most `MaxImageSize` bytes: the final size check after the
      retries can never fire. */
  lemma FetchWithinCap(t: Transfer, observed: bool)
    requires Fetch(t, observed).result.Success?
    ensures |Fetch(t, observed).result.value| <= Validation.MaxImageSize
  {
    StreamResult(t.chunks, t.ending, t.contentLength, observed, []);
  }

  /** An attempt succeeds exactly when the status is a success, the declared length (if any) is
      within the cap, the body ends cleanly and holds at most `MaxImageSize` bytes; the bytes
      returned are then the body's bytes. */
  lemma FetchSucceeds(t: Transfer, observed: bool)
    ensures Fetch(t, observed).result.Success? <==>
              t.Responded? && IsSuccessStatusCode(t.status)
              && !(t.contentLength.Some? && t.contentLength.value > Validation.MaxImageSize)
              && t.ending.EndOfStream? && |Flatten(t.chunks)| <= Validation.MaxImageSize
    ensures Fetch(t, observed).result.Success? ==> Fetch(t, observed).result.value == Flatten(t.chunks)
  {
    if t.Responded? {
      StreamResult(t.chunks, t.ending, t.contentLength, observed, []);
      assert [] + Flatten(t.chunks) == Flatten(t.chunks);
    }
  }

  /** A declared length over the cap fails with `FileTooLarge` before any chunk is read. */
  lemma DeclaredLengthChecked(t: Transfer, observed: bool)
    requires t.Responded? && IsSuccessStatusCode(t.status)
    requires t.contentLength.Some? && t.contentLength.value > Validation.MaxImageSize
    ensures Fetch(t, observed) == Run(Failure(Raised(DeclaredTooLarge(t.contentLength.value))), [])
    ensures DeclaredTooLarge(t.contentLength.value).code == FileTooLarge
  {
  }

  /** Bytes the retried download returns are the body of its final attempt and keep to the
      cap. */
  lemma RetriedBytes(attempts: nat -> Transfer, observed: bool, maxRetries: nat)
    requires Retried(attempts, observed, maxRetries).result.Success?
    ensures var t := attempts(FinalTry(attempts, observed, maxRetries));
      t.Responded? && Retried(attempts, observed, maxRetries).result.value == Flatten(t.chunks)
    ensures |Retried(attempts, observed, maxRetries).result.value| <= Validation.MaxImageSize
  {
    var t := attempts(FinalTry(attempts, observed, maxRetries));
    FetchSucceeds(t, observed);
    FetchWithinCap(t, observed);
  }

  /** `FileTooLarge` is never retried, and neither is any other `WallpaperException`. */
  lemma TooLargeNotRetried(attempts: nat -> Transfer, observed: bool, k: nat)
    requires Fetch(attempts(k), observed).result.Failure?
    requires Fetch(attempts(k), observed).result.error.Raised?
    ensures !RetriedAt(attempts, observed)(k)
  {
  }

  /** What `DownloadImageAsync` leaves behind: its result, the cache directory's files, the
      access-time table, the progress reports and the number of attempts made. */
  datatype Download = Download(result: Result<string, Fault>, files: seq<DiskFile>, times: map<string, Time>,
                               reports: seq<DownloadProgress>, tries: nat)

  /** The `try` block of `DownloadImageAsync` once the download is over: `download` is what
      the retried download yielded in `tries` attempts and `path` what `GetCachedImagePath`
      returns. The size is checked, the bytes are written and the access is recorded. */
  function Stored(imageUrl: string, imageId: string, files: seq<DiskFile>, locked: set<string>,
                  times: map<string, Time>, download: Run, tries: nat, path: Result<string, Fault>, now: Time): Download
  {
    var r := download.result;
    if r.Failure? then Download(Failure(Classify(r.error, imageUrl, imageId)), files, times, download.reports, tries)
    else if |r.value| > Validation.MaxImageSize then
      Download(Failure(DownloadedTooLarge(imageId, |r.value|)), files, times, download.reports, tries)
    else if path.Failure? then Download(Failure(path.error), files, times, download.reports, tries)
    else if path.value in locked then
      Download(Failure(Classify(OtherException, imageUrl, imageId)), files, times, download.reports, tries)
    else
      Download(Success(path.value), Put(files, DiskFile(path.value, |r.value|, now, now, Image(r.value))),
               times[imageId := now], download.reports, tries)
  }

  /** A failed `try` block changes neither the directory nor the access times. */
  lemma StoredFailureLeavesCache(imageUrl: string, imageId: string, files: seq<DiskFile>, locked: set<string>,
                                 times: map<string, Time>, download: Run, tries: nat, path: Result<string, Fault>,
                                 now: Time)
    ensures var d := Stored(imageUrl, imageId, files, locked, times, download, tries, path, now);
      d.result.Failure? ==> d.files == files && d.times == times
  {
  }

  /** A successful `try` block writes exactly the downloaded bytes under the path it returns and
      records the access at `now`. */
  lemma StoredSuccessWrites(imageUrl: string, imageId: string, files: seq<DiskFile>, locked: set<string>,
                            times: map<string, Time>, download: Run, tries: nat, path: Result<string, Fault>,
                            now: Time)
    ensures var d := Stored(imageUrl, imageId, files, locked, times, download, tries, path, now);
      d.result.Success? ==>
        path == d.result && d.result.value !in locked && d.times == times[imageId := now]
        && download.result.Success? && d.result.value in PathSet(d.files)
        && Find(d.files, d.result.value).Some?
        && Find(d.files, d.result.value).value.data == Image(download.result.value)
        && Find(d.files, d.result.value).value.size == |download.result.value|
  {
    var d := Stored(imageUrl, imageId, files, locked, times, download, tries, path, now);
    if d.result.Success? {
      var r := download.result;
      var f := DiskFile(d.result.value, |r.value|, now, now, Image(r.value));
      PutFacts(files, f);
      PutFind(files, f);
    }
  }

  /** When the download keeps to the cap, the size check after it never fails: the bytes are
      stored unless their path is invalid or locked. */
  lemma SizeCheckUnreachable(imageUrl: string, imageId: string, files: seq<DiskFile>, locked: set<string>,
                             times: map<string, Time>, download: Run, tries: nat, path: Result<string, Fault>,
                             now: Time)
    requires download.result.Success? ==> |download.result.value| <= Validation.MaxImageSize
    ensures var d := Stored(imageUrl, imageId, files, locked, times, download, tries, path, now);
      d.result.Failure? ==> download.result.Failure? || path.Failure? || path.value in locked
  {
  }

  // ----- the class -----

  class ImageDownloader {
    const cache: Cache.CacheManager
    /** `Uri.TryCreate`, as the validation service uses it. */
    const parse: string -> Option<Validation.Uri>
    /** `MaxRetries` from the settings. */
    const maxRetries: nat

    constructor(cache: Cache.CacheManager, parse: string -> Option<Validation.Uri>, maxRetries: nat)
      ensures this.cache == cache && this.parse == parse && this.maxRetries == maxRetries
    {
      this.cache := cache;
      this.parse := parse;
      this.maxRetries := maxRetries;
    }

    /** `DownloadImageAsync` on a cache whose directory holds `files` (listable or not, with
        `locked` files) and whose access-time table is `times`, at time `now`. `download` is what
        the retried download yields and `tries` the attempts it takes, should it be made. */
    function Planned(imageUrl: string, imageId: string, files: seq<DiskFile>, listable: bool, locked: set<string>,
                     times: map<string, Time>, download: Run, tries: nat, now: Time): Download
    {
      match Refusal(imageUrl, imageId)
      case Some(fault) => Download(Failure(fault), files, times, [], 0)
      case None => Obtained(imageUrl, imageId, files, listable, locked, times, download, tries, now)
    }

    /** The argument checks at the head of `DownloadImageAsync`: the exception they throw, if any. */
    function Refusal(imageUrl: string, imageId: string): Option<Fault> {
      if !Validation.IsValidImageUrl(imageUrl, parse) then Some(UntrustedUrl(imageUrl))
      else if !Validation.IsValidImageIdAsWritten(imageId) then Some(BadImageId(imageId))
      else None
    }

    /** `DownloadImageAsync` past the validation of its inputs: a usable cached file, or the
        outcome of the `try` block. */
    function Obtained(imageUrl: string, imageId: string, files: seq<DiskFile>, listable: bool, locked: set<string>,
                      times: map<string, Time>, download: Run, tries: nat, now: Time): Download
    {
      var path := cache.GetCachedImagePath(imageId, StoredExtension(imageUrl));
      var cached := listable && Cache.HasIdFile(files, imageId);
      if cached && path.Failure? then Download(Failure(path.error), files, times, [], 0)
      else if cached && path.value in PathSet(files) then Download(Success(path.value), files, times[imageId := now], [], 0)
      else Stored(imageUrl, imageId, files, locked, times, download, tries, path, now)
    }

    /** An untrusted URL or an invalid id is refused before the cache or the network is used. */
    lemma InvalidInputsRefused(imageUrl: string, imageId: string, files: seq<DiskFile>, listable: bool, locked: set<string>,
                               times: map<string, Time>, download: Run, tries: nat, now: Time)
      requires !Validation.IsValidImageUrl(imageUrl, parse) || !Validation.IsValidImageIdAsWritten(imageId)
      ensures var d := Planned(imageUrl, imageId, files, listable, locked, times, download, tries, now);
        d.result.Failure? && d.files == files && d.times == times && d.reports == [] && d.tries == 0
      ensures var d := Planned(imageUrl, imageId, files, listable, locked, times, download, tries, now);
        d.result.Failure? && d.result.error.code == if !Validation.IsValidImageUrl(imageUrl, parse) then InvalidImage else InvalidImageId
      ensures Planned(imageUrl, imageId, files, listable, locked, times, download, tries, now).result ==
                Failure(if !Validation.IsValidImageUrl(imageUrl, parse) then UntrustedUrl(imageUrl) else BadImageId(imageId))
    {
    }

    /** Valid inputs go on to the cache lookup. */
    lemma ValidInputsObtained(imageUrl: string, imageId: string, files: seq<DiskFile>, listable: bool, locked: set<string>,
                              times: map<string, Time>, download: Run, tries: nat, now: Time)
      requires Validation.IsValidImageUrl(imageUrl, parse) && Validation.IsValidImageIdAsWritten(imageId)
      ensures Planned(imageUrl, imageId, files, listable, locked, times, download, tries, now)
              == Obtained(imageUrl, imageId, files, listable, locked, times, download, tries, now)
    {
    }

    /** A cached file under the URL's extension is returned as it is, with its access recorded
        and no attempt made. */
    lemma CacheHitSkipsDownload(imageUrl: string, imageId: string, files: seq<DiskFile>, locked: set<string>,
                                times: map<string, Time>, download: Run, tries: nat, now: Time)
      requires Validation.IsValidImageUrl(imageUrl, parse) && Cache.HasIdFile(files, imageId)
      requires cache.GetCachedImagePath(imageId, StoredExtension(imageUrl)).Success?
      requires cache.GetCachedImagePath(imageId, StoredExtension(imageUrl)).value in PathSet(files)
      ensures Planned(imageUrl, imageId, files, true, locked, times, download, tries, now)
              == Download(Success(Paths.Combine(cache.cacheDirectory, imageId + StoredExtension(imageUrl))),
                          files, times[imageId := now], [], 0)
    {
    }

    /** A failed call changes neither the directory nor the access times. */
    lemma FailureLeavesCache(imageUrl: string, imageId: string, files: seq<DiskFile>, listable: bool, locked: set<string>,
                             times: map<string, Time>, download: Run, tries: nat, now: Time)
      ensures var d := Planned(imageUrl, imageId, files, listable, locked, times, download, tries, now);
        d.result.Failure? ==> d.files == files && d.times == times
    {
      if Validation.IsValidImageUrl(imageUrl, parse) && Validation.IsValidImageIdAsWritten(imageId) {
        var path := cache.GetCachedImagePath(imageId, StoredExtension(imageUrl));
        var cached := listable && Cache.HasIdFile(files, imageId);
        if !(cached && (path.Failure? || path.value in PathSet(files))) {
          assert Planned(imageUrl, imageId, files, listable, locked, times, download, tries, now)
              == Stored(imageUrl, imageId, files, locked, times, download, tries, path, now);
          StoredFailureLeavesCache(imageUrl, imageId, files, locked, times, download, tries, path, now);
        }
      }
    }

    /** A successful call returns the id's path in the cache directory under the URL's
        extension; that file is then present and its access is recorded at `now`. */
    lemma SuccessIsCached(imageUrl: string, imageId: string, files: seq<DiskFile>, listable: bool, locked: set<string>,
                          times: map<string, Time>, download: Run, tries: nat, now: Time)
      ensures var d := Planned(imageUrl, imageId, files, listable, locked, times, download, tries, now);
        d.result.Success? ==>
          d.result.value == Paths.Combine(cache.cacheDirectory, imageId + StoredExtension(imageUrl))
          && Validation.IsValidImageUrl(imageUrl, parse) && Validation.IsValidImageIdAsWritten(imageId)
          && d.result.value in PathSet(d.files) && d.times == times[imageId := now]
    {
      if Validation.IsValidImageUrl(imageUrl, parse) && Validation.IsValidImageIdAsWritten(imageId) {
        var path := cache.GetCachedImagePath(imageId, StoredExtension(imageUrl));
        var cached := listable && Cache.HasIdFile(files, imageId);
        if !(cached && (path.Failure? || path.value in PathSet(files))) {
          assert Planned(imageUrl, imageId, files, listable, locked, times, download, tries, now)
              == Stored(imageUrl, imageId, files, locked, times, download, tries, path, now);
          StoredSuccessWrites(imageUrl, imageId, files, locked, times, download, tries, path, now);
        }
      }
    }

    /** Once an attempt is made, the outcome is that of the `try` block. */
    lemma DownloadTaken(imageUrl: string, imageId: string, files: seq<DiskFile>, listable: bool, locked: set<string>,
                        times: map<string, Time>, download: Run, tries: nat, now: Time)
      requires tries > 0
      requires Planned(imageUrl, imageId, files, listable, locked, times, download, tries, now).tries > 0
      ensures Validation.IsValidImageUrl(imageUrl, parse) && Validation.IsValidImageIdAsWritten(imageId)
      ensures Planned(imageUrl, imageId, files, listable, locked, times, download, tries, now)
              == Stored(imageUrl, imageId, files, locked, times, download, tries,
                        cache.GetCachedImagePath(imageId, StoredExtension(imageUrl)), now)
    {
    }

    /** `DownloadImageAsync`: `observed` says whether a progress observer was given, `attempts(k)`
        is the HTTP exchange of attempt `k`. Returns the local path or the exception, with the
        progress reports, the number of attempts and the waits between them. */
    method DownloadImage(imageUrl: string, imageId: string, observed: bool, attempts: nat -> Transfer, now: Time)
      returns (result: Result<string, Fault>, reports: seq<DownloadProgress>, tries: nat, delays: seq<nat>)
      requires cache.Valid()
      modifies cache, cache.volume
      ensures cache.Valid() && cache.volume.listable == old(cache.volume.listable)
      ensures Download(result, cache.volume.files, cache.accessTimes, reports, tries)
              == Planned(imageUrl, imageId, old(cache.volume.files), old(cache.volume.listable), cache.volume.locked,
                         old(cache.accessTimes), Retried(attempts, observed, maxRetries),
                         FinalTry(attempts, observed, maxRetries) + 1, now)
      ensures delays == if tries == 0 then [] else Retry.Delays(tries - 1)
    {
      reports, tries, delays := [], 0, [];
      var refusal := Refusal(imageUrl, imageId);
      if refusal.Some? {
        return Failure(refusal.value), reports, tries, delays;
      }
      result, reports, tries, delays := Obtain(imageUrl, imageId, observed, attempts, now);
    }

    /** `DownloadImageAsync` once the inputs are valid: the cached file when there is a usable
        one, else the `try` block. */
    method Obtain(imageUrl: string, imageId: string, observed: bool, attempts: nat -> Transfer, now: Time)
      returns (result: Result<string, Fault>, reports: seq<DownloadProgress>, tries: nat, delays: seq<nat>)
      requires cache.Valid()
      modifies cache, cache.volume
      ensures cache.Valid() && cache.volume.listable == old(cache.volume.listable)
      ensures Download(result, cache.volume.files, cache.accessTimes, reports, tries)
              == Obtained(imageUrl, imageId, old(cache.volume.files), old(cache.volume.listable), cache.volume.locked,
                          old(cache.accessTimes), Retried(attempts, observed, maxRetries),
                          FinalTry(attempts, observed, maxRetries) + 1, now)
      ensures delays == if tries == 0 then [] else Retry.Delays(tries - 1)
    {
      var extension := Paths.GetExtension(imageUrl);
      if extension == [] {
        extension := ".jpg";
      }
      assert extension == StoredExtension(imageUrl);
      result, reports, tries, delays := Lookup(imageUrl, imageId, extension, observed, attempts, now);
    }

    /** The cache lookup: the cached file when there is a usable one, else the `try` block. */
    method Lookup(imageUrl: string, imageId: string, extension: string, observed: bool, attempts: nat -> Transfer, now: Time)
      returns (result: Result<string, Fault>, reports: seq<DownloadProgress>, tries: nat, delays: seq<nat>)
      requires cache.Valid() && extension == StoredExtension(imageUrl)
      modifies cache, cache.volume
      ensures cache.Valid() && cache.volume.listable == old(cache.volume.listable)
      ensures Download(result, cache.volume.files, cache.accessTimes, reports, tries)
              == Obtained(imageUrl, imageId, old(cache.volume.files), old(cache.volume.listable), cache.volume.locked,
                          old(cache.accessTimes), Retried(attempts, observed, maxRetries),
                          FinalTry(attempts, observed, maxRetries) + 1, now)
      ensures delays == if tries == 0 then [] else Retry.Delays(tries - 1)
    {
      reports, tries, delays := [], 0, [];
      if cache.IsCached(imageId) {
        var cachedPath := cache.GetCachedImagePath(imageId, extension);
        if cachedPath.Failure? {
          return Failure(cachedPath.error), reports, tries, delays;
        }
        if cache.volume.Exists(cachedPath.value) {
          cache.UpdateAccessTime(imageId, now);
          return Success(cachedPath.value), reports, tries, delays;
        }
      }
      result, reports, tries, delays := DownloadAndStore(imageUrl, imageId, extension, observed, attempts, now);
    }

    /** The `try` block of `DownloadImageAsync`, once the inputs are valid and no cached file
        could be used. */
    method DownloadAndStore(imageUrl: string, imageId: string, extension: string, observed: bool,
                            attempts: nat -> Transfer, now: Time)
      returns (result: Result<string, Fault>, reports: seq<DownloadProgress>, tries: nat, delays: seq<nat>)
      requires cache.Valid()
      modifies cache, cache.volume
      ensures cache.Valid() && cache.volume.listable == old(cache.volume.listable)
      ensures Download(result, cache.volume.files, cache.accessTimes, reports, tries)
              == Stored(imageUrl, imageId, old(cache.volume.files), cache.volume.locked, old(cache.accessTimes),
                        Retried(attempts, observed, maxRetries), FinalTry(attempts, observed, maxRetries) + 1,
                        cache.GetCachedImagePath(imageId, extension), now)
      ensures tries > 0 && delays == Retry.Delays(tries - 1)
    {
      var fetched;
      fetched, reports, tries, delays := FetchWithRetry(attempts, observed);
      result := StoreDownload(imageUrl, imageId, extension, Run(fetched, reports), tries, now);
    }

    /** What the `try` block does with the download's outcome. */
    method StoreDownload(imageUrl: string, imageId: string, extension: string, download: Run, tries: nat, now: Time)
      returns (result: Result<string, Fault>)
      requires cache.Valid()
      modifies cache, cache.volume
      ensures cache.Valid() && cache.volume.listable == old(cache.volume.listable)
      ensures Download(result, cache.volume.files, cache.accessTimes, download.reports, tries)
              == Stored(imageUrl, imageId, old(cache.volume.files), cache.volume.locked, old(cache.accessTimes),
                        download, tries, cache.GetCachedImagePath(imageId, extension), now)
    {
      if download.result.Failure? {
        return Failure(Classify(download.result.error, imageUrl, imageId));
      }
      var imageData := download.result.value;
      if |imageData| > Validation.MaxImageSize {
        return Failure(DownloadedTooLarge(imageId, |imageData|));
      }
      var localPath := cache.GetCachedImagePath(imageId, extension);
      if localPath.Failure? {
        return Failure(localPath.error);
      }
      var written := Save(imageId, localPath.value, imageData, now);
      result := if written then Success(localPath.value) else Failure(Classify(OtherException, imageUrl, imageId));
    }

    /** `File.WriteAllBytesAsync` followed by `UpdateAccessTime`; the write fails on a locked
        path, and then nothing changes. */
    method Save(imageId: string, path: string, imageData: seq<Byte>, now: Time) returns (written: bool)
      requires cache.Valid()
      modifies cache, cache.volume
      ensures cache.Valid() && cache.volume.listable == old(cache.volume.listable)
      ensures written <==> path !in cache.volume.locked
      ensures cache.volume.files == if written then Put(old(cache.volume.files), DiskFile(path, |imageData|, now, now, Image(imageData)))
                                    else old(cache.volume.files)
      ensures cache.accessTimes == if written then old(cache.accessTimes)[imageId := now] else old(cache.accessTimes)
    {
      written := cache.volume.Write(DiskFile(path, |imageData|, now, now, Image(imageData)));
      if written {
        cache.UpdateAccessTime(imageId, now);
      }
    }

    /** `DownloadWithProgressAsync`: one attempt's read loop. */
    method DownloadWithProgress(t: Transfer, observed: bool)
      returns (result: Result<seq<Byte>, Exception>, reports: seq<DownloadProgress>)
      ensures Run(result, reports) == Fetch(t, observed)
    {
      reports := [];
      if t.Refused? {
        return Failure(t.error), reports;
      }
      if !IsSuccessStatusCode(t.status) {
        return Failure(HttpRequestException), reports;
      }
      var contentLength := t.contentLength;
      if contentLength.Some? && contentLength.value > Validation.MaxImageSize {
        return Failure(Raised(DeclaredTooLarge(contentLength.value))), reports;
      }
      result, reports := ReadBody(t.chunks, t.ending, contentLength, observed);
    }

    /** The read loop of `DownloadWithProgressAsync`: appends each chunk, reports the running
        total and stops once it passes the cap. */
    method ReadBody(chunks: seq<Chunk>, ending: Ending, contentLength: Option<Length>, observed: bool)
      returns (result: Result<seq<Byte>, Exception>, reports: seq<DownloadProgress>)
      ensures Run(result, reports) == Stream(chunks, ending, contentLength, observed, [])
    {
      reports := [];
      var memoryStream: seq<Byte> := [];
      var totalBytesRead: nat := 0;
      var i := 0;
      while i < |chunks|
        invariant 0 <= i <= |chunks|
        invariant totalBytesRead == |memoryStream| <= Validation.MaxImageSize
        invariant Stream(chunks, ending, contentLength, observed, []) == Then(reports, Stream(chunks[i..], ending, contentLength, observed, memoryStream))
      {
        ghost var reports0 := reports;
        StreamStep(chunks, i, ending, contentLength, observed, memoryStream);
        var buffer := chunks[i];
        memoryStream := memoryStream + buffer;
        totalBytesRead := totalBytesRead + |buffer|;
        if observed && contentLength.Some? {
          reports := reports + [DownloadProgress(totalBytesRead, contentLength.value)];
        }
        ghost var report := ReportAt(observed, contentLength, totalBytesRead);
        assert reports == reports0 + report;
        if totalBytesRead > Validation.MaxImageSize {
          return Failure(Raised(ReadTooLarge(totalBytesRead))), reports;
        }
        ThenThen(reports0, report, Stream(chunks[i + 1..], ending, contentLength, observed, memoryStream));
        i := i + 1;
      }
      if ending.Broken? {
        return Failure(ending.error), reports;
      }
      return Success(memoryStream), reports;
    }

    /** The retry policy around `DownloadWithProgressAsync`: transport failures and
        cancellations are retried up to `maxRetries` times, after waits of 2, 4, 8, ... seconds. */
    method FetchWithRetry(attempts: nat -> Transfer, observed: bool)
      returns (result: Result<seq<Byte>, Exception>, reports: seq<DownloadProgress>, tries: nat, delays: seq<nat>)
      ensures tries == FinalTry(attempts, observed, maxRetries) + 1
      ensures result == Fetch(attempts(tries - 1), observed).result
      ensures reports == ReportsOf(attempts, observed, tries)
      ensures delays == Retry.Delays(tries - 1)
    {
      ghost var retried := RetriedAt(attempts, observed);
      ghost var final := FinalTry(attempts, observed, maxRetries);
      var more;
      result, more := DownloadWithProgress(attempts(0), observed);
      reports := more;
      tries := 1;
      delays := [];
      while tries <= maxRetries && result.Failure? && Transient(result.error)
        invariant 1 <= tries <= maxRetries + 1
        invariant result == Fetch(attempts(tries - 1), observed).result
        invariant reports == ReportsOf(attempts, observed, tries)
        invariant delays == Retry.Delays(tries - 1)
        invariant tries - 1 <= final
        decreases maxRetries + 1 - tries
      {
        assert retried(tries - 1);
        Retry.ContinuesPast(maxRetries, retried, tries - 1);
        delays := delays + [Pow2(tries)];
        result, more := DownloadWithProgress(attempts(tries), observed);
        reports := reports + more;
        tries := tries + 1;
      }
      Retry.StopsAt(maxRetries, retried, tries - 1);
    }
  }
}
