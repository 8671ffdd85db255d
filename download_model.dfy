/**
 * The values `ResourceDownloader` works with and a pure specification of what
 * `processResponse` does: `ProcessSpec` gives, for one response, the ordered list of
 * callbacks and sink calls it makes, how it exits and whether the download ends interrupted.
 * The class in resource_downloader.dfy is proved to behave exactly as `ProcessSpec` says;
 * the lemmas here state what that behaviour promises.
 */
module DownloadModel {
  import opened Wrappers
  import opened KotlinText

  type Byte = bv8

  /** `INVALID_FILE_SIZE`: the "length unknown" sentinel. */
  const InvalidFileSize: int := -1
  /** The free space, in bytes, below which a download is refused (20 MiB). */
  const MinFreeBytes: int := 20 * 1024 * 1024
  /** The Range value of the size probe: only the first six bytes. */
  const ProbeRange: string := "bytes=0-5"

  datatype ErrorType = NetworkError | TaskCancelled | FullDiskError | FileVerifyError

  /** The exceptions that can leave `processResponse` and `download`. */
  datatype Throwable = IOException | IndexOutOfBoundsException | CancellationException | PlainException

  /**
   * One successful `inputStream.read(buffer)`: the bytes it delivered, whether more than
   * 300 ms had passed since the last progress report when it was handled, and whether
   * `pause()` was called by then (the cancellation checkpoint after this chunk sees it).
   */
  datatype Read = Read(bytes: seq<Byte>, timerElapsed: bool, pauseRequested: bool)

  /** What the read after the last chunk does: return -1, or throw an `IOException`. */
  datatype BodyEnd = EndOfStream | ReadFailure

  datatype Body = Body(chunks: seq<Read>, end: BodyEnd)

  /** The parts of an HTTP response the downloader looks at. */
  datatype Response = Response(isSuccessful: bool, contentRange: Option<string>, body: Option<Body>)

  /** A GET request: its url and its `Range` header value. */
  datatype Request = Request(url: string, range: string)

  /** Every callback invocation and every call on the sink or the streams, in order. */
  datatype Effect =
    | DownloadedBytes(count: int)          // onDownloadedBytes
    | Progress(loaded: int, total: int)    // onProgress
    | Succeeded(total: int)                // onSuccess
    | Failed(url: Option<string>, error: ErrorType) // onFailed
    | Write(bytes: seq<Byte>)              // outputStream.write
    | Flush                                // outputStream.flush
    | CacheSuccess                         // onCacheSuccess (commit)
    | CacheFailed                          // onCacheFailed (rollback)
    | CloseSink                            // outputStream.close
    | CloseInput                           // inputStream.close
    | CloseResponse                        // end of response.use

  /** How `processResponse` ends: it returns a boolean or an exception leaves it. */
  datatype Exit = Returned(ok: bool) | Raised(error: Throwable)

  datatype Run = Run(exit: Exit, effects: seq<Effect>, interrupted: bool)

  /** How `download` ends. */
  datatype DownloadOutcome = Completed | Threw(error: Throwable)

  /**
   * The observable state of the cache sink: the length persisted before this session, the
   * bytes written in it, and which of flush, close, commit and rollback have happened.
   */
  datatype SinkView = SinkView(length: nat, written: seq<Byte>, flushed: bool, closed: bool,
                               cacheSucceeded: bool, cacheFailed: bool)
  {
    /** The length the next attempt resumes from: nothing survives a rollback. */
    function CurrentLength(): nat
    {
      if cacheFailed then 0 else length + |written|
    }
  }

  /** A fresh sink over no persisted bytes, for lemmas about reports alone. */
  const EmptySink: SinkView := SinkView(0, [], false, false, false, false)

  // ---------------------------------------------------------------------------------------
  // Range header, free-space gate and Content-Range parsing

  /** The main request's `Range` value: from `offset` to the end. */
  function RangeHeader(offset: int): string
  {
    "bytes=" + LongToString(offset) + "-"
  }

  /** The offset can be read back from the header: it sits between `bytes=` and the final `-`. */
  lemma RangeHeaderRoundTrip(offset: int)
    requires MinLong <= offset <= MaxLong
    ensures var h := RangeHeader(offset);
            |h| >= 8 && h[..6] == "bytes=" && h[|h| - 1] == '-' && ParseLong(h[6..|h| - 1]) == Some(offset)
  {
    var h := RangeHeader(offset);
    assert h[6..|h| - 1] == LongToString(offset);
    ParseLongToString(offset);
  }

  /** `checkSpace`, as intended: at least 20 MiB free. */
  function CheckSpace(availableBytes: int): bool
  {
    availableBytes >= MinFreeBytes
  }

  /** Exactly 20 MiB passes the gate; one byte less does not. */
  lemma CheckSpaceBoundary()
    ensures CheckSpace(20 * 1024 * 1024)
    ensures !CheckSpace(20 * 1024 * 1024 - 1)
  {
  }

  /** Java `int` arithmetic: the low 32 bits, read as two's complement. */
  function ToInt32(x: int): (r: int)
    ensures -0x8000_0000 <= r < 0x8000_0000
    ensures -0x8000_0000 <= x < 0x8000_0000 ==> r == x
    ensures (r - x) % 0x1_0000_0000 == 0
  {
    (x + 0x8000_0000) % 0x1_0000_0000 - 0x8000_0000
  }

  /**
   * `checkSpace` as written: `availableBlocks * blockSize` multiplies two 32-bit `Int`s, so
   * the product wraps around before it is compared with 20 MiB.
   */
  function CheckSpaceAsWritten(availableBlocks: int, blockSize: int): bool
    requires 0 <= availableBlocks < 0x8000_0000 && 0 <= blockSize < 0x8000_0000
  {
    ToInt32(availableBlocks * blockSize) >= MinFreeBytes
  }

  /** Below 2 GiB the wrap-around does not happen and both gates agree. */
  lemma CheckSpaceAsWrittenBelowTwoGiB(availableBlocks: int, blockSize: int)
    requires 0 <= availableBlocks < 0x8000_0000 && 0 <= blockSize < 0x8000_0000
    requires availableBlocks * blockSize < 0x8000_0000
    ensures CheckSpaceAsWritten(availableBlocks, blockSize) == CheckSpace(availableBlocks * blockSize)
  {
  }

  /** From 2 GiB up to 4 GiB of free space the product reads as negative and the gate refuses. */
  lemma CheckSpaceAsWrittenRefusesTwoToFourGiB(availableBlocks: int, blockSize: int)
    requires 0 <= availableBlocks < 0x8000_0000 && 0 <= blockSize < 0x8000_0000
    requires 0x8000_0000 <= availableBlocks * blockSize < 0x1_0000_0000
    ensures CheckSpace(availableBlocks * blockSize)
    ensures !CheckSpaceAsWritten(availableBlocks, blockSize)
  {
    var p := availableBlocks * blockSize;
    assert ToInt32(p) == p - 0x1_0000_0000;
  }

  /** A concrete case: 1,048,576 free blocks of 4096 bytes (4 GiB) wrap to 0. */
  lemma CheckSpaceAsWrittenFourGiBExample()
    ensures CheckSpace(1048576 * 4096)
    ensures !CheckSpaceAsWritten(1048576, 4096)
  {
    assert 1048576 * 4096 == 0x1_0000_0000;
    assert ToInt32(0x1_0000_0000) == 0;
  }

  /** What `parseInstanceLength` produces: a length, or the out-of-bounds `section[1]`. */
  datatype InstanceLength = Length(value: int) | OutOfBounds

  /**
   * `parseInstanceLength`: split `Content-Range` on `/`, drop trailing empty fields and parse
   * the second field; -1 for no response, no header or a second field that is not a number.
   */
  function ParseInstanceLength(response: Option<Response>): (r: InstanceLength)
    ensures r.OutOfBounds? ==> response.Some? && response.value.contentRange.Some?
    ensures r.Length? && r.value != InvalidFileSize ==>
              response.Some? && response.value.contentRange.Some? && '/' in response.value.contentRange.value
    ensures r.Length? ==> r.value == InvalidFileSize || MinLong <= r.value <= MaxLong
  {
    if response.None? then Length(InvalidFileSize)
    else match response.value.contentRange
      case None => Length(InvalidFileSize)
      case Some(range) =>
        var fields := Split(range, '/');
        var section := DropTrailingEmpty(fields);
        if |section| < 2 then OutOfBounds
        else
          assert |fields| >= 2 && section[1] == fields[1];
          assert '/' in range by {
            if '/' !in range { SplitWithoutSeparator(range, '/'); }
          }
          match ParseLong(section[1])
          case Some(n) => Length(n)
          case None => Length(InvalidFileSize)
  }

  /** No response, or no `Content-Range` header: the sentinel. */
  lemma InstanceLengthUnknown(response: Option<Response>)
    requires response.None? || response.value.contentRange.None?
    ensures ParseInstanceLength(response) == Length(InvalidFileSize)
  {
  }

  /**
   * With a header `p/q…` where `p` has no slash and `q` is a non-empty field, the result depends
   * on `q` alone: its value when it is a number, otherwise -1.
   */
  lemma InstanceLengthIsSecondField(response: Response, p: string, q: string, rest: string)
    requires '/' !in p && '/' !in q && q != ""
    requires rest == "" || rest[0] == '/'
    requires response.contentRange == Some(p + "/" + q + rest)
    ensures ParseInstanceLength(Some(response)) ==
              if ParseLong(q).Some? then Length(ParseLong(q).value) else Length(InvalidFileSize)
  {
    var range := p + "/" + q + rest;
    assert range == p + ['/'] + (q + rest);
    SplitAtFirst(p, '/', q + rest);
    var fields := Split(range, '/');
    if rest == "" {
      assert q + rest == q;
      SplitWithoutSeparator(q, '/');
      assert fields == [p, q];
    } else {
      assert q + rest == q + ['/'] + rest[1..];
      SplitAtFirst(q, '/', rest[1..]);
      assert fields == [p] + ([q] + Split(rest[1..], '/'));
    }
    assert fields[1] == q;
    var section := DropTrailingEmpty(fields);
    assert |section| >= 2;
  }

  /** A well-formed `bytes a-b/total` yields `total`. */
  lemma InstanceLengthOfWellFormed(response: Response, p: string, total: int)
    requires '/' !in p && MinLong <= total <= MaxLong
    requires response.contentRange == Some(p + "/" + LongToString(total))
    ensures ParseInstanceLength(Some(response)) == Length(total)
  {
    var q := LongToString(total);
    assert '/' !in q by {
      if total < 0 { assert q == "-" + NatToDecimal(-total); }
    }
    assert p + "/" + q + "" == p + "/" + q;
    InstanceLengthIsSecondField(response, p, q, "");
    ParseLongToString(total);
  }

  /** A total the server does not know, written as an asterisk after the slash, yields -1. */
  lemma InstanceLengthOfStar(response: Response)
    requires response.contentRange == Some("bytes 0-5/*")
    ensures ParseInstanceLength(Some(response)) == Length(InvalidFileSize)
  {
    assert "bytes 0-5/*" == "bytes 0-5" + "/" + "*" + "";
    InstanceLengthIsSecondField(response, "bytes 0-5", "*", "");
  }

  /** A header without a slash, or with nothing after it, has no `section[1]`. */
  lemma InstanceLengthOutOfBounds(response: Response, p: string)
    requires '/' !in p
    requires response.contentRange == Some(p) || response.contentRange == Some(p + "/")
    ensures ParseInstanceLength(Some(response)) == OutOfBounds
  {
    SplitWithoutSeparator(p, '/');
    if response.contentRange == Some(p + "/") {
      assert p + "/" == p + ['/'] + "";
      SplitAtFirst(p, '/', "");
      assert Split(p + "/", '/') == [p, ""];
    }
  }

  /**
   * The whole of `parseInstanceLength` on a header: it throws exactly when fewer than two fields
   * survive `dropLastWhile`, and otherwise parses the second one, -1 when that is not a number.
   */
  lemma InstanceLengthOfFields(response: Response)
    requires response.contentRange.Some?
    ensures var section := DropTrailingEmpty(Split(response.contentRange.value, '/'));
            (ParseInstanceLength(Some(response)).OutOfBounds? <==> |section| < 2) &&
            (|section| >= 2 ==> ParseInstanceLength(Some(response)) ==
                                  if ParseLong(section[1]).Some? then Length(ParseLong(section[1]).value)
                                  else Length(InvalidFileSize))
  {
  }

  /**
   * An empty second field, `p//rest`: -1 when a non-empty field follows it (the empty string is
   * not a number), and the out-of-bounds failure when only empty fields do (they are dropped).
   */
  lemma InstanceLengthEmptySecondField(response: Response, p: string, rest: string)
    requires '/' !in p
    requires response.contentRange == Some(p + "//" + rest)
    ensures ParseInstanceLength(Some(response)) ==
              if DropTrailingEmpty(Split(rest, '/')) == [] then OutOfBounds else Length(InvalidFileSize)
  {
    SplitEmptySecondField(p, rest);
    DropTrailingEmptyAppend([p, ""], Split(rest, '/'));
    if DropTrailingEmpty(Split(rest, '/')) == [] {
      assert DropTrailingEmpty([p, ""]) == DropTrailingEmpty([p]);
    }
  }

  /** Splitting `p//rest`: the first field, an empty one, then the fields of `rest`. */
  lemma SplitEmptySecondField(p: string, rest: string)
    requires '/' !in p
    ensures Split(p + "//" + rest, '/') == [p, ""] + Split(rest, '/')
  {
    assert p + "//" + rest == p + ['/'] + ("" + ['/'] + rest);
    SplitAtFirst(p, '/', "" + ['/'] + rest);
    SplitAtFirst("", '/', rest);
    assert "" + ['/'] + rest == "/" + rest;
  }

  /** Worked examples: `a//5` gives -1 and `a//` throws. */
  lemma InstanceLengthEmptySecondFieldExamples(r1: Response, r2: Response)
    requires r1.contentRange == Some("a//5") && r2.contentRange == Some("a//")
    ensures ParseInstanceLength(Some(r1)) == Length(InvalidFileSize)
    ensures ParseInstanceLength(Some(r2)) == OutOfBounds
  {
    assert "a//5" == "a" + "//" + "5";
    SplitWithoutSeparator("5", '/');
    InstanceLengthEmptySecondField(r1, "a", "5");
    assert "a//" == "a" + "//" + "";
    InstanceLengthEmptySecondField(r2, "a", "");
  }

  // ---------------------------------------------------------------------------------------
  // The copy loop

  /** The bytes delivered by the first `k` chunks, in order. */
  function Received(chunks: seq<Read>, k: nat): seq<Byte>
    requires k <= |chunks|
  {
    if k == 0 then [] else Received(chunks, k - 1) + chunks[k - 1].bytes
  }

  /** The sum of the lengths of the first `k` chunks: how far `savedSize` has moved. */
  function SumLen(chunks: seq<Read>, k: nat): nat
    requires k <= |chunks|
  {
    if k == 0 then 0 else SumLen(chunks, k - 1) + |chunks[k - 1].bytes|
  }

  /** `savedSize` moves by exactly the number of bytes received. */
  lemma {:induction false} SumLenCountsReceived(chunks: seq<Read>, k: nat)
    requires k <= |chunks|
    ensures SumLen(chunks, k) == |Received(chunks, k)|
  {
    if k > 0 { SumLenCountsReceived(chunks, k - 1); }
  }

  /** One loop iteration: announce the chunk, write it, maybe report progress at `saved`. */
  function ChunkEffects(read: Read, saved: int, total: int): seq<Effect>
  {
    [DownloadedBytes(|read.bytes|), Write(read.bytes)] +
    (if read.timerElapsed then [Progress(saved, total)] else [])
  }

  /** The effects of the first `k` loop iterations, none of which was cancelled. */
  function CopiedEffects(chunks: seq<Read>, initial: int, total: int, k: nat): seq<Effect>
    requires k <= |chunks|
  {
    if k == 0 then []
    else CopiedEffects(chunks, initial, total, k - 1) + ChunkEffects(chunks[k - 1], initial + SumLen(chunks, k), total)
  }

  /** One more iteration of the copy loop, read off the definitions. */
  lemma CopiedStep(chunks: seq<Read>, initial: int, total: int, i: nat)
    requires i < |chunks|
    ensures SumLen(chunks, i + 1) == SumLen(chunks, i) + |chunks[i].bytes|
    ensures Received(chunks, i + 1) == Received(chunks, i) + chunks[i].bytes
    ensures CopiedEffects(chunks, initial, total, i + 1) ==
            CopiedEffects(chunks, initial, total, i) + ChunkEffects(chunks[i], initial + SumLen(chunks, i + 1), total)
  {
  }

  /** The first checkpoint that sees a pause, or the number of chunks if none does. */
  function CancelPoint(chunks: seq<Read>): (k: nat)
    ensures k <= |chunks|
    ensures forall j :: 0 <= j < k ==> !chunks[j].pauseRequested
    ensures k < |chunks| ==> chunks[k].pauseRequested
  {
    if chunks == [] || chunks[0].pauseRequested then 0 else 1 + CancelPoint(chunks[1..])
  }

  /** Past the checkpoints before `i`, the checkpoint after chunk `i` decides whether the loop stops there. */
  lemma CancelPointStep(chunks: seq<Read>, i: nat)
    requires i < |chunks| && i <= CancelPoint(chunks)
    ensures chunks[i].pauseRequested ==> CancelPoint(chunks) == i
    ensures !chunks[i].pauseRequested ==> i + 1 <= CancelPoint(chunks)
  {
  }

  /** The `finally` block, then the end of `response.use`. */
  const Release: seq<Effect> := [CloseInput, CloseSink, CloseResponse]

  /** How many chunks the copy loop wrote before it stopped. */
  function ChunksWritten(body: Body): nat
  {
    var k := CancelPoint(body.chunks);
    if k < |body.chunks| then k + 1 else k
  }

  /**
   * How the `try` block ends once the loop has stopped, with `saved` bytes: the exit, the calls
   * made after the last chunk and before `finally`, and whether the run ends interrupted.
   */
  function LoopEnd(url: Option<string>, saved: int, total: int, body: Body): Run
  {
    if CancelPoint(body.chunks) < |body.chunks| then Run(Returned(false), [Failed(url, TaskCancelled)], true)
    else if body.end == ReadFailure then Run(Raised(IOException), [CacheFailed, Failed(url, NetworkError)], false)
    else if saved != total then Run(Returned(false), [Failed(url, FileVerifyError)], false)
    else Run(Returned(true), [Flush, CacheSuccess, Progress(saved, total), Succeeded(total)], false)
  }

  /** The `try` block from the first read on: the loop, then the end check and its reports. */
  function TrySpec(url: Option<string>, initial: int, total: int, body: Body): Run
  {
    var m := ChunksWritten(body);
    var end := LoopEnd(url, initial + SumLen(body.chunks, m), total, body);
    Run(end.exit, CopiedEffects(body.chunks, initial, total, m) + end.effects, end.interrupted)
  }

  /** The `try` block, then the `finally` block and `response.use` closing what they hold. */
  function CopySpec(url: Option<string>, initial: int, total: int, body: Body): Run
  {
    var t := TrySpec(url, initial, total, body);
    Run(t.exit, t.effects + Release, t.interrupted)
  }

  /**
   * `processResponse`: the checks in their fixed order (cancelled, no sink, then the checks of
   * `ReceiveSpec`).
   */
  function ProcessSpec(interrupted: bool, hasSink: bool, url: Option<string>, initial: int,
                       response: Response, freeBytes: int): Run
  {
    if interrupted then Run(Returned(false), [Failed(url, TaskCancelled), CloseResponse], true)
    else if !hasSink then Run(Returned(false), [Failed(url, FileVerifyError), CloseResponse], false)
    else ReceiveSpec(url, initial, response, freeBytes)
  }

  /**
   * `processResponse` past the cancellation and sink checks: the status, the free space, the
   * length, the body, then the copy loop.
   */
  function ReceiveSpec(url: Option<string>, initial: int, response: Response, freeBytes: int): Run
  {
    if !response.isSuccessful then
      Run(Returned(false), [CacheFailed, Failed(url, NetworkError), CloseResponse], false)
    else if !CheckSpace(freeBytes) then Run(Returned(false), [Failed(url, FullDiskError), CloseResponse], false)
    else match ParseInstanceLength(Some(response))
      case OutOfBounds => Run(Raised(IndexOutOfBoundsException), [CloseResponse], false)
      case Length(total) =>
        match response.body
        case None => Run(Returned(false), [CloseResponse], false)
        case Some(body) => CopySpec(url, initial, total, body)
  }

  /** True when `processResponse` gets as far as opening the body stream. */
  predicate OpensBody(interrupted: bool, hasSink: bool, response: Response, freeBytes: int)
  {
    !interrupted && hasSink && response.isSuccessful && CheckSpace(freeBytes) &&
    ParseInstanceLength(Some(response)).Length? && response.body.Some?
  }

  /**
   * `download`: a false result becomes a `CancellationException` when the flag is raised by the
   * time `download` reads it, else a plain `Exception`. The flag is the run's own, or raised by a
   * `pause()` that came after `processResponse` last looked at it (`pausedLate`).
   */
  function OutcomeOf(run: Run, pausedLate: bool): DownloadOutcome
  {
    match run.exit
    case Returned(ok) =>
      if ok then Completed
      else if run.interrupted || pausedLate then Threw(CancellationException)
      else Threw(PlainException)
    case Raised(e) => Threw(e)
  }

  // ---------------------------------------------------------------------------------------
  // Reading a trace

  function FailureOf(e: Effect): seq<ErrorType>
  {
    if e.Failed? then [e.error] else []
  }

  function SuccessOf(e: Effect): seq<int>
  {
    if e.Succeeded? then [e.total] else []
  }

  /** The error kinds passed to `onFailed`, in order. */
  function Failures(effects: seq<Effect>): seq<ErrorType>
  {
    if effects == [] then [] else Failures(effects[..|effects| - 1]) + FailureOf(effects[|effects| - 1])
  }

  /** The totals passed to `onSuccess`, in order. */
  function Successes(effects: seq<Effect>): seq<int>
  {
    if effects == [] then [] else Successes(effects[..|effects| - 1]) + SuccessOf(effects[|effects| - 1])
  }

  /** What one call does to the sink; callbacks and stream closes leave it alone. */
  function Apply(v: SinkView, e: Effect): SinkView
  {
    match e
    case Write(bytes) => v.(written := v.written + bytes)
    case Flush => v.(flushed := true)
    case CacheSuccess => v.(cacheSucceeded := true)
    case CacheFailed => v.(cacheFailed := true)
    case CloseSink => v.(closed := true)
    case _ => v
  }

  /** The sink after every call of a trace, in order. */
  function ApplyAll(v: SinkView, effects: seq<Effect>): SinkView
  {
    if effects == [] then v else Apply(ApplyAll(v, effects[..|effects| - 1]), effects[|effects| - 1])
  }

  /** `onProgress` reports never go down. */
  ghost predicate ProgressNondecreasing(effects: seq<Effect>)
  {
    forall i, j :: 0 <= i < j < |effects| && effects[i].Progress? && effects[j].Progress? ==>
      effects[i].loaded <= effects[j].loaded
  }

  /** Every `onProgress` report lies between `lo` and `hi`. */
  ghost predicate ProgressWithin(effects: seq<Effect>, lo: int, hi: int)
  {
    forall i :: 0 <= i < |effects| && effects[i].Progress? ==> lo <= effects[i].loaded <= hi
  }

  /** Each write is announced by `onDownloadedBytes` of its length just before it. */
  ghost predicate AnnouncedBeforeWrite(effects: seq<Effect>)
  {
    forall i :: 0 <= i < |effects| && effects[i].Write? ==>
      0 < i && effects[i - 1] == DownloadedBytes(|effects[i].bytes|)
  }

  /** A trace without any `onFailed` or `onSuccess` call. */
  ghost predicate Quiet(effects: seq<Effect>)
  {
    forall i :: 0 <= i < |effects| ==> !effects[i].Failed? && !effects[i].Succeeded?
  }

  /** A quiet trace reports nothing. */
  lemma {:induction false} QuietReports(effects: seq<Effect>)
    requires Quiet(effects)
    ensures Failures(effects) == [] && Successes(effects) == []
    decreases |effects|
  {
    if effects != [] {
      QuietReports(effects[..|effects| - 1]);
    }
  }

  /** Reading a trace one call longer. */
  lemma TraceSnoc(a: seq<Effect>, x: Effect, v: SinkView)
    ensures Failures(a + [x]) == Failures(a) + FailureOf(x)
    ensures Successes(a + [x]) == Successes(a) + SuccessOf(x)
    ensures ApplyAll(v, a + [x]) == Apply(ApplyAll(v, a), x)
  {
    ReportsSnoc(a, x);
    ApplySnoc(a, x, v);
  }

  lemma ReportsSnoc(a: seq<Effect>, x: Effect)
    ensures Failures(a + [x]) == Failures(a) + FailureOf(x)
    ensures Successes(a + [x]) == Successes(a) + SuccessOf(x)
  {
    assert (a + [x])[..|a|] == a;
  }

  lemma ApplySnoc(a: seq<Effect>, x: Effect, v: SinkView)
    ensures ApplyAll(v, a + [x]) == Apply(ApplyAll(v, a), x)
  {
    assert (a + [x])[..|a|] == a;
  }

  /** Closing the response alone leaves the sink as it was. */
  lemma ResponseClosedOnly(v: SinkView)
    ensures ApplyAll(v, [CloseResponse]) == v
  {
    TraceSnoc([], CloseResponse, v);
    assert [] + [CloseResponse] == [CloseResponse];
  }

  /** Reading a two-call trace. */
  lemma PairFacts(x: Effect, y: Effect, v: SinkView)
    ensures Failures([x, y]) == FailureOf(x) + FailureOf(y)
    ensures Successes([x, y]) == SuccessOf(x) + SuccessOf(y)
    ensures ApplyAll(v, [x, y]) == Apply(Apply(v, x), y)
  {
    PairReports(x, y);
    PairApply(x, y, v);
  }

  lemma PairReports(x: Effect, y: Effect)
    ensures Failures([x, y]) == FailureOf(x) + FailureOf(y)
    ensures Successes([x, y]) == SuccessOf(x) + SuccessOf(y)
  {
    ReportsSnoc([], x);
    assert [] + [x] == [x];
    ReportsSnoc([x], y);
    assert [x] + [y] == [x, y];
  }

  lemma PairApply(x: Effect, y: Effect, v: SinkView)
    ensures ApplyAll(v, [x, y]) == Apply(Apply(v, x), y)
  {
    ApplySnoc([], x, v);
    assert [] + [x] == [x];
    ApplySnoc([x], y, v);
    assert [x] + [y] == [x, y];
  }

  /** Reading a trace in two parts. */
  lemma TraceAppend(a: seq<Effect>, b: seq<Effect>, v: SinkView)
    ensures Failures(a + b) == Failures(a) + Failures(b)
    ensures Successes(a + b) == Successes(a) + Successes(b)
    ensures ApplyAll(v, a + b) == ApplyAll(ApplyAll(v, a), b)
  {
    FailuresAppend(a, b);
    SuccessesAppend(a, b);
    ApplyAppend(a, b, v);
  }

  /** The failures of a trace in two parts are those of the first part, then of the second. */
  lemma {:induction false} FailuresAppend(a: seq<Effect>, b: seq<Effect>)
    ensures Failures(a + b) == Failures(a) + Failures(b)
    decreases |b|
  {
    if b == [] {
      assert a + b == a;
    } else {
      var b', x := b[..|b| - 1], b[|b| - 1];
      assert a + b == (a + b') + [x];
      ReportsSnoc(a + b', x);
      FailuresAppend(a, b');
      assert Failures(a) + Failures(b) == (Failures(a) + Failures(b')) + FailureOf(x);
    }
  }

  /** The same for the successes. */
  lemma {:induction false} SuccessesAppend(a: seq<Effect>, b: seq<Effect>)
    ensures Successes(a + b) == Successes(a) + Successes(b)
    decreases |b|
  {
    if b == [] {
      assert a + b == a;
    } else {
      var b', x := b[..|b| - 1], b[|b| - 1];
      assert a + b == (a + b') + [x];
      ReportsSnoc(a + b', x);
      SuccessesAppend(a, b');
      assert Successes(a) + Successes(b) == (Successes(a) + Successes(b')) + SuccessOf(x);
    }
  }

  /** A trace in two parts acts on the sink as its first part, then its second. */
  lemma {:induction false} ApplyAppend(a: seq<Effect>, b: seq<Effect>, v: SinkView)
    ensures ApplyAll(v, a + b) == ApplyAll(ApplyAll(v, a), b)
    decreases |b|
  {
    if b == [] {
      assert a + b == a;
    } else {
      var b', x := b[..|b| - 1], b[|b| - 1];
      assert a + b == (a + b') + [x];
      ApplySnoc(a + b', x, v);
      ApplyAppend(a, b', v);
    }
  }

  lemma ReleaseFacts(v: SinkView)
    ensures Failures(Release) == [] && Successes(Release) == []
    ensures ApplyAll(v, Release) == v.(closed := true)
  {
    TraceSnoc([CloseInput], CloseSink, v);
    TraceSnoc([CloseInput, CloseSink], CloseResponse, v);
    assert [CloseInput] + [CloseSink] == [CloseInput, CloseSink];
    assert [CloseInput, CloseSink] + [CloseResponse] == Release;
  }

  /** Gluing two traces keeps progress ordered when the second starts where the first ends. */
  lemma ProgressAppend(a: seq<Effect>, b: seq<Effect>, lo: int, mid: int, hi: int)
    requires ProgressNondecreasing(a) && ProgressWithin(a, lo, mid)
    requires ProgressNondecreasing(b) && ProgressWithin(b, mid, hi)
    requires lo <= mid <= hi
    ensures ProgressNondecreasing(a + b) && ProgressWithin(a + b, lo, hi)
  {
    var c := a + b;
    forall i, j | 0 <= i < j < |c| && c[i].Progress? && c[j].Progress?
      ensures c[i].loaded <= c[j].loaded
    {
      if j < |a| { assert c[i] == a[i] && c[j] == a[j]; }
      else if i >= |a| { assert c[i] == b[i - |a|] && c[j] == b[j - |a|]; }
      else { assert c[i] == a[i] && c[j] == b[j - |a|]; }
    }
    forall i | 0 <= i < |c| && c[i].Progress? ensures lo <= c[i].loaded <= hi {
      if i < |a| { assert c[i] == a[i]; } else { assert c[i] == b[i - |a|]; }
    }
  }

  /** Gluing two traces keeps every write announced. */
  lemma AnnouncedAppend(a: seq<Effect>, b: seq<Effect>)
    requires AnnouncedBeforeWrite(a) && AnnouncedBeforeWrite(b)
    ensures AnnouncedBeforeWrite(a + b)
  {
    var c := a + b;
    forall i | 0 <= i < |c| && c[i].Write? ensures 0 < i && c[i - 1] == DownloadedBytes(|c[i].bytes|) {
      if i < |a| { assert c[i] == a[i] && c[i - 1] == a[i - 1]; }
      else { assert c[i] == b[i - |a|]; if i > |a| { assert c[i - 1] == b[i - 1 - |a|]; } }
    }
  }

  /** One iteration appends its chunk to the sink. */
  lemma ChunkView(r: Read, saved: int, total: int, w: SinkView)
    ensures ApplyAll(w, ChunkEffects(r, saved, total)) == w.(written := w.written + r.bytes)
  {
    var announce := [DownloadedBytes(|r.bytes|), Write(r.bytes)];
    ApplySnoc([DownloadedBytes(|r.bytes|)], Write(r.bytes), w);
    ApplySnoc([], DownloadedBytes(|r.bytes|), w);
    assert [] + [DownloadedBytes(|r.bytes|)] == [DownloadedBytes(|r.bytes|)];
    assert [DownloadedBytes(|r.bytes|)] + [Write(r.bytes)] == announce;
    if r.timerElapsed {
      ApplySnoc(announce, Progress(saved, total), w);
    } else {
      assert ChunkEffects(r, saved, total) == announce;
    }
  }

  /** One iteration announces its write and reports progress, if at all, at `saved`. */
  lemma ChunkOrder(r: Read, saved: int, total: int)
    ensures var step := ChunkEffects(r, saved, total);
            AnnouncedBeforeWrite(step) && ProgressNondecreasing(step) && ProgressWithin(step, saved, saved)
  {
  }

  /** The copy loop only appends the received bytes to the sink. */
  lemma {:induction false} CopiedView(chunks: seq<Read>, initial: int, total: int, k: nat, v: SinkView)
    requires k <= |chunks|
    ensures ApplyAll(v, CopiedEffects(chunks, initial, total, k)) == v.(written := v.written + Received(chunks, k))
  {
    if k > 0 {
      var c' := CopiedEffects(chunks, initial, total, k - 1);
      var r := chunks[k - 1];
      var step := ChunkEffects(r, initial + SumLen(chunks, k), total);
      assert CopiedEffects(chunks, initial, total, k) == c' + step;
      CopiedView(chunks, initial, total, k - 1, v);
      ApplyAppend(c', step, v);
      ChunkView(r, initial + SumLen(chunks, k), total, ApplyAll(v, c'));
      assert v.written + Received(chunks, k - 1) + r.bytes == v.written + Received(chunks, k);
    }
  }

  /** The copy loop reports no outcome. */
  lemma CopiedReports(chunks: seq<Read>, initial: int, total: int, k: nat)
    requires k <= |chunks|
    ensures var c := CopiedEffects(chunks, initial, total, k);
            Failures(c) == [] && Successes(c) == []
  {
    CopiedQuiet(chunks, initial, total, k);
    QuietReports(CopiedEffects(chunks, initial, total, k));
  }

  /** No call of the copy loop is `onFailed` or `onSuccess`. */
  lemma {:induction false} CopiedQuiet(chunks: seq<Read>, initial: int, total: int, k: nat)
    requires k <= |chunks|
    ensures Quiet(CopiedEffects(chunks, initial, total, k))
  {
    if k > 0 {
      var c' := CopiedEffects(chunks, initial, total, k - 1);
      var step := ChunkEffects(chunks[k - 1], initial + SumLen(chunks, k), total);
      var c := c' + step;
      assert CopiedEffects(chunks, initial, total, k) == c;
      CopiedQuiet(chunks, initial, total, k - 1);
      forall i | 0 <= i < |c| ensures !c[i].Failed? && !c[i].Succeeded? {
        if i < |c'| { assert c[i] == c'[i]; } else { assert c[i] == step[i - |c'|]; }
      }
    }
  }

  /**
   * The copy loop announces each write and reports progress that never decreases and stays
   * between the initial offset and the bytes saved so far.
   */
  lemma {:induction false} CopiedOrder(chunks: seq<Read>, initial: int, total: int, k: nat)
    requires k <= |chunks|
    ensures var c := CopiedEffects(chunks, initial, total, k);
            AnnouncedBeforeWrite(c) &&
            ProgressNondecreasing(c) && ProgressWithin(c, initial, initial + SumLen(chunks, k))
  {
    if k > 0 {
      var c' := CopiedEffects(chunks, initial, total, k - 1);
      var saved := initial + SumLen(chunks, k);
      var step := ChunkEffects(chunks[k - 1], saved, total);
      assert CopiedEffects(chunks, initial, total, k) == c' + step;
      CopiedOrder(chunks, initial, total, k - 1);
      ChunkOrder(chunks[k - 1], saved, total);
      ProgressAppend(c', step, initial, initial + SumLen(chunks, k - 1), saved);
      AnnouncedAppend(c', step);
    }
  }

  /** A trace ending in `Release`: the closes report nothing and only close the sink. */
  lemma EndsReleased(c: seq<Effect>, mid: seq<Effect>, v: SinkView)
    ensures Failures(c + mid + Release) == Failures(c) + Failures(mid)
    ensures Successes(c + mid + Release) == Successes(c) + Successes(mid)
    ensures ApplyAll(v, c + mid + Release) == ApplyAll(ApplyAll(v, c), mid).(closed := true)
  {
    TraceAppend(c, mid, v);
    TraceAppend(c + mid, Release, v);
    ReleaseFacts(ApplyAll(v, c + mid));
  }

  /** A single failure report. */
  lemma FailedFacts(url: Option<string>, e: ErrorType, w: SinkView)
    ensures Failures([Failed(url, e)]) == [e] && Successes([Failed(url, e)]) == []
    ensures ApplyAll(w, [Failed(url, e)]) == w
  {
    TraceSnoc([], Failed(url, e), w);
    assert [] + [Failed(url, e)] == [Failed(url, e)];
  }

  /** The rollback followed by the network-error report. */
  lemma RollbackFacts(url: Option<string>, w: SinkView)
    ensures Failures([CacheFailed, Failed(url, NetworkError)]) == [NetworkError]
    ensures Successes([CacheFailed, Failed(url, NetworkError)]) == []
    ensures ApplyAll(w, [CacheFailed, Failed(url, NetworkError)]) == w.(cacheFailed := true)
  {
    PairFacts(CacheFailed, Failed(url, NetworkError), w);
  }

  /** The rollback and the network-error report, then closing the response. */
  lemma RollbackClosed(url: Option<string>, w: SinkView)
    ensures ApplyAll(w, [CacheFailed, Failed(url, NetworkError), CloseResponse]) == w.(cacheFailed := true)
  {
    RollbackFacts(url, w);
    TraceSnoc([CacheFailed, Failed(url, NetworkError)], CloseResponse, w);
    assert [CacheFailed, Failed(url, NetworkError)] + [CloseResponse] ==
           [CacheFailed, Failed(url, NetworkError), CloseResponse];
  }

  /** Flush, commit, the final progress report and `onSuccess`. */
  lemma CommitFacts(saved: int, total: int, w: SinkView)
    ensures var t := [Flush, CacheSuccess, Progress(saved, total), Succeeded(total)];
            Failures(t) == [] && Successes(t) == [total] &&
            ApplyAll(w, t) == w.(flushed := true, cacheSucceeded := true)
  {
    PairFacts(Flush, CacheSuccess, w);
    PairFacts(Progress(saved, total), Succeeded(total), w.(flushed := true, cacheSucceeded := true));
    TraceAppend([Flush, CacheSuccess], [Progress(saved, total), Succeeded(total)], w);
    assert [Flush, CacheSuccess] + [Progress(saved, total), Succeeded(total)] ==
           [Flush, CacheSuccess, Progress(saved, total), Succeeded(total)];
  }

  /**
   * The sink once the `try` block is over: flushed and committed only on success, rolled back
   * only after an `IOException`.
   */
  function Settled(w: SinkView, exit: Exit): SinkView
  {
    var success := exit == Returned(true);
    w.(flushed := w.flushed || success,
       cacheSucceeded := w.cacheSucceeded || success,
       cacheFailed := w.cacheFailed || exit == Raised(IOException))
  }

  /** The sink after the `try` block: it holds the chunks read before the loop stopped, settled. */
  function SinkAfterTry(v: SinkView, body: Body, exit: Exit): SinkView
  {
    Settled(v.(written := v.written + Received(body.chunks, ChunksWritten(body))), exit)
  }

  /** The sink after the copy: as the `try` block left it, and closed. */
  function SinkAfterCopy(v: SinkView, body: Body, exit: Exit): SinkView
  {
    SinkAfterTry(v, body, exit).(closed := true)
  }

  /**
   * What the copy loop leaves behind, given how the run `r` ended: the sink holds the chunks read
   * before the loop stopped and is closed, it is rolled back only after an `IOException` and
   * committed only on success, and exactly one outcome is reported.
   */
  ghost predicate CopyOutcome(v: SinkView, total: int, body: Body, r: Run)
  {
    var success := r.exit == Returned(true);
    ApplyAll(v, r.effects) == SinkAfterCopy(v, body, r.exit) &&
    Successes(r.effects) == (if success then [total] else []) &&
    Failures(r.effects) == (if success then []
                            else if r.interrupted then [TaskCancelled]
                            else if r.exit.Raised? then [NetworkError]
                            else [FileVerifyError])
  }

  /**
   * The calls after the loop (`TaskCancelled`; rollback and `NetworkError`; `FileVerifyError`;
   * or flush, commit, the final progress report and `onSuccess`) settle the sink.
   */
  lemma LoopEndSink(url: Option<string>, saved: int, total: int, body: Body, w: SinkView)
    ensures var end := LoopEnd(url, saved, total, body);
            ApplyAll(w, end.effects) == Settled(w, end.exit)
  {
    if CancelPoint(body.chunks) < |body.chunks| {
      FailedFacts(url, TaskCancelled, w);
    } else if body.end == ReadFailure {
      RollbackFacts(url, w);
    } else if saved != total {
      FailedFacts(url, FileVerifyError, w);
    } else {
      CommitFacts(saved, total, w);
    }
  }

  /** The reports among the calls that follow the loop: one outcome, chosen by how it ended. */
  lemma LoopEndReports(url: Option<string>, saved: int, total: int, body: Body)
    ensures var end := LoopEnd(url, saved, total, body);
            var success := end.exit == Returned(true);
            Successes(end.effects) == (if success then [total] else []) &&
            Failures(end.effects) == (if success then []
                                      else if end.interrupted then [TaskCancelled]
                                      else if end.exit.Raised? then [NetworkError]
                                      else [FileVerifyError])
  {
    if CancelPoint(body.chunks) < |body.chunks| {
      FailedFacts(url, TaskCancelled, EmptySink);
    } else if body.end == ReadFailure {
      RollbackFacts(url, EmptySink);
    } else if saved != total {
      FailedFacts(url, FileVerifyError, EmptySink);
    } else {
      CommitFacts(saved, total, EmptySink);
    }
  }

  /**
   * The calls of the `try` block in the order the loop and the code after it make them, after a
   * trace `t0`: a cancellation is reported inside the loop.
   */
  lemma TrySteps(url: Option<string>, initial: int, total: int, body: Body, t0: seq<Effect>)
    ensures var m := ChunksWritten(body);
            var cancelled := CancelPoint(body.chunks) < |body.chunks|;
            var end := LoopEnd(url, initial + SumLen(body.chunks, m), total, body);
            t0 + TrySpec(url, initial, total, body).effects ==
              t0 + CopiedEffects(body.chunks, initial, total, m) +
              (if cancelled then [Failed(url, TaskCancelled)] else []) + (if cancelled then [] else end.effects)
  {
  }

  /** The closing calls after a `try` block `e` that followed a trace `t0`. */
  lemma ReleaseSteps(t0: seq<Effect>, e: seq<Effect>)
    ensures t0 + (e + Release) == t0 + e + [CloseInput, CloseSink] + [CloseResponse]
  {
  }

  /** The copy loop leaves the sink as `SinkAfterCopy` says. */
  lemma CopyView(url: Option<string>, initial: int, total: int, body: Body, v: SinkView)
    ensures var r := CopySpec(url, initial, total, body);
            ApplyAll(v, r.effects) == SinkAfterCopy(v, body, r.exit)
  {
    var m := ChunksWritten(body);
    var c := CopiedEffects(body.chunks, initial, total, m);
    var saved := initial + SumLen(body.chunks, m);
    var end := LoopEnd(url, saved, total, body);
    var t := c + end.effects + Release;
    assert CopySpec(url, initial, total, body) == Run(end.exit, t, end.interrupted);
    CopiedView(body.chunks, initial, total, m, v);
    var w := ApplyAll(v, c);
    EndsReleased(c, end.effects, v);
    assert ApplyAll(v, t) == ApplyAll(w, end.effects).(closed := true);
    LoopEndSink(url, saved, total, body, w);
  }

  /** Every way the copy loop can end leaves the sink and the reports as `CopyOutcome` says. */
  lemma CopySink(url: Option<string>, initial: int, total: int, body: Body, v: SinkView)
    ensures CopyOutcome(v, total, body, CopySpec(url, initial, total, body))
  {
    var m := ChunksWritten(body);
    var c := CopiedEffects(body.chunks, initial, total, m);
    var saved := initial + SumLen(body.chunks, m);
    var end := LoopEnd(url, saved, total, body);
    var t := c + end.effects + Release;
    assert CopySpec(url, initial, total, body) == Run(end.exit, t, end.interrupted);
    CopyView(url, initial, total, body, v);
    CopiedReports(body.chunks, initial, total, m);
    EndsReleased(c, end.effects, v);
    LoopEndReports(url, saved, total, body);
  }

  /** The calls after the loop carry no writes; only the commit reports progress, at `saved`. */
  lemma LoopEndOrder(url: Option<string>, saved: int, total: int, body: Body)
    ensures var t := LoopEnd(url, saved, total, body).effects;
            AnnouncedBeforeWrite(t) && ProgressNondecreasing(t) && ProgressWithin(t, saved, saved)
    ensures AnnouncedBeforeWrite(Release) && ProgressNondecreasing(Release) && ProgressWithin(Release, saved, saved)
  {
  }

  /** What the copy loop promises about order, given how far it got. */
  ghost predicate CopyOrderly(initial: int, body: Body, effects: seq<Effect>)
  {
    AnnouncedBeforeWrite(effects) && ProgressNondecreasing(effects) &&
    ProgressWithin(effects, initial, initial + SumLen(body.chunks, ChunksWritten(body))) &&
    |effects| >= 3 && effects[|effects| - 3..] == Release
  }

  /**
   * Every path through the copy loop announces each write, reports progress that never
   * decreases and stays between the resume offset and the bytes saved, and ends by closing
   * the input, the sink and the response.
   */
  lemma CopyOrder(url: Option<string>, initial: int, total: int, body: Body)
    ensures CopyOrderly(initial, body, CopySpec(url, initial, total, body).effects)
  {
    var m := ChunksWritten(body);
    var c := CopiedEffects(body.chunks, initial, total, m);
    var hi := initial + SumLen(body.chunks, m);
    var mid := LoopEnd(url, hi, total, body).effects;
    assert CopySpec(url, initial, total, body).effects == c + mid + Release;
    CopiedOrder(body.chunks, initial, total, m);
    LoopEndOrder(url, hi, total, body);
    ProgressAppend(c, mid, initial, hi, hi);
    AnnouncedAppend(c, mid);
    ProgressAppend(c + mid, Release, initial, hi, hi);
    AnnouncedAppend(c + mid, Release);
    assert (c + mid + Release)[|c + mid + Release| - 3..] == Release;
  }

  // ---------------------------------------------------------------------------------------
  // Whole runs of `processResponse`

  /** The error a run that stops before the body reports, if any. */
  function EarlyFailure(interrupted: bool, hasSink: bool, response: Response, freeBytes: int): seq<ErrorType>
  {
    if interrupted then [TaskCancelled]
    else if !hasSink then [FileVerifyError]
    else if !response.isSuccessful then [NetworkError]
    else if !CheckSpace(freeBytes) then [FullDiskError]
    else []
  }

  /**
   * The effects of a run that stops before opening the body: the first failing check makes its
   * one report (after the rollback for a failed status) and returns false; when all four pass,
   * only the `section[1]` failure throws, and a missing body returns false silently.
   */
  lemma EarlyEffects(interrupted: bool, hasSink: bool, url: Option<string>, initial: int,
                     response: Response, freeBytes: int)
    requires !OpensBody(interrupted, hasSink, response, freeBytes)
    ensures var r := ProcessSpec(interrupted, hasSink, url, initial, response, freeBytes);
            var f := EarlyFailure(interrupted, hasSink, response, freeBytes);
            (r.exit == Returned(false) || r.exit == Raised(IndexOutOfBoundsException)) &&
            (f != [] ==> r.exit == Returned(false)) &&
            (f == [] ==> (r.exit == Raised(IndexOutOfBoundsException) <==> ParseInstanceLength(Some(response)).OutOfBounds?)) &&
            r.interrupted == interrupted &&
            r.effects == (if f == [] then [] else if f == [NetworkError] then [CacheFailed, Failed(url, NetworkError)]
                          else [Failed(url, f[0])]) + [CloseResponse]
  {
  }

  /**
   * A run that stops before opening the body makes at most one report, never a success, and
   * touches the sink only to roll it back after an unsuccessful status.
   */
  lemma EarlyRun(interrupted: bool, hasSink: bool, url: Option<string>, initial: int,
                 response: Response, freeBytes: int, v: SinkView)
    requires !OpensBody(interrupted, hasSink, response, freeBytes)
    ensures var r := ProcessSpec(interrupted, hasSink, url, initial, response, freeBytes);
            var f := EarlyFailure(interrupted, hasSink, response, freeBytes);
            Successes(r.effects) == [] && Failures(r.effects) == f &&
            ApplyAll(v, r.effects) == (if f == [NetworkError] then v.(cacheFailed := true) else v)
  {
    EarlyEffects(interrupted, hasSink, url, initial, response, freeBytes);
    var f := EarlyFailure(interrupted, hasSink, response, freeBytes);
    if f == [] {
      TraceSnoc([], CloseResponse, v);
      assert [] + [CloseResponse] == [CloseResponse];
    } else if f == [NetworkError] {
      RollbackFacts(url, v);
      TraceSnoc([CacheFailed, Failed(url, NetworkError)], CloseResponse, v);
    } else {
      PairFacts(Failed(url, f[0]), CloseResponse, v);
      assert [Failed(url, f[0])] + [CloseResponse] == [Failed(url, f[0]), CloseResponse];
    }
  }

  /** The reports of the copy loop, whatever the sink: one outcome, chosen by how the loop stopped. */
  lemma CopyReports(url: Option<string>, initial: int, total: int, body: Body)
    ensures var r := CopySpec(url, initial, total, body);
            Successes(r.effects) == (if r.exit == Returned(true) then [total] else []) &&
            Failures(r.effects) == (if r.exit == Returned(true) then []
                                    else if r.interrupted then [TaskCancelled]
                                    else if r.exit.Raised? then [NetworkError]
                                    else [FileVerifyError]) &&
            r.effects != [CloseResponse]
  {
    CopySink(url, initial, total, body, EmptySink);
    CopyOrder(url, initial, total, body);
  }

  /** The copy loop ends interrupted only by returning false, and raises only `IOException`. */
  lemma CopyExit(url: Option<string>, initial: int, total: int, body: Body)
    ensures var r := CopySpec(url, initial, total, body);
            (r.interrupted ==> r.exit == Returned(false)) && (r.exit.Raised? ==> r.exit.error == IOException)
  {
  }

  /** The reports of a run that stops before the body, with how it exits. */
  lemma EarlyReports(interrupted: bool, hasSink: bool, url: Option<string>, initial: int,
                     response: Response, freeBytes: int)
    requires !OpensBody(interrupted, hasSink, response, freeBytes)
    ensures var r := ProcessSpec(interrupted, hasSink, url, initial, response, freeBytes);
            var f := EarlyFailure(interrupted, hasSink, response, freeBytes);
            Successes(r.effects) == [] && Failures(r.effects) == f &&
            (r.exit == Returned(false) || r.exit == Raised(IndexOutOfBoundsException)) &&
            (f != [] ==> r.exit == Returned(false)) &&
            (f == [] ==> (r.exit == Raised(IndexOutOfBoundsException) <==> ParseInstanceLength(Some(response)).OutOfBounds?)) &&
            r.interrupted == interrupted &&
            (r.effects == [CloseResponse] <==> f == [])
  {
    EarlyEffects(interrupted, hasSink, url, initial, response, freeBytes);
    EarlyRun(interrupted, hasSink, url, initial, response, freeBytes, EmptySink);
  }

  /** Once the body is opened, the run is the copy loop's. */
  lemma OpenedRun(interrupted: bool, hasSink: bool, url: Option<string>, initial: int,
                  response: Response, freeBytes: int)
    requires OpensBody(interrupted, hasSink, response, freeBytes)
    ensures ProcessSpec(interrupted, hasSink, url, initial, response, freeBytes) ==
            CopySpec(url, initial, ParseInstanceLength(Some(response)).value, response.body.value)
  {
  }

  /**
   * Each run reports exactly one outcome, `onSuccess` or `onFailed`, except the two silent exits
   * (a `Content-Range` with fewer than two `/`-fields, whose `section[1]` throws, and a missing
   * body), whose only effect is closing the response.
   * `onSuccess` is reported exactly when `processResponse` returns true, with the parsed length.
   */
  lemma ReportsOnce(interrupted: bool, hasSink: bool, url: Option<string>, initial: int,
                    response: Response, freeBytes: int)
    ensures var r := ProcessSpec(interrupted, hasSink, url, initial, response, freeBytes);
            |Successes(r.effects)| + |Failures(r.effects)| == (if r.effects == [CloseResponse] then 0 else 1) &&
            (r.exit == Returned(true) <==> Successes(r.effects) != []) &&
            (r.exit == Returned(true) ==> Successes(r.effects) == [ParseInstanceLength(Some(response)).value])
  {
    if OpensBody(interrupted, hasSink, response, freeBytes) {
      var total := ParseInstanceLength(Some(response)).value;
      OpenedRun(interrupted, hasSink, url, initial, response, freeBytes);
      CopyReports(url, initial, total, response.body.value);
    } else {
      EarlyReports(interrupted, hasSink, url, initial, response, freeBytes);
    }
  }

  /**
   * `download` throws `CancellationException` whenever the run reported `TASK_CANCELLED`, which
   * it does exactly when the run ended interrupted; without a late `pause()` it throws it only
   * then. It completes exactly on success, whatever the flag.
   */
  lemma CancellationMatchesReport(interrupted: bool, hasSink: bool, url: Option<string>, initial: int,
                                  response: Response, freeBytes: int, pausedLate: bool)
    ensures var r := ProcessSpec(interrupted, hasSink, url, initial, response, freeBytes);
            var outcome := OutcomeOf(r, pausedLate);
            (r.interrupted <==> Failures(r.effects) == [TaskCancelled]) &&
            (Failures(r.effects) == [TaskCancelled] ==> outcome == Threw(CancellationException)) &&
            (!pausedLate ==> (outcome == Threw(CancellationException) <==> Failures(r.effects) == [TaskCancelled])) &&
            (outcome == Completed <==> r.exit == Returned(true))
  {
    if OpensBody(interrupted, hasSink, response, freeBytes) {
      var total := ParseInstanceLength(Some(response)).value;
      OpenedRun(interrupted, hasSink, url, initial, response, freeBytes);
      CopyCancellation(url, initial, total, response.body.value, pausedLate);
    } else {
      EarlyReports(interrupted, hasSink, url, initial, response, freeBytes);
    }
  }

  /** `CancellationMatchesReport` for a run that opens the body and copies it. */
  lemma CopyCancellation(url: Option<string>, initial: int, total: int, body: Body, pausedLate: bool)
    ensures var r := CopySpec(url, initial, total, body);
            var outcome := OutcomeOf(r, pausedLate);
            (r.interrupted <==> Failures(r.effects) == [TaskCancelled]) &&
            (Failures(r.effects) == [TaskCancelled] ==> outcome == Threw(CancellationException)) &&
            (!pausedLate ==> (outcome == Threw(CancellationException) <==> Failures(r.effects) == [TaskCancelled])) &&
            (outcome == Completed <==> r.exit == Returned(true))
  {
    CopyReports(url, initial, total, body);
    CopyExit(url, initial, total, body);
  }

  /**
   * A `pause()` after the last checkpoint does not stop a body read to its end, but it changes
   * what `download` throws: a length mismatch is reported as `FILE_VERIFY_ERROR`, and
   * `download` then throws `CancellationException`.
   */
  lemma LatePauseAfterVerifyError(url: Option<string>, initial: int, total: int, body: Body)
    requires CancelPoint(body.chunks) == |body.chunks| && body.end == EndOfStream
    requires initial + SumLen(body.chunks, |body.chunks|) != total
    ensures var r := CopySpec(url, initial, total, body);
            Failures(r.effects) == [FileVerifyError] && !r.interrupted &&
            OutcomeOf(r, true) == Threw(CancellationException) && OutcomeOf(r, false) == Threw(PlainException)
  {
    CopyReports(url, initial, total, body);
  }

  /**
   * `processResponse` returns true only when the body was read to its end without a pause and
   * the bytes saved reach the declared length; the final progress report is `(total, total)`,
   * just before `onSuccess`, and no report exceeds the total.
   */
  lemma SuccessMeansComplete(interrupted: bool, hasSink: bool, url: Option<string>,
                             initial: int, response: Response, freeBytes: int)
    requires ProcessSpec(interrupted, hasSink, url, initial, response, freeBytes).exit == Returned(true)
    ensures OpensBody(interrupted, hasSink, response, freeBytes)
    ensures var total := ParseInstanceLength(Some(response)).value;
            var chunks := response.body.value.chunks;
            var r := ProcessSpec(interrupted, hasSink, url, initial, response, freeBytes);
            response.body.value.end == EndOfStream &&
            (forall j :: 0 <= j < |chunks| ==> !chunks[j].pauseRequested) &&
            initial + |Received(chunks, |chunks|)| == total &&
            |r.effects| >= 5 &&
            r.effects[|r.effects| - 5] == Progress(total, total) &&
            r.effects[|r.effects| - 4] == Succeeded(total) &&
            ProgressWithin(r.effects, initial, total)
  {
    if !OpensBody(interrupted, hasSink, response, freeBytes) {
      EarlyEffects(interrupted, hasSink, url, initial, response, freeBytes);
    } else {
      var total := ParseInstanceLength(Some(response)).value;
      var body := response.body.value;
      var chunks := body.chunks;
      OpenedRun(interrupted, hasSink, url, initial, response, freeBytes);
      CopyOrder(url, initial, total, body);
      SumLenCountsReceived(chunks, |chunks|);
      var c := CopiedEffects(chunks, initial, total, |chunks|);
      var t := c + [Flush, CacheSuccess, Progress(total, total), Succeeded(total)] + Release;
      assert ProcessSpec(interrupted, hasSink, url, initial, response, freeBytes).effects == t;
      assert t[|t| - 5] == Progress(total, total) && t[|t| - 4] == Succeeded(total);
    }
  }

  /**
   * The converse: a run that opens the body, sees no pause request, reaches the end of the stream
   * and receives exactly the bytes missing up to the instance length succeeds, and reports that
   * length as its one `onSuccess`.
   */
  lemma CompleteMeansSuccess(interrupted: bool, hasSink: bool, url: Option<string>,
                             initial: int, response: Response, freeBytes: int)
    requires OpensBody(interrupted, hasSink, response, freeBytes)
    requires CancelPoint(response.body.value.chunks) == |response.body.value.chunks|
    requires response.body.value.end == EndOfStream
    requires initial + SumLen(response.body.value.chunks, |response.body.value.chunks|) ==
             ParseInstanceLength(Some(response)).value
    ensures var r := ProcessSpec(interrupted, hasSink, url, initial, response, freeBytes);
            r.exit == Returned(true) &&
            Successes(r.effects) == [ParseInstanceLength(Some(response)).value] &&
            Failures(r.effects) == []
  {
    OpenedRun(interrupted, hasSink, url, initial, response, freeBytes);
    ReportsOnce(interrupted, hasSink, url, initial, response, freeBytes);
  }

  /**
   * What a run leaves in the sink, for a sink whose current length is the resume offset:
   * it is rolled back exactly when `NETWORK_ERROR` is reported (the next attempt starts from 0),
   * committed exactly on success (and then holds the whole resource), and otherwise keeps every
   * byte it had and every byte written, so the next attempt resumes from there.
   */
  lemma SinkAfterRun(interrupted: bool, hasSink: bool, url: Option<string>,
                     response: Response, freeBytes: int, v: SinkView)
    requires !v.cacheFailed && !v.cacheSucceeded
    ensures var r := ProcessSpec(interrupted, hasSink, url, v.CurrentLength(), response, freeBytes);
            var after := ApplyAll(v, r.effects);
            (after.cacheFailed <==> Failures(r.effects) == [NetworkError]) &&
            (after.cacheFailed ==> after.CurrentLength() == 0) &&
            (!after.cacheFailed ==> after.CurrentLength() >= v.CurrentLength() && v.written <= after.written) &&
            (after.cacheSucceeded <==> r.exit == Returned(true)) &&
            (after.cacheSucceeded ==> after.flushed && after.CurrentLength() == ParseInstanceLength(Some(response)).value)
  {
    var initial := v.CurrentLength();
    if OpensBody(interrupted, hasSink, response, freeBytes) {
      var total := ParseInstanceLength(Some(response)).value;
      OpenedRun(interrupted, hasSink, url, initial, response, freeBytes);
      SinkAfterOpened(url, total, response.body.value, v);
    } else {
      EarlyRun(interrupted, hasSink, url, initial, response, freeBytes, v);
      EarlyEffects(interrupted, hasSink, url, initial, response, freeBytes);
    }
  }

  /** The copy loop reports `NETWORK_ERROR` exactly when it ends with an `IOException`. */
  lemma CopyRollbackReported(url: Option<string>, initial: int, total: int, body: Body)
    ensures var r := CopySpec(url, initial, total, body);
            Failures(r.effects) == [NetworkError] <==> r.exit == Raised(IOException)
  {
    CopyReports(url, initial, total, body);
    CopyExit(url, initial, total, body);
  }

  /** `SinkAfterRun` for a run that opens the body and copies it. */
  lemma SinkAfterOpened(url: Option<string>, total: int, body: Body, v: SinkView)
    requires !v.cacheFailed && !v.cacheSucceeded
    ensures var r := CopySpec(url, v.CurrentLength(), total, body);
            var after := ApplyAll(v, r.effects);
            (after.cacheFailed <==> Failures(r.effects) == [NetworkError]) &&
            (after.cacheFailed ==> after.CurrentLength() == 0) &&
            (!after.cacheFailed ==> after.CurrentLength() >= v.CurrentLength() && v.written <= after.written) &&
            (after.cacheSucceeded <==> r.exit == Returned(true)) &&
            (after.cacheSucceeded ==> after.flushed && after.CurrentLength() == total)
  {
    var initial := v.CurrentLength();
    var r := CopySpec(url, initial, total, body);
    CopyView(url, initial, total, body, v);
    CopyRollbackReported(url, initial, total, body);
    var m := ChunksWritten(body);
    var after := ApplyAll(v, r.effects);
    assert after.written == v.written + Received(body.chunks, m);
    assert after.cacheFailed == (r.exit == Raised(IOException));
    assert after.cacheSucceeded == (r.exit == Returned(true));
    if r.exit == Returned(true) {
      assert m == |body.chunks|;
      SumLenCountsReceived(body.chunks, m);
    }
  }

  /**
   * The order of every run: each write is announced by `onDownloadedBytes` just before it,
   * progress never goes down and stays between the resume offset and the bytes saved, and the
   * response is closed last; once the body is opened, input, sink and response are all closed.
   */
  lemma RunOrder(interrupted: bool, hasSink: bool, url: Option<string>, initial: int,
                 response: Response, freeBytes: int)
    ensures var r := ProcessSpec(interrupted, hasSink, url, initial, response, freeBytes);
            AnnouncedBeforeWrite(r.effects) && ProgressNondecreasing(r.effects) &&
            r.effects != [] && r.effects[|r.effects| - 1] == CloseResponse
    ensures var r := ProcessSpec(interrupted, hasSink, url, initial, response, freeBytes);
            OpensBody(interrupted, hasSink, response, freeBytes) ==>
              var body := response.body.value;
              |r.effects| >= 3 && r.effects[|r.effects| - 3..] == Release &&
              ProgressWithin(r.effects, initial, initial + |Received(body.chunks, ChunksWritten(body))|)
    ensures var r := ProcessSpec(interrupted, hasSink, url, initial, response, freeBytes);
            !OpensBody(interrupted, hasSink, response, freeBytes) ==>
              forall i :: 0 <= i < |r.effects| ==> !r.effects[i].Write? && !r.effects[i].Progress?
  {
    if OpensBody(interrupted, hasSink, response, freeBytes) {
      var total := ParseInstanceLength(Some(response)).value;
      var body := response.body.value;
      OpenedRun(interrupted, hasSink, url, initial, response, freeBytes);
      CopyOrder(url, initial, total, body);
      SumLenCountsReceived(body.chunks, ChunksWritten(body));
    } else {
      EarlyEffects(interrupted, hasSink, url, initial, response, freeBytes);
    }
  }

  /**
   * Without a known length (`-1`) a download from a non-negative offset never succeeds: a stream
   * read to its end without a pause or a read failure ends in `FILE_VERIFY_ERROR`.
   */
  lemma MissingLengthNeverSucceeds(interrupted: bool, hasSink: bool, url: Option<string>,
                                   initial: int, response: Response, freeBytes: int)
    requires initial >= 0
    requires ParseInstanceLength(Some(response)) == Length(InvalidFileSize)
    ensures var r := ProcessSpec(interrupted, hasSink, url, initial, response, freeBytes);
            r.exit != Returned(true) &&
            ((OpensBody(interrupted, hasSink, response, freeBytes) &&
              CancelPoint(response.body.value.chunks) == |response.body.value.chunks| &&
              response.body.value.end == EndOfStream) ==> Failures(r.effects) == [FileVerifyError])
  {
    var r := ProcessSpec(interrupted, hasSink, url, initial, response, freeBytes);
    if r.exit == Returned(true) {
      SuccessMeansComplete(interrupted, hasSink, url, initial, response, freeBytes);
    }
    if OpensBody(interrupted, hasSink, response, freeBytes) {
      OpenedRun(interrupted, hasSink, url, initial, response, freeBytes);
      CopySink(url, initial, InvalidFileSize, response.body.value, EmptySink);
    }
  }
}
