/**
 * `ResourceDownloader`: the per-transfer fields, the request builders, `pause`, the size probe,
 * `download` and `processResponse` with its copy loop. The HTTP exchange is given as values
 * (the `Response` record, a transport failure as `None`), free space as a number, the 300 ms
 * throttle and the moments `pause()` is called from another thread as per-chunk flags.
 * Every callback invocation and every call on the sink or the streams is appended to `trace`.
 */
module Downloading {
  import opened Wrappers
  import opened DownloadModel
  import opened CacheSink

  /** How the asynchronous size probe ends: `onFailure`, or `onResponse` with a (nullable) response. */
  datatype ProbeReply = TransportFailure | Answered(response: Option<Response>)

  class ResourceDownloader {
    var url: Option<string>
    var initialSize: nat
    var interrupted: bool
    /** The complete length learned by the last size probe, or -1. */
    var totalFileSize: int
    var outputStream: ResourceOutputStream?
    /** The callbacks invoked and the sink and stream calls made so far, in order. */
    var trace: seq<Effect>

    constructor ()
      ensures url == None && initialSize == 0 && !interrupted
      ensures totalFileSize == InvalidFileSize && outputStream == null && trace == []
    {
      url := None;
      initialSize := 0;
      interrupted := false;
      totalFileSize := InvalidFileSize;
      outputStream := null;
      trace := [];
    }

    /** Invokes a callback, or records a call on a stream. */
    method Emit(e: Effect)
      modifies this`trace
      ensures trace == old(trace) + [e]
    {
      trace := trace + [e];
    }

    /** `pause()`: raises the cancellation flag and touches nothing else. */
    method Pause()
      modifies this`interrupted
      ensures interrupted
    {
      interrupted := true;
    }

    /**
     * `getFileSize`: a size learned earlier is reported at once, and the probe is sent anyway;
     * a transport failure reports -1, a response stores and reports its parsed length, and a
     * `Content-Range` without a second field throws inside `onResponse`, so nothing more is
     * reported and the stored size stays.
     */
    method GetFileSize(u: string, reply: ProbeReply) returns (request: Request, reported: seq<int>)
      modifies this`totalFileSize
      ensures request == Request(u, ProbeRange)
      ensures var cached := if old(totalFileSize) != InvalidFileSize then [old(totalFileSize)] else [];
              match reply
              case TransportFailure =>
                reported == cached + [InvalidFileSize] && totalFileSize == old(totalFileSize)
              case Answered(response) =>
                match ParseInstanceLength(response)
                case Length(n) => reported == cached + [n] && totalFileSize == n
                case OutOfBounds => reported == cached && totalFileSize == old(totalFileSize)
    {
      reported := [];
      if totalFileSize != InvalidFileSize {
        reported := reported + [totalFileSize];
      }
      request := Request(u, ProbeRange);
      match reply
      case TransportFailure =>
        reported := reported + [InvalidFileSize];
      case Answered(response) =>
        var parsed := ParseInstanceLength(response);
        if parsed.Length? {
          totalFileSize := parsed.value;
          reported := reported + [totalFileSize];
        }
    }

    /**
     * `buildDownloadCall`: records the url, clears the cancellation flag, takes the cache stream
     * and resumes from its length (0 without a stream).
     */
    method BuildDownloadCall(u: string, stream: ResourceOutputStream?) returns (request: Request)
      modifies this`url, this`interrupted, this`outputStream, this`initialSize
      ensures url == Some(u) && !interrupted && outputStream == stream
      ensures initialSize == if stream == null then 0 else stream.Length()
      ensures request == Request(u, RangeHeader(initialSize))
    {
      url := Some(u);
      interrupted := false;
      outputStream := stream;
      initialSize := if stream == null then 0 else stream.Length();
      request := Request(u, RangeHeader(initialSize));
    }

    /**
     * `download`: builds the call, executes it (`None` is a transport `IOException`, which
     * propagates without a callback) and turns a false result of `processResponse` into a
     * `CancellationException` when interrupted, or a plain `Exception`. `pausedWhileRequesting`
     * says whether `pause()` was called while the request was in flight, `pausedLate` whether it
     * was called after `processResponse` last looked at the flag (after the last checkpoint of
     * the copy loop, or after the entry check on a path that returns early), where only the
     * check in `download` sees it.
     */
    method Download(u: string, stream: ResourceOutputStream?, pausedWhileRequesting: bool,
                    reply: Option<Response>, freeBytes: int, pausedLate: bool)
      returns (request: Request, outcome: DownloadOutcome)
      modifies this`url, this`interrupted, this`outputStream, this`initialSize, this`trace, stream
      ensures url == Some(u) && outputStream == stream
      ensures initialSize == (if stream == null then 0 else old(stream.Length()))
      ensures request == Request(u, RangeHeader(initialSize))
      ensures reply.None? ==>
                outcome == Threw(IOException) && trace == old(trace) && interrupted == pausedWhileRequesting &&
                (stream != null ==> stream.View() == old(stream.View()))
      ensures reply.Some? ==>
                var run := ProcessSpec(pausedWhileRequesting, stream != null, Some(u), initialSize, reply.value, freeBytes);
                outcome == OutcomeOf(run, pausedLate) && trace == old(trace) + run.effects &&
                interrupted == (run.interrupted || pausedLate) &&
                (stream != null ==> stream.View() == ApplyAll(old(stream.View()), run.effects))
    {
      request := BuildDownloadCall(u, stream);
      if pausedWhileRequesting {
        Pause();
      }
      if reply.None? {
        return request, Threw(IOException);
      }
      var exit := ProcessResponse(reply.value, freeBytes);
      if pausedLate {
        Pause();
      }
      match exit
      case Returned(ok) =>
        if ok {
          outcome := Completed;
        } else if interrupted {
          outcome := Threw(CancellationException);
        } else {
          outcome := Threw(PlainException);
        }
      case Raised(e) =>
        outcome := Threw(e);
    }

    /**
     * `processResponse`: the four checks in order, the length, the body, then the copy loop;
     * `response.use` closes the response last on every path.
     */
    method ProcessResponse(response: Response, freeBytes: int) returns (exit: Exit)
      modifies this`interrupted, this`trace, outputStream
      ensures var run := ProcessSpec(old(interrupted), outputStream != null, url, initialSize, response, freeBytes);
              exit == run.exit && interrupted == run.interrupted && trace == old(trace) + run.effects &&
              (outputStream != null ==> outputStream.View() == ApplyAll(old(outputStream.View()), run.effects))
    {
      if interrupted {
        Emit(Failed(url, TaskCancelled));
        Emit(CloseResponse);
        PairFacts(Failed(url, TaskCancelled), CloseResponse, if outputStream == null then EmptySink else outputStream.View());
        return Returned(false);
      }
      if outputStream == null {
        Emit(Failed(url, FileVerifyError));
        Emit(CloseResponse);
        return Returned(false);
      }
      exit := Receive(response, freeBytes);
    }

    /**
     * `processResponse` once the transfer is known to be live and to have a sink: a failed status
     * rolls the sink back, too little space is reported, a `Content-Range` with fewer than two
     * `/`-fields escapes as an exception, a missing body ends silently, and otherwise the body is copied.
     */
    method Receive(response: Response, freeBytes: int) returns (exit: Exit)
      requires outputStream != null && !interrupted
      modifies this`interrupted, this`trace, outputStream
      ensures var run := ReceiveSpec(url, initialSize, response, freeBytes);
              exit == run.exit && interrupted == run.interrupted && trace == old(trace) + run.effects &&
              outputStream.View() == ApplyAll(old(outputStream.View()), run.effects)
    {
      var sink := outputStream;
      ghost var v0 := sink.View();
      if !response.isSuccessful {
        sink.OnCacheFailed();
        Emit(CacheFailed);
        Emit(Failed(url, NetworkError));
        Emit(CloseResponse);
        RollbackClosed(url, v0);
        return Returned(false);
      }
      if !CheckSpace(freeBytes) {
        Emit(Failed(url, FullDiskError));
        Emit(CloseResponse);
        PairFacts(Failed(url, FullDiskError), CloseResponse, v0);
        return Returned(false);
      }
      var totalLength := ParseInstanceLength(Some(response));
      if totalLength.OutOfBounds? {
        Emit(CloseResponse);
        ResponseClosedOnly(v0);
        return Raised(IndexOutOfBoundsException);
      }
      if response.body.None? {
        Emit(CloseResponse);
        ResponseClosedOnly(v0);
        return Returned(false);
      }
      exit := Copy(response.body.value, totalLength.value);
      Emit(CloseResponse);
      assert ReceiveSpec(url, initialSize, response, freeBytes) ==
             CopySpec(url, initialSize, totalLength.value, response.body.value);
    }

    /**
     * The `try` block of `processResponse` with its `catch` and `finally`: the read loop, the
     * final length check and the commit, or the rollback after a failed read, then closing the
     * body stream and the sink. The response itself is closed by the caller.
     */
    method Copy(body: Body, total: int) returns (exit: Exit)
      requires outputStream != null && !interrupted
      modifies this`interrupted, this`trace, outputStream
      ensures var run := CopySpec(url, initialSize, total, body);
              exit == run.exit && interrupted == run.interrupted && trace + [CloseResponse] == old(trace) + run.effects
      ensures outputStream.View() == ApplyAll(old(outputStream.View()), CopySpec(url, initialSize, total, body).effects)
    {
      ghost var t0 := trace;
      ghost var v0 := outputStream.View();
      exit := Try(body, total);
      ReleaseSteps(t0, TrySpec(url, initialSize, total, body).effects);
      CloseStreams();
      CopyView(url, initialSize, total, body, v0);
    }

    /** The `try` block itself: the read loop, then the end check with its reports. */
    method Try(body: Body, total: int) returns (exit: Exit)
      requires outputStream != null && !interrupted
      modifies this`interrupted, this`trace, outputStream
      ensures var run := TrySpec(url, initialSize, total, body);
              exit == run.exit && interrupted == run.interrupted && trace == old(trace) + run.effects
      ensures outputStream.View() == SinkAfterTry(old(outputStream.View()), body, exit)
    {
      ghost var t0 := trace;
      var savedSize, cancelled, m := ReadLoop(body.chunks, total);
      assert m == ChunksWritten(body);
      exit := FinishCopy(body, savedSize, total, cancelled);
      TrySteps(url, initialSize, total, body, t0);
    }

    /**
     * What follows the read loop inside the `try`: nothing more after a cancellation (the loop
     * has reported it), the
     * rollback and `NetworkError` after a failed read, `FileVerifyError` when the saved length
     * is not the complete length, and otherwise flush, commit, a last progress report and success.
     */
    method FinishCopy(body: Body, savedSize: int, total: int, cancelled: bool) returns (exit: Exit)
      requires outputStream != null
      requires cancelled == (CancelPoint(body.chunks) < |body.chunks|) && interrupted == cancelled
      modifies this`trace, outputStream
      ensures var end := LoopEnd(url, savedSize, total, body);
              exit == end.exit && interrupted == end.interrupted &&
              trace == old(trace) + if cancelled then [] else end.effects
      ensures outputStream.View() == Settled(old(outputStream.View()), exit)
    {
      var sink := outputStream;
      if cancelled {
        exit := Returned(false);
      } else if body.end == ReadFailure {
        sink.OnCacheFailed();
        Emit(CacheFailed);
        Emit(Failed(url, NetworkError));
        exit := Raised(IOException);
      } else if savedSize != total {
        Emit(Failed(url, FileVerifyError));
        exit := Returned(false);
      } else {
        sink.Flush();
        Emit(Flush);
        sink.OnCacheSuccess();
        Emit(CacheSuccess);
        Emit(Progress(savedSize, total));
        Emit(Succeeded(total));
        exit := Returned(true);
      }
    }

    /**
     * The `while (true)` read loop: each chunk is announced, written and added to `savedSize`,
     * progress is reported when the throttle allows, and the loop stops with `TaskCancelled` at
     * the first checkpoint that sees a pause. It ends having written the chunks up to that one,
     * or all of them, and `savedSize` is the resume offset plus their length.
     */
    method ReadLoop(chunks: seq<Read>, total: int) returns (savedSize: int, cancelled: bool, ghost m: nat)
      requires outputStream != null && !interrupted
      modifies this`interrupted, this`trace, outputStream
      ensures cancelled == (CancelPoint(chunks) < |chunks|) && interrupted == cancelled
      ensures m == if cancelled then CancelPoint(chunks) + 1 else |chunks|
      ensures savedSize == initialSize + SumLen(chunks, m)
      ensures trace == old(trace) + CopiedEffects(chunks, initialSize, total, m) +
                       (if cancelled then [Failed(url, TaskCancelled)] else [])
      ensures outputStream.written == old(outputStream.written) + Received(chunks, m)
      ensures outputStream.View() == old(outputStream.View()).(written := outputStream.written)
    {
      var sink := outputStream;
      ghost var t0 := trace;
      ghost var v0 := sink.View();
      savedSize := initialSize;
      cancelled := false;
      var i := 0;
      while i < |chunks|
        invariant 0 <= i <= |chunks|
        invariant i <= CancelPoint(chunks)
        invariant !interrupted
        invariant savedSize == initialSize + SumLen(chunks, i)
        invariant sink.written == v0.written + Received(chunks, i)
        invariant trace == t0 + CopiedEffects(chunks, initialSize, total, i)
        invariant sink.View() == v0.(written := sink.written)
      {
        var stop;
        savedSize, stop := Iteration(chunks, i, savedSize, total, t0, v0);
        CancelPointStep(chunks, i);
        if stop {
          return savedSize, true, i + 1;
        }
        i := i + 1;
      }
      m := i;
    }

    /**
     * One pass of the read loop over chunk `i`, after the passes over the chunks before it, which
     * left the trace `t0` followed by their calls and the sink `v0` followed by their bytes.
     */
    method Iteration(chunks: seq<Read>, i: nat, saved: int, total: int, ghost t0: seq<Effect>, ghost v0: SinkView)
      returns (savedSize: int, stop: bool)
      requires i < |chunks| && outputStream != null && !interrupted
      requires saved == initialSize + SumLen(chunks, i)
      requires trace == t0 + CopiedEffects(chunks, initialSize, total, i)
      requires outputStream.written == v0.written + Received(chunks, i)
      requires outputStream.View() == v0.(written := outputStream.written)
      modifies this`interrupted, this`trace, outputStream
      ensures stop == chunks[i].pauseRequested && interrupted == stop
      ensures savedSize == initialSize + SumLen(chunks, i + 1)
      ensures trace == t0 + CopiedEffects(chunks, initialSize, total, i + 1) +
                       (if stop then [Failed(url, TaskCancelled)] else [])
      ensures outputStream.written == v0.written + Received(chunks, i + 1)
      ensures outputStream.View() == v0.(written := outputStream.written)
    {
      CopiedStep(chunks, initialSize, total, i);
      savedSize := TakeChunk(chunks[i], saved, total);
      assert trace == t0 + CopiedEffects(chunks, initialSize, total, i + 1) by {
        assert t0 + CopiedEffects(chunks, initialSize, total, i) + ChunkEffects(chunks[i], savedSize, total) ==
               t0 + (CopiedEffects(chunks, initialSize, total, i) + ChunkEffects(chunks[i], savedSize, total));
      }
      stop := Checkpoint(chunks[i]);
    }

    /**
     * One pass of the loop up to the cancellation checkpoint: `onDownloadedBytes`, the write,
     * the new `savedSize`, and `onProgress` when the throttle allows.
     */
    method TakeChunk(read: Read, saved: int, total: int) returns (savedSize: int)
      requires outputStream != null
      modifies this`trace, outputStream
      ensures savedSize == saved + |read.bytes|
      ensures trace == old(trace) + ChunkEffects(read, savedSize, total)
      ensures outputStream.written == old(outputStream.written) + read.bytes
      ensures outputStream.View() == old(outputStream.View()).(written := outputStream.written)
    {
      Emit(DownloadedBytes(|read.bytes|));
      outputStream.Write(read.bytes);
      Emit(Write(read.bytes));
      savedSize := saved + |read.bytes|;
      if read.timerElapsed {
        Emit(Progress(savedSize, total));
      }
    }

    /**
     * The cancellation checkpoint after a chunk: a `pause()` that arrived by then is seen, and
     * the loop reports `TaskCancelled` and stops.
     */
    method Checkpoint(read: Read) returns (stop: bool)
      requires !interrupted
      modifies this`interrupted, this`trace
      ensures stop == read.pauseRequested && interrupted == stop
      ensures trace == old(trace) + if stop then [Failed(url, TaskCancelled)] else []
    {
      if read.pauseRequested {
        Pause();
      }
      stop := interrupted;
      if interrupted {
        Emit(Failed(url, TaskCancelled));
      }
    }

    /** The `finally` block: close the body's input stream, then the sink. */
    method CloseStreams()
      requires outputStream != null
      modifies this`trace, outputStream
      ensures trace == old(trace) + [CloseInput, CloseSink]
      ensures outputStream.View() == old(outputStream.View()).(closed := true)
    {
      Emit(CloseInput);
      outputStream.Close();
      Emit(CloseSink);
    }
  }
}
