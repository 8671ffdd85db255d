# ytkresourcecache downloader, modelled in Dafny

This project models the download side of the `ytkresourcecache` Android library: the
`ResourceDownloader` class and the `getExtension` helper of `FileNameUtils`.

`ResourceDownloader` fetches one url over HTTP with a `Range: bytes=<offset>-` header. The
offset is the length of the partial file the cache writer already holds for that url. The
downloader copies the response body into the cache writer's stream, chunk by chunk, calling
`onDownloadedBytes` before each write and a throttled `onProgress` after it. How a run ends
decides what follows:

- success: the sink is flushed and committed (`onCacheSuccess`), then `onProgress(total, total)`
  and `onSuccess(total)` are called;
- an unsuccessful HTTP status, or an `IOException` while reading the body: the sink is rolled
  back (`onCacheFailed`) first, then `onFailed(NETWORK_ERROR)` is called;
- a pause, too little free space or a length mismatch: only `onFailed` is called, with
  `TASK_CANCELLED`, `FULL_DISK_ERROR` or `FILE_VERIFY_ERROR`, and the sink keeps what it holds;
- a `Content-Range` with fewer than two `/`-separated fields once trailing empty ones are dropped
  (`section[1]` throws) or a missing body: no callback at all. A second field that is not a
  number gives the length -1: the body is still copied, and `FILE_VERIFY_ERROR` follows.

`pause()`, called from another thread, raises a flag that the copy loop checks after each chunk
and that `download` reads once more to choose the exception it throws. A separate
`getFileSize` sends a `bytes=0-5` probe and reads the complete length from the `Content-Range`
header.

Files:

- `wrappers.dfy`: `Option`.
- `kotlin_text.dfy`: the Kotlin/JVM string operations the code relies on. These are
  `lastIndexOf`, `split` followed by `dropLastWhile`, `Long.toString` and `String.toLong`.
- `file_name_utils.dfy`: `getExtension` and what it promises.
- `download_model.dfy`: the values the downloader works with, and the pure specification
  `ProcessSpec` of `processResponse`. For one response, `ProcessSpec` gives every callback
  invocation and every call on the sink or a stream, in order (a trace of `Effect`s). It also
  gives how the call exits and whether the download ends interrupted. The file's lemmas state
  what that behaviour promises.
- `cache_sink.dfy`: the cache writer's stream, as a class that records the downloader's calls on it.
- `resource_downloader.dfy`: the class `ResourceDownloader`, with its fields and imperative
  methods, proved to make exactly the calls `ProcessSpec` prescribes.

The environment is given as values:

- the HTTP response, as a `Response` record;
- each successful read, as a `Read` holding:
  - its bytes;
  - whether the 300 ms progress throttle had elapsed;
  - whether `pause()` had been called by the following checkpoint;
- how the body ends: end of stream, or an `IOException` from the next read;
- the free space, as a number of bytes.

## Model

| member | source | states |
|---|---|---|
| KotlinText.LastIndexOf | ytkresourcecache/src/main/kotlin/com/fenbi/android/ytkresourcecache/FileNameUtils.kt:17 | the result is -1 or an index of `c`, and no `c` occurs after it |
| KotlinText.Split | ytkresourcecache/src/main/kotlin/com/fenbi/android/ytkresourcecache/downloader/ResourceDownloader.kt:181 | `split("/")` yields at least one field and no field contains the separator |
| KotlinText.JoinSplit | ytkresourcecache/src/main/kotlin/com/fenbi/android/ytkresourcecache/downloader/ResourceDownloader.kt:181 | joining the fields of `split` with the separator gives back the original string |
| KotlinText.SplitWithoutSeparator | ytkresourcecache/src/main/kotlin/com/fenbi/android/ytkresourcecache/downloader/ResourceDownloader.kt:181 | a string without the separator splits into itself alone |
| KotlinText.SplitAtFirst | ytkresourcecache/src/main/kotlin/com/fenbi/android/ytkresourcecache/downloader/ResourceDownloader.kt:181 | the text before the first separator is the first field, and the rest splits on its own |
| KotlinText.DropTrailingEmpty | ytkresourcecache/src/main/kotlin/com/fenbi/android/ytkresourcecache/downloader/ResourceDownloader.kt:181 | `dropLastWhile { it.isEmpty() }` keeps a prefix, drops only empty fields and leaves no empty field last |
| KotlinText.NatToDecimal | ytkresourcecache/src/main/kotlin/com/fenbi/android/ytkresourcecache/downloader/ResourceDownloader.kt:78 | a non-empty string of digits without leading zeros |
| KotlinText.DecimalRoundTrip | ytkresourcecache/src/main/kotlin/com/fenbi/android/ytkresourcecache/downloader/ResourceDownloader.kt:78 | reading the printed digits of `n` gives `n` |
| KotlinText.LongToString | ytkresourcecache/src/main/kotlin/com/fenbi/android/ytkresourcecache/downloader/ResourceDownloader.kt:78 | a leading minus exactly for negative values, digits after it |
| KotlinText.ParseLong | ytkresourcecache/src/main/kotlin/com/fenbi/android/ytkresourcecache/downloader/ResourceDownloader.kt:182 | `toLong()` succeeds only on an optionally signed, non-empty digit string in the 64-bit range (a lone sign is refused), and then yields its signed decimal value |
| KotlinText.ParseLongAccepts | ytkresourcecache/src/main/kotlin/com/fenbi/android/ytkresourcecache/downloader/ResourceDownloader.kt:182 | conversely, every in-range string of digits with an optional `+` or `-` parses, to its signed value |
| KotlinText.ParseLongExamples | ytkresourcecache/src/main/kotlin/com/fenbi/android/ytkresourcecache/downloader/ResourceDownloader.kt:182 | `+5` and `007` parse to 5 and 7; `-`, `+`, the empty string and `5-` throw `NumberFormatException` |
| KotlinText.ParseLongToString | ytkresourcecache/src/main/kotlin/com/fenbi/android/ytkresourcecache/downloader/ResourceDownloader.kt:182 | parsing a printed `Long` gives back the same `Long` |
| FileNameUtils.GetExtension | ytkresourcecache/src/main/kotlin/com/fenbi/android/ytkresourcecache/FileNameUtils.kt:16-26 | null without a slash; a non-null extension has no dot or slash, and the url is some prefix, a dot, then the extension |
| FileNameUtils.ExtensionFollowsLastSegmentDot | ytkresourcecache/src/main/kotlin/com/fenbi/android/ytkresourcecache/FileNameUtils.kt:16-26 | a non-null extension follows a dot, and a slash occurs before that dot |
| FileNameUtils.ExtensionOfDecomposition | ytkresourcecache/src/main/kotlin/com/fenbi/android/ytkresourcecache/FileNameUtils.kt:16-26 | conversely, prefix-with-slash + "." + a suffix free of dots and slashes always has that suffix as its extension |
| FileNameUtils.EarlierDotIgnored | ytkresourcecache/src/main/kotlin/com/fenbi/android/ytkresourcecache/FileNameUtils.kt:21-24 | a dot before the last slash does not count: a last segment without a dot gives null |
| FileNameUtils.ExtensionExamples | ytkresourcecache/src/main/kotlin/com/fenbi/android/ytkresourcecache/FileNameUtils.kt:16-26 | `x/a.tar.gz` gives `gz` and `x/a.` gives the empty extension |
| FileNameUtils.NoExtensionExamples | ytkresourcecache/src/main/kotlin/com/fenbi/android/ytkresourcecache/FileNameUtils.kt:16-26 | `a.b/c` and `abc` give null |
| CacheSink.ResourceOutputStream.constructor | ytkresourcecache/src/main/kotlin/com/fenbi/android/ytkresourcecache/downloader/ResourceDownloader.kt:74-75 | a fresh stream over a partial file reports that file's length |
| CacheSink.ResourceOutputStream.Write | ytkresourcecache/src/main/kotlin/com/fenbi/android/ytkresourcecache/downloader/ResourceDownloader.kt:117 | the chunk is appended to the bytes written, and nothing else changes |
| CacheSink.ResourceOutputStream.Flush | ytkresourcecache/src/main/kotlin/com/fenbi/android/ytkresourcecache/downloader/ResourceDownloader.kt:133 | the stream is flushed, and nothing else changes |
| CacheSink.ResourceOutputStream.Close | ytkresourcecache/src/main/kotlin/com/fenbi/android/ytkresourcecache/downloader/ResourceDownloader.kt:144 | the stream is closed, and nothing else changes |
| CacheSink.ResourceOutputStream.OnCacheSuccess | ytkresourcecache/src/main/kotlin/com/fenbi/android/ytkresourcecache/downloader/ResourceDownloader.kt:134 | the partial file is committed, and nothing else changes |
| CacheSink.ResourceOutputStream.OnCacheFailed | ytkresourcecache/src/main/kotlin/com/fenbi/android/ytkresourcecache/downloader/ResourceDownloader.kt:95 | the partial file is discarded: the next attempt resumes from 0 |
| DownloadModel.RangeHeader | ytkresourcecache/src/main/kotlin/com/fenbi/android/ytkresourcecache/downloader/ResourceDownloader.kt:78 | the main request's Range value `bytes=<initialSize>-` |
| DownloadModel.CheckSpace | ytkresourcecache/src/main/kotlin/com/fenbi/android/ytkresourcecache/downloader/ResourceDownloader.kt:191-194 | the free-space gate as intended: at least 20 MiB of free bytes |
| DownloadModel.CheckSpaceAsWritten | ytkresourcecache/src/main/kotlin/com/fenbi/android/ytkresourcecache/downloader/ResourceDownloader.kt:193 | the gate as written: the product of the two `Int`s wraps to 32 bits before the comparison |
| DownloadModel.ChunkEffects | ytkresourcecache/src/main/kotlin/com/fenbi/android/ytkresourcecache/downloader/ResourceDownloader.kt:116-122 | the calls of one iteration: `onDownloadedBytes`, the write, then `onProgress` when the throttle allows |
| DownloadModel.CopiedEffects | ytkresourcecache/src/main/kotlin/com/fenbi/android/ytkresourcecache/downloader/ResourceDownloader.kt:111-127 | the calls of the loop's first `k` iterations, each reporting progress at the `savedSize` it reached |
| DownloadModel.LoopEnd | ytkresourcecache/src/main/kotlin/com/fenbi/android/ytkresourcecache/downloader/ResourceDownloader.kt:123-141 | the four ways the `try` block ends after the last chunk: cancelled, read failure, length mismatch, success |
| DownloadModel.TrySpec | ytkresourcecache/src/main/kotlin/com/fenbi/android/ytkresourcecache/downloader/ResourceDownloader.kt:106-141 | the `try` block with its `catch`: the loop's calls, then those of `LoopEnd` |
| DownloadModel.CopySpec | ytkresourcecache/src/main/kotlin/com/fenbi/android/ytkresourcecache/downloader/ResourceDownloader.kt:106-146 | the `try` block, then the closes of the `finally` block and of `response.use` |
| DownloadModel.ProcessSpec | ytkresourcecache/src/main/kotlin/com/fenbi/android/ytkresourcecache/downloader/ResourceDownloader.kt:83-147 | `processResponse` branch by branch: the cancelled and no-sink checks, then `ReceiveSpec` |
| DownloadModel.ReceiveSpec | ytkresourcecache/src/main/kotlin/com/fenbi/android/ytkresourcecache/downloader/ResourceDownloader.kt:93-146 | the status, space, length and body checks in order, then `CopySpec` |
| DownloadModel.OutcomeOf | ytkresourcecache/src/main/kotlin/com/fenbi/android/ytkresourcecache/downloader/ResourceDownloader.kt:59-64 | how `download` ends: completed on true, else `CancellationException` when the flag is raised and `Exception` otherwise; exceptions pass through |
| DownloadModel.RangeHeaderRoundTrip | ytkresourcecache/src/main/kotlin/com/fenbi/android/ytkresourcecache/downloader/ResourceDownloader.kt:78 | `bytes=<offset>-` carries the offset: it parses back from between `bytes=` and the final `-` |
| DownloadModel.CheckSpaceBoundary | ytkresourcecache/src/main/kotlin/com/fenbi/android/ytkresourcecache/downloader/ResourceDownloader.kt:191-194 | exactly 20 MiB free passes the gate, one byte less does not |
| DownloadModel.ToInt32 | ytkresourcecache/src/main/kotlin/com/fenbi/android/ytkresourcecache/downloader/ResourceDownloader.kt:193 | the result is in the 32-bit range, differs from the input by a multiple of 2^32 (Java `Int` wrap-around), and equals the input whenever the input already is |
| DownloadModel.CheckSpaceAsWrittenBelowTwoGiB | ytkresourcecache/src/main/kotlin/com/fenbi/android/ytkresourcecache/downloader/ResourceDownloader.kt:193 | below 2 GiB the `Int` product does not wrap, and the written gate agrees with the intended one |
| DownloadModel.CheckSpaceAsWrittenRefusesTwoToFourGiB | ytkresourcecache/src/main/kotlin/com/fenbi/android/ytkresourcecache/downloader/ResourceDownloader.kt:193 | with 2 to 4 GiB free the written gate refuses, although there is enough space |
| DownloadModel.CheckSpaceAsWrittenFourGiBExample | ytkresourcecache/src/main/kotlin/com/fenbi/android/ytkresourcecache/downloader/ResourceDownloader.kt:193 | 1,048,576 blocks of 4096 bytes wrap to 0 and are refused |
| DownloadModel.ParseInstanceLength | ytkresourcecache/src/main/kotlin/com/fenbi/android/ytkresourcecache/downloader/ResourceDownloader.kt:176-189 | the out-of-bounds failure needs a header; any length other than -1 needs a header with a slash; lengths are -1 or a 64-bit value |
| DownloadModel.InstanceLengthUnknown | ytkresourcecache/src/main/kotlin/com/fenbi/android/ytkresourcecache/downloader/ResourceDownloader.kt:177-179 | no response or no `Content-Range` gives -1 |
| DownloadModel.InstanceLengthIsSecondField | ytkresourcecache/src/main/kotlin/com/fenbi/android/ytkresourcecache/downloader/ResourceDownloader.kt:181-185 | for `p/q…` the result depends on the second field alone: its value when it is a number, else -1 |
| DownloadModel.InstanceLengthOfWellFormed | ytkresourcecache/src/main/kotlin/com/fenbi/android/ytkresourcecache/downloader/ResourceDownloader.kt:181-182 | `bytes a-b/<total>` yields the total |
| DownloadModel.InstanceLengthOfStar | ytkresourcecache/src/main/kotlin/com/fenbi/android/ytkresourcecache/downloader/ResourceDownloader.kt:182-184 | `bytes 0-5/*` yields -1 (the `NumberFormatException` is caught) |
| DownloadModel.InstanceLengthOutOfBounds | ytkresourcecache/src/main/kotlin/com/fenbi/android/ytkresourcecache/downloader/ResourceDownloader.kt:181-182 | a header without a slash, or with nothing after it, has no `section[1]` and throws |
| DownloadModel.InstanceLengthOfFields | ytkresourcecache/src/main/kotlin/com/fenbi/android/ytkresourcecache/downloader/ResourceDownloader.kt:176-188 | with a header, the parse throws exactly when fewer than two fields survive dropping trailing empty ones; otherwise it yields the second field's value, or -1 when that is not a number |
| DownloadModel.InstanceLengthEmptySecondField | ytkresourcecache/src/main/kotlin/com/fenbi/android/ytkresourcecache/downloader/ResourceDownloader.kt:181-182 | an empty second field (`p//rest`) gives -1 when a non-empty field follows, and throws when none does |
| DownloadModel.InstanceLengthEmptySecondFieldExamples | ytkresourcecache/src/main/kotlin/com/fenbi/android/ytkresourcecache/downloader/ResourceDownloader.kt:181-182 | `a//5` gives -1 and `a//` throws |
| DownloadModel.SumLenCountsReceived | ytkresourcecache/src/main/kotlin/com/fenbi/android/ytkresourcecache/downloader/ResourceDownloader.kt:117-118 | `savedSize` grows by exactly the number of bytes written |
| DownloadModel.CancelPoint | ytkresourcecache/src/main/kotlin/com/fenbi/android/ytkresourcecache/downloader/ResourceDownloader.kt:123-126 | the first checkpoint that sees a pause: no earlier chunk saw one |
| DownloadModel.CancelPointStep | ytkresourcecache/src/main/kotlin/com/fenbi/android/ytkresourcecache/downloader/ResourceDownloader.kt:123-126 | once no earlier checkpoint saw a pause, the loop stops at chunk `i` exactly when its checkpoint sees one |
| DownloadModel.ChunkView | ytkresourcecache/src/main/kotlin/com/fenbi/android/ytkresourcecache/downloader/ResourceDownloader.kt:116-122 | one iteration only appends its chunk to the sink |
| DownloadModel.ChunkOrder | ytkresourcecache/src/main/kotlin/com/fenbi/android/ytkresourcecache/downloader/ResourceDownloader.kt:116-122 | one iteration announces its write, and reports progress only at the new `savedSize` |
| DownloadModel.CopiedView | ytkresourcecache/src/main/kotlin/com/fenbi/android/ytkresourcecache/downloader/ResourceDownloader.kt:111-127 | the loop appends exactly the received bytes, in order, to the sink |
| DownloadModel.CopiedQuiet | ytkresourcecache/src/main/kotlin/com/fenbi/android/ytkresourcecache/downloader/ResourceDownloader.kt:111-122 | no call inside the loop's uncancelled iterations is `onFailed` or `onSuccess` |
| DownloadModel.CopiedReports | ytkresourcecache/src/main/kotlin/com/fenbi/android/ytkresourcecache/downloader/ResourceDownloader.kt:111-122 | those iterations report no outcome |
| DownloadModel.CopiedOrder | ytkresourcecache/src/main/kotlin/com/fenbi/android/ytkresourcecache/downloader/ResourceDownloader.kt:111-127 | each write is announced just before it; progress never decreases and stays between the offset and the bytes saved |
| DownloadModel.ReleaseFacts | ytkresourcecache/src/main/kotlin/com/fenbi/android/ytkresourcecache/downloader/ResourceDownloader.kt:142-146 | the closing calls report nothing and only close the sink |
| DownloadModel.RollbackFacts | ytkresourcecache/src/main/kotlin/com/fenbi/android/ytkresourcecache/downloader/ResourceDownloader.kt:139-140 | the catch block reports `NETWORK_ERROR` once and only rolls the sink back |
| DownloadModel.CommitFacts | ytkresourcecache/src/main/kotlin/com/fenbi/android/ytkresourcecache/downloader/ResourceDownloader.kt:133-136 | the commit path reports success once with the total, and only flushes and commits the sink |
| DownloadModel.LoopEndSink | ytkresourcecache/src/main/kotlin/com/fenbi/android/ytkresourcecache/downloader/ResourceDownloader.kt:123-141 | after the loop, the sink is committed exactly on success and rolled back exactly after an `IOException` |
| DownloadModel.LoopEndReports | ytkresourcecache/src/main/kotlin/com/fenbi/android/ytkresourcecache/downloader/ResourceDownloader.kt:123-141 | after the loop, exactly one outcome is reported, chosen by how the loop stopped |
| DownloadModel.LoopEndOrder | ytkresourcecache/src/main/kotlin/com/fenbi/android/ytkresourcecache/downloader/ResourceDownloader.kt:128-145 | the calls after the loop carry no writes, and report progress only at the final `savedSize` |
| DownloadModel.CopyView | ytkresourcecache/src/main/kotlin/com/fenbi/android/ytkresourcecache/downloader/ResourceDownloader.kt:106-145 | the copy leaves the chunks read before it stopped in the sink, settled and closed |
| DownloadModel.CopySink | ytkresourcecache/src/main/kotlin/com/fenbi/android/ytkresourcecache/downloader/ResourceDownloader.kt:106-145 | every way the copy ends: that sink, success reported exactly on `true` with the total, else exactly one matching `onFailed` |
| DownloadModel.CopyOrder | ytkresourcecache/src/main/kotlin/com/fenbi/android/ytkresourcecache/downloader/ResourceDownloader.kt:106-146 | every copy path announces each write, keeps progress ordered and bounded, and ends by closing the input, the sink and the response |
| DownloadModel.EarlyEffects | ytkresourcecache/src/main/kotlin/com/fenbi/android/ytkresourcecache/downloader/ResourceDownloader.kt:85-104 | a run stopping before the body makes the matching report (with a rollback for a failed status), then closes the response |
| DownloadModel.EarlyRun | ytkresourcecache/src/main/kotlin/com/fenbi/android/ytkresourcecache/downloader/ResourceDownloader.kt:85-104 | such a run never reports success, and touches the sink only to roll back after a failed status |
| DownloadModel.EarlyReports | ytkresourcecache/src/main/kotlin/com/fenbi/android/ytkresourcecache/downloader/ResourceDownloader.kt:85-104 | such a run returns false whenever the check order names an error; otherwise it throws out-of-bounds exactly when `parseInstanceLength` does (and returns false for a missing body); it is silent exactly when no error is named, and never changes the pause flag |
| DownloadModel.CopyReports | ytkresourcecache/src/main/kotlin/com/fenbi/android/ytkresourcecache/downloader/ResourceDownloader.kt:106-145 | the copy reports exactly one outcome, whatever the sink |
| DownloadModel.CopyExit | ytkresourcecache/src/main/kotlin/com/fenbi/android/ytkresourcecache/downloader/ResourceDownloader.kt:123-141 | the copy ends interrupted only by returning false, and raises only `IOException` |
| DownloadModel.OpenedRun | ytkresourcecache/src/main/kotlin/com/fenbi/android/ytkresourcecache/downloader/ResourceDownloader.kt:103-105 | once the body is opened, the run is the copy of that body against the parsed length |
| DownloadModel.ReportsOnce | ytkresourcecache/src/main/kotlin/com/fenbi/android/ytkresourcecache/downloader/ResourceDownloader.kt:83-147 | each run reports exactly one outcome, except the two silent exits; `onSuccess` is reported exactly when true is returned, with the parsed length |
| DownloadModel.CancellationMatchesReport | ytkresourcecache/src/main/kotlin/com/fenbi/android/ytkresourcecache/downloader/ResourceDownloader.kt:59-64 | `download` throws `CancellationException` whenever `TASK_CANCELLED` was reported, and without a late `pause()` only then; it completes exactly on success |
| DownloadModel.LatePauseAfterVerifyError | ytkresourcecache/src/main/kotlin/com/fenbi/android/ytkresourcecache/downloader/ResourceDownloader.kt:60 | a `pause()` after the last checkpoint: a length mismatch reports `FILE_VERIFY_ERROR`, yet `download` throws `CancellationException` (a plain `Exception` without that pause) |
| DownloadModel.CopyCancellation | ytkresourcecache/src/main/kotlin/com/fenbi/android/ytkresourcecache/downloader/ResourceDownloader.kt:123-126 | the same for a run that copies the body |
| DownloadModel.SuccessMeansComplete | ytkresourcecache/src/main/kotlin/com/fenbi/android/ytkresourcecache/downloader/ResourceDownloader.kt:128-137 | success means: the body was read to its end, no pause was seen, and offset + bytes equals the total; `onProgress(total, total)` comes just before `onSuccess` |
| DownloadModel.CompleteMeansSuccess | ytkresourcecache/src/main/kotlin/com/fenbi/android/ytkresourcecache/downloader/ResourceDownloader.kt:128-137 | conversely, a run that opens the body, sees no pause, reaches the end of the stream and receives exactly the missing bytes returns true and reports `onSuccess(total)` and no failure |
| DownloadModel.SinkAfterRun | ytkresourcecache/src/main/kotlin/com/fenbi/android/ytkresourcecache/downloader/ResourceDownloader.kt:83-147 | rollback exactly when `NETWORK_ERROR` is reported (resume from 0); commit exactly on success, with the whole resource; otherwise every byte is kept for the next resume |
| DownloadModel.CopyRollbackReported | ytkresourcecache/src/main/kotlin/com/fenbi/android/ytkresourcecache/downloader/ResourceDownloader.kt:138-141 | the copy reports `NETWORK_ERROR` exactly when it ends with an `IOException` |
| DownloadModel.SinkAfterOpened | ytkresourcecache/src/main/kotlin/com/fenbi/android/ytkresourcecache/downloader/ResourceDownloader.kt:106-145 | `SinkAfterRun` for a run that copies the body |
| DownloadModel.RunOrder | ytkresourcecache/src/main/kotlin/com/fenbi/android/ytkresourcecache/downloader/ResourceDownloader.kt:83-147 | every run: writes announced, progress nondecreasing and bounded, response closed last, input and sink closed once the body is opened, no writes or progress otherwise |
| DownloadModel.MissingLengthNeverSucceeds | ytkresourcecache/src/main/kotlin/com/fenbi/android/ytkresourcecache/downloader/ResourceDownloader.kt:128-132 | with length -1 a download never succeeds; a complete read ends in `FILE_VERIFY_ERROR` |
| Downloading.ResourceDownloader.constructor | ytkresourcecache/src/main/kotlin/com/fenbi/android/ytkresourcecache/downloader/ResourceDownloader.kt:20-24 | no url, offset 0, not interrupted, size -1, no stream |
| Downloading.ResourceDownloader.Pause | ytkresourcecache/src/main/kotlin/com/fenbi/android/ytkresourcecache/downloader/ResourceDownloader.kt:149-151 | raises the flag and changes nothing else |
| Downloading.ResourceDownloader.GetFileSize | ytkresourcecache/src/main/kotlin/com/fenbi/android/ytkresourcecache/downloader/ResourceDownloader.kt:32-53 | a known size is reported first, and the `bytes=0-5` probe is sent anyway; a failure reports -1; a response stores and reports its length; a throwing parse reports nothing more |
| Downloading.ResourceDownloader.BuildDownloadCall | ytkresourcecache/src/main/kotlin/com/fenbi/android/ytkresourcecache/downloader/ResourceDownloader.kt:71-81 | records the url, clears the flag, resumes from the stream's length (0 without one) in the Range header |
| Downloading.ResourceDownloader.Download | ytkresourcecache/src/main/kotlin/com/fenbi/android/ytkresourcecache/downloader/ResourceDownloader.kt:55-69 | a transport failure throws with no callback and no change to the sink; otherwise the trace and sink are those of `ProcessSpec`, and the flag read at line 60, raised by the run or by a late `pause()`, chooses the exception |
| Downloading.ResourceDownloader.ProcessResponse | ytkresourcecache/src/main/kotlin/com/fenbi/android/ytkresourcecache/downloader/ResourceDownloader.kt:83-147 | exit, flag, trace and sink are exactly as `ProcessSpec` prescribes |
| Downloading.ResourceDownloader.Receive | ytkresourcecache/src/main/kotlin/com/fenbi/android/ytkresourcecache/downloader/ResourceDownloader.kt:93-146 | the status, space, length and body checks in order, then the copy, as `ReceiveSpec` prescribes |
| Downloading.ResourceDownloader.Copy | ytkresourcecache/src/main/kotlin/com/fenbi/android/ytkresourcecache/downloader/ResourceDownloader.kt:106-145 | the try block, the catch and the finally make the calls of `CopySpec` and leave the sink as it says |
| Downloading.ResourceDownloader.Try | ytkresourcecache/src/main/kotlin/com/fenbi/android/ytkresourcecache/downloader/ResourceDownloader.kt:106-141 | the loop and the end check: the chunks read before it stopped are in the sink, settled by the exit |
| Downloading.ResourceDownloader.FinishCopy | ytkresourcecache/src/main/kotlin/com/fenbi/android/ytkresourcecache/downloader/ResourceDownloader.kt:128-141 | after the loop: nothing more once cancelled, rollback on a read failure, verify error on a length mismatch, else commit and success |
| Downloading.ResourceDownloader.ReadLoop | ytkresourcecache/src/main/kotlin/com/fenbi/android/ytkresourcecache/downloader/ResourceDownloader.kt:111-127 | stops at the first checkpoint that sees a pause, or after the last chunk; `savedSize` is the offset plus the bytes written, all appended in order |
| Downloading.ResourceDownloader.Iteration | ytkresourcecache/src/main/kotlin/com/fenbi/android/ytkresourcecache/downloader/ResourceDownloader.kt:112-126 | one pass keeps the loop's invariant and stops exactly when the checkpoint sees a pause |
| Downloading.ResourceDownloader.TakeChunk | ytkresourcecache/src/main/kotlin/com/fenbi/android/ytkresourcecache/downloader/ResourceDownloader.kt:116-122 | announce, write, advance `savedSize` by the chunk's length, and report progress when the throttle allows |
| Downloading.ResourceDownloader.Checkpoint | ytkresourcecache/src/main/kotlin/com/fenbi/android/ytkresourcecache/downloader/ResourceDownloader.kt:123-126 | a pause seen here is reported as `TASK_CANCELLED` and stops the loop |
| Downloading.ResourceDownloader.CloseStreams | ytkresourcecache/src/main/kotlin/com/fenbi/android/ytkresourcecache/downloader/ResourceDownloader.kt:142-145 | closes the input stream, then the sink |

## Left out

- Networking is left out. OkHttp, the request execution and the asynchronous probe callback are
  not modelled. A request is a value (url and `Range`), and its reply is a parameter. `getFileSize`
  handles its reply within the call.
- `StatFs` is not modelled: the free space is a parameter.
- ReceiveSpec (and so ProcessSpec, ResourceDownloader.Receive and everything proved about a whole
  run) gates on the intended CheckSpace, not on the code as written at ResourceDownloader.kt:193,
  whose 32-bit product refuses 2 to 4 GiB of free space. This departs from following the code as
  written; the written gate is CheckSpaceAsWritten, and the gap is the row under "## Findings".
- `System.currentTimeMillis` is not modelled. The 300 ms throttle is a flag on each read.
- Threads are not modelled: `pause()` is an input at each point where a check of the flag can
  see it. These points are before `download` (where `buildDownloadCall` clears it again, line 73),
  while the request is in flight, at each per-chunk checkpoint (line 123), and after
  `processResponse` last looks at the flag, where only the check in `download` (line 60) sees it.
  Memory visibility of the non-volatile flag across threads is not modelled.
- Downloading.ResourceDownloader.TakeChunk: the sink's `write`, `flush` and `close` never throw.
  Only the body's reads can fail with an `IOException`.
- The 4096-byte read buffer is not modelled: a chunk may have any length.
- `savedSize` does not overflow: it is unbounded here, where the source uses a `Long`.
- The callbacks are treated as always set. With a null callback, `?.invoke` skips the call; the
  model does not capture that.
- The callback and the sink are assumed not to re-enter the downloader.
- `asResourceOutputStream()` is assumed non-null for a non-null stream.
- The cache storage is not part of this model. The sink class only records the calls made on it.
  Its length after a rollback is 0, so the next attempt restarts from the beginning, as the
  comment at ResourceDownloader.kt:94 states the purpose of `onCacheFailed`.
- `Log.e` and `printStackTrace` are not modelled: they only write to the log.
- `getFilePath` in FileNameUtils.kt is not part of this model. It depends on `android.net.Uri`.
- `toLong()` accepts only the ASCII digits `0`-`9` here. The JVM also accepts other Unicode
  decimal digits.
- The model follows the code as written:
  - a final length mismatch reports `FILE_VERIFY_ERROR` without rolling back (lines 128-131);
  - the early returns do not close the sink, which only the `finally` block closes (lines 85-104, 144);
  - a missing body returns false with no callback (line 104);
  - a transport failure of the main request is rethrown with no `onFailed` (lines 58, 66-67);
  - `getFileSize` reports a known size and still probes, so the callback may run twice (lines 33-50);
  - a probe answered without a length resets the stored size to -1 (lines 49, 179);
  - a `Content-Range` with fewer than two fields after `dropLastWhile` throws
    `IndexOutOfBoundsException`, which is not caught, and the second field is used even when
    there are more (lines 181-185).

## Findings

| source | as written | input that shows it | evidently intended | confidence | as-written member | corrected member |
|---|---|---|---|---|---|---|
| ytkresourcecache/src/main/kotlin/com/fenbi/android/ytkresourcecache/downloader/ResourceDownloader.kt:193 | `availableBlocks * blockSize` multiplies two 32-bit `Int`s and wraps before the comparison | 1,048,576 free blocks of 4096 bytes (4 GiB): the product wraps to 0, and the download is refused as `FULL_DISK_ERROR`; any free space from 2 GiB to 4 GiB reads as negative | compare the free bytes, computed without overflow, with 20 MiB | not executed | DownloadModel.CheckSpaceAsWrittenFourGiBExample | DownloadModel.CheckSpaceBoundary |
