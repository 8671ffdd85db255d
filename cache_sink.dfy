/**
 * The cache writer's stream as the downloader uses it: an `OutputStream` that is also a
 * `ResourceOutputStream` (length, commit, rollback). Its implementation lives in the cache
 * storage and is not part of this model; the class records each call the downloader makes.
 */
module CacheSink {
  import opened DownloadModel

  class ResourceOutputStream {
    /** Bytes persisted for this url before the current session. */
    var length: nat
    /** Bytes written in the current session, in order. */
    var written: seq<Byte>
    var flushed: bool
    var closed: bool
    /** `onCacheSuccess` was called: the written bytes are promoted to the cached file. */
    var cacheSucceeded: bool
    /** `onCacheFailed` was called: the partial file is discarded. */
    var cacheFailed: bool

    /** A stream over a partial file of `persisted` bytes. */
    constructor (persisted: nat)
      ensures View() == SinkView(persisted, [], false, false, false, false)
      ensures Length() == persisted
    {
      length := persisted;
      written := [];
      flushed := false;
      closed := false;
      cacheSucceeded := false;
      cacheFailed := false;
    }

    function View(): SinkView
      reads this
    {
      SinkView(length, written, flushed, closed, cacheSucceeded, cacheFailed)
    }

    /** `length()`: where the next attempt resumes. */
    function Length(): nat
      reads this
    {
      View().CurrentLength()
    }

    /** `write(buffer, 0, len)`. */
    method Write(bytes: seq<Byte>)
      modifies this
      ensures View() == Apply(old(View()), DownloadModel.Write(bytes))
      ensures written == old(written) + bytes
    {
      written := written + bytes;
    }

    method Flush()
      modifies this
      ensures View() == Apply(old(View()), DownloadModel.Flush)
      ensures flushed
    {
      flushed := true;
    }

    method Close()
      modifies this
      ensures View() == Apply(old(View()), CloseSink)
      ensures closed
    {
      closed := true;
    }

    /** `onCacheSuccess()`: commit. */
    method OnCacheSuccess()
      modifies this
      ensures View() == Apply(old(View()), CacheSuccess)
      ensures cacheSucceeded
    {
      cacheSucceeded := true;
    }

    /** `onCacheFailed()`: roll back, so the next attempt starts from offset 0. */
    method OnCacheFailed()
      modifies this
      ensures View() == Apply(old(View()), CacheFailed)
      ensures Length() == 0
    {
      cacheFailed := true;
    }
  }
}
