/** The reader that withholds the end of a stored artifact until all of it has been checked
    (internal/compilecache/service.go: checksumVerifyingBody). */
module ChecksumBody {
  import opened Wrappers
  import opened ByteSource

  const HOLDBACK := 32 * 1024

  /** SHA-256 as an injective function. */
  datatype Digest = Sha256(content: seq<Byte>)

  function Min(a: int, b: int): int {
    if a < b then a else b
  }

  class ChecksumVerifyingBody {
    const source: Source
    const expected: Digest
    var hashed: seq<Byte>
    var pending: seq<Byte>
    var reachedEOF: bool
    var verified: bool
    var terminal: Option<ReadError>
    var mismatchCalls: nat
    ghost var delivered: seq<Byte>

    /** What has been handed out is a prefix of the source; until the digest of the whole has been
        found right, it lacks at least the last 32 KiB of what has been read. */
    ghost predicate Valid()
      reads this, source
    {
      source.Valid() && hashed == source.data[..source.pos] && delivered <= hashed &&
      |pending| <= 2 * HOLDBACK &&
      (terminal.None? ==> delivered + pending == hashed) &&
      (reachedEOF ==> source.pos == |source.data|) &&
      (!verified || terminal == Some(ChecksumMismatch) ==> |delivered| + Min(|hashed|, HOLDBACK) <= |hashed|) &&
      (verified ==> reachedEOF && (Sha256(hashed) == expected <==> terminal != Some(ChecksumMismatch))) &&
      (terminal == Some(EOF) ==> verified && delivered == hashed) &&
      (terminal == Some(ChecksumMismatch) ==> verified) &&
      (verified && terminal.Some? ==> terminal.value.EOF? || terminal.value.ChecksumMismatch?) &&
      mismatchCalls == (if terminal == Some(ChecksumMismatch) then 1 else 0) &&
      (source.reliable && terminal.Some? ==> terminal.value.EOF? || terminal.value.ChecksumMismatch?)
    }

    constructor (body: Source, digest: Digest)
      requires body.Valid() && body.pos == 0
      ensures Valid() && source == body && expected == digest && delivered == []
    {
      source, expected := body, digest;
      hashed, pending, reachedEOF, verified, terminal, mismatchCalls := [], [], false, false, None, 0;
      delivered := [];
    }

    /** Hands out the first n pending bytes. */
    method Deliver(buffer: array<Byte>, n: nat)
      requires Valid() && terminal.None? && n <= |pending| && n <= buffer.Length
      requires !verified ==> |pending| - n >= Min(|hashed|, HOLDBACK)
      modifies buffer, `pending, `delivered
      ensures Valid() && buffer[..n] == old(pending)[..n] && pending == old(pending)[n..]
      ensures delivered == old(delivered) + buffer[..n]
    {
      forall i | 0 <= i < n {
        buffer[i] := pending[i];
      }
      delivered := delivered + pending[..n];
      pending := pending[n..];
    }

    /** One read from the source into the hash and the pending bytes. */
    method Fill()
      requires Valid() && terminal.None? && !reachedEOF && |pending| <= HOLDBACK
      modifies this, source
      ensures Valid() && delivered == old(delivered)
      ensures terminal.None? ==> reachedEOF || source.pos > old(source.pos)
      ensures !verified && mismatchCalls == 0
    {
      var chunk, err := source.Read(HOLDBACK);
      hashed := hashed + chunk;
      pending := pending + chunk;
      assert source.data[..old(source.pos)] + chunk == source.data[..source.pos];
      if err == Some(EOF) {
        reachedEOF := true;
      } else if err.Some? {
        pending, terminal := [], err;
      } else if |chunk| == 0 {
        pending, terminal := [], Some(NoProgress);
      }
    }

    /** Read.  It always makes progress or ends the stream: with an end of file exactly when the whole
        source has been handed out and its digest is right. */
    method Read(buffer: array<Byte>) returns (n: nat, err: Option<ReadError>)
      requires Valid()
      modifies this, source, buffer
      ensures Valid() && n <= buffer.Length && delivered == old(delivered) + buffer[..n]
      ensures buffer.Length == 0 ==> n == 0 && err.None?
      ensures buffer.Length > 0 ==> (err.None? <==> n > 0) && err == terminal
      ensures old(terminal).Some? && buffer.Length > 0 ==> err == old(terminal)
    {
      if buffer.Length == 0 {
        return 0, None;
      }
      if terminal.Some? {
        return 0, terminal;
      }
      while true
        invariant Valid() && terminal.None? && delivered == old(delivered)
        decreases |source.data| - source.pos, !reachedEOF
      {
        if reachedEOF {
          if !verified {
            verified := true;
            if Sha256(hashed) != expected {
              pending, terminal, mismatchCalls := [], Some(ChecksumMismatch), mismatchCalls + 1;
              return 0, terminal;
            }
          }
          if |pending| == 0 {
            terminal := Some(EOF);
            return 0, terminal;
          }
          n := Min(buffer.Length, |pending|);
          Deliver(buffer, n);
          return n, None;
        }
        if |pending| > HOLDBACK {
          var available := Min(|pending| - HOLDBACK, buffer.Length);
          Deliver(buffer, available);
          return available, None;
        }
        Fill();
        if terminal.Some? {
          return 0, terminal;
        }
      }
    }
  }

  /** A client that reads to the end, with buffers of any sizes. */
  method Drain(body: ChecksumVerifyingBody) returns (received: seq<Byte>, err: ReadError)
    requires body.Valid() && body.delivered == []
    modifies body, body.source
    ensures body.Valid() && received == body.delivered
    ensures received <= body.source.data
    ensures err.EOF? ==> received == body.source.data && Sha256(received) == body.expected
    ensures !err.EOF? ==> |received| + Min(|body.hashed|, HOLDBACK) <= |body.hashed|
    ensures err.ChecksumMismatch? ==>
              Sha256(body.source.data) != body.expected && body.hashed == body.source.data && body.mismatchCalls == 1
    ensures body.source.reliable ==>
              (if Sha256(body.source.data) == body.expected then err.EOF? else err.ChecksumMismatch?)
  {
    received := [];
    while true
      invariant body.Valid() && received == body.delivered
      decreases |body.source.data| - |received|
    {
      var size :| 0 < size;
      var buffer := new Byte[size];
      var n, e := body.Read(buffer);
      received := received + buffer[..n];
      if e.Some? {
        return received, e.value;
      }
    }
  }
}
