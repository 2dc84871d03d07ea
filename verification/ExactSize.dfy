/** The reader that enforces a declared size (internal/cache/exact_size.go). */
module ExactSize {
  import opened Wrappers
  import opened ByteSource

  class ExactSizeReader {
    const source: Source
    const expected: int
    var actual: int
    var terminal: Option<ReadError>
    var sawEOF: bool
    ghost var released: seq<Byte>

    /** What has been released is what has been counted, but for the one byte that proved the source
        too long. */
    ghost predicate Valid()
      reads this, source
    {
      source.Valid() && expected >= 0 && actual == source.pos &&
      released <= source.data && |released| <= expected && |released| <= actual &&
      (if actual <= expected then |released| == actual else |released| == expected && terminal == Some(SizeMismatch)) &&
      (terminal.Some? ==> terminal.value.EOF? || terminal.value.SizeMismatch?) &&
      (terminal == Some(EOF) <==> sawEOF) &&
      (sawEOF ==> actual == expected == |source.data|)
    }

    constructor (reader: Source, size: int)
      requires reader.Valid() && reader.pos == 0 && size >= 0
      ensures Valid() && source == reader && expected == size && released == []
    {
      source, expected := reader, size;
      actual, terminal, sawEOF, released := 0, None, false, [];
    }

    method Mismatch() returns (err: ReadError)
      requires source.Valid() && expected >= 0 && actual == source.pos && !sawEOF
      requires released <= source.data && |released| <= expected && |released| <= actual
      requires if actual <= expected then |released| == actual else |released| == expected
      modifies `terminal
      ensures Valid() && terminal == Some(SizeMismatch) && err == SizeMismatch
    {
      terminal := Some(SizeMismatch);
      err := SizeMismatch;
    }

    /** Read with a buffer of the given size: the chunk is what lands in the buffer. */
    method Read(size: nat) returns (chunk: seq<Byte>, err: Option<ReadError>)
      requires Valid()
      modifies this, source
      ensures Valid() && |chunk| <= size && released == old(released) + chunk
      ensures err == Some(EOF) ==> released == source.data && |source.data| == expected
      ensures err == Some(SizeMismatch) ==> terminal == Some(SizeMismatch)
      ensures err.None? ==> terminal.None?
      ensures old(terminal).Some? ==> chunk == [] && err == old(terminal) && actual == old(actual)
      ensures source.reliable && size > 0 && old(terminal).None? ==>
                chunk != [] || (if |source.data| == expected then err == Some(EOF) else err == Some(SizeMismatch))
      ensures source.reliable && old(terminal) != Some(SizeMismatch) ==>
                err != Some(Failed) && (err == Some(SizeMismatch) ==> |source.data| != expected)
    {
      chunk := [];
      if terminal.Some? {
        return chunk, terminal;
      }
      if size == 0 {
        return chunk, None;
      }
      var remaining := expected - actual;
      if remaining <= 0 {
        var probe, e := source.Read(1);
        if |probe| > 0 {
          actual := actual + |probe|;
          var mismatch := Mismatch();
          return [], Some(mismatch);
        }
        if e == Some(EOF) {
          sawEOF, terminal := true, Some(EOF);
          return [], Some(EOF);
        }
        return [], e;
      }
      var limit := if size > remaining then remaining else size;
      chunk, err := source.Read(limit);
      actual := actual + |chunk|;
      released := released + chunk;
      assert released <= source.data;
      if err.Some? && actual != expected {
        var mismatch := Mismatch();
        return chunk, Some(mismatch);
      }
      if err == Some(EOF) {
        sawEOF, terminal := true, Some(EOF);
      }
    }

    /** validateConsumed: it accepts only a source of exactly the declared size that has been read to
        its end, and of a reliable source it accepts exactly those. */
    method ValidateConsumed() returns (err: Option<ReadError>)
      requires Valid()
      modifies this, source
      ensures Valid()
      ensures err.None? ==> |source.data| == expected && released == source.data && released == old(released)
      ensures source.reliable && old(terminal) != Some(SizeMismatch) ==>
                (err.None? <==> old(actual) == expected && |source.data| == expected)
    {
      if terminal == Some(SizeMismatch) {
        return terminal;
      }
      if actual != expected {
        var mismatch := Mismatch();
        return Some(mismatch);
      }
      if sawEOF || terminal == Some(EOF) {
        return None;
      }
      var probe, e := Read(1);
      if e == Some(EOF) {
        return None;
      }
      if e.None? {
        var mismatch := Mismatch();
        return Some(mismatch);
      }
      return e;
    }
  }
}
