/** The readers that the stream checkers wrap: any chunking, any failure. */
module ByteSource {
  import opened Wrappers

  type Byte = bv8

  datatype ReadError = EOF | NoProgress | Failed | ChecksumMismatch | SizeMismatch

  /** A stream of bytes, read in chunks of any size.  A reliable source neither fails nor stalls. */
  class Source {
    const data: seq<Byte>
    const reliable: bool
    var pos: nat

    ghost predicate Valid()
      reads this
    {
      pos <= |data|
    }

    constructor (content: seq<Byte>, isReliable: bool)
      ensures Valid() && data == content && reliable == isReliable && pos == 0
    {
      data, reliable, pos := content, isReliable, 0;
    }

    /** At most max of the next bytes; an end of file can come with the last of them or after it. */
    method Read(max: nat) returns (chunk: seq<Byte>, err: Option<ReadError>)
      requires Valid()
      modifies this
      ensures Valid() && pos == old(pos) + |chunk| && chunk == data[old(pos)..pos] && |chunk| <= max
      ensures err == Some(EOF) ==> pos == |data|
      ensures err.Some? ==> err.value.EOF? || err.value.Failed?
      ensures reliable && max > 0 ==> err != Some(Failed) && (chunk == [] ==> err == Some(EOF))
    {
      var n: nat, e: nat := *, *;
      var left := |data| - pos;
      var limit := if max < left then max else left;
      n := if n > limit then limit else n;
      if reliable && n == 0 {
        n := if limit > 0 then 1 else 0;
      }
      chunk := data[pos..pos + n];
      pos := pos + n;
      if e == 0 && !reliable {
        err := Some(Failed);
      } else if pos == |data| && (e == 1 || (reliable && n == 0)) {
        err := Some(EOF);
      } else {
        err := None;
      }
    }
  }
}
