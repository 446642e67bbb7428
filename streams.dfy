/** An in-memory binary stream, the part of `io.BytesIO` the uploaded files use:
    a buffer, a read position and an optional `name` attribute. */
module Streams {
  import opened Base

  class ByteStream {
    var data: Bytes
    var pos: nat
    var name: Option<string>

    constructor (data: Bytes, name: Option<string>)
      ensures this.data == data && pos == 0 && this.name == name
    {
      this.data := data;
      pos := 0;
      this.name := name;
    }

    /** What `read()` would return now: the bytes from the position to the end. */
    function Remaining(): Bytes
      reads this
    {
      if pos <= |data| then data[pos..] else []
    }

    method Tell() returns (p: nat)
      ensures p == pos
    {
      p := pos;
    }

    /** `seek(p)`: positions past the end are allowed. */
    method Seek(p: nat)
      modifies this
      ensures pos == p && data == old(data) && name == old(name)
    {
      pos := p;
    }

    /** `seek(0, 2)`. */
    method SeekEnd()
      modifies this
      ensures pos == |data| && data == old(data) && name == old(name)
    {
      pos := |data|;
    }

    /** `read()`: the rest of the buffer; a position already past the end stays put. */
    method Read() returns (b: Bytes)
      modifies this
      ensures b == old(Remaining())
      ensures pos == (if old(pos) < |data| then |data| else old(pos))
      ensures data == old(data) && name == old(name)
    {
      b := Remaining();
      if pos < |data| {
        pos := |data|;
      }
    }

    /** `read(n)`: at most `n` bytes from the position. */
    method ReadAtMost(n: nat) returns (b: Bytes)
      modifies this
      ensures var r := old(Remaining()); b == if |r| <= n then r else r[..n]
      ensures pos == old(pos) + |b| || (old(pos) > |data| && pos == old(pos))
      ensures data == old(data) && name == old(name)
    {
      var r := Remaining();
      b := if |r| <= n then r else r[..n];
      pos := pos + |b|;
    }
  }
}
