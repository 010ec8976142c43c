/**
 * The two stream objects the backup code talks to: a byte source read front to
 * back (the Arduino `Stream` the backup is restored from) and StreamUtils'
 * `WriteBufferingStream`, which collects written bytes in a fixed-size buffer and
 * hands them to its target stream when the buffer is full or when it is flushed.
 */
module Streams {
  import opened Common

  /** A finite input stream; `pos` is the read cursor. */
  class ReadStream {
    const data: seq<bv8>
    var pos: nat

    ghost predicate Valid()
      reads this
    {
      pos <= |data|
    }

    /** The bytes that have not been read yet. */
    function Remaining(): seq<bv8>
      reads this
      requires Valid()
    {
      data[pos..]
    }

    /** `Stream::available()`. */
    function Available(): (n: nat)
      reads this
      requires Valid()
      ensures n == |Remaining()|
      ensures n == 0 <==> Remaining() == []
    {
      |data| - pos
    }

    constructor (data: seq<bv8>)
      ensures Valid() && this.data == data && Remaining() == data
    {
      this.data := data;
      pos := 0;
    }

    /** `Stream::read()`: the next byte, or -1 when the stream is exhausted. */
    method Read() returns (c: int)
      requires Valid()
      modifies this
      ensures Valid()
      ensures old(Remaining()) == [] ==> c == -1 && Remaining() == []
      ensures old(Remaining()) != [] ==>
                c == old(Remaining())[0] as int && Remaining() == old(Remaining())[1..]
    {
      if pos < |data| {
        c := data[pos] as int;
        pos := pos + 1;
      } else {
        c := -1;
      }
    }

    /** `Stream::readBytes(buffer, n)`: at most `n` bytes, fewer when the stream ends first. */
    method ReadBytes(n: nat) returns (bytes: seq<bv8>)
      requires Valid()
      modifies this
      ensures Valid()
      ensures bytes == old(Remaining())[..Min(n, old(Available()))]
      ensures Remaining() == old(Remaining())[Min(n, old(Available()))..]
    {
      var k := Min(n, |data| - pos);
      bytes := data[pos..pos + k];
      pos := pos + k;
    }

    /** Consumes `n` bytes that a reader (the alias loader) has taken from the stream. */
    method Skip(n: nat)
      requires Valid() && n <= Available()
      modifies this
      ensures Valid()
      ensures Remaining() == old(Remaining())[n..]
    {
      pos := pos + n;
    }
  }

  /**
   * A write buffer of `capacity` bytes in front of a target stream. `target` is
   * everything the target has received so far; the buffer holds the bytes
   * written since the last hand-over.
   */
  class WriteBufferingStream {
    const capacity: nat
    const buffer: array<bv8>
    var size: nat
    var target: seq<bv8>

    ghost predicate Valid()
      reads this
    {
      0 < capacity && buffer.Length == capacity && size <= capacity
    }

    /** The bytes waiting in the buffer. */
    function Pending(): seq<bv8>
      reads this, buffer
      requires Valid()
    {
      buffer[..size]
    }

    /** Everything written to this stream, in order: handed over, then pending. */
    function Written(): seq<bv8>
      reads this, buffer
      requires Valid()
    {
      target + Pending()
    }

    constructor (capacity: nat)
      requires 0 < capacity
      ensures Valid() && fresh(buffer)
      ensures this.capacity == capacity && target == [] && Pending() == []
    {
      this.capacity := capacity;
      buffer := new bv8[capacity];
      size := 0;
      target := [];
    }

    /** Writes one byte; a full buffer is handed to the target first. */
    method Write(b: bv8)
      requires Valid()
      modifies this, buffer
      ensures Valid()
      ensures Written() == old(Written()) + [b]
      ensures old(size) < capacity ==> target == old(target)
    {
      if size == capacity {
        Flush();
      }
      buffer[size] := b;
      size := size + 1;
    }

    /** `write(bytes, n)`: the bytes one after the other. */
    method WriteAll(bytes: seq<bv8>)
      requires Valid()
      modifies this, buffer
      ensures Valid()
      ensures Written() == old(Written()) + bytes
    {
      var i := 0;
      while i < |bytes|
        invariant 0 <= i <= |bytes|
        invariant Valid()
        invariant Written() == old(Written()) + bytes[..i]
      {
        Write(bytes[i]);
        assert bytes[..i + 1] == bytes[..i] + [bytes[i]];
        i := i + 1;
      }
      assert bytes[..|bytes|] == bytes;
    }

    /** `flush()`: the buffered bytes go to the target and the buffer is empty again. */
    method Flush()
      requires Valid()
      modifies this
      ensures Valid()
      ensures target == old(Written()) && Pending() == []
    {
      target := target + buffer[..size];
      size := 0;
    }
  }
}
