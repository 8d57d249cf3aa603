/** The bounded in-order byte stream (libsponge/byte_stream.cc) under both ends of a connection. */
module ByteStreams {
  type Byte = b: int | 0 <= b < 256

  /** Two bytes in network order. */
  function Word(hi: nat, lo: nat): nat {
    256 * hi + lo
  }

  /** Four bytes in network order. */
  function Quad(a: nat, b: nat, c: nat, d: nat): nat {
    0x100_0000 * a + 0x1_0000 * b + 256 * c + d
  }

  function Min(a: nat, b: nat): nat {
    if a <= b then a else b
  }

  function Max(a: nat, b: nat): nat {
    if a <= b then b else a
  }

  /** The value of a stream: everything ever written, and how much of it has been read. */
  datatype Stream = Stream(written: seq<Byte>, read: nat, capacity: nat, ended: bool, error: bool) {
    predicate Valid() {
      read <= |written| <= read + capacity
    }

    function Buffer(): seq<Byte>
      requires Valid()
    {
      written[read..]
    }

    predicate Eof()
    {
      ended && read == |written|
    }

    function Remaining(): nat
      requires Valid()
    {
      read + capacity - |written|
    }
  }

  function EmptyStream(capacity: nat): Stream {
    Stream([], 0, capacity, false, false)
  }

  function StreamWrite(s: Stream, data: seq<Byte>): (r: Stream)
    requires s.Valid()
    ensures r.Valid()
  {
    s.(written := s.written + data[..Min(|data|, s.Remaining())])
  }

  /** How many bytes a read of at most `len` returns. */
  function ReadSize(s: Stream, len: nat): nat
    requires s.Valid()
  {
    Min(|s.written| - s.read, len)
  }

  function StreamRead(s: Stream, len: nat): (r: Stream)
    requires s.Valid()
    ensures r.Valid() && r.read == s.read + ReadSize(s, len)
  {
    s.(read := s.read + ReadSize(s, len))
  }

  class ByteStream {
    var buffer: seq<Byte>
    const capacity: nat
    var size: nat
    var inputEnd: bool
    var totalWrite: nat
    var totalRead: nat
    var err: bool
    ghost var written: seq<Byte>

    ghost predicate Valid()
      reads this
    {
      && size == |buffer| <= capacity
      && totalWrite == |written|
      && totalRead <= |written|
      && buffer == written[totalRead..]
    }

    ghost function Model(): (m: Stream)
      requires Valid()
      reads this
      ensures m.Valid() && m.Buffer() == buffer
    {
      Stream(written, totalRead, capacity, inputEnd, err)
    }

    constructor (capacity: nat)
      ensures Valid() && Model() == EmptyStream(capacity)
    {
      this.capacity := capacity;
      buffer, size, inputEnd, totalWrite, totalRead, err, written := [], 0, false, 0, 0, false, [];
    }

    /** Accepts as many bytes as fit and reports how many. */
    method Write(data: seq<Byte>) returns (accepted: nat)
      requires Valid()
      modifies this
      ensures Valid() && Model() == StreamWrite(old(Model()), data)
      ensures accepted == |written| - |old(written)| == Min(|data|, old(Model()).Remaining())
    {
      accepted := Min(|data|, capacity - size);
      ghost var before := buffer;
      for i := 0 to accepted
        invariant buffer == before + data[..i]
        invariant size == old(size)
        invariant written == old(written) && inputEnd == old(inputEnd) && err == old(err)
        invariant totalWrite == old(totalWrite) && totalRead == old(totalRead)
      {
        buffer := buffer + [data[i]];
      }
      size := size + accepted;
      totalWrite := totalWrite + accepted;
      written := written + data[..accepted];
    }

    method PeekOutput(len: nat) returns (bytes: seq<Byte>)
      requires Valid()
      ensures bytes == Model().Buffer()[..ReadSize(Model(), len)]
    {
      bytes := buffer[..Min(size, len)];
    }

    method PopOutput(len: nat)
      requires Valid()
      modifies this
      ensures Valid() && Model() == StreamRead(old(Model()), len)
    {
      var n := Min(size, len);
      buffer := buffer[n..];
      size := size - n;
      totalRead := totalRead + n;
    }

    /** Copies and then pops: the bytes returned are the next ones in the order they were written. */
    method Read(len: nat) returns (bytes: seq<Byte>)
      requires Valid()
      modifies this
      ensures Valid() && Model() == StreamRead(old(Model()), len)
      ensures bytes == old(Model()).Buffer()[..ReadSize(old(Model()), len)]
      ensures bytes == written[old(totalRead)..totalRead]
    {
      var n := Min(size, len);
      bytes := buffer[..n];
      buffer := buffer[n..];
      size := size - n;
      totalRead := totalRead + n;
    }

    method EndInput()
      requires Valid()
      modifies this`inputEnd
      ensures Valid() && Model() == old(Model()).(ended := true)
    {
      inputEnd := true;
    }

    method SetError()
      requires Valid()
      modifies this`err
      ensures Valid() && Model() == old(Model()).(error := true)
    {
      err := true;
    }

    function InputEnded(): (r: bool)
      reads this
    {
      inputEnd
    }

    function BufferSize(): (r: nat)
      requires Valid()
      reads this
      ensures r == |written| - totalRead
    {
      size
    }

    /** The output has reached its end: the input has ended and every byte has been read. */
    predicate Eof()
      requires Valid()
      reads this
      ensures Eof() == Model().Eof()
    {
      inputEnd && size == 0
    }

    function BytesWritten(): (r: nat)
      requires Valid()
      reads this
      ensures r == |written|
    {
      totalWrite
    }
  }
}
