/** Model of muduo's network Buffer: one growable byte vector split into three zones,
    prependable [0, reader), readable [reader, writer) and writable [writer, size).
    The class `Buffer` keeps the vector in an array and updates it in place; the
    datatype `BufferState` gives the value of a buffer and the pure functions that
    specify each operation. */
module NetBuffer {

  /** Bytes kept in front of the readable data so that a header can be prepended cheaply. */
  const CheapPrepend: nat := 8
  /** Writable bytes of a freshly constructed buffer. */
  const InitialSize: nat := 1024

  /** The value of a buffer: its storage vector and its two cursors. */
  datatype BufferState = BufferState(storage: seq<char>, reader: nat, writer: nat)
  {
    /** The index invariant: CheapPrepend <= reader <= writer <= size. */
    ghost predicate Valid() {
      CheapPrepend <= reader <= writer <= |storage|
    }

    /** The readable bytes, the buffer's content. */
    function Readable(): seq<char>
      requires Valid()
    {
      storage[reader..writer]
    }

    /** Room after the write cursor. */
    function Writable(): nat
      requires Valid()
    {
      |storage| - writer
    }

    /** retrieve(len): drop the first len readable bytes; when len covers all of
        them, reset both cursors to the prepend boundary instead. */
    function Retrieve(len: nat): (r: BufferState)
      requires Valid()
      ensures r.Valid() && r.storage == storage
      ensures len < |Readable()| ==> r.reader == reader + len && r.writer == writer
      ensures len < |Readable()| ==> r.Readable() == Readable()[len..]
      ensures len >= |Readable()| ==> r == RetrieveAll()
    {
      if len < writer - reader then this.(reader := reader + len) else RetrieveAll()
    }

    /** retrieveAll(): discard the whole content and move both cursors to the prepend boundary. */
    function RetrieveAll(): (r: BufferState)
      requires Valid()
      ensures r.Valid() && r.storage == storage && r.Readable() == []
      ensures r.Writable() == |storage| - CheapPrepend
    {
      this.(reader := CheapPrepend, writer := CheapPrepend)
    }

    /** makeSpace(len): grow the vector to exactly writer + len bytes when the
        slack at both ends together is too small; otherwise slide the content down
        to the prepend boundary inside the same vector. */
    function MakeSpace(len: nat): (r: BufferState)
      requires Valid()
      ensures r.Valid() && r.Readable() == Readable() && r.Writable() >= len
      ensures Writable() + reader < len + CheapPrepend ==>
                |r.storage| == writer + len && r.reader == reader && r.writer == writer &&
                r.storage[..|storage|] == storage
      ensures Writable() + reader >= len + CheapPrepend ==>
                |r.storage| == |storage| && r.reader == CheapPrepend &&
                r.writer == CheapPrepend + |Readable()|
    {
      if Writable() + reader < len + CheapPrepend then
        this.(storage := storage + seq(writer + len - |storage|, _ => '\0'))
      else
        var n := writer - reader;
        BufferState(storage[..CheapPrepend] + Readable() + storage[CheapPrepend + n..],
                    CheapPrepend, CheapPrepend + n)
    }

    /** ensureWriteableBytes(len): make room for len bytes, keeping the content. */
    function EnsureWritable(len: nat): (r: BufferState)
      requires Valid()
      ensures r.Valid() && r.Readable() == Readable() && r.Writable() >= len
      ensures Writable() >= len ==> r == this
    {
      if Writable() < len then MakeSpace(len) else this
    }

    /** append(data, |data|): make room, copy data at the write cursor, advance it. */
    function Append(data: seq<char>): (r: BufferState)
      requires Valid()
      ensures r.Valid() && r.Readable() == Readable() + data
      ensures Writable() >= |data| ==> |r.storage| == |storage| && r.reader == reader
    {
      var e := EnsureWritable(|data|);
      BufferState(e.storage[..e.writer] + data + e.storage[e.writer + |data|..],
                  e.reader, e.writer + |data|)
    }
  }

  /** The buffer calls a connection makes, for stating properties of call sequences. */
  datatype BufferOp = AppendOp(data: seq<char>) | RetrieveOp(len: nat)

  /** Effect of one call on a buffer value. */
  function Apply(b: BufferState, op: BufferOp): (r: BufferState)
    requires b.Valid()
    ensures r.Valid()
  {
    match op
    case AppendOp(data) => b.Append(data)
    case RetrieveOp(len) => b.Retrieve(len)
  }

  /** Effect of a sequence of calls; the index invariant holds after every prefix. */
  function Replay(b: BufferState, ops: seq<BufferOp>): (r: BufferState)
    requires b.Valid()
    ensures r.Valid()
    decreases |ops|
  {
    if ops == [] then b else Replay(Apply(b, ops[0]), ops[1..])
  }

  /** Reference semantics: the readable content as a first-in first-out byte queue,
      where a retrieve of at least the whole content empties it. */
  function QueueAfter(content: seq<char>, ops: seq<BufferOp>): seq<char>
    decreases |ops|
  {
    if ops == [] then content
    else
      var next := match ops[0]
        case AppendOp(data) => content + data
        case RetrieveOp(len) => if len < |content| then content[len..] else [];
      QueueAfter(next, ops[1..])
  }

  /** Growth and compaction never lose or reorder bytes: the buffer behaves as a byte queue. */
  lemma {:induction false} ReplayMatchesQueue(b: BufferState, ops: seq<BufferOp>)
    requires b.Valid()
    ensures Replay(b, ops).Readable() == QueueAfter(b.Readable(), ops)
    decreases |ops|
  {
    if ops != [] {
      ReplayMatchesQueue(Apply(b, ops[0]), ops[1..]);
    }
  }

  /** Draining the whole content and appending it again reproduces the content. */
  lemma DrainThenRefillRestores(b: BufferState)
    requires b.Valid()
    ensures b.RetrieveAll().Append(b.Readable()).Readable() == b.Readable()
  {
  }

  /** Retrieving only the first n bytes and appending them again rotates the content. */
  lemma PartialRefillRotates(b: BufferState, n: nat)
    requires b.Valid() && n < |b.Readable()|
    ensures b.Retrieve(n).Append(b.Readable()[..n]).Readable()
            == b.Readable()[n..] + b.Readable()[..n]
  {
  }

  /** The buffer class: a vector updated in place, with a read and a write cursor. */
  class Buffer {
    var buffer: array<char>
    var readerIndex: nat
    var writerIndex: nat

    /** The value of this buffer. */
    ghost function State(): BufferState
      reads this, buffer
    {
      BufferState(buffer[..], readerIndex, writerIndex)
    }

    ghost predicate Valid()
      reads this, buffer
    {
      State().Valid()
    }

    /** The readable bytes. */
    ghost function Content(): seq<char>
      reads this, buffer
      requires Valid()
    {
      buffer[readerIndex..writerIndex]
    }

    /** A new buffer: CheapPrepend + InitialSize zero bytes, both cursors at the prepend boundary. */
    constructor ()
      ensures Valid() && fresh(buffer)
      ensures buffer.Length == CheapPrepend + InitialSize
      ensures readerIndex == CheapPrepend && writerIndex == CheapPrepend
      ensures Content() == []
      ensures buffer[..] == seq(CheapPrepend + InitialSize, _ => '\0')
    {
      buffer := new char[CheapPrepend + InitialSize](_ => '\0');
      readerIndex := CheapPrepend;
      writerIndex := CheapPrepend;
    }

    function ReadableBytes(): (n: nat)
      reads this, buffer
      requires Valid()
      ensures n == |Content()|
    {
      writerIndex - readerIndex
    }

    function WritableBytes(): (n: nat)
      reads this, buffer
      requires Valid()
      ensures n == State().Writable() && writerIndex + n == buffer.Length
    {
      buffer.Length - writerIndex
    }

    function PrependableBytes(): (n: nat)
      reads this, buffer
      requires Valid()
      ensures CheapPrepend <= n == readerIndex
    {
      readerIndex
    }

    /** peek(): the offset of the first readable byte; the content runs from there to the write cursor. */
    function Peek(): (p: nat)
      reads this, buffer
      requires Valid()
      ensures p + ReadableBytes() == writerIndex <= buffer.Length
      ensures buffer[p..writerIndex] == Content()
    {
      readerIndex
    }

    /** beginWrite(): the offset of the first writable byte. */
    function BeginWrite(): (p: nat)
      reads this, buffer
      requires Valid()
      ensures p + WritableBytes() == buffer.Length
      ensures p == Peek() + ReadableBytes()
    {
      writerIndex
    }

    method Retrieve(len: nat)
      requires Valid()
      modifies this
      ensures Valid() && buffer == old(buffer)
      ensures State() == old(State()).Retrieve(len)
      ensures Content() == if len < old(ReadableBytes()) then old(Content())[len..] else []
    {
      if len < ReadableBytes() {
        readerIndex := readerIndex + len;
      } else {
        RetrieveAll();
      }
    }

    method RetrieveAll()
      requires Valid()
      modifies this
      ensures Valid() && buffer == old(buffer)
      ensures State() == old(State()).RetrieveAll()
      ensures readerIndex == writerIndex == CheapPrepend
    {
      readerIndex, writerIndex := CheapPrepend, CheapPrepend;
    }

    /** retrieveAsString(len): copy out the first len readable bytes, then retrieve them. */
    method RetrieveAsString(len: nat) returns (result: string)
      requires Valid() && len <= ReadableBytes()
      modifies this
      ensures Valid() && buffer == old(buffer)
      ensures result == old(Content())[..len]
      ensures State() == old(State()).Retrieve(len)
      ensures Content() == old(Content())[len..]
    {
      result := buffer[Peek()..Peek() + len];
      Retrieve(len);
    }

    /** retrieveAllAsString(): copy out the whole content and leave the buffer empty. */
    method RetrieveAllAsString() returns (result: string)
      requires Valid()
      modifies this
      ensures Valid() && buffer == old(buffer)
      ensures result == old(Content())
      ensures State() == old(State()).RetrieveAll()
      ensures Content() == []
    {
      result := RetrieveAsString(ReadableBytes());
    }

    method EnsureWriteableBytes(len: nat)
      requires Valid()
      modifies this, buffer
      ensures Valid() && (buffer == old(buffer) || fresh(buffer))
      ensures State() == old(State()).EnsureWritable(len)
      ensures old(WritableBytes() + PrependableBytes()) >= len + CheapPrepend ==> buffer == old(buffer)
      ensures old(WritableBytes() + PrependableBytes()) < len + CheapPrepend ==> fresh(buffer)
      ensures WritableBytes() >= len && Content() == old(Content())
    {
      if WritableBytes() < len {
        MakeSpace(len);
      }
    }

    /** append(data, len): copy data[..len] in at the write cursor and advance it. */
    method Append(data: seq<char>, len: nat)
      requires Valid() && len <= |data|
      modifies this, buffer
      ensures Valid() && (buffer == old(buffer) || fresh(buffer))
      ensures State() == old(State()).Append(data[..len])
      ensures old(WritableBytes() + PrependableBytes()) >= len + CheapPrepend ==> buffer == old(buffer)
      ensures old(WritableBytes() + PrependableBytes()) < len + CheapPrepend ==> fresh(buffer)
      ensures Content() == old(Content()) + data[..len]
    {
      EnsureWriteableBytes(len);
      ghost var roomy := State();
      CopyIn(data, len, BeginWrite());
      writerIndex := writerIndex + len;
      assert State() == BufferState(roomy.storage[..roomy.writer] + data[..len]
                                    + roomy.storage[roomy.writer + len..],
                                    roomy.reader, roomy.writer + len);
    }

    /** std::copy(data, data + len, begin() + start): overwrite len bytes from offset start. */
    method CopyIn(data: seq<char>, len: nat, start: nat)
      requires len <= |data| && start + len <= buffer.Length
      modifies buffer
      ensures buffer[..] == old(buffer[..start]) + data[..len] + old(buffer[start + len..])
    {
      ghost var before := buffer[..];
      var i := 0;
      while i < len
        invariant 0 <= i <= len
        invariant forall k | 0 <= k < start :: buffer[k] == before[k]
        invariant forall k | start <= k < start + i :: buffer[k] == data[k - start]
        invariant forall k | start + i <= k < buffer.Length :: buffer[k] == before[k]
      {
        buffer[start + i] := data[i];
        i := i + 1;
      }
      assert buffer[..start] == before[..start];
      assert buffer[start..start + len] == data[..len];
      assert buffer[start + len..] == before[start + len..];
      assert buffer[..] == buffer[..start] + buffer[start..start + len] + buffer[start + len..];
    }

    method MakeSpace(len: nat)
      requires Valid()
      modifies this, buffer
      ensures Valid() && (buffer == old(buffer) || fresh(buffer))
      ensures State() == old(State()).MakeSpace(len)
      ensures old(WritableBytes() + PrependableBytes()) >= len + CheapPrepend ==> buffer == old(buffer)
      ensures old(WritableBytes() + PrependableBytes()) < len + CheapPrepend ==> fresh(buffer)
    {
      if WritableBytes() + PrependableBytes() < len + CheapPrepend {
        // vector::resize: a larger vector holding the old bytes, zero-filled after them
        var grown := new char[writerIndex + len](_ => '\0');
        forall k | 0 <= k < buffer.Length {
          grown[k] := buffer[k];
        }
        assert grown[..] == buffer[..] + seq(writerIndex + len - buffer.Length, _ => '\0');
        buffer := grown;
      } else {
        var readable := ReadableBytes();
        SlideDown(readerIndex, readable);
        readerIndex := CheapPrepend;
        writerIndex := readerIndex + readable;
      }
    }

    /** std::copy(begin() + from, begin() + from + n, begin() + CheapPrepend): move n
        bytes down to the prepend boundary; the bytes after the copy stay as they were. */
    method SlideDown(from: nat, n: nat)
      requires CheapPrepend <= from && from + n <= buffer.Length
      modifies buffer
      ensures buffer[..] == old(buffer[..CheapPrepend]) + old(buffer[from..from + n])
                            + old(buffer[CheapPrepend + n..])
    {
      ghost var before := buffer[..];
      var i := 0;
      while i < n
        invariant 0 <= i <= n
        invariant forall k | 0 <= k < CheapPrepend :: buffer[k] == before[k]
        invariant forall k | CheapPrepend <= k < CheapPrepend + i :: buffer[k] == before[from + k - CheapPrepend]
        invariant forall k | CheapPrepend + i <= k < buffer.Length :: buffer[k] == before[k]
      {
        buffer[CheapPrepend + i] := buffer[from + i];
        i := i + 1;
      }
      assert buffer[..CheapPrepend] == before[..CheapPrepend];
      assert buffer[CheapPrepend..CheapPrepend + n] == before[from..from + n];
      assert buffer[CheapPrepend + n..] == before[CheapPrepend + n..];
      assert buffer[..] == buffer[..CheapPrepend] + buffer[CheapPrepend..CheapPrepend + n]
                           + buffer[CheapPrepend + n..];
    }
  }

  /** The worked scenario: append "hello", retrieve 2, drain the rest. */
  method HelloScenario() returns (firstView: string, secondView: string, drained: string, left: nat)
    ensures firstView == "hello" && secondView == "llo"
    ensures drained == "llo" && left == 0
  {
    var b := new Buffer();
    b.Append("hello", 5);
    assert b.Content() == "hello";
    firstView := b.buffer[b.Peek()..b.Peek() + b.ReadableBytes()];
    b.Retrieve(2);
    assert b.Content() == "llo";
    secondView := b.buffer[b.Peek()..b.Peek() + b.ReadableBytes()];
    drained := b.RetrieveAllAsString();
    left := b.ReadableBytes();
  }
}
