/**
 The connection buffer: one vector split into a prependable, a readable and a writable
 region. Everything a caller sees of it is the queue of readable bytes.
 */
module Buffers {
  import opened Bytes

  const CHEAP_PREPEND: nat := 8
  const INITIAL_SIZE: nat := 1024
  const EXTRA_SIZE: nat := 65536

  /** What ::readv returned: -1 with an errno, or the bytes it stored. */
  datatype ReadOutcome = ReadError(errno: int) | ReadBytes(bytes: string)

  class Buffer {
    var data: array<char>
    var readerIndex: nat
    var writerIndex: nat

    ghost predicate Valid()
      reads this
    {
      CHEAP_PREPEND <= readerIndex <= writerIndex <= data.Length
    }

    /** The abstract value: the bytes between the two indices. */
    function Readable(): string
      requires Valid()
      reads this, data
    {
      data[readerIndex..writerIndex]
    }

    constructor (initialSize: nat := INITIAL_SIZE)
      ensures Valid() && fresh(data) && Readable() == []
      ensures WritableBytes() == initialSize
    {
      data := new char[CHEAP_PREPEND + initialSize];
      readerIndex := CHEAP_PREPEND;
      writerIndex := CHEAP_PREPEND;
    }

    function ReadableBytes(): (n: nat)
      requires Valid()
      reads this, data
      ensures n == |Readable()|
    {
      writerIndex - readerIndex
    }

    function WritableBytes(): nat
      requires Valid()
      reads this
    {
      data.Length - writerIndex
    }

    function PrependableBytes(): nat
      reads this
    {
      readerIndex
    }

    /** Offset of the first CRLF in the readable bytes; None stands for NULL. */
    function FindCRLF(): (r: Option<nat>)
      requires Valid()
      reads this, data
      ensures r.None? <==> forall j: nat :: !IsCrlf(Readable(), j)
      ensures r.Some? ==> IsCrlf(Readable(), r.value)
      ensures r.Some? ==> forall j: nat :: j < r.value ==> !IsCrlf(Readable(), j)
    {
      var k := FindCrlf(Readable());
      if k == |Readable()| then None else Some(k)
    }

    method Retrieve(len: nat)
      requires Valid()
      modifies this
      ensures Valid() && data == old(data)
      ensures Readable() == if len <= |old(Readable())| then old(Readable())[len..] else []
    {
      if len < ReadableBytes() {
        readerIndex := readerIndex + len;
      } else {
        RetrieveAll();
      }
    }

    method RetrieveAll()
      requires Valid()
      modifies this
      ensures Valid() && data == old(data) && Readable() == []
      ensures readerIndex == CHEAP_PREPEND
    {
      readerIndex := CHEAP_PREPEND;
      writerIndex := CHEAP_PREPEND;
    }

    method RetrieveAsString(len: nat) returns (r: string)
      requires Valid() && len <= ReadableBytes()
      modifies this
      ensures Valid() && data == old(data)
      ensures r + Readable() == old(Readable()) && |r| == len
    {
      r := data[readerIndex..readerIndex + len];
      Retrieve(len);
    }

    method RetrieveAllAsString() returns (r: string)
      requires Valid()
      modifies this
      ensures Valid() && data == old(data)
      ensures r == old(Readable()) && Readable() == []
    {
      r := RetrieveAsString(ReadableBytes());
    }

    method Append(bytes: string)
      requires Valid()
      modifies this, data
      ensures Valid() && (data == old(data) || fresh(data))
      ensures Readable() == old(Readable()) + bytes
    {
      EnsureWritableBytes(|bytes|);
      Store(bytes);
    }

    method EnsureWritableBytes(len: nat)
      requires Valid()
      modifies this, data
      ensures Valid() && (data == old(data) || fresh(data))
      ensures WritableBytes() >= len && Readable() == old(Readable())
      ensures old(WritableBytes() >= len) ==> data == old(data) && writerIndex == old(writerIndex)
    {
      if WritableBytes() < len {
        MakeSpace(len);
      }
    }

    /** Copies into the writable region and moves writerIndex past the copy. */
    method Store(bytes: string)
      requires Valid() && |bytes| <= WritableBytes()
      modifies this`writerIndex, data
      ensures Valid() && writerIndex == old(writerIndex) + |bytes|
      ensures Readable() == old(Readable()) + bytes
    {
      var i := 0;
      while i < |bytes|
        modifies data
        invariant 0 <= i <= |bytes|
        invariant forall k :: 0 <= k < writerIndex ==> data[k] == old(data[k])
        invariant forall k :: 0 <= k < i ==> data[writerIndex + k] == bytes[k]
      {
        data[writerIndex + i] := bytes[i];
        i := i + 1;
      }
      assert data[readerIndex..writerIndex] == old(Readable());
      assert data[writerIndex..writerIndex + |bytes|] == bytes;
      ghost var start := writerIndex;
      writerIndex := writerIndex + |bytes|;
      assert Readable() == data[readerIndex..start] + data[start..start + |bytes|];
    }

    /**
     Makes room for len more bytes: by moving the readable bytes down over the bytes
     already consumed when that is enough, by growing the vector otherwise.
     */
    method MakeSpace(len: nat)
      requires Valid() && WritableBytes() < len
      modifies this, data
      ensures Valid() && WritableBytes() >= len && Readable() == old(Readable())
      ensures if old(WritableBytes() + PrependableBytes()) < len + CHEAP_PREPEND
              then fresh(data) && WritableBytes() == len && readerIndex == old(readerIndex)
              else data == old(data) && readerIndex == CHEAP_PREPEND
    {
      if WritableBytes() + PrependableBytes() < len + CHEAP_PREPEND {
        var bigger := new char[writerIndex + len];
        forall i | 0 <= i < data.Length {
          bigger[i] := data[i];
        }
        data := bigger;
      } else {
        var readable := ReadableBytes();
        MoveDown();
        readerIndex := CHEAP_PREPEND;
        writerIndex := readerIndex + readable;
      }
    }

    /** The overlapping std::copy of makeSpace: front to back, so no byte is read after it was overwritten. */
    method MoveDown()
      requires Valid()
      modifies data
      ensures data[CHEAP_PREPEND..CHEAP_PREPEND + writerIndex - readerIndex] == old(Readable())
    {
      var n := writerIndex - readerIndex;
      ghost var was := Readable();
      var i := 0;
      while i < n
        invariant 0 <= i <= n
        invariant forall k :: 0 <= k < i ==> data[CHEAP_PREPEND + k] == was[k]
        invariant forall k :: i <= k < n ==> data[readerIndex + k] == was[k]
      {
        data[CHEAP_PREPEND + i] := data[readerIndex + i];
        i := i + 1;
      }
    }

    /** Room offered to ::readv: the spare space, and the stack area when the spare space is small. */
    function ReadCapacity(): nat
      requires Valid()
      reads this
    {
      if WritableBytes() < EXTRA_SIZE then WritableBytes() + EXTRA_SIZE else WritableBytes()
    }

    /** The scatter read: the kernel fills the spare space first and the stack area after it. */
    method ReadFd(kernel: ReadOutcome) returns (n: int, savedErrno: Option<int>)
      requires Valid()
      requires kernel.ReadBytes? ==> |kernel.bytes| <= ReadCapacity()
      modifies this, data
      ensures Valid() && (data == old(data) || fresh(data))
      ensures kernel.ReadError? ==> n == -1 && savedErrno == Some(kernel.errno)
      ensures kernel.ReadError? ==> Readable() == old(Readable())
      ensures kernel.ReadBytes? ==> n == |kernel.bytes| && savedErrno == None
      ensures kernel.ReadBytes? ==> Readable() == old(Readable()) + kernel.bytes
    {
      savedErrno := None;
      var writable := WritableBytes();
      match kernel
      case ReadError(errno) =>
        n := -1;
        savedErrno := Some(errno);
      case ReadBytes(bytes) =>
        n := |bytes|;
        if n <= writable {
          Store(bytes);
        } else {
          Store(bytes[..writable]);
          var extra := bytes[writable..];
          Append(extra);
          assert bytes == bytes[..writable] + extra;
        }
    }
  }

  /** What is done to a buffer: appending, reading from a socket on which bytes arrive or that fails, and taking. */
  datatype QueueOp = Put(bytes: string) | Arrive(bytes: string) | ReadFailure(errno: int) | Take(len: nat)

  function BytesOf(op: QueueOp): string {
    if op.Put? || op.Arrive? then op.bytes else []
  }

  function AllPut(ops: seq<QueueOp>): string {
    if ops == [] then [] else BytesOf(ops[0]) + AllPut(ops[1..])
  }

  lemma AllPutNext(ops: seq<QueueOp>, i: nat)
    requires i < |ops|
    ensures AllPut(ops[i..]) == BytesOf(ops[i]) + AllPut(ops[i + 1..])
  {
    assert ops[i..][1..] == ops[i + 1..];
  }

  /** Reads until nothing is left of what arrived, each time as much as readv is offered room for. */
  method ReadAll(b: Buffer, bytes: string)
    requires b.Valid()
    modifies b, b.data
    ensures b.Valid() && (b.data == old(b.data) || fresh(b.data))
    ensures b.Readable() == old(b.Readable()) + bytes
  {
    var done := 0;
    while done < |bytes|
      invariant 0 <= done <= |bytes|
      invariant b.Valid() && (b.data == old(b.data) || fresh(b.data))
      invariant b.Readable() == old(b.Readable()) + bytes[..done]
    {
      var n := if |bytes| - done <= b.ReadCapacity() then |bytes| - done else b.ReadCapacity();
      var part := bytes[done..done + n];
      assert bytes[..done] + part == bytes[..done + n];
      assert old(b.Readable()) + bytes[..done] + part == old(b.Readable()) + (bytes[..done] + part);
      var _, _ := b.ReadFd(ReadBytes(part));
      done := done + n;
    }
    assert bytes[..done] == bytes;
  }

  method RunOp(b: Buffer, op: QueueOp) returns (taken: string)
    requires b.Valid()
    modifies b, b.data
    ensures b.Valid() && (b.data == old(b.data) || fresh(b.data))
    ensures taken + b.Readable() == old(b.Readable()) + BytesOf(op)
  {
    taken := [];
    match op
    case Put(bytes) => b.Append(bytes);
    case Arrive(bytes) => ReadAll(b, bytes);
    case ReadFailure(errno) => var _, _ := b.ReadFd(ReadError(errno));
    case Take(len) => taken := b.RetrieveAsString(if len <= b.ReadableBytes() then len else b.ReadableBytes());
  }

  /** Drives a buffer through any history and keeps what was retrieved. */
  method RunQueue(b: Buffer, ops: seq<QueueOp>) returns (taken: string)
    requires b.Valid()
    modifies b, b.data
    ensures b.Valid()
    ensures taken + b.Readable() == old(b.Readable()) + AllPut(ops)
  {
    hide AllPut, BytesOf;
    taken := [];
    var i := 0;
    assert ops[0..] == ops;
    while i < |ops|
      invariant 0 <= i <= |ops|
      invariant b.Valid() && (b.data == old(b.data) || fresh(b.data))
      invariant taken + b.Readable() + AllPut(ops[i..]) == old(b.Readable()) + AllPut(ops)
    {
      ghost var before := b.Readable();
      AllPutNext(ops, i);
      var r := RunOp(b, ops[i]);
      OneMore(taken, r, before, b.Readable(), BytesOf(ops[i]), AllPut(ops[i + 1..]));
      taken := taken + r;
      i := i + 1;
    }
    NonePut(ops);
  }

  lemma NonePut(ops: seq<QueueOp>)
    ensures AllPut(ops[|ops|..]) == []
  {
  }

  lemma OneMore(taken: string, r: string, before: string, after: string, bytes: string, rest: string)
    requires r + after == before + bytes
    ensures taken + r + after + rest == taken + before + (bytes + rest)
  {
    assert taken + r + after == taken + (r + after);
    assert taken + (before + bytes) + rest == taken + before + (bytes + rest);
  }
}
