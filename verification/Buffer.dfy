/** netlib/Buffer.h: a byte buffer that is appended to at the back and consumed at the front, with some headroom
    kept in front for cheap prepending. */
module Buffer {
  import opened Pieces

  const PREPEND_SIZE: nat := 8
  const INIT_SIZE: nat := 1024

  class Buffer {
    var buffer: array<Byte>
    var readIndex: nat
    var writeIndex: nat

    ghost predicate Valid()
      reads this
    {
      readIndex <= writeIndex <= buffer.Length && PREPEND_SIZE + INIT_SIZE <= buffer.Length
    }

    /** The bytes appended and not yet retrieved. */
    ghost function Contents(): (s: seq<Byte>)
      requires Valid()
      reads this, buffer
    {
      buffer[readIndex..writeIndex]
    }

    function ReadableBytes(): nat
      requires Valid()
      reads this
    {
      writeIndex - readIndex
    }

    function WritableBytes(): nat
      requires Valid()
      reads this
    {
      buffer.Length - writeIndex
    }

    function PrependableBytes(): nat
      reads this
    {
      readIndex
    }

    constructor ()
      ensures Valid() && fresh(buffer) && Contents() == []
      ensures WritableBytes() == 1024 && PrependableBytes() == 8
    {
      buffer := new Byte[PREPEND_SIZE + INIT_SIZE](_ => 0);
      readIndex, writeIndex := PREPEND_SIZE, PREPEND_SIZE;
    }

    method Swap(other: Buffer)
      requires Valid() && other.Valid()
      modifies this, other
      ensures Valid() && other.Valid()
      ensures Contents() == old(other.Contents()) && other.Contents() == old(Contents())
      ensures buffer == old(other.buffer) && other.buffer == old(buffer)
    {
      buffer, other.buffer := other.buffer, buffer;
      readIndex, other.readIndex := other.readIndex, readIndex;
      writeIndex, other.writeIndex := other.writeIndex, writeIndex;
    }

    /** len bytes have been put where writing begins. */
    method HasWritten(len: nat)
      requires Valid() && len <= WritableBytes()
      modifies `writeIndex
      ensures Valid() && Contents() == old(Contents() + buffer[writeIndex..writeIndex + len])
    {
      writeIndex := writeIndex + len;
    }

    method Retrieve(len: nat)
      requires Valid() && len <= ReadableBytes()
      modifies `readIndex
      ensures Valid() && Contents() == old(Contents())[len..] && readIndex >= old(readIndex)
    {
      readIndex := readIndex + len;
    }

    /** end is a position in the buffer. */
    method RetrieveUntil(end: nat)
      requires Valid() && readIndex <= end <= writeIndex
      modifies `readIndex
      ensures Valid() && Contents() == old(Contents())[end - old(readIndex)..] && readIndex == end
    {
      Retrieve(end - readIndex);
    }

    method RetrieveAll()
      requires Valid()
      modifies `readIndex, `writeIndex
      ensures Valid() && Contents() == [] && PrependableBytes() == PREPEND_SIZE
    {
      readIndex, writeIndex := PREPEND_SIZE, PREPEND_SIZE;
    }

    method RetrieveAsString() returns (str: seq<Byte>)
      requires Valid()
      modifies `readIndex, `writeIndex
      ensures Valid() && str == old(Contents()) && Contents() == [] && PrependableBytes() == PREPEND_SIZE
    {
      str := buffer[readIndex..writeIndex];
      RetrieveAll();
    }

    /** Room for len more bytes, by growing only if moving the contents to the front is not enough. The headroom is
        never given away. */
    method EnsureWritableBytes(len: nat)
      requires Valid()
      modifies this, buffer
      ensures Valid() && (buffer == old(buffer) || fresh(buffer))
      ensures WritableBytes() >= len && Contents() == old(Contents())
      ensures buffer == old(buffer) <==>
        old(WritableBytes()) >= len || old(WritableBytes() + PrependableBytes()) >= len + PREPEND_SIZE
      ensures old(readIndex) >= PREPEND_SIZE ==> readIndex >= PREPEND_SIZE
    {
      if WritableBytes() < len {
        ExpendSpace(len);
      }
    }

    method ExpendSpace(len: nat)
      requires Valid() && WritableBytes() < len
      modifies this, buffer
      ensures Valid() && WritableBytes() >= len && Contents() == old(Contents())
      ensures if old(WritableBytes() + PrependableBytes()) < len + PREPEND_SIZE
        then fresh(buffer) && readIndex == old(readIndex)
        else buffer == old(buffer) && readIndex == PREPEND_SIZE
    {
      if WritableBytes() + PrependableBytes() < len + PREPEND_SIZE {
        Resize(writeIndex + len);
      } else {
        assert PREPEND_SIZE < readIndex;
        var readable := ReadableBytes();
        MoveDown(readable);
        readIndex := PREPEND_SIZE;
        writeIndex := readIndex + readable;
      }
    }

    /** std::vector::resize to a larger size. */
    method Resize(size: nat)
      requires Valid() && buffer.Length < size
      modifies `buffer
      ensures fresh(buffer) && buffer.Length == size && buffer[..old(buffer.Length)] == old(buffer[..])
    {
      var larger := new Byte[size](_ => 0);
      for i := 0 to buffer.Length
        invariant buffer == old(buffer) && larger[..i] == buffer[..i]
      {
        larger[i] := buffer[i];
      }
      buffer := larger;
    }

    /** std::copy of the contents down to the end of the headroom, first byte first: source and target may overlap. */
    method MoveDown(readable: nat)
      requires Valid() && PREPEND_SIZE < readIndex && readable == ReadableBytes()
      modifies buffer
      ensures buffer[PREPEND_SIZE..PREPEND_SIZE + readable] == old(Contents())
    {
      for i := 0 to readable
        invariant buffer[PREPEND_SIZE..PREPEND_SIZE + i] == old(buffer[readIndex..readIndex + i])
        invariant buffer[readIndex + i..] == old(buffer[readIndex + i..])
      {
        assert buffer[readIndex + i..][0] == old(buffer[readIndex + i..])[0];
        buffer[PREPEND_SIZE + i] := buffer[readIndex + i];
      }
    }

    method Append(data: seq<Byte>)
      requires Valid()
      modifies this, buffer
      ensures Valid() && (buffer == old(buffer) || fresh(buffer))
      ensures Contents() == old(Contents()) + data
      ensures old(readIndex) >= PREPEND_SIZE ==> readIndex >= PREPEND_SIZE
    {
      EnsureWritableBytes(|data|);
      Copy(data, writeIndex);
      assert Contents() == buffer[..writeIndex][readIndex..];
      HasWritten(|data|);
    }

    /** std::copy into the buffer at a position. */
    method Copy(data: seq<Byte>, at: nat)
      requires at + |data| <= buffer.Length
      modifies buffer
      ensures buffer[at..at + |data|] == data
      ensures buffer[..at] == old(buffer[..at]) && buffer[at + |data|..] == old(buffer[at + |data|..])
    {
      for i := 0 to |data|
        invariant buffer[at..at + i] == data[..i]
        invariant buffer[..at] == old(buffer[..at]) && buffer[at + i..] == old(buffer[at + i..])
      {
        buffer[at + i] := data[i];
      }
    }

    method Prepend(data: seq<Byte>)
      requires Valid() && |data| <= PrependableBytes()
      modifies `readIndex, buffer
      ensures Valid() && Contents() == data + old(Contents())
    {
      ghost var front := readIndex;
      readIndex := readIndex - |data|;
      Copy(data, readIndex);
      ghost var n := writeIndex - front;
      assert buffer[front..writeIndex] == buffer[front..][..n] == old(buffer[front..][..n]);
      assert buffer[readIndex..writeIndex] == buffer[readIndex..front] + buffer[front..writeIndex];
    }

    /** One operation, unless an assertion of the buffer stops it. */
    method Do(op: Op) returns (out: seq<Byte>, ok: bool)
      requires Valid()
      modifies this, buffer
      ensures Valid() && (buffer == old(buffer) || fresh(buffer))
      ensures ok <==> match op
        case Retrieve(len) => len <= |old(Contents())|
        case Prepend(data) => |data| <= old(PrependableBytes())
        case _ => true
      ensures ok ==> (out, Contents()) == Step(old(Contents()), op)
      ensures !ok ==> out == [] && Contents() == old(Contents()) && readIndex == old(readIndex)
      ensures old(readIndex) >= PREPEND_SIZE && !op.Prepend? && (op.Retrieve? ==> ok) ==> readIndex >= PREPEND_SIZE
    {
      out, ok := [], true;
      match op
      case Append(data) => Append(data);
      case EnsureWritable(len) => EnsureWritableBytes(len);
      case Prepend(data) =>
        ok := |data| <= PrependableBytes();
        if ok {
          Prepend(data);
        }
      case Retrieve(len) =>
        ok := len <= ReadableBytes();
        if ok {
          out := buffer[readIndex..readIndex + len];
          assert out == Contents()[..len];
          Retrieve(len);
        }
    }

    /** Any mix of operations, until an assertion of the buffer stops one, has the outputs and the contents that the
        same operations have on a byte sequence, whatever growing and moving they cause. Without a Prepend the headroom
        is still there at the end, so that a Prepend of 8 bytes cannot be stopped. */
    method Play(run: seq<Op>) returns (out: seq<Byte>, n: nat)
      requires Valid()
      modifies this, buffer
      ensures Valid() && n <= |run|
      ensures (out, Contents()) == Played(old(Contents()), run[..n])
      ensures n < |run| ==> match run[n]
        case Retrieve(len) => len > |Contents()|
        case Prepend(data) => |data| > PrependableBytes()
        case _ => false
      ensures old(readIndex) >= PREPEND_SIZE && (forall i :: 0 <= i < n ==> !run[i].Prepend?) ==>
        readIndex >= PREPEND_SIZE
    {
      out, n := [], 0;
      while n < |run|
        invariant n <= |run| && Valid() && (buffer == old(buffer) || fresh(buffer))
        invariant (out, Contents()) == Played(old(Contents()), run[..n])
        invariant old(readIndex) >= PREPEND_SIZE && (forall i :: 0 <= i < n ==> !run[i].Prepend?) ==>
          readIndex >= PREPEND_SIZE
      {
        var more, ok := Do(run[n]);
        if !ok {
          return;
        }
        PlayedMore(old(Contents()), run[..n], run[n]);
        assert run[..n + 1] == run[..n] + [run[n]];
        out, n := out + more, n + 1;
      }
    }
  }

  // The same operations on a byte sequence.

  datatype Op = Append(data: seq<Byte>) | Prepend(data: seq<Byte>) | Retrieve(len: nat) | EnsureWritable(len: nat)

  /** The output of an operation and the contents after it. */
  function Step(s: seq<Byte>, op: Op): (seq<Byte>, seq<Byte>) {
    match op
    case Append(data) => ([], s + data)
    case Prepend(data) => ([], data + s)
    case EnsureWritable(_) => ([], s)
    case Retrieve(len) => if len <= |s| then (s[..len], s[len..]) else ([], s)
  }

  function Played(s: seq<Byte>, run: seq<Op>): (seq<Byte>, seq<Byte>)
    decreases |run|
  {
    if run == [] then ([], s)
    else
      var (out, s1) := Step(s, run[0]);
      var (more, end) := Played(s1, run[1..]);
      (out + more, end)
  }

  lemma {:induction false} PlayedMore(s: seq<Byte>, run: seq<Op>, op: Op)
    ensures var (out, s1) := Played(s, run);
      Played(s, run + [op]) == (out + Step(s1, op).0, Step(s1, op).1)
    decreases |run|
  {
    if run == [] {
      assert Step(s, op).0 + [] == Step(s, op).0 == [] + Step(s, op).0 && [op][1..] == [];
    } else {
      var (first, s1) := Step(s, run[0]);
      PlayedMore(s1, run[1..], op);
      assert (run + [op])[1..] == run[1..] + [op];
      var (more, s2) := Played(s1, run[1..]);
      assert first + (more + Step(s2, op).0) == first + more + Step(s2, op).0;
    }
  }

  function Appended(run: seq<Op>): seq<Byte> {
    if run == [] then [] else (if run[0].Append? then run[0].data else []) + Appended(run[1..])
  }

  lemma Regrouped<T>(out: seq<T>, more: seq<T>, end: seq<T>, s1: seq<T>, s: seq<T>, added: seq<T>, rest: seq<T>)
    requires more + end == s1 + rest && out + s1 == s + added
    ensures out + more + end == s + (added + rest)
  {
    assert out + more + end == out + (s1 + rest) == (s + added) + rest;
  }

  /** Without a Prepend, what has been retrieved, followed by what is left, is what was there and what has been
      appended. */
  lemma {:induction false} NoByteLost(s: seq<Byte>, run: seq<Op>)
    requires forall i :: 0 <= i < |run| ==> !run[i].Prepend?
    ensures Played(s, run).0 + Played(s, run).1 == s + Appended(run)
    decreases |run|
  {
    if run == [] {
      assert s + [] == s;
    } else {
      var (out, s1) := Step(s, run[0]);
      NoByteLost(s1, run[1..]);
      var (more, end) := Played(s1, run[1..]);
      var added := if run[0].Append? then run[0].data else [];
      assert out + s1 == s + added;
      Regrouped(out, more, end, s1, s, added, Appended(run[1..]));
    }
  }
}
