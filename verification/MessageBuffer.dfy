/** The growable byte buffer: a FIFO of bytes over a block that is replaced when full. */
module MessageBuffers {
  import opened Endian

  function Max(a: int, b: int): (m: int)
    ensures m >= a && m >= b && (m == a || m == b)
  {
    if a >= b then a else b
  }

  /** Credit saved up by earlier writes: how far the write offset is beyond half the block. */
  function Potential(writeOffset: nat, capacity: nat): nat { Max(0, 2 * writeOffset - capacity) }

  /** One growth: the bytes copied are paid by the credit and two units a byte written. */
  lemma GrowthIsPaid(readOffset: nat, writeOffset: nat, capacity: nat, len: nat)
    requires readOffset <= writeOffset <= capacity < writeOffset + len
    ensures
      var size := writeOffset - readOffset;
      size + Potential(size + len, 2 * (size + len)) <= Potential(writeOffset, capacity) + 2 * len
  {
  }

  class MessageBuffer {
    var data: array<byte>   // start_ .. end_
    var read: nat           // read_ - start_
    var write: nat          // write_ - start_
    // accounting over the buffer's life
    ghost var copied: nat   // bytes moved by reallocate
    ghost var added: nat    // bytes added by write and advanceWrite
    ghost var peak: nat     // most readable bytes there ever were
    ghost var initial: nat  // first capacity

    ghost predicate Pointers()
      reads this
    {
      read <= write <= data.Length
    }

    /** The pointers are in order, all copying is paid for, the block is at most twice the peak. */
    ghost predicate Valid(): (v: bool)
      reads this
      ensures v ==> Pointers()
    {
      && Pointers() && write - read <= peak
      && copied + Potential(write, data.Length) <= 2 * added
      && data.Length <= Max(initial, 2 * peak)
    }

    /** The readable bytes, oldest first. */
    function Contents(): (c: seq<byte>)
      reads this, data
      requires Pointers()
      ensures |c| == ReadByte()
    {
      data[read..write]
    }

    function HeadByte(): nat reads this { read }

    function ReadByte(): nat
      reads this
      requires Pointers()
    {
      write - read
    }

    function WriteByte(): nat
      reads this
      requires Pointers()
    {
      data.Length - write
    }

    predicate Empty() reads this { read == write }

    function Size(): nat
      reads this
      requires Pointers()
    {
      ReadByte()
    }

    constructor (length: nat)
      ensures Valid() && fresh(data) && Contents() == [] && data.Length == length
      ensures copied == added == peak == 0 && initial == length
    {
      data := new byte[length](_ => 0);
      read, write := 0, 0;
      copied, added, peak, initial := 0, 0, 0, length;
    }

    /** Makes room for `length` more bytes. Its test compares the readable size with
        itself, so it compacts in place only for length 0. */
    method Reallocate(length: nat)
      requires Pointers()
      modifies this`data, this`read, this`write, this`copied, data
      ensures Pointers() && Contents() == old(Contents()) && read == 0
      ensures copied == old(copied) + old(ReadByte())
      ensures length > 0 ==> fresh(data) && data.Length == 2 * (old(ReadByte()) + length)
      ensures length > 0 ==> old(data)[..] == old(data[..])
      ensures length == 0 ==> data == old(data)
    {
      var readSize := ReadByte();
      copied := copied + readSize;
      if Size() - ReadByte() < length {
        var newSize := (Size() + length) * 2;
        var newData := new byte[newSize](_ => 0);
        forall i | 0 <= i < readSize {
          newData[i] := data[read + i];
        }
        data := newData;
      } else {
        forall i | 0 <= i < readSize {
          data[i] := data[read + i];
        }
      }
      assert data[..readSize] == old(Contents());
      read := 0;
      write := readSize;
      assert data[read..write] == data[..readSize];
    }

    /** Appends. Whenever there is not enough room the block is replaced by a fresh one. */
    method Write(buf: seq<byte>)
      requires Valid()
      modifies this, data
      ensures Valid() && Contents() == old(Contents()) + buf
      ensures data == old(data) || fresh(data)
      ensures fresh(data) <==> |buf| > old(WriteByte())
      ensures fresh(data) ==> read == 0 && data.Length == 2 * |Contents()|
      ensures !fresh(data) ==> read == old(read)
      ensures copied == old(copied) + if fresh(data) then old(ReadByte()) else 0
      ensures added == old(added) + |buf| && initial == old(initial)
      ensures peak == Max(old(peak), |Contents()|)
    {
      if WriteByte() < |buf| {
        GrowthIsPaid(read, write, data.Length, |buf|);
        Reallocate(|buf|);
      }
      Append(buf);
      added := added + |buf|;
      peak := Max(peak, ReadByte());
    }

    /** memcpy to the write position, which then moves past the bytes. */
    method Append(buf: seq<byte>)
      requires Pointers() && |buf| <= WriteByte()
      modifies this`write, data
      ensures Pointers() && write == old(write) + |buf|
      ensures Contents() == old(Contents()) + buf
    {
      forall i | 0 <= i < |buf| {
        data[write + i] := buf[i];
      }
      write := write + |buf|;
      assert data[read..write - |buf|] == old(Contents());
      assert data[write - |buf|..write] == buf;
    }

    /** Drops the oldest bytes; an emptied buffer starts over at the front of the block. */
    method Retrieve(len: nat)
      requires Valid() && len <= ReadByte()
      modifies this`read, this`write
      ensures Valid() && Contents() == old(Contents())[len..]
      ensures len == old(ReadByte()) ==> HeadByte() == 0 && WriteByte() == data.Length
    {
      if len < ReadByte() {
        read := read + len;
      } else {
        RetrieveAll();
      }
    }

    method RetrieveAll()
      requires Valid()
      modifies this`read, this`write
      ensures Valid() && Contents() == [] && HeadByte() == 0 && WriteByte() == data.Length
    {
      read := 0;
      write := 0;
    }

    method RetrieveUntil(end: nat)
      requires Valid() && read <= end <= write
      modifies this`read, this`write
      ensures Valid() && Contents() == old(data[end..write])
    {
      Retrieve(end - read);
    }

    method Read(len: nat) returns (bytes: seq<byte>)
      requires Valid() && len <= ReadByte()
      modifies this`read, this`write
      ensures Valid() && bytes == old(Contents())[..len] && Contents() == old(Contents())[len..]
    {
      bytes := data[read..read + len];
      Retrieve(len);
    }

    method ReadUntil(end: nat) returns (bytes: seq<byte>)
      requires Valid() && read <= end <= write
      modifies this`read, this`write
      ensures Valid() && bytes == old(data[read..end]) && Contents() == old(data[end..write])
    {
      bytes := Read(end - read);
    }

    method ReadAll() returns (bytes: seq<byte>)
      requires Valid()
      modifies this`read, this`write
      ensures Valid() && bytes == old(Contents()) && Contents() == []
    {
      bytes := Read(ReadByte());
    }

    /** The kernel filling memory handed out by mutWritePeek(): nothing becomes readable yet. */
    method FillWritable(bytes: seq<byte>)
      requires Valid() && |bytes| <= WriteByte()
      modifies data
      ensures Valid() && Contents() == old(Contents())
      ensures data[write..write + |bytes|] == bytes
    {
      forall i | 0 <= i < |bytes| {
        data[write + i] := bytes[i];
      }
    }

    /** Makes the next len bytes of the block readable. */
    method AdvanceWrite(len: nat)
      requires Valid() && len <= WriteByte()
      modifies this`write, this`added, this`peak
      ensures Valid() && write == old(write) + len
      ensures Contents() == old(Contents()) + old(data[write..write + len])
      ensures added == old(added) + len && peak == Max(old(peak), |Contents()|)
    {
      write := write + len;
      added := added + len;
      peak := Max(peak, write - read);
    }

    /** A scatter read into the room and, for what does not fit, a second block that is
        appended: every byte ends up in the buffer once and in order. */
    method Scatter(bytes: seq<byte>)
      requires Valid()
      modifies this, data
      ensures Valid() && Contents() == old(Contents()) + bytes
      ensures data == old(data) || fresh(data)
      ensures added == old(added) + |bytes| && initial == old(initial) && peak == Max(old(peak), |Contents()|)
    {
      hide Valid, Contents;
      var room := WriteByte();
      if |bytes| <= room {
        FillWritable(bytes);
        AdvanceWrite(|bytes|);
      } else {
        FillWritable(bytes[..room]);
        AdvanceWrite(room);
        Write(bytes[room..]);
        assert bytes[..room] + bytes[room..] == bytes;
      }
    }

    // -------------------------------------------------------------- typed access

    function PeekInt8(): (v: byte)
      reads this, data
      requires Pointers() && ReadByte() >= 1
      ensures [v] == Contents()[..1]
    {
      data[read]
    }

    function PeekInt16(h: Host): (v: bv16)
      reads this, data
      requires Pointers() && ReadByte() >= 2
      ensures Wire16(v) == Contents()[..2]
    {
      assert data[read..read + 2] == Contents()[..2];
      Read16(h, data[read..read + 2]);
      NetworkToHost16(h, Load16(h, data[read..read + 2]))
    }

    function PeekInt32(h: Host): (v: bv32)
      reads this, data
      requires Pointers() && ReadByte() >= 4
      ensures Wire32(v) == Contents()[..4]
    {
      assert data[read..read + 4] == Contents()[..4];
      Read32(h, data[read..read + 4]);
      NetworkToHost32(h, Load32(h, data[read..read + 4]))
    }

    function PeekInt64(h: Host): (v: bv64)
      reads this, data
      requires Pointers() && ReadByte() >= 8
      ensures Wire64(v) == Contents()[..8]
    {
      assert data[read..read + 8] == Contents()[..8];
      Read64(h, data[read..read + 8]);
      NetworkToHost64(h, Load64(h, data[read..read + 8]))
    }

    method ReadInt8() returns (v: byte)
      requires Valid() && ReadByte() >= 1
      modifies this`read, this`write
      ensures Valid() && [v] + Contents() == old(Contents())
    {
      v := PeekInt8();
      Retrieve(1);
    }

    method ReadInt16(h: Host) returns (v: bv16)
      requires Valid() && ReadByte() >= 2
      modifies this`read, this`write
      ensures Valid() && Wire16(v) + Contents() == old(Contents())
    {
      v := PeekInt16(h);
      Retrieve(2);
    }

    method ReadInt32(h: Host) returns (v: bv32)
      requires Valid() && ReadByte() >= 4
      modifies this`read, this`write
      ensures Valid() && Wire32(v) + Contents() == old(Contents())
    {
      v := PeekInt32(h);
      Retrieve(4);
    }

    method ReadInt64(h: Host) returns (v: bv64)
      requires Valid() && ReadByte() >= 8
      modifies this`read, this`write
      ensures Valid() && Wire64(v) + Contents() == old(Contents())
    {
      v := PeekInt64(h);
      Retrieve(8);
    }

    method WriteInt8(v: byte)
      requires Valid()
      modifies this, data
      ensures Valid() && Contents() == old(Contents()) + [v]
      ensures data == old(data) || fresh(data)
      ensures fresh(data) <==> 1 > old(WriteByte())
      ensures copied == old(copied) + if fresh(data) then old(ReadByte()) else 0
      ensures added == old(added) + 1 && initial == old(initial) && peak == Max(old(peak), |Contents()|)
    {
      Write([v]);
    }

    method WriteInt16(h: Host, v: bv16)
      requires Valid()
      modifies this, data
      ensures Valid() && Contents() == old(Contents()) + Wire16(v)
      ensures data == old(data) || fresh(data)
      ensures fresh(data) <==> 2 > old(WriteByte())
      ensures copied == old(copied) + if fresh(data) then old(ReadByte()) else 0
      ensures added == old(added) + 2 && initial == old(initial) && peak == Max(old(peak), |Contents()|)
    {
      WireFormat(h, v, 0, 0);
      Write(Memory16(h, HostToNetwork16(h, v)));
    }

    method WriteInt32(h: Host, v: bv32)
      requires Valid()
      modifies this, data
      ensures Valid() && Contents() == old(Contents()) + Wire32(v)
      ensures data == old(data) || fresh(data)
      ensures fresh(data) <==> 4 > old(WriteByte())
      ensures copied == old(copied) + if fresh(data) then old(ReadByte()) else 0
      ensures added == old(added) + 4 && initial == old(initial) && peak == Max(old(peak), |Contents()|)
    {
      WireFormat(h, 0, v, 0);
      Write(Memory32(h, HostToNetwork32(h, v)));
    }

    method WriteInt64(h: Host, v: bv64)
      requires Valid()
      modifies this, data
      ensures Valid() && Contents() == old(Contents()) + Wire64(v)
      ensures data == old(data) || fresh(data)
      ensures fresh(data) <==> 8 > old(WriteByte())
      ensures copied == old(copied) + if fresh(data) then old(ReadByte()) else 0
      ensures added == old(added) + 8 && initial == old(initial) && peak == Max(old(peak), |Contents()|)
    {
      WireFormat(h, 0, 0, v);
      Write(Memory64(h, HostToNetwork64(h, v)));
    }
  }

  /** What is done with a buffer: bytes or an integer appended, a scatter read that fills the
      room and appends what does not fit, the oldest bytes (as many as there are) dropped. */
  datatype Op = Put(bytes: seq<byte>) | PutInt64(host: Host, value: bv64) | Scatter(bytes: seq<byte>) | Take(len: nat) | TakeAll

  function BytesOf(op: Op): seq<byte> {
    match op
    case Put(bytes) => bytes
    case PutInt64(_, value) => Wire64(value)
    case Scatter(bytes) => bytes
    case _ => []
  }

  /** What an operation does to a first-in first-out queue of bytes. */
  function Queued(bytes: seq<byte>, op: Op): seq<byte> {
    match op
    case Take(len) => if len < |bytes| then bytes[len..] else []
    case TakeAll => []
    case _ => bytes + BytesOf(op)
  }

  function Fifo(ops: seq<Op>): seq<byte> {
    if ops == [] then [] else Queued(Fifo(ops[..|ops| - 1]), ops[|ops| - 1])
  }

  function Added(ops: seq<Op>): nat {
    if ops == [] then 0 else Added(ops[..|ops| - 1]) + |BytesOf(ops[|ops| - 1])|
  }

  /** The most bytes that were ever readable. */
  function Peak(ops: seq<Op>): nat {
    if ops == [] then 0 else Max(Peak(ops[..|ops| - 1]), |Fifo(ops)|)
  }

  /** All bytes appended in a run. */
  function Appended(ops: seq<Op>): seq<byte> {
    if ops == [] then [] else Appended(ops[..|ops| - 1]) + BytesOf(ops[|ops| - 1])
  }

  lemma Onward(out: seq<byte>, before: seq<byte>, bytes: seq<byte>, after: seq<byte>, added: seq<byte>)
    requires bytes + after == before + added
    ensures (out + bytes) + after == (out + before) + added
  {
    assert (out + bytes) + after == out + (bytes + after);
    assert (out + before) + added == out + (before + added);
  }

  /** One operation: `out` comes off the front, what is appended goes to the back. */
  method Do(buffer: MessageBuffer, op: Op) returns (out: seq<byte>)
    requires buffer.Valid()
    modifies buffer, buffer.data
    ensures buffer.Valid() && buffer.Contents() == Queued(old(buffer.Contents()), op)
    ensures out + buffer.Contents() == old(buffer.Contents()) + match op
      case Put(bytes) => bytes
      case PutInt64(_, value) => Wire64(value)
      case Scatter(bytes) => bytes
      case _ => []
    ensures |out| == match op
      case Take(len) => if len < old(buffer.ReadByte()) then len else old(buffer.ReadByte())
      case TakeAll => old(buffer.ReadByte())
      case _ => 0
    ensures buffer.data == old(buffer.data) || fresh(buffer.data)
    ensures buffer.added == old(buffer.added) + |BytesOf(op)| && buffer.initial == old(buffer.initial)
    ensures buffer.peak == Max(old(buffer.peak), |buffer.Contents()|)
  {
    hide MessageBuffer.Contents, Wire64;
    out := [];
    match op {
      case Put(bytes) => buffer.Write(bytes);
      case PutInt64(host, value) => buffer.WriteInt64(host, value);
      case Scatter(bytes) => buffer.Scatter(bytes);
      case Take(len) => out := buffer.Read(if len < buffer.ReadByte() then len else buffer.ReadByte());
      case TakeAll => out := buffer.ReadAll();
    }
  }

  /** Over every run from construction on: what was taken out followed by the contents is
      everything that was appended, in order; all copying by growth is at most twice the
      bytes added, and the block never outgrows the larger of its first size and twice the
      most there ever was to read. */
  method Drive(length: nat, ops: seq<Op>) returns (buffer: MessageBuffer, out: seq<byte>)
    ensures fresh(buffer) && buffer.Valid() && buffer.Contents() == Fifo(ops)
    ensures out + buffer.Contents() == Appended(ops)
    ensures buffer.copied <= 2 * Added(ops)
    ensures buffer.data.Length <= Max(length, 2 * Peak(ops))
  {
    buffer := new MessageBuffer(length);
    out := [];
    for i := 0 to |ops|
      invariant fresh(buffer) && fresh(buffer.data) && buffer.Valid() && buffer.Contents() == Fifo(ops[..i])
      invariant out + buffer.Contents() == Appended(ops[..i])
      invariant buffer.added == Added(ops[..i]) && buffer.peak == Peak(ops[..i]) && buffer.initial == length
    {
      hide MessageBuffer.Valid, MessageBuffer.Contents, Queued;
      assert ops[..i + 1][..i] == ops[..i];
      ghost var before := buffer.Contents();
      var bytes := Do(buffer, ops[i]);
      Onward(out, before, bytes, buffer.Contents(), BytesOf(ops[i]));
      out := out + bytes;
    }
    assert ops[..|ops|] == ops;
  }

  lemma SplitAt(a: seq<byte>, b: seq<byte>, c: seq<byte>, d: seq<byte>)
    requires a + b == c + d && |a| == |c|
    ensures a == c && b == d
  {
    assert a == (a + b)[..|a|] && c == (c + d)[..|c|];
    assert b == (a + b)[|a|..] && d == (c + d)[|c|..];
  }

  /** A value written on one host and carried over as bytes is read back on another as
      itself, behind whatever both buffers held and before whatever follows. */
  method CarryInt16(sender: MessageBuffer, receiver: MessageBuffer, from: Host, to: Host, v: bv16, more: seq<byte>)
    returns (w: bv16)
    requires sender.Valid() && receiver.Valid() && sender != receiver && sender.data != receiver.data
    modifies sender, sender.data, receiver, receiver.data
    ensures w == v && receiver.Valid() && receiver.Contents() == more
  {
    hide MessageBuffer.Valid, MessageBuffer.Contents, Wire16;
    var before := receiver.ReadByte() + sender.ReadByte();
    ghost var stream := receiver.Contents() + sender.Contents();
    sender.WriteInt16(from, v);
    sender.Write(more);
    var bytes := sender.ReadAll();
    receiver.Write(bytes);
    assert receiver.Contents() == stream + (Wire16(v) + more);
    receiver.Retrieve(before);
    w := receiver.ReadInt16(to);
    SplitAt(Wire16(w), receiver.Contents(), Wire16(v), more);
    Injective16(w, v);
  }

  method CarryInt32(sender: MessageBuffer, receiver: MessageBuffer, from: Host, to: Host, v: bv32, more: seq<byte>)
    returns (w: bv32)
    requires sender.Valid() && receiver.Valid() && sender != receiver && sender.data != receiver.data
    modifies sender, sender.data, receiver, receiver.data
    ensures w == v && receiver.Valid() && receiver.Contents() == more
  {
    hide MessageBuffer.Valid, MessageBuffer.Contents, Wire32;
    var before := receiver.ReadByte() + sender.ReadByte();
    ghost var stream := receiver.Contents() + sender.Contents();
    sender.WriteInt32(from, v);
    sender.Write(more);
    var bytes := sender.ReadAll();
    receiver.Write(bytes);
    assert receiver.Contents() == stream + (Wire32(v) + more);
    receiver.Retrieve(before);
    w := receiver.ReadInt32(to);
    SplitAt(Wire32(w), receiver.Contents(), Wire32(v), more);
    Injective32(w, v);
  }

  method CarryInt64(sender: MessageBuffer, receiver: MessageBuffer, from: Host, to: Host, v: bv64, more: seq<byte>)
    returns (w: bv64)
    requires sender.Valid() && receiver.Valid() && sender != receiver && sender.data != receiver.data
    modifies sender, sender.data, receiver, receiver.data
    ensures w == v && receiver.Valid() && receiver.Contents() == more
  {
    hide MessageBuffer.Valid, MessageBuffer.Contents, Wire64;
    var before := receiver.ReadByte() + sender.ReadByte();
    ghost var stream := receiver.Contents() + sender.Contents();
    sender.WriteInt64(from, v);
    sender.Write(more);
    var bytes := sender.ReadAll();
    receiver.Write(bytes);
    assert receiver.Contents() == stream + (Wire64(v) + more);
    receiver.Retrieve(before);
    w := receiver.ReadInt64(to);
    SplitAt(Wire64(w), receiver.Contents(), Wire64(v), more);
    Injective64(w, v);
  }
}
