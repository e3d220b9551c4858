/**
  The record buffer: the value it holds, and the class that keeps that value in
  user memory and passes it on by moves.
 */
module ViewBuffer {
  import opened ViewRecordInfo

  /** What a buffer holds: its memory (None is nullptr), that memory's size, and the records written to it. */
  datatype Buffer<R> = Buffer(raw: Option<R>, size: nat, records: seq<Record>)
  {
    predicate IsNull() {
      raw.None? || size == 0
    }

    /** `pos_`: how many bytes the records take. */
    function ValidBytes(): nat {
      |Encode(records)|
    }

    function FreeBytes(): int {
      size - ValidBytes()
    }

    function Append(record: Record): Buffer<R> {
      this.(records := records + [record])
    }

    /** The records fit in memory that is there. */
    predicate WellFormed() {
      ValidBytes() <= size && (raw.None? ==> records == [])
    }
  }

  /** A default-constructed buffer, and what a move leaves behind. */
  function NullBuffer<R>(): (b: Buffer<R>)
    ensures b.IsNull() && b.WellFormed()
  {
    Buffer(None, 0, [])
  }

  /** A buffer that tests as null has nothing in it to deliver. */
  lemma NullHoldsNothing<R>(b: Buffer<R>)
    requires b.WellFormed() && b.IsNull()
    ensures b.records == []
  {
    EncodeTakesSpace(b.records);
  }

  /** A record takes its own size, so a record that fits leaves a well-formed buffer. */
  lemma AppendTakesSize<R>(b: Buffer<R>, record: Record)
    ensures b.Append(record).FreeBytes() == b.FreeBytes() - record.Size()
    ensures b.WellFormed() && b.raw.Some? && record.Size() <= b.FreeBytes() ==> b.Append(record).WellFormed()
  {
    EncodeAppend(b.records, record);
  }

  class ViewRecordBuffer {
    var buf: array?<Byte>
    var size: nat
    var pos: nat
    ghost var records: seq<Record>   // what was written to buf[..pos]

    ghost predicate Valid()
      reads this, buf
    {
      && pos <= size && pos == |Encode(records)|
      && (buf == null ==> records == [])
      && (buf != null ==> size <= buf.Length && buf[..pos] == Encode(records))
    }

    ghost function View(): (b: Buffer<array<Byte>>)
      reads this, buf
      requires Valid()
      ensures b.WellFormed()
    {
      if buf == null then Buffer(None, size, [])
      else var memory: array<Byte> := buf; Buffer(Some(memory), size, records)
    }

    constructor ()
      ensures Valid() && View() == NullBuffer()
    {
      buf, size, pos, records := null, 0, 0, [];
    }

    /** The move constructor: the moved-from buffer becomes null. */
    constructor Move(other: ViewRecordBuffer)
      requires other.Valid()
      modifies other
      ensures Valid() && View() == old(other.View())
      ensures other.Valid() && other.View() == NullBuffer()
    {
      buf, size, pos, records := other.buf, other.size, other.pos, other.records;
      new;
      other.buf, other.size, other.pos, other.records := null, 0, 0, [];
    }

    /** Move assignment: the target's old memory stays reachable from the source of the move, with size 0. */
    method MoveAssign(other: ViewRecordBuffer)
      requires Valid() && other.Valid()
      modifies this, other
      ensures Valid() && other.Valid()
      ensures View() == old(other.View())
      ensures other != this ==> other.View() == Buffer(old(View()).raw, 0, [])
    {
      if this != other {
        other.buf, buf := buf, other.buf;
        size, pos, records := other.size, other.pos, other.records;
        other.size, other.pos, other.records := 0, 0, [];
      }
    }

    method Refresh(buffer: array?<Byte>, newSize: nat)
      requires buffer != null ==> newSize <= buffer.Length
      modifies this
      ensures Valid() && buf == buffer && View().size == newSize && View().records == []
    {
      buf, pos, size, records := buffer, 0, newSize, [];
    }

    predicate IsNull()
      reads this
    {
      buf == null || size == 0
    }

    /** memcpy into the buffer's memory. */
    method CopyTo(memory: array<Byte>, at: nat, bytes: seq<Byte>)
      requires at + |bytes| <= memory.Length
      modifies memory
      ensures memory[..at] == old(memory[..at])
      ensures memory[at..at + |bytes|] == bytes
      ensures memory[at + |bytes|..] == old(memory[at + |bytes|..])
    {
      for i := 0 to |bytes|
        invariant forall k :: 0 <= k < i ==> memory[at + k] == bytes[k]
        invariant forall k :: 0 <= k < at || at + i <= k < memory.Length ==> memory[k] == old(memory[k])
      {
        memory[at + i] := bytes[i];
      }
    }

    /** Copies one record behind the last one and returns where it went. */
    method Insert(record: Record) returns (inserted: nat)
      requires Valid() && !IsNull() && View().FreeBytes() >= record.Size()
      modifies this`pos, this`records, buf
      ensures Valid() && View() == old(View()).Append(record)
      ensures inserted == old(pos) && pos == inserted + record.Size() && buf[inserted..pos] == record.Bytes()
      ensures buf[pos..] == old(buf[pos + record.Size()..])
    {
      inserted := pos;
      CopyTo(buf, inserted, record.Bytes());
      EncodeAppend(records, record);
      pos, records := pos + record.Size(), records + [record];
      assert buf[..pos] == buf[..inserted] + buf[inserted..pos];
    }
  }
}
