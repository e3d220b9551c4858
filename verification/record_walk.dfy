/**
  Walking a delivered buffer: `GetNextRecord`, and the loop in which a user calls
  it until the end of the buffer.
 */
module RecordWalk {
  import opened ViewRecordInfo

  datatype Status = Success | EndOfBuffer | BadArgument

  /** A `pti_view_record_base*`: null, or so many bytes behind the start of the buffer. */
  datatype Pointer = Null | At(offset: nat)

  /** What the caller passes in is memory it may read: the valid bytes, and the kind of the current record. */
  ghost predicate InMemory(buffer: Option<seq<Byte>>, validBytes: nat, record: Option<Pointer>) {
    && (buffer.Some? ==> validBytes <= |buffer.value|)
    && (buffer.Some? && record.Some? && record.value.At? ==> record.value.offset + KIND_BYTES <= |buffer.value|)
  }

  /** `ViewRecordBuffer::Peek` on a buffer whose records end at `validBytes`. */
  function Peek(validBytes: nat, element: nat, loc: nat): Pointer {
    if element + loc == validBytes then Null else At(element + loc)
  }

  /**
    The status, and the new value of `*record`. A None buffer is nullptr, a None
    record is a null `record` argument.
   */
  function GetNextRecord(table: SizeTable, buffer: Option<seq<Byte>>, validBytes: nat, record: Option<Pointer>)
    : (Status, Option<Pointer>)
    requires InMemory(buffer, validBytes, record)
  {
    if record.None? then (BadArgument, record)
    else if buffer.None? || validBytes == 0 then (EndOfBuffer, record)
    else match record.value
      case Null =>
        (Success, Some(Peek(validBytes, 0, 0)))
      case At(current) =>
        var size := GetViewSize(table, KindAt(buffer.value, current));
        if size.None? then (BadArgument, record)
        else
          var next := Peek(validBytes, current, size.value);
          if next.Null? then (EndOfBuffer, record) else (Success, Some(next))
  }

  /**
    When a call does not succeed, and that it then leaves the pointer alone: it is given
    no pointer, or stands on a record of no known kind, or there are no valid bytes or
    none behind the record. From null it leads to the first record.
   */
  lemma FailsOrMoves(table: SizeTable, buffer: Option<seq<Byte>>, validBytes: nat, record: Option<Pointer>)
    requires InMemory(buffer, validBytes, record)
    ensures var (status, next) := GetNextRecord(table, buffer, validBytes, record);
            var nothing := buffer.None? || validBytes == 0;
            var known := !nothing && record.Some? && record.value.At? ==>
                           GetViewSize(table, KindAt(buffer.value, record.value.offset)).Some?;
            && (status == BadArgument <==> record.None? || !known)
            && (status == EndOfBuffer <==>
                  && record.Some? && known
                  && (nothing || (record.value.At? && record.value.offset
                       + GetViewSize(table, KindAt(buffer.value, record.value.offset)).value == validBytes)))
            && (status != Success ==> next == record)
            && (record == Some(Null) && !nothing ==> status == Success && next == Some(At(0)))
  {
  }

  /** Record `k` of a written buffer starts behind the records before it. */
  function Offset(records: seq<Record>, k: nat): nat
    requires k <= |records|
  {
    |Encode(records[..k])|
  }

  /** The bytes of a written buffer, around one of its records. */
  lemma EncodeAround(before: seq<Record>, record: Record, after: seq<Record>)
    ensures Encode(before + [record] + after) == Encode(before) + record.Bytes() + Encode(after)
    ensures Encode(after) == [] <==> after == []
  {
    EncodeAppend(before, record);
    EncodeConcat(before + [record], after);
    assert after != [] ==> |Encode(after)| >= |after[0].Bytes()|;
  }

  /** The memory of a delivered buffer: what was written to it, then bytes nobody wrote. */
  ghost predicate Written(memory: seq<Byte>, validBytes: nat, records: seq<Record>) {
    validBytes == |Encode(records)| <= |memory| && memory[..validBytes] == Encode(records)
  }

  lemma RecordsInMemory(table: SizeTable, memory: seq<Byte>, validBytes: nat, records: seq<Record>, k: nat)
    requires Written(memory, validBytes, records) && AllFit(table, records) && k < |records|
    ensures RecordAt(table, memory, Offset(records, k)) == Some(records[k])
    ensures Offset(records, k + 1) == Offset(records, k) + records[k].Size() <= validBytes
    ensures Offset(records, k + 1) == validBytes <==> k + 1 == |records|
  {
    var before, record, after := records[..k], records[k], records[k + 1..];
    assert records == before + [record] + after;
    EncodeAround(before, record, after);
    assert records[..k + 1] == before + [record];
    EncodeAppend(before, record);
    var unused := memory[validBytes..];
    RecordInside(table, Encode(before), record, Encode(after) + unused);
    Associative(Encode(before) + record.Bytes(), Encode(after), unused);
    assert memory == Encode(records) + unused;
  }

  /** One call from a record in the buffer steps over that record's bytes. */
  lemma NextFromRecord(table: SizeTable, memory: seq<Byte>, validBytes: nat, here: nat, record: Record)
    requires 0 < validBytes <= |memory| && RecordAt(table, memory, here) == Some(record)
    ensures GetNextRecord(table, Some(memory), validBytes, Some(At(here)))
            == if here + record.Size() == validBytes then (EndOfBuffer, Some(At(here)))
               else (Success, Some(At(here + record.Size())))
  {
  }

  /** The pointer of a user who has visited the first k records. */
  function PointerAfter(records: seq<Record>, k: nat): Pointer
    requires k <= |records|
  {
    if k == 0 then Null else At(Offset(records, k - 1))
  }

  /**
    Walking a written buffer: each call leads to the next record written, and after
    the last one to END_OF_BUFFER with the pointer unchanged. The memory behind the
    valid bytes does not matter.
   */
  lemma WalkVisitsRecords(table: SizeTable, memory: seq<Byte>, validBytes: nat, records: seq<Record>, k: nat)
    requires Written(memory, validBytes, records) && AllFit(table, records) && k <= |records|
    ensures var here := PointerAfter(records, k);
            && InMemory(Some(memory), validBytes, Some(here))
            && GetNextRecord(table, Some(memory), validBytes, Some(here))
               == if k < |records| then (Success, Some(PointerAfter(records, k + 1))) else (EndOfBuffer, Some(here))
    ensures k < |records| ==> RecordAt(table, memory, PointerAfter(records, k + 1).offset) == Some(records[k])
  {
    EncodeTakesSpace(records);
    if k > 0 {
      RecordsInMemory(table, memory, validBytes, records, k - 1);
      NextFromRecord(table, memory, validBytes, Offset(records, k - 1), records[k - 1]);
    }
    if k < |records| {
      RecordsInMemory(table, memory, validBytes, records, k);
    }
  }

  /** A user who stands at `here` and calls on until the end status visits these records and no others. */
  ghost predicate Visits(table: SizeTable, buffer: Option<seq<Byte>>, validBytes: nat, here: Pointer,
                         visited: seq<Record>)
    decreases |visited|
  {
    && InMemory(buffer, validBytes, Some(here))
    && var (status, next) := GetNextRecord(table, buffer, validBytes, Some(here));
       if visited == [] then status == EndOfBuffer
       else
         && status == Success && buffer.Some? && next.Some? && next.value.At?
         && RecordAt(table, buffer.value, next.value.offset) == Some(visited[0])
         && Visits(table, buffer, validBytes, next.value, visited[1..])
  }

  /** What a user visits from the k-th record of a written buffer on is what was written, and nothing else. */
  lemma {:induction false} VisitsExactly(table: SizeTable, memory: seq<Byte>, validBytes: nat, records: seq<Record>,
                                         k: nat, visited: seq<Record>)
    requires Written(memory, validBytes, records) && AllFit(table, records) && k <= |records|
    ensures Visits(table, Some(memory), validBytes, PointerAfter(records, k), visited) <==> visited == records[k..]
    decreases |visited|
  {
    WalkVisitsRecords(table, memory, validBytes, records, k);
    if visited != [] && k < |records| {
      VisitsExactly(table, memory, validBytes, records, k + 1, visited[1..]);
      assert records[k..][0] == records[k] && records[k..][1..] == records[k + 1..];
      assert visited == [visited[0]] + visited[1..] && records[k..] == [records[k]] + records[k + 1..];
    }
  }

  /** The user's loop: it visits exactly the records that were written, in order. */
  method WalkRecords(table: SizeTable, buffer: seq<Byte>, validBytes: nat, ghost written: seq<Record>)
    returns (visited: seq<Record>)
    requires Written(buffer, validBytes, written) && AllFit(table, written)
    ensures visited == written
  {
    visited := [];
    var record := Some(Null);
    while true
      invariant visited <= written
      invariant record == Some(PointerAfter(written, |visited|))
      decreases |written| - |visited|
    {
      WalkVisitsRecords(table, buffer, validBytes, written, |visited|);
      var (status, next) := GetNextRecord(table, Some(buffer), validBytes, record);
      if status == EndOfBuffer {
        break;
      }
      record := next;
      visited := visited + [RecordAt(table, buffer, record.value.offset).value];
    }
  }
}
