/**
  View records: the size table, the record bytes, and what a run of record bytes
  means.

  A record is the bytes of one `pti_view_record_*` structure. The first four
  bytes are its view kind (a little-endian 32-bit enum), the rest is payload, and
  the structure's size is the table entry of its kind. The table is a parameter:
  `sizeof` depends on the target, and VIEW_SIZE_TABLE is the LP64 one.
 */
module ViewRecordInfo {

  datatype Option<+T> = None | Some(value: T)

  type Byte = x: int | 0 <= x < 256

  const KIND_BYTES: nat := 4

  /** Record sizes by view kind; 0 marks a reserved kind, and every record holds its kind. */
  type SizeTable = t: seq<nat> | |t| <= 256 && forall k :: 0 <= k < |t| ==> t[k] == 0 || t[k] > KIND_BYTES
    witness []

  const VIEW_SIZE_TABLE: SizeTable :=
    [ 0,      // PTI_VIEW_INVALID
      184,    // PTI_VIEW_DEVICE_GPU_KERNEL
      0,      // PTI_VIEW_DEVICE_CPU_KERNEL
      48,     // PTI_VIEW_DRIVER_API
      0,      // PTI_VIEW_RESERVED
      56,     // PTI_VIEW_COLLECTION_OVERHEAD
      48,     // PTI_VIEW_RUNTIME_API
      24,     // PTI_VIEW_EXTERNAL_CORRELATION
      152,    // PTI_VIEW_DEVICE_GPU_MEM_COPY
      152,    // PTI_VIEW_DEVICE_GPU_MEM_FILL
      192,    // PTI_VIEW_DEVICE_GPU_MEM_COPY_P2P
      72,     // PTI_VIEW_DEVICE_SYNCHRONIZATION
      64 ]    // PTI_VIEW_COMMUNICATION

  /** The record size of a view kind; None is the source's SIZE_MAX. */
  function GetViewSize(table: SizeTable, kind: nat): Option<nat> {
    if kind >= |table| then None
    else if table[kind] == 0 then None
    else Some(table[kind])
  }

  /** The scan over the table for the largest record. */
  method SizeOfLargestViewRecord(table: SizeTable) returns (largest: nat)
    requires table != []
    ensures forall kind :: GetViewSize(table, kind).Some? ==> GetViewSize(table, kind).value <= largest
    ensures largest != 0 ==> exists kind :: GetViewSize(table, kind) == Some(largest)
    ensures largest == 0 ==> forall kind :: GetViewSize(table, kind).None?
  {
    largest := table[0];
    ghost var at := 0;
    for i := 0 to |table|
      invariant 0 <= at < |table| && table[at] == largest
      invariant forall k :: 0 <= k < i ==> table[k] <= largest
    {
      if largest < table[i] {
        largest, at := table[i], i;
      }
    }
    assert largest != 0 ==> GetViewSize(table, at) == Some(largest);
  }

  datatype Record = Record(kind: Byte, payload: seq<Byte>)
  {
    function Size(): nat {
      KIND_BYTES + |payload|
    }

    /** The record is a structure of the kind it names. */
    predicate Fits(table: SizeTable) {
      GetViewSize(table, kind) == Some(Size())
    }

    function Bytes(): (bytes: seq<Byte>)
      ensures |bytes| == Size()
    {
      [kind, 0, 0, 0] + payload
    }
  }

  predicate AllFit(table: SizeTable, records: seq<Record>) {
    forall i :: 0 <= i < |records| ==> records[i].Fits(table)
  }

  /** Reads the view kind of the record that starts at `offset`. */
  function KindAt(bytes: seq<Byte>, offset: nat): nat
    requires offset + KIND_BYTES <= |bytes|
  {
    var b0: int, b1: int, b2: int, b3: int := bytes[offset], bytes[offset + 1], bytes[offset + 2], bytes[offset + 3];
    b0 + 0x100 * b1 + 0x1_0000 * b2 + 0x100_0000 * b3
  }

  /** The record that starts at `offset`, if a whole record of a known kind is there. */
  function RecordAt(table: SizeTable, bytes: seq<Byte>, offset: nat): (record: Option<Record>)
    ensures record.Some? ==> record.value.Fits(table) && offset + record.value.Size() <= |bytes|
  {
    if offset + KIND_BYTES > |bytes| then None
    else
      var kind := KindAt(bytes, offset);
      var size := GetViewSize(table, kind);
      if size.None? || offset + size.value > |bytes| then None
      else Some(Record(kind, bytes[offset + KIND_BYTES..offset + size.value]))
  }

  /** Splits bytes into whole records; None when they are not a run of records. */
  function Decode(table: SizeTable, bytes: seq<Byte>): (records: Option<seq<Record>>)
    decreases |bytes|
  {
    if bytes == [] then Some([])
    else match RecordAt(table, bytes, 0)
      case None => None
      case Some(first) =>
        match Decode(table, bytes[first.Size()..])
        case None => None
        case Some(rest) => Some([first] + rest)
  }

  function Encode(records: seq<Record>): (bytes: seq<Byte>) {
    if records == [] then [] else records[0].Bytes() + Encode(records[1..])
  }

  /** A record's bytes read back as that record, wherever they stand. */
  lemma RecordInside(table: SizeTable, front: seq<Byte>, record: Record, back: seq<Byte>)
    requires record.Fits(table)
    ensures RecordAt(table, front + record.Bytes() + back, |front|) == Some(record)
  {
    var bytes, at := front + record.Bytes() + back, |front|;
    assert bytes[at] == record.kind && bytes[at + 1] == bytes[at + 2] == bytes[at + 3] == 0;
    assert bytes[at + KIND_BYTES..at + record.Size()] == record.payload;
  }

  /** What is read is what is there. */
  lemma RecordAtIsThere(table: SizeTable, bytes: seq<Byte>, offset: nat)
    requires RecordAt(table, bytes, offset).Some?
    ensures var read := RecordAt(table, bytes, offset).value.Bytes(); bytes[offset..offset + |read|] == read
  {
    var record := RecordAt(table, bytes, offset).value;
    assert bytes[offset] == record.kind && bytes[offset + 1] == bytes[offset + 2] == bytes[offset + 3] == 0;
    var there := bytes[offset..offset + record.Size()];
    assert there[KIND_BYTES..] == record.payload;
    assert there == there[..KIND_BYTES] + there[KIND_BYTES..];
  }

  /** Decoding undoes encoding. */
  lemma {:induction false} DecodeEncode(table: SizeTable, records: seq<Record>)
    requires AllFit(table, records)
    ensures Decode(table, Encode(records)) == Some(records)
  {
    if records != [] {
      var first, rest := records[0], Encode(records[1..]);
      DecodeEncode(table, records[1..]);
      RecordInside(table, [], first, rest);
      assert [] + first.Bytes() + rest == first.Bytes() + rest;
      assert (first.Bytes() + rest)[first.Size()..] == rest;
      assert [first] + records[1..] == records;
    }
  }

  /** Encoding undoes decoding: a run of record bytes has one reading only. */
  lemma {:induction false} EncodeDecode(table: SizeTable, bytes: seq<Byte>)
    requires Decode(table, bytes).Some?
    ensures AllFit(table, Decode(table, bytes).value)
    ensures Encode(Decode(table, bytes).value) == bytes
    decreases |bytes|
  {
    if bytes != [] {
      var first := RecordAt(table, bytes, 0).value;
      var tail := bytes[first.Size()..];
      EncodeDecode(table, tail);
      RecordAtIsThere(table, bytes, 0);
      var records := Decode(table, bytes).value;
      assert records[0] == first && records[1..] == Decode(table, tail).value;
      assert bytes == bytes[..first.Size()] + tail;
    }
  }

  lemma Associative<T>(a: seq<T>, b: seq<T>, c: seq<T>)
    ensures a + b + c == a + (b + c)
  {
  }

  lemma {:induction false} EncodeConcat(a: seq<Record>, b: seq<Record>)
    ensures Encode(a + b) == Encode(a) + Encode(b)
  {
    if a == [] {
      assert a + b == b;
    } else {
      EncodeConcat(a[1..], b);
      assert (a + b)[1..] == a[1..] + b;
      Associative(a[0].Bytes(), Encode(a[1..]), Encode(b));
    }
  }

  /** Writing one more record behind the others. */
  lemma EncodeAppend(records: seq<Record>, record: Record)
    ensures Encode(records + [record]) == Encode(records) + record.Bytes()
  {
    EncodeConcat(records, [record]);
    assert Encode([record]) == record.Bytes() + Encode([]) == record.Bytes();
  }

  lemma EncodeTakesSpace(records: seq<Record>)
    ensures |Encode(records)| == 0 <==> records == []
  {
    if records != [] {
      assert |Encode(records)| >= |records[0].Bytes()|;
    }
  }
}
