/**
  LEB128 numbers (DWARF Version 5, section 7.6) and the 32-bit decoders, which read
  at most four bytes, that is 28 bits of a number.

  The decoders work on numbers; OrIsPlus and FillIsMinus say, on machine words, why
  their bit operations are the sums and differences used here.
 */
module Leb128 {

  type Byte = x: int | 0 <= x < 256

  const MAX_BYTES: nat := 4     // sizeof(uint32_t)

  /** `byte & 0x7F` */
  function Low7(byte: Byte): nat {
    byte % 128
  }

  /** `byte & 0x80` */
  predicate Continues(byte: Byte) {
    byte >= 128
  }

  /** `byte & 0x40` */
  predicate SignBit(byte: Byte) {
    Low7(byte) >= 64
  }

  /** On words: the masks of a byte are the remainder and the comparisons used here. */
  lemma MasksAre(byte: bv8)
    ensures Low7(byte as Byte) == (byte & 0x7F) as int
    ensures Continues(byte as Byte) <==> byte & 0x80 != 0
    ensures SignBit(byte as Byte) <==> byte & 0x40 != 0
  {
    assert byte & 0x7F == byte % 128;
    assert byte & 0x80 != 0 <==> byte >= 128;
    assert byte & 0x40 != 0 <==> byte % 128 >= 64;
  }

  /** `x << shift`, for the shifts the decoders make. */
  function ShiftLeft(x: int, shift: nat): int
    requires shift == 0 || shift == 7 || shift == 14 || shift == 21 || shift == 28
  {
    if shift == 0 then x
    else if shift == 7 then x * 0x80
    else if shift == 14 then x * 0x4000
    else if shift == 21 then x * 0x20_0000
    else x * 0x1000_0000
  }

  /** On words: a group above the bits of `value` is added by or. */
  lemma OrIsPlus(value: bv32, byte: bv8)
    ensures value < 0x80 ==> value | (((byte & 0x7F) as bv32) << 7) == value + ((byte & 0x7F) as bv32) * 0x80
    ensures value < 0x4000 ==> value | (((byte & 0x7F) as bv32) << 14) == value + ((byte & 0x7F) as bv32) * 0x4000
    ensures value < 0x20_0000 ==> value | (((byte & 0x7F) as bv32) << 21) == value + ((byte & 0x7F) as bv32) * 0x20_0000
  {
  }

  /** On words: filling the bits above `value` with ones is, in two's complement, a subtraction. */
  lemma FillIsMinus(value: bv32)
    ensures value < 0x80 ==> value | (0xFFFF_FFFF << 7) == value - 0x80
    ensures value < 0x4000 ==> value | (0xFFFF_FFFF << 14) == value - 0x4000
    ensures value < 0x20_0000 ==> value | (0xFFFF_FFFF << 21) == value - 0x20_0000
    ensures value < 0x1000_0000 ==> value | (0xFFFF_FFFF << 28) == value - 0x1000_0000
  {
  }

  // ---------------------------------------------------------------- what bytes mean

  /** The memory the decoder may read: it runs on until a byte without the continuation bit, or for four bytes. */
  ghost predicate Readable(bytes: seq<Byte>) {
    |bytes| >= MAX_BYTES || exists i :: 0 <= i < |bytes| && !Continues(bytes[i])
  }

  /** All these bytes are one number: only the last has no continuation bit. */
  ghost predicate IsNumber(bytes: seq<Byte>) {
    0 < |bytes| && !Continues(bytes[|bytes| - 1]) && forall i :: 0 <= i < |bytes| - 1 ==> Continues(bytes[i])
  }

  /** The groups of seven bits, lowest first, read as an unsigned number. */
  function Unsigned(bytes: seq<Byte>): nat {
    if bytes == [] then 0 else Low7(bytes[0]) + 128 * Unsigned(bytes[1..])
  }

  /** The same in two's complement: the highest bit of the last group is the sign. */
  function Signed(bytes: seq<Byte>): int {
    if bytes == [] then 0
    else if |bytes| == 1 then (if SignBit(bytes[0]) then Low7(bytes[0]) - 128 else Low7(bytes[0]))
    else Low7(bytes[0]) + 128 * Signed(bytes[1..])
  }

  // ---------------------------------------------------------------- the decoders

  /** How far the decoder gets: to the end of a number, or through four bytes that all go on. */
  ghost predicate Stops(bytes: seq<Byte>, read: nat, done: bool) {
    && 0 < read <= MAX_BYTES && read <= |bytes|
    && (if done then IsNumber(bytes[..read])
        else read == MAX_BYTES && forall i :: 0 <= i < MAX_BYTES ==> Continues(bytes[i]))
  }

  lemma {:induction false} UnsignedAppend(bytes: seq<Byte>, byte: Byte)
    requires |bytes| < MAX_BYTES
    ensures Unsigned(bytes + [byte]) == Unsigned(bytes) + ShiftLeft(Low7(byte), 7 * |bytes|)
    ensures Unsigned(bytes) < ShiftLeft(1, 7 * |bytes|)
  {
    if bytes != [] {
      UnsignedAppend(bytes[1..], byte);
      assert (bytes + [byte])[1..] == bytes[1..] + [byte];
    }
  }

  /** The decoder has read bytes that all go on, and holds their groups. */
  ghost predicate Reading(bytes: seq<Byte>, read: nat, value: int, shift: nat) {
    && read <= MAX_BYTES && read <= |bytes| && shift == 7 * read
    && (forall i :: 0 <= i < read ==> Continues(bytes[i]))
    && value == Unsigned(bytes[..read])
  }

  lemma ReadOne(bytes: seq<Byte>, read: nat, value: int, shift: nat)
    requires Reading(bytes, read, value, shift) && read < MAX_BYTES && read < |bytes|
    ensures value + ShiftLeft(Low7(bytes[read]), shift) == Unsigned(bytes[..read + 1])
    ensures !Continues(bytes[read]) ==> Stops(bytes, read + 1, true)
  {
    UnsignedAppend(bytes[..read], bytes[read]);
    assert bytes[..read + 1] == bytes[..read] + [bytes[read]];
  }

  method DecodeUnsigned(bytes: seq<Byte>) returns (read: nat, value: int, done: bool)
    requires Readable(bytes)
    ensures Stops(bytes, read, done)
    ensures value == Unsigned(bytes[..read])
  {
    var byte, shift := 0, 0;
    read, value, done := 0, 0, false;
    while read < MAX_BYTES
      invariant Reading(bytes, read, value, shift) && !done
    {
      byte := bytes[read];
      ReadOne(bytes, read, value, shift);
      value := value + ShiftLeft(Low7(byte), shift);
      shift := shift + 7;
      read := read + 1;
      if !Continues(byte) {
        done := true;
        break;
      }
    }
  }

  /** Filling the bits above the groups with the sign is what the signed reading means. */
  lemma {:induction false} SignFill(bytes: seq<Byte>)
    requires 0 < |bytes| <= MAX_BYTES
    ensures Signed(bytes)
            == Unsigned(bytes) - (if SignBit(bytes[|bytes| - 1]) then ShiftLeft(1, 7 * |bytes|) else 0)
  {
    if |bytes| > 1 {
      SignFill(bytes[1..]);
    }
  }

  method DecodeSigned(bytes: seq<Byte>) returns (read: nat, value: int, done: bool)
    requires Readable(bytes)
    ensures Stops(bytes, read, done)
    ensures value == Signed(bytes[..read])
  {
    var byte, shift := 0, 0;
    read, value, done := 0, 0, false;
    while read < MAX_BYTES
      invariant Reading(bytes, read, value, shift) && !done
      invariant read > 0 ==> byte == bytes[read - 1]
    {
      byte := bytes[read];
      ReadOne(bytes, read, value, shift);
      value := value + ShiftLeft(Low7(byte), shift);
      shift := shift + 7;
      read := read + 1;
      if !Continues(byte) {
        done := true;
        break;
      }
    }
    SignFill(bytes[..read]);
    if shift < 32 && SignBit(byte) {
      value := value - ShiftLeft(1, shift);
    }
  }

  // ---------------------------------------------------------------- the encodings

  /** The unsigned encoding of DWARF. */
  function EncodeUnsigned(v: nat): seq<Byte> {
    if v < 128 then [v] else [128 + v % 128] + EncodeUnsigned(v / 128)
  }

  /** The signed encoding of DWARF: it ends when the sign bit of the last group is the sign. */
  function EncodeSigned(v: int): seq<Byte>
    decreases if v < 0 then -v else v
  {
    if -64 <= v < 64 then [v % 128] else [128 + v % 128] + EncodeSigned(v / 128)
  }

  lemma {:induction false} UnsignedEncodes(v: nat)
    ensures IsNumber(EncodeUnsigned(v)) && Unsigned(EncodeUnsigned(v)) == v
  {
    if v >= 128 {
      UnsignedEncodes(v / 128);
      GoesOn(128 + v % 128, EncodeUnsigned(v / 128));
    }
  }

  lemma {:induction false} SignedEncodes(v: int)
    ensures IsNumber(EncodeSigned(v)) && Signed(EncodeSigned(v)) == v
    decreases if v < 0 then -v else v
  {
    if v < -64 || v >= 64 {
      SignedEncodes(v / 128);
      GoesOn(128 + v % 128, EncodeSigned(v / 128));
      SignedGoesOn(128 + v % 128, EncodeSigned(v / 128));
      LowestGroup(v);
    }
  }

  lemma LowestGroup(v: int)
    ensures Low7(128 + v % 128) == v % 128 && v == v % 128 + 128 * (v / 128)
  {
  }

  lemma SignedGoesOn(byte: Byte, rest: seq<Byte>)
    requires rest != []
    ensures Signed([byte] + rest) == Low7(byte) + 128 * Signed(rest)
  {
    assert ([byte] + rest)[1..] == rest;
  }

  lemma GoesOn(byte: Byte, rest: seq<Byte>)
    requires Continues(byte) && IsNumber(rest)
    ensures IsNumber([byte] + rest) && ([byte] + rest)[1..] == rest
  {
  }

  /** A number of `n` groups needs no more bytes than that. */
  lemma {:induction false} UnsignedLength(v: nat, n: nat)
    requires 1 <= n <= MAX_BYTES
    ensures |EncodeUnsigned(v)| <= n <==> v < ShiftLeft(1, 7 * n)
  {
    if v >= 128 && n > 1 {
      UnsignedLength(v / 128, n - 1);
    }
  }

  lemma {:induction false} SignedLength(v: int, n: nat)
    requires 1 <= n <= MAX_BYTES
    ensures |EncodeSigned(v)| <= n <==> -ShiftLeft(1, 7 * n) <= 2 * v < ShiftLeft(1, 7 * n)
    decreases n
  {
    if n > 1 && (v < -64 || v >= 64) {
      SignedLength(v / 128, n - 1);
    }
  }

  /** A decoder that meets a number stops at its end; longer ones it gives up. */
  lemma StopsAtNumber(number: seq<Byte>, rest: seq<Byte>, read: nat, done: bool)
    requires IsNumber(number) && Stops(number + rest, read, done)
    ensures if |number| <= MAX_BYTES then done && read == |number| else !done && read == MAX_BYTES
    ensures |number| <= MAX_BYTES ==> (number + rest)[..read] == number
  {
    var bytes := number + rest;
    assert forall i :: 0 <= i < |number| ==> bytes[i] == number[i];
    assert forall i :: 0 <= i < read ==> bytes[..read][i] == bytes[i];
  }

  /**
    Decoding the encoding of an unsigned number, whatever follows it, returns the
    number and its length if it is below 2^28; the decoder is not done otherwise.
   */
  lemma UnsignedRoundTrip(v: nat, rest: seq<Byte>, read: nat, done: bool)
    requires Stops(EncodeUnsigned(v) + rest, read, done)
    ensures done <==> v < 0x1000_0000
    ensures done ==> read == |EncodeUnsigned(v)| && Unsigned((EncodeUnsigned(v) + rest)[..read]) == v
  {
    UnsignedEncodes(v);
    UnsignedLength(v, MAX_BYTES);
    StopsAtNumber(EncodeUnsigned(v), rest, read, done);
  }

  /** The same for a signed number, which must lie in [-2^27, 2^27). */
  lemma SignedRoundTrip(v: int, rest: seq<Byte>, read: nat, done: bool)
    requires Stops(EncodeSigned(v) + rest, read, done)
    ensures done <==> -0x800_0000 <= v < 0x800_0000
    ensures done ==> read == |EncodeSigned(v)| && Signed((EncodeSigned(v) + rest)[..read]) == v
  {
    SignedEncodes(v);
    SignedLength(v, MAX_BYTES);
    StopsAtNumber(EncodeSigned(v), rest, read, done);
  }

  /** The encodings are minimal: no number with the same value is shorter. */
  lemma {:induction false} UnsignedIsShortest(number: seq<Byte>)
    requires IsNumber(number)
    ensures |EncodeUnsigned(Unsigned(number))| <= |number|
  {
    var v := Unsigned(number);
    if |number| > 1 {
      assert number[|number| - 1] == number[1..][|number| - 2];
      UnsignedIsShortest(number[1..]);
      assert v >= 128 ==> v / 128 == Unsigned(number[1..]);
    }
  }

  lemma {:induction false} SignedIsShortest(number: seq<Byte>)
    requires IsNumber(number)
    ensures |EncodeSigned(Signed(number))| <= |number|
  {
    var v := Signed(number);
    if |number| > 1 {
      assert number[|number| - 1] == number[1..][|number| - 2];
      SignedIsShortest(number[1..]);
      assert v / 128 == Signed(number[1..]);
    }
  }
}
