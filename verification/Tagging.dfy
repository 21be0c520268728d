/** Small integers as tagged words, and the decoding of compressed fields. */
module Tagging {
  import opened Basics

  // ---------------------------------------------------------------------
  // Smis

  datatype Word = Bits32 | Bits64

  /** static_cast to an unsigned word. */
  function Unsigned(w: Word, x: int): int {
    match w
    case Bits32 => x % TWO32
    case Bits64 => x % TWO64
  }

  /** static_cast of an unsigned word to a signed one. */
  function Signed(w: Word, u: int): int {
    match w
    case Bits32 => (u + TWO31) % TWO32 - TWO31
    case Bits64 => (u + TWO63) % TWO64 - TWO63
  }

  predicate IsSigned(w: Word, x: int) {
    match w
    case Bits32 => IsInt32(x)
    case Bits64 => IsInt64(x)
  }

  /** SmiTagging<4> and SmiTagging<8>; the latter is for 64-bit words. */
  datatype Tagging = Tagged4 | Tagged8

  predicate Supports(t: Tagging, w: Word) {
    t.Tagged8? ==> w.Bits64?
  }

  /** All bits set, shifted left by kSmiValueSize - 1. */
  function SmiMinValue(t: Tagging, w: Word): int {
    match t
    case Tagged4 => Signed(w, Unsigned(w, Unsigned(w, -1) * 0x4000_0000))
    case Tagged8 => Signed(w, Unsigned(w, Unsigned(w, -1) * 0x8000_0000))
  }

  function SmiMaxValue(t: Tagging, w: Word): int {
    -(SmiMinValue(t, w) + 1)
  }

  predicate IsValidSmi(t: Tagging, w: Word, value: int) {
    match t
    case Tagged4 =>
      Unsigned(w, Unsigned(w, value) - Unsigned(w, SmiMinValue(t, w)))
        <= Unsigned(w, Unsigned(w, SmiMaxValue(t, w)) - Unsigned(w, SmiMinValue(t, w)))
    case Tagged8 => value == Signed(Bits32, Unsigned(Bits32, value))
  }

  /** Shifted left by kSmiTagSize + kSmiShiftSize, which is 1 or 32. */
  function IntToSmi(t: Tagging, w: Word, value: int): int {
    match t
    case Tagged4 => Unsigned(w, Unsigned(w, value) * 2)
    case Tagged8 => Unsigned(w, Unsigned(w, value) * TWO32)
  }

  /** The shifts back are arithmetic: division rounding down. */
  function SmiToInt(t: Tagging, w: Word, smi: int): int {
    match t
    case Tagged4 => Signed(Bits32, Unsigned(Bits32, smi)) / 2
    case Tagged8 => Signed(Bits32, Unsigned(Bits32, Signed(w, smi) / TWO32))
  }

  /** (value & 3) == 1 */
  predicate HasHeapObjectTag(word: int) {
    word % 4 == 1
  }

  function Size(w: Word): int {
    match w
    case Bits32 => TWO32
    case Bits64 => TWO64
  }

  lemma UnsignedIs(w: Word, x: int, q: int, r: int)
    requires 0 <= r < Size(w) && x == q * Size(w) + r
    ensures Unsigned(w, x) == r
    ensures Signed(w, r) == if r < Size(w) / 2 then r else r - Size(w)
  {
    SignedIs(w, r);
    match w
    case Bits32 => assert (q * TWO32 + r) % TWO32 == r;
    case Bits64 => assert (q * TWO64 + r) % TWO64 == r;
  }

  lemma SignedIs(w: Word, r: int)
    requires 0 <= r < Size(w)
    ensures Signed(w, r) == if r < Size(w) / 2 then r else r - Size(w)
  {
  }

  lemma SmiRange(t: Tagging, w: Word)
    requires Supports(t, w)
    ensures SmiMinValue(t, w) == if t.Tagged4? then -0x4000_0000 else -0x8000_0000
    ensures SmiMaxValue(t, w) == if t.Tagged4? then 0x3fff_ffff else 0x7fff_ffff
  {
    UnsignedIs(w, -1, -1, Size(w) - 1);
    if t.Tagged4? {
      UnsignedIs(w, (Size(w) - 1) * 0x4000_0000, 0x3fff_ffff, Size(w) - 0x4000_0000);
    } else {
      UnsignedIs(w, (Size(w) - 1) * 0x8000_0000, 0x7fff_ffff, Size(w) - 0x8000_0000);
    }
  }

  /** The distance of a value from kSmiMinValue, wrapped. */
  lemma DifferenceIs(w: Word, value: int)
    requires IsSigned(w, value)
    ensures var d := value + 0x4000_0000;
            Unsigned(w, Unsigned(w, value) - (Size(w) - 0x4000_0000)) == if d < 0 then Size(w) + d else d
  {
    var d := value + 0x4000_0000;
    if value < 0 {
      UnsignedIs(w, value, -1, Size(w) + value);
      UnsignedIs(w, d, if d < 0 then -1 else 0, if d < 0 then Size(w) + d else d);
    } else {
      UnsignedIs(w, value, 0, value);
      UnsignedIs(w, value - (Size(w) - 0x4000_0000), -1, d);
    }
  }

  lemma DifferenceInRange(w: Word, value: int)
    requires IsSigned(w, value)
    ensures Unsigned(w, Unsigned(w, value) - Unsigned(w, -0x4000_0000))
              <= Unsigned(w, Unsigned(w, 0x3fff_ffff) - Unsigned(w, -0x4000_0000))
        <==> -0x4000_0000 <= value <= 0x3fff_ffff
  {
    UnsignedIs(w, -0x4000_0000, -1, Size(w) - 0x4000_0000);
    UnsignedIs(w, 0x3fff_ffff, 0, 0x3fff_ffff);
    UnsignedIs(w, 0x3fff_ffff - (Size(w) - 0x4000_0000), -1, 0x7fff_ffff);
    DifferenceIs(w, value);
  }

  /** The validity test with its wrapping differences is the plain range test. */
  lemma ValidSmiIsRange(t: Tagging, w: Word, value: int)
    requires Supports(t, w) && IsSigned(w, value)
    ensures IsValidSmi(t, w, value) <==> SmiMinValue(t, w) <= value <= SmiMaxValue(t, w)
  {
    SmiRange(t, w);
    match t
    case Tagged4 => DifferenceInRange(w, value);
    case Tagged8 => ToInt32Exactly(value);
  }

  lemma EncodedIs(t: Tagging, w: Word, v: int)
    requires Supports(t, w) && IsSigned(Bits32, v)
    ensures var scaled := if t.Tagged4? then 2 * v else v * TWO32;
            IntToSmi(t, w, v) == if v < 0 then Size(w) + scaled else scaled
  {
    if v < 0 {
      UnsignedIs(w, v, -1, Size(w) + v);
      if t.Tagged4? {
        UnsignedIs(w, (Size(w) + v) * 2, 1, Size(w) + 2 * v);
      } else {
        UnsignedIs(w, (Size(w) + v) * TWO32, TWO32 - 1, Size(w) + v * TWO32);
      }
    } else {
      UnsignedIs(w, v, 0, v);
      if t.Tagged4? {
        UnsignedIs(w, v * 2, 0, 2 * v);
      } else {
        UnsignedIs(w, v * TWO32, 0, v * TWO32);
      }
    }
  }

  /** Encoding then decoding gives the integer back exactly for the valid ones,
      and no encoded Smi looks like a heap object. */
  lemma SmiRoundTrip(t: Tagging, w: Word, v: int)
    requires Supports(t, w) && IsSigned(Bits32, v)
    ensures SmiToInt(t, w, IntToSmi(t, w, v)) == v <==> IsValidSmi(t, w, v)
    ensures !HasHeapObjectTag(IntToSmi(t, w, v))
  {
    SmiRange(t, w);
    SignedInWord(w, v);
    ValidSmiIsRange(t, w, v);
    EncodedIs(t, w, v);
    if t.Tagged4? {
      DecodedLow(w, v);
    } else {
      DecodedHigh(v);
    }
  }

  lemma SignedInWord(w: Word, v: int)
    requires IsSigned(Bits32, v)
    ensures IsSigned(w, v)
  {
  }

  lemma DecodedLow(w: Word, v: int)
    requires IsSigned(Bits32, v)
    requires IntToSmi(Tagged4, w, v) == if v < 0 then Size(w) + 2 * v else 2 * v
    ensures SmiToInt(Tagged4, w, IntToSmi(Tagged4, w, v)) == v <==> -0x4000_0000 <= v <= 0x3fff_ffff
    ensures !HasHeapObjectTag(IntToSmi(Tagged4, w, v))
  {
    var low := if v < 0 then TWO32 + 2 * v else 2 * v;
    UnsignedIs(Bits32, IntToSmi(Tagged4, w, v), if v < 0 then Size(w) / TWO32 - 1 else 0, low);
  }

  lemma DecodedHigh(v: int)
    requires IsSigned(Bits32, v)
    requires IntToSmi(Tagged8, Bits64, v) == if v < 0 then TWO64 + v * TWO32 else v * TWO32
    ensures SmiToInt(Tagged8, Bits64, IntToSmi(Tagged8, Bits64, v)) == v
    ensures !HasHeapObjectTag(IntToSmi(Tagged8, Bits64, v))
  {
    var smi := IntToSmi(Tagged8, Bits64, v);
    UnsignedIs(Bits64, smi, 0, smi);
    assert Signed(Bits64, smi) == v * TWO32;
    assert v * TWO32 / TWO32 == v;
    var r := if v < 0 then TWO32 + v else v;
    UnsignedIs(Bits32, v, if v < 0 then -1 else 0, r);
  }

  // ---------------------------------------------------------------------
  // Compressed fields: 64-bit addresses, 32-bit fields

  type Address = bv64

  /** static_cast<intptr_t> of an int32_t. */
  function SignExtend(value: bv32): bv64 {
    if value & 0x8000_0000 != 0 then (value as bv64) | 0xFFFF_FFFF_0000_0000 else value as bv64
  }

  /** A field as a signed 32-bit number, modulo 2^64. */
  function SignedField(value: bv32): bv64 {
    if value < 0x8000_0000 then value as bv64 else (value as bv64) - 0x1_0000_0000
  }

  lemma SignExtendIs(value: bv32)
    ensures SignExtend(value) == SignedField(value)
  {
  }

  /** Address arithmetic wraps. */
  function Add(a: Address, b: Address): Address {
    a + b
  }

  /** Masking with -(2^32) rounds an address down to a multiple of 4 GiB. */
  function GetRootFromOnHeapAddress(addr: Address): (root: Address)
    ensures root <= addr && addr - root < 0x1_0000_0000
    ensures root % 0x1_0000_0000 == 0
  {
    addr & 0xFFFF_FFFF_0000_0000
  }

  function ReadTaggedPointerField(heapObject: Address, value: bv32): Address {
    Add(GetRootFromOnHeapAddress(heapObject), SignExtend(value))
  }

  function ReadTaggedSignedField(value: bv32): Address {
    SignExtend(value)
  }

  /** The root, or zero, by masking with the negated tag bit. */
  function RootOrZero(root: Address, tag: bv64): (r: Address)
    requires tag == 0 || tag == 1
    ensures r == if tag == 1 then root else 0
  {
    (0 - tag) & root
  }

  lemma TagBit(value: bv32)
    ensures SignExtend(value) & 1 == 0 || SignExtend(value) & 1 == 1
    ensures SignExtend(value) & 1 == 1 <==> value & 1 == 1
  {
  }

  lemma AddZero(a: Address)
    ensures Add(0, a) == a
  {
  }

  function DecompressTaggedAnyField(heapObject: Address, value: bv32): Address {
    TagBit(value);
    Add(RootOrZero(GetRootFromOnHeapAddress(heapObject), SignExtend(value) & 1), SignExtend(value))
  }

  /** Decoding a field of either kind without branching is the pointer decoding
      when its low bit is set and the Smi decoding when it is not. */
  lemma DecompressionIsBranchFree(heapObject: Address, value: bv32)
    ensures DecompressTaggedAnyField(heapObject, value) ==
      if value & 1 == 1 then ReadTaggedPointerField(heapObject, value) else ReadTaggedSignedField(value)
  {
    TagBit(value);
    AddZero(SignExtend(value));
  }

  lemma AddIsPlus(a: Address, b: Address)
    ensures Add(a, b) == a + b
  {
  }

  lemma PointerDecoding(heapObject: Address, value: bv32, n: bv64)
    requires SignExtend(value) == n
    ensures ReadTaggedPointerField(heapObject, value) == GetRootFromOnHeapAddress(heapObject) + n
  {
    AddIsPlus(GetRootFromOnHeapAddress(heapObject), n);
  }

  /** All three decodings as arithmetic: to the root, to zero, or to the one the
      low bit of the field selects, they add the field as a signed number. */
  lemma DecodingsAre(heapObject: Address, value: bv32)
    ensures ReadTaggedPointerField(heapObject, value) == GetRootFromOnHeapAddress(heapObject) + SignedField(value)
    ensures ReadTaggedSignedField(value) == SignedField(value)
    ensures DecompressTaggedAnyField(heapObject, value) ==
      if value & 1 == 1 then GetRootFromOnHeapAddress(heapObject) + SignedField(value) else SignedField(value)
  {
    SignExtendIs(value);
    PointerDecoding(heapObject, value, SignedField(value));
    DecompressionIsBranchFree(heapObject, value);
  }

  /** A word has the heap object tag exactly when its two low bits are 01. */
  lemma HeapObjectTagExactly(word: int)
    ensures HasHeapObjectTag(word) <==> exists q :: word == 4 * q + 1
  {
    if HasHeapObjectTag(word) {
      assert word == 4 * (word / 4) + 1;
    }
  }
}
