/** Little-endian records of the ZIP64 container, and reading them back. */
module ZipFormat {
  import opened Bytes

  // ----- numbers -----

  function LittleEndian(n: nat, width: nat): (b: seq<byte>)
    ensures |b| == width
  {
    if width == 0 then [] else [n % 256] + LittleEndian(n / 256, width - 1)
  }

  function FromLittleEndian(b: seq<byte>): nat {
    if b == [] then 0 else b[0] + 256 * FromLittleEndian(b[1..])
  }

  function Pow256(width: nat): nat {
    if width == 0 then 1 else 256 * Pow256(width - 1)
  }

  lemma {:induction false} NumberRoundTrip(n: nat, width: nat)
    requires n < Pow256(width)
    ensures FromLittleEndian(LittleEndian(n, width)) == n
    decreases width
  {
    if width > 0 {
      NumberRoundTrip(n / 256, width - 1);
      assert LittleEndian(n, width)[1..] == LittleEndian(n / 256, width - 1);
    }
  }

  /** An argument of `zipNumbers`: its Go type fixes its width. */
  datatype Field = U16(short: uint16) | U32(word: uint32) | U64(long: uint64)

  function Width(f: Field): nat {
    match f
    case U16(_) => 2
    case U32(_) => 4
    case U64(_) => 8
  }

  function Value(f: Field): nat {
    match f
    case U16(n) => n
    case U32(n) => n
    case U64(n) => n
  }

  lemma FieldRoundTrip(f: Field)
    ensures FromLittleEndian(LittleEndian(Value(f), Width(f))) == Value(f)
  {
    assert Pow256(2) == 0x1_0000;
    assert Pow256(4) == 0x1_0000_0000;
    assert Pow256(8) == 0x1_0000_0000_0000_0000;
    NumberRoundTrip(Value(f), Width(f));
  }

  /** `zipNumbers`. */
  function Numbers(fields: seq<Field>): seq<byte> {
    if fields == [] then []
    else Numbers(fields[..|fields| - 1]) + LittleEndian(Value(fields[|fields| - 1]), Width(fields[|fields| - 1]))
  }

  /** The number of the given width at a position. */
  function Num(a: seq<byte>, at: nat, width: nat): nat
    requires at + width <= |a|
  {
    FromLittleEndian(a[at..at + width])
  }

  // ----- positions -----

  /** `chunk` stands in `a` at position `at`. */
  predicate Holds(a: seq<byte>, at: nat, chunk: seq<byte>) {
    at + |chunk| <= |a| && a[at..at + |chunk|] == chunk
  }

  lemma HoldsSplit(a: seq<byte>, at: nat, x: seq<byte>, y: seq<byte>)
    requires Holds(a, at, x + y)
    ensures Holds(a, at, x) && Holds(a, at + |x|, y)
  {
    var c := a[at..at + |x| + |y|];
    assert c[..|x|] == x && c[|x|..] == y;
    assert a[at..at + |x|] == c[..|x|];
    assert a[at + |x|..at + |x| + |y|] == c[|x|..];
  }

  /** Where each field of a record starts; the last offset is the record's length. */
  predicate Offsets(fields: seq<Field>, offsets: seq<nat>) {
    && |offsets| == |fields| + 1 && offsets[0] == 0
    && forall i :: 0 <= i < |fields| ==> offsets[i + 1] == offsets[i] + Width(fields[i])
  }

  lemma {:induction false} NumbersLength(fields: seq<Field>, offsets: seq<nat>)
    requires Offsets(fields, offsets)
    ensures |Numbers(fields)| == offsets[|fields|]
    decreases |fields|
  {
    if fields != [] {
      var n := |fields| - 1;
      NumbersLength(fields[..n], offsets[..n + 1]);
    }
  }

  /** A record in place has each of its fields in place. */
  lemma {:induction false} FieldAt(a: seq<byte>, at: nat, fields: seq<Field>, offsets: seq<nat>, i: nat)
    requires Holds(a, at, Numbers(fields)) && Offsets(fields, offsets) && i < |fields|
    ensures at + offsets[i] + Width(fields[i]) <= |a|
    ensures Num(a, at + offsets[i], Width(fields[i])) == Value(fields[i])
    decreases |fields|
  {
    var n := |fields| - 1;
    var last := LittleEndian(Value(fields[n]), Width(fields[n]));
    HoldsSplit(a, at, Numbers(fields[..n]), last);
    NumbersLength(fields[..n], offsets[..n + 1]);
    if i == n {
      FieldRoundTrip(fields[n]);
    } else {
      FieldAt(a, at, fields[..n], offsets[..n + 1], i);
    }
  }

  // ----- records -----

  const UNKNOWN32: uint32 := 0xffffffff

  /** What the writer knows about an entry once its bytes have passed. */
  datatype Stats = Stats(name: seq<byte>, size: uint64, offset: uint64, crc: uint32)

  function LocalFields(nameLength: uint16): seq<Field> {
    [U32(0x04034b50), U16(45), U16(0x808), U16(0), U16(0), U16(33), U32(0), U32(UNKNOWN32), U32(UNKNOWN32),
     U16(nameLength), U16(20)]
  }

  const LOCAL_EXTRA := [U16(1), U16(16), U64(0), U64(0)]

  /** `zipLocal`: a header for a STORE entry whose sizes follow in a data descriptor. */
  function Local(name: seq<byte>): seq<byte>
    requires |name| <= 65535
  {
    Numbers(LocalFields(|name|)) + (name + Numbers(LOCAL_EXTRA))
  }

  function DescriptorFields(s: Stats): seq<Field> {
    [U32(0x08074b50), U32(s.crc), U64(s.size), U64(s.size)]
  }

  /** `zipDescriptor`. */
  function Descriptor(s: Stats): seq<byte> {
    Numbers(DescriptorFields(s))
  }

  function CentralFields(nameLength: uint16, crc: uint32): seq<Field> {
    [U32(0x02014b50), U16(813), U16(45), U16(0x808), U16(0), U16(0), U16(33), U32(crc), U32(UNKNOWN32), U32(UNKNOWN32),
     U16(nameLength), U16(28), U16(0), U16(0), U16(0), U32(0x81800000), U32(UNKNOWN32)]
  }

  function CentralExtra(s: Stats): seq<Field> {
    [U16(1), U16(24), U64(s.size), U64(s.size), U64(s.offset)]
  }

  /** `zipCentral`. */
  function Central(s: Stats): seq<byte>
    requires |s.name| <= 65535
  {
    Numbers(CentralFields(|s.name|, s.crc)) + (s.name + Numbers(CentralExtra(s)))
  }

  function End64Fields(entries: uint64, offset: uint64, size: uint64): seq<Field> {
    [U32(0x06064b50), U64(44), U16(45), U16(45), U32(0), U32(0), U64(entries), U64(entries), U64(size), U64(offset)]
  }

  function LocatorFields(endOffset: uint64): seq<Field> {
    [U32(0x07064b50), U32(0), U64(endOffset), U32(1)]
  }

  const END_FIELDS := [U32(0x06054b50), U16(0), U16(0), U16(0xffff), U16(0xffff), U32(UNKNOWN32), U32(UNKNOWN32),
                       U16(0)]

  /** `zipEnd`: the ZIP64 end record, its locator, and the classic end record. */
  function End(endOffset: uint64, entries: uint64, offset: uint64, size: uint64): seq<byte> {
    Numbers(End64Fields(entries, offset, size)) + (Numbers(LocatorFields(endOffset)) + Numbers(END_FIELDS))
  }

  const LOCAL_OFFSETS: seq<nat> := [0, 4, 6, 8, 10, 12, 14, 18, 22, 26, 28, 30]
  const CENTRAL_OFFSETS: seq<nat> := [0, 4, 6, 8, 10, 12, 14, 16, 20, 24, 28, 30, 32, 34, 36, 38, 42, 46]

  lemma LocalLength(name: seq<byte>)
    requires |name| <= 65535
    ensures Offsets(LocalFields(|name|), LOCAL_OFFSETS) && Offsets(LOCAL_EXTRA, [0, 2, 4, 12, 20])
    ensures |Numbers(LocalFields(|name|))| == 30 && |Numbers(LOCAL_EXTRA)| == 20 && |Local(name)| == 50 + |name|
  {
    NumbersLength(LocalFields(|name|), LOCAL_OFFSETS);
    NumbersLength(LOCAL_EXTRA, [0, 2, 4, 12, 20]);
  }

  lemma CentralLength(s: Stats)
    requires |s.name| <= 65535
    ensures Offsets(CentralFields(|s.name|, s.crc), CENTRAL_OFFSETS) && Offsets(CentralExtra(s), [0, 2, 4, 12, 20, 28])
    ensures |Numbers(CentralFields(|s.name|, s.crc))| == 46 && |Numbers(CentralExtra(s))| == 28
    ensures |Central(s)| == 74 + |s.name|
  {
    NumbersLength(CentralFields(|s.name|, s.crc), CENTRAL_OFFSETS);
    NumbersLength(CentralExtra(s), [0, 2, 4, 12, 20, 28]);
  }

  lemma DescriptorLength(s: Stats)
    ensures Offsets(DescriptorFields(s), [0, 4, 8, 16, 24]) && |Descriptor(s)| == 24
  {
    NumbersLength(DescriptorFields(s), [0, 4, 8, 16, 24]);
  }

  const END64_OFFSETS: seq<nat> := [0, 4, 12, 14, 16, 20, 24, 32, 40, 48, 56]
  const END_OFFSETS: seq<nat> := [0, 4, 6, 8, 10, 12, 16, 20, 22]

  lemma EndLengths(endOffset: uint64, entries: uint64, offset: uint64, size: uint64)
    ensures Offsets(End64Fields(entries, offset, size), END64_OFFSETS)
    ensures |Numbers(End64Fields(entries, offset, size))| == 56
    ensures Offsets(LocatorFields(endOffset), [0, 4, 8, 16, 20]) && |Numbers(LocatorFields(endOffset))| == 20
    ensures Offsets(END_FIELDS, END_OFFSETS) && |Numbers(END_FIELDS)| == 22
  {
    NumbersLength(End64Fields(entries, offset, size), END64_OFFSETS);
    NumbersLength(LocatorFields(endOffset), [0, 4, 8, 16, 20]);
    NumbersLength(END_FIELDS, END_OFFSETS);
  }
}
