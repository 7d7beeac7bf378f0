/** A whole archive reads back exactly. */
module ZipArchive {
  import opened Wrappers
  import opened Bytes
  import opened ZipFormat
  import opened ZipReader

  const LIMIT64: nat := 0x1_0000_0000_0000_0000

  function Body(crc: Crc, es: seq<Item>): seq<byte>
    requires AllFit(es)
  {
    Concat(Segments(crc, es))
  }

  function Dir(crc: Crc, es: seq<Item>): seq<byte>
    requires Small(crc, es)
  {
    Concat(Headers(crc, es))
  }

  predicate Streamable(crc: Crc, es: seq<Item>) {
    Small(crc, es) && |Body(crc, es)| + |Dir(crc, es)| < LIMIT64 && |es| < LIMIT64
  }

  /** The bytes a finished archive of these items has. */
  function Archive(crc: Crc, es: seq<Item>): seq<byte>
    requires Streamable(crc, es)
  {
    var b, d := Body(crc, es), Dir(crc, es);
    b + (d + End(|b| + |d|, |es|, |b|, |d|))
  }

  lemma LocatorReads(a: seq<byte>, at: nat, endOffset: uint64)
    requires Holds(a, at, Numbers(LocatorFields(endOffset))) && Offsets(LocatorFields(endOffset), [0, 4, 8, 16, 20])
    ensures at + 16 <= |a| && Num(a, at, 4) == 0x07064b50 && Num(a, at + 8, 8) == endOffset
  {
    FieldAt(a, at, LocatorFields(endOffset), [0, 4, 8, 16, 20], 0);
    FieldAt(a, at, LocatorFields(endOffset), [0, 4, 8, 16, 20], 2);
  }

  lemma ClassicEndReads(a: seq<byte>, at: nat)
    requires Holds(a, at, Numbers(END_FIELDS)) && Offsets(END_FIELDS, END_OFFSETS)
    ensures at + 22 <= |a| && Num(a, at, 4) == 0x06054b50 && Num(a, at + 20, 2) == 0
  {
    FieldAt(a, at, END_FIELDS, END_OFFSETS, 0);
    FieldAt(a, at, END_FIELDS, END_OFFSETS, 7);
  }

  lemma End64Reads(a: seq<byte>, at: nat, entries: uint64, offset: uint64, size: uint64)
    requires Holds(a, at, Numbers(End64Fields(entries, offset, size)))
    requires Offsets(End64Fields(entries, offset, size), END64_OFFSETS)
    ensures at + 56 <= |a| && Num(a, at, 4) == 0x06064b50
    ensures Num(a, at + 32, 8) == entries && Num(a, at + 40, 8) == size && Num(a, at + 48, 8) == offset
  {
    var fields := End64Fields(entries, offset, size);
    FieldAt(a, at, fields, END64_OFFSETS, 0);
    FieldAt(a, at, fields, END64_OFFSETS, 7);
    FieldAt(a, at, fields, END64_OFFSETS, 8);
    FieldAt(a, at, fields, END64_OFFSETS, 9);
  }

  /** The three end records in place, found from the end of the file. */
  predicate Ended(a: seq<byte>, at: nat, entries: nat, offset: nat, size: nat) {
    && |a| == at + 98
    && Num(a, at + 76, 4) == 0x06054b50 && Num(a, at + 96, 2) == 0
    && Num(a, at + 56, 4) == 0x07064b50 && Num(a, at + 64, 8) == at
    && Num(a, at, 4) == 0x06064b50 && Num(a, at + 32, 8) == entries
    && Num(a, at + 40, 8) == size && Num(a, at + 48, 8) == offset
  }

  lemma EndInPlace(a: seq<byte>, at: uint64, entries: uint64, offset: uint64, size: uint64)
    requires Holds(a, at, End(at, entries, offset, size)) && |a| == at + |End(at, entries, offset, size)|
    ensures Ended(a, at, entries, offset, size)
  {
    EndLengths(at, entries, offset, size);
    var e64, loc, end := Numbers(End64Fields(entries, offset, size)), Numbers(LocatorFields(at)), Numbers(END_FIELDS);
    HoldsSplit(a, at, e64, loc + end);
    HoldsSplit(a, at + 56, loc, end);
    End64Reads(a, at, entries, offset, size);
    LocatorReads(a, at + 56, at);
    ClassicEndReads(a, at + 76);
  }

  /** With the end records in place, reading the archive is reading the directory they name. */
  lemma EndReads(crc: Crc, a: seq<byte>, at: nat, entries: nat, offset: nat, size: nat, dir: Directory)
    requires Ended(a, at, entries, offset, size)
    requires ReadDirectory(HeaderReader(a), offset, entries) == Some(dir) && dir.end == offset + size == at
    ensures ReadArchive(crc, a) == ReadItems(ItemReader(crc, a), dir.entries)
  {
  }

  lemma HoldsParts(x: seq<byte>, y: seq<byte>, z: seq<byte>)
    ensures var a := x + (y + z); Holds(a, 0, x) && Holds(a, |x|, y) && Holds(a, |x| + |y|, z)
  {
    var a := x + (y + z);
    assert Holds(a, 0, a);
    HoldsSplit(a, 0, x, y + z);
    HoldsSplit(a, |x|, y, z);
  }

  /** A finished archive reads back as exactly the items that were streamed, in order. */
  lemma ArchiveReads(crc: Crc, es: seq<Item>)
    requires Streamable(crc, es)
    ensures ReadArchive(crc, Archive(crc, es)) == Some(es)
  {
    hide ReadArchive, ReadDirectory, ReadItems, Concat, Segments, Headers, Listing, End, Holds, Offset, Ended;
    var a, b, d := Archive(crc, es), Body(crc, es), Dir(crc, es);
    var at := |b| + |d|;
    HoldsParts(b, d, End(at, |es|, |b|, |d|));
    DirectoryInPlace(crc, es, a, |b|, |es|, at);
    ItemsInPlace(crc, es, a, |b|);
    EndInPlace(a, at, |es|, |b|, |d|);
    EndReads(crc, a, at, |es|, |b|, |d|, Directory(Listing(crc, es, |b|), at));
  }
}
