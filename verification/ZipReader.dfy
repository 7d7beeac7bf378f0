/**
 A reader for ZIP64 archives of stored entries, after PKWARE's APPNOTE.TXT (sections 4.3.7, 4.3.9,
 4.3.12, 4.3.14, 4.3.15, 4.3.16 and 4.5.3). It trusts only the end records and the central
 directory to find entries, and cross-checks each against its local header and data descriptor.
 */
module ZipReader {
  import opened Wrappers
  import opened Bytes
  import opened ZipFormat

  datatype Item = Item(name: seq<byte>, data: seq<byte>)

  type Crc = seq<byte> -> uint32

  /** A central directory header with its ZIP64 fields resolved; `next` is where the header ends. */
  datatype DirEntry = DirEntry(name: seq<byte>, crc: nat, packed: nat, size: nat, offset: nat, next: nat)

  datatype Sizes = Sizes(size: nat, packed: nat, offset: nat)

  function Saturated(n: nat): nat {
    if n == UNKNOWN32 then 8 else 0
  }

  /** The ZIP64 extended information extra field holds, in order, only the saturated values. */
  function Zip64(a: seq<byte>, at: nat, end: nat, size: nat, packed: nat, offset: nat): Option<Sizes>
    requires at <= end <= |a|
  {
    var need := Saturated(size) + Saturated(packed) + Saturated(offset);
    if need == 0 then Some(Sizes(size, packed, offset))
    else if at + 4 + need > end || Num(a, at, 2) != 1 || Num(a, at + 2, 2) < need then None
    else
      var p := at + 4 + Saturated(size);
      var q := p + Saturated(packed);
      Some(Sizes(if size == UNKNOWN32 then Num(a, at + 4, 8) else size,
                 if packed == UNKNOWN32 then Num(a, p, 8) else packed,
                 if offset == UNKNOWN32 then Num(a, q, 8) else offset))
  }

  function ReadCentral(a: seq<byte>, at: nat): Option<DirEntry> {
    if at + 46 > |a| || Num(a, at, 4) != 0x02014b50 || Num(a, at + 10, 2) != 0 then None
    else
      var name := at + 46;
      var extra := name + Num(a, at + 28, 2);
      var comment := extra + Num(a, at + 30, 2);
      var next := comment + Num(a, at + 32, 2);
      if next > |a| then None
      else
        match Zip64(a, extra, comment, Num(a, at + 24, 4), Num(a, at + 20, 4), Num(a, at + 42, 4))
        case None => None
        case Some(z) => Some(DirEntry(a[name..extra], Num(a, at + 16, 4), z.packed, z.size, z.offset, next))
  }

  /** The data descriptor a streamed entry carries after its data. */
  predicate DescriptorAgrees(a: seq<byte>, at: nat, e: DirEntry) {
    && at + 24 <= |a| && Num(a, at, 4) == 0x08074b50 && Num(a, at + 4, 4) == e.crc
    && Num(a, at + 8, 8) == e.packed && Num(a, at + 16, 8) == e.size
  }

  function ReadItem(crc: Crc, a: seq<byte>, e: DirEntry): Option<Item> {
    var at := e.offset;
    if at + 30 > |a| || Num(a, at, 4) != 0x04034b50 || Num(a, at + 8, 2) != 0 then None
    else
      var name := at + 30;
      var extra := name + Num(a, at + 26, 2);
      var data := extra + Num(a, at + 28, 2);
      var end := data + e.packed;
      if end > |a| || e.packed != e.size || a[name..extra] != e.name || crc(a[data..end]) != e.crc then None
      else if Num(a, at + 6, 2) / 8 % 2 == 1 && !DescriptorAgrees(a, end, e) then None
      else Some(Item(e.name, a[data..end]))
  }

  datatype Directory = Directory(entries: seq<DirEntry>, end: nat)

  /** `count` headers one after the other, each found by `header` at its position. */
  function ReadDirectory(header: nat -> Option<DirEntry>, at: nat, count: nat): Option<Directory>
    decreases count
  {
    if count == 0 then Some(Directory([], at))
    else
      match header(at)
      case None => None
      case Some(e) =>
        match ReadDirectory(header, e.next, count - 1)
        case None => None
        case Some(d) => Some(Directory([e] + d.entries, d.end))
  }

  function ReadItems(item: DirEntry -> Option<Item>, entries: seq<DirEntry>): Option<seq<Item>> {
    if entries == [] then Some([])
    else
      match item(entries[0])
      case None => None
      case Some(first) =>
        match ReadItems(item, entries[1..])
        case None => None
        case Some(items) => Some([first] + items)
  }

  function HeaderReader(a: seq<byte>): nat -> Option<DirEntry> {
    (at: nat) => ReadCentral(a, at)
  }

  function ItemReader(crc: Crc, a: seq<byte>): DirEntry -> Option<Item> {
    e => ReadItem(crc, a, e)
  }

  function ReadArchive(crc: Crc, a: seq<byte>): Option<seq<Item>> {
    if |a| < 98 then None
    else
      var end, locator := |a| - 22, |a| - 42;
      if Num(a, end, 4) != 0x06054b50 || Num(a, end + 20, 2) != 0 || Num(a, locator, 4) != 0x07064b50 then None
      else
        var end64 := Num(a, locator + 8, 8);
        if end64 + 56 > locator || Num(a, end64, 4) != 0x06064b50 then None
        else
          var count, size, start := Num(a, end64 + 32, 8), Num(a, end64 + 40, 8), Num(a, end64 + 48, 8);
          match ReadDirectory(HeaderReader(a), start, count)
          case None => None
          case Some(d) => if d.end != start + size || d.end > end64 then None
            else ReadItems(ItemReader(crc, a), d.entries)
  }

  // ----- what the writer lays out -----

  function StatsOf(crc: Crc, e: Item, offset: nat): Stats
    requires |e.data| < 0x1_0000_0000_0000_0000 && offset < 0x1_0000_0000_0000_0000
  {
    Stats(e.name, |e.data|, offset, crc(e.data))
  }

  predicate Fits(e: Item) {
    |e.name| <= 65535 && |e.data| < 0x1_0000_0000_0000_0000
  }

  /** One entry as it is streamed: local header, data, descriptor. */
  function Segment(crc: Crc, e: Item): seq<byte>
    requires Fits(e)
  {
    Local(e.name) + (e.data + Descriptor(StatsOf(crc, e, 0)))
  }

  predicate AllFit(es: seq<Item>) {
    forall i :: 0 <= i < |es| ==> Fits(es[i])
  }

  // ----- reading one record in place -----

  lemma CentralHeaderReads(a: seq<byte>, at: nat, nameLength: uint16, crc: uint32)
    requires Holds(a, at, Numbers(CentralFields(nameLength, crc)))
    requires Offsets(CentralFields(nameLength, crc), CENTRAL_OFFSETS)
    ensures at + 46 <= |a| && Num(a, at, 4) == 0x02014b50 && Num(a, at + 10, 2) == 0 && Num(a, at + 16, 4) == crc
    ensures Num(a, at + 20, 4) == Num(a, at + 24, 4) == Num(a, at + 42, 4) == UNKNOWN32
    ensures Num(a, at + 28, 2) == nameLength && Num(a, at + 30, 2) == 28 && Num(a, at + 32, 2) == 0
  {
    var fields := CentralFields(nameLength, crc);
    FieldAt(a, at, fields, CENTRAL_OFFSETS, 0);
    FieldAt(a, at, fields, CENTRAL_OFFSETS, 4);
    FieldAt(a, at, fields, CENTRAL_OFFSETS, 7);
    FieldAt(a, at, fields, CENTRAL_OFFSETS, 8);
    FieldAt(a, at, fields, CENTRAL_OFFSETS, 9);
    FieldAt(a, at, fields, CENTRAL_OFFSETS, 10);
    FieldAt(a, at, fields, CENTRAL_OFFSETS, 11);
    FieldAt(a, at, fields, CENTRAL_OFFSETS, 12);
    FieldAt(a, at, fields, CENTRAL_OFFSETS, 16);
  }

  lemma CentralReads(a: seq<byte>, at: nat, s: Stats)
    requires |s.name| <= 65535 && Holds(a, at, Central(s))
    ensures ReadCentral(a, at) == Some(DirEntry(s.name, s.crc, s.size, s.size, s.offset, at + 74 + |s.name|))
  {
    hide Numbers, FromLittleEndian;
    CentralLength(s);
    HoldsSplit(a, at, Numbers(CentralFields(|s.name|, s.crc)), s.name + Numbers(CentralExtra(s)));
    HoldsSplit(a, at + 46, s.name, Numbers(CentralExtra(s)));
    CentralHeaderReads(a, at, |s.name|, s.crc);
    Zip64Reads(a, at + 46 + |s.name|, s);
  }

  lemma Zip64Reads(a: seq<byte>, at: nat, s: Stats)
    requires Holds(a, at, Numbers(CentralExtra(s))) && |s.name| <= 65535
    ensures at + 28 <= |a|
    ensures Zip64(a, at, at + 28, UNKNOWN32, UNKNOWN32, UNKNOWN32) == Some(Sizes(s.size, s.size, s.offset))
  {
    var extra := CentralExtra(s);
    var offsets := [0, 2, 4, 12, 20, 28];
    CentralLength(s);
    FieldAt(a, at, extra, offsets, 0);
    FieldAt(a, at, extra, offsets, 1);
    FieldAt(a, at, extra, offsets, 2);
    FieldAt(a, at, extra, offsets, 3);
    FieldAt(a, at, extra, offsets, 4);
  }

  lemma DescriptorReads(a: seq<byte>, at: nat, s: Stats, e: DirEntry)
    requires Holds(a, at, Descriptor(s)) && e.crc == s.crc && e.packed == e.size == s.size
    ensures DescriptorAgrees(a, at, e)
  {
    var fields, offsets := DescriptorFields(s), [0, 4, 8, 16, 24];
    DescriptorLength(s);
    FieldAt(a, at, fields, offsets, 0);
    FieldAt(a, at, fields, offsets, 1);
    FieldAt(a, at, fields, offsets, 2);
    FieldAt(a, at, fields, offsets, 3);
  }

  lemma LocalHeaderReads(a: seq<byte>, at: nat, nameLength: uint16)
    requires Holds(a, at, Numbers(LocalFields(nameLength))) && Offsets(LocalFields(nameLength), LOCAL_OFFSETS)
    ensures at + 30 <= |a| && Num(a, at, 4) == 0x04034b50 && Num(a, at + 6, 2) == 0x808 && Num(a, at + 8, 2) == 0
    ensures Num(a, at + 26, 2) == nameLength && Num(a, at + 28, 2) == 20
  {
    var fields := LocalFields(nameLength);
    FieldAt(a, at, fields, LOCAL_OFFSETS, 0);
    FieldAt(a, at, fields, LOCAL_OFFSETS, 2);
    FieldAt(a, at, fields, LOCAL_OFFSETS, 3);
    FieldAt(a, at, fields, LOCAL_OFFSETS, 9);
    FieldAt(a, at, fields, LOCAL_OFFSETS, 10);
  }

  lemma LocalReads(a: seq<byte>, at: nat, name: seq<byte>)
    requires |name| <= 65535 && Holds(a, at, Local(name))
    ensures at + 50 + |name| <= |a| && Num(a, at, 4) == 0x04034b50 && Num(a, at + 6, 2) == 0x808
    ensures Num(a, at + 8, 2) == 0
    ensures Num(a, at + 26, 2) == |name| && Num(a, at + 28, 2) == 20 && a[at + 30..at + 30 + |name|] == name
  {
    hide Numbers, FromLittleEndian;
    LocalLength(name);
    HoldsSplit(a, at, Numbers(LocalFields(|name|)), name + Numbers(LOCAL_EXTRA));
    HoldsSplit(a, at + 30, name, Numbers(LOCAL_EXTRA));
    LocalHeaderReads(a, at, |name|);
  }

  lemma ItemReads(crc: Crc, a: seq<byte>, e: Item, d: DirEntry)
    requires Fits(e) && Holds(a, d.offset, Segment(crc, e))
    requires d.name == e.name && d.crc == crc(e.data) && d.packed == d.size == |e.data|
    ensures ReadItem(crc, a, d) == Some(e)
  {
    hide Numbers, FromLittleEndian;
    var at, s := d.offset, StatsOf(crc, e, 0);
    LocalLength(e.name);
    HoldsSplit(a, at, Local(e.name), e.data + Descriptor(s));
    HoldsSplit(a, at + 50 + |e.name|, e.data, Descriptor(s));
    DescriptorReads(a, at + 50 + |e.name| + |e.data|, s, d);
    LocalReads(a, at, e.name);
    assert a[at + 50 + |e.name|..at + 50 + |e.name| + |e.data|] == e.data;
  }

  // ----- the whole archive -----

  function Concat(parts: seq<seq<byte>>): seq<byte> {
    if parts == [] then [] else Concat(parts[..|parts| - 1]) + parts[|parts| - 1]
  }

  lemma {:induction false} PartInPlace(parts: seq<seq<byte>>, a: seq<byte>, at: nat, i: nat)
    requires Holds(a, at, Concat(parts)) && i < |parts|
    ensures Holds(a, at + |Concat(parts[..i])|, parts[i])
    ensures |Concat(parts[..i + 1])| == |Concat(parts[..i])| + |parts[i]|
    decreases |parts|
  {
    var n := |parts| - 1;
    HoldsSplit(a, at, Concat(parts[..n]), parts[n]);
    if i < n {
      PartInPlace(parts[..n], a, at, i);
      assert parts[..n][..i] == parts[..i] && parts[..n][..i + 1] == parts[..i + 1];
    } else {
      assert parts[..i + 1] == parts;
    }
  }

  function Segments(crc: Crc, es: seq<Item>): seq<seq<byte>>
    requires AllFit(es)
  {
    seq(|es|, i requires 0 <= i < |es| => Segment(crc, es[i]))
  }

  /** Where the i-th segment starts. */
  function Offset(crc: Crc, es: seq<Item>, i: nat): nat
    requires AllFit(es) && i <= |es|
  {
    |Concat(Segments(crc, es)[..i])|
  }

  predicate Small(crc: Crc, es: seq<Item>) {
    AllFit(es) && forall i :: 0 <= i <= |es| ==> Offset(crc, es, i) < 0x1_0000_0000_0000_0000
  }

  function Header(crc: Crc, es: seq<Item>, i: nat): seq<byte>
    requires Small(crc, es) && i < |es|
  {
    Central(StatsOf(crc, es[i], Offset(crc, es, i)))
  }

  /** The central directory: each header points at its own segment. */
  function Headers(crc: Crc, es: seq<Item>): seq<seq<byte>>
    requires Small(crc, es)
  {
    seq(|es|, i requires 0 <= i < |es| => Header(crc, es, i))
  }

  /** What the i-th directory header says, wherever it stands. */
  function Says(crc: Crc, es: seq<Item>, i: nat, next: nat): DirEntry
    requires Small(crc, es) && i < |es|
  {
    DirEntry(es[i].name, crc(es[i].data), |es[i].data|, |es[i].data|, Offset(crc, es, i), next)
  }

  /** Where the i-th directory header is read: right after the one before. */
  function ReadAt(at: nat, entries: seq<DirEntry>, i: nat): nat
    requires i <= |entries|
  {
    if i == 0 then at else entries[i - 1].next
  }

  lemma {:induction false} DirectoryReads(header: nat -> Option<DirEntry>, at: nat, entries: seq<DirEntry>)
    requires forall i :: 0 <= i < |entries| ==> header(ReadAt(at, entries, i)) == Some(entries[i])
    ensures ReadDirectory(header, at, |entries|) == Some(Directory(entries, ReadAt(at, entries, |entries|)))
    decreases |entries|
  {
    if entries != [] {
      var e, rest := entries[0], entries[1..];
      forall i | 0 <= i < |rest| ensures header(ReadAt(e.next, rest, i)) == Some(rest[i]) {
        assert header(ReadAt(at, entries, i + 1)) == Some(entries[i + 1]);
      }
      DirectoryReads(header, e.next, rest);
      assert header(ReadAt(at, entries, 0)) == Some(e);
      assert entries == [e] + rest;
    }
  }

  lemma {:induction false} ItemsRead(item: DirEntry -> Option<Item>, entries: seq<DirEntry>, es: seq<Item>)
    requires |entries| == |es| && forall i :: 0 <= i < |es| ==> item(entries[i]) == Some(es[i])
    ensures ReadItems(item, entries) == Some(es)
    decreases |es|
  {
    if es != [] {
      ItemsRead(item, entries[1..], es[1..]);
      assert es == [es[0]] + es[1..];
    }
  }

  lemma HeaderReads(crc: Crc, es: seq<Item>, a: seq<byte>, here: nat, i: nat, part: seq<byte>)
    requires Small(crc, es) && i < |es| && part == Header(crc, es, i) && Holds(a, here, part)
    ensures ReadCentral(a, here) == Some(Says(crc, es, i, here + |part|))
  {
    hide Numbers, ReadCentral;
    var s := StatsOf(crc, es[i], Offset(crc, es, i));
    CentralLength(s);
    CentralReads(a, here, s);
  }

  lemma SegmentReads(crc: Crc, es: seq<Item>, a: seq<byte>, i: nat, d: DirEntry)
    requires Small(crc, es) && Holds(a, 0, Concat(Segments(crc, es))) && i < |es| && d == Says(crc, es, i, d.next)
    ensures ReadItem(crc, a, d) == Some(es[i])
  {
    PartInPlace(Segments(crc, es), a, 0, i);
    ItemReads(crc, a, es[i], d);
  }

  /** Where the i-th of several parts starts. */
  function Start(parts: seq<seq<byte>>, at: nat, i: nat): nat
    requires i <= |parts|
  {
    at + |Concat(parts[..i])|
  }

  /** The entries of headers that stand one after the other. */
  function Chained(parts: seq<seq<byte>>, at: nat, says: seq<DirEntry>): seq<DirEntry>
    requires |says| == |parts|
  {
    seq(|parts|, i requires 0 <= i < |parts| => says[i].(next := Start(parts, at, i + 1)))
  }

  /** Headers in place one after the other are read one after the other. */
  lemma HeadersRead(parts: seq<seq<byte>>, at: nat, header: nat -> Option<DirEntry>, says: seq<DirEntry>)
    requires |says| == |parts|
    requires forall i :: 0 <= i < |parts| ==>
             header(Start(parts, at, i)) == Some(says[i].(next := Start(parts, at, i + 1)))
    ensures ReadDirectory(header, at, |parts|) == Some(Directory(Chained(parts, at, says), Start(parts, at, |parts|)))
  {
    var entries := Chained(parts, at, says);
    assert Start(parts, at, 0) == at;
    forall i | 0 <= i < |parts| ensures header(ReadAt(at, entries, i)) == Some(entries[i]) {
      assert ReadAt(at, entries, i) == Start(parts, at, i);
    }
    DirectoryReads(header, at, entries);
  }

  lemma PartStart(parts: seq<seq<byte>>, a: seq<byte>, at: nat, i: nat)
    requires Holds(a, at, Concat(parts)) && i < |parts|
    ensures Holds(a, Start(parts, at, i), parts[i]) && Start(parts, at, i + 1) == Start(parts, at, i) + |parts[i]|
  {
    PartInPlace(parts, a, at, i);
  }

  lemma HeaderInPlace(crc: Crc, es: seq<Item>, a: seq<byte>, at: nat, i: nat)
    requires Small(crc, es) && Holds(a, at, Concat(Headers(crc, es))) && i < |es|
    ensures var parts := Headers(crc, es);
            ReadCentral(a, Start(parts, at, i)) == Some(Says(crc, es, i, Start(parts, at, i + 1)))
  {
    hide Numbers, ReadCentral, Header;
    PartStart(Headers(crc, es), a, at, i);
    HeaderReads(crc, es, a, Start(Headers(crc, es), at, i), i, Headers(crc, es)[i]);
  }

  function AllSay(crc: Crc, es: seq<Item>): seq<DirEntry>
    requires Small(crc, es)
  {
    seq(|es|, i requires 0 <= i < |es| => Says(crc, es, i, 0))
  }

  lemma ReaderInPlace(crc: Crc, es: seq<Item>, a: seq<byte>, at: nat, i: nat)
    requires Small(crc, es) && Holds(a, at, Concat(Headers(crc, es))) && i < |es|
    ensures var parts := Headers(crc, es);
            HeaderReader(a)(Start(parts, at, i)) == Some(AllSay(crc, es)[i].(next := Start(parts, at, i + 1)))
  {
    HeaderInPlace(crc, es, a, at, i);
  }

  lemma StartEnd(parts: seq<seq<byte>>, at: nat)
    ensures Start(parts, at, |parts|) == at + |Concat(parts)|
  {
    assert parts[..|parts|] == parts;
  }

  function Listing(crc: Crc, es: seq<Item>, at: nat): seq<DirEntry>
    requires Small(crc, es)
  {
    Chained(Headers(crc, es), at, AllSay(crc, es))
  }

  /** The directory in place lists every item. */
  lemma DirectoryInPlace(crc: Crc, es: seq<Item>, a: seq<byte>, at: nat, count: nat, end: nat)
    requires Small(crc, es) && Holds(a, at, Concat(Headers(crc, es)))
    requires count == |es| && end == at + |Concat(Headers(crc, es))|
    ensures ReadDirectory(HeaderReader(a), at, count) == Some(Directory(Listing(crc, es, at), end))
  {
    hide Header, Says, ReadCentral, ReadDirectory;
    var parts, header, says := Headers(crc, es), HeaderReader(a), AllSay(crc, es);
    forall i | 0 <= i < |parts| ensures header(Start(parts, at, i)) == Some(says[i].(next := Start(parts, at, i + 1))) {
      ReaderInPlace(crc, es, a, at, i);
    }
    HeadersRead(parts, at, header, says);
    StartEnd(parts, at);
  }

  /** Every listed item in place reads back. */
  lemma ItemsInPlace(crc: Crc, es: seq<Item>, a: seq<byte>, at: nat)
    requires Small(crc, es) && Holds(a, 0, Concat(Segments(crc, es)))
    ensures ReadItems(ItemReader(crc, a), Listing(crc, es, at)) == Some(es)
  {
    var item, entries := ItemReader(crc, a), Listing(crc, es, at);
    forall i | 0 <= i < |es| ensures item(entries[i]) == Some(es[i]) {
      SegmentReads(crc, es, a, i, entries[i]);
    }
    ItemsRead(item, entries, es);
  }
}
