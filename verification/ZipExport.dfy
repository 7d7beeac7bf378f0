/**
 The walk that is archived: the exported tables under fixed names, a pending reset marker, and the
 cached media files, whose directory and file names are single path components without a control
 character. So the digest's lines are never ambiguous, and an accepted export reads back.
 */
module ZipExport {
  import opened Wrappers
  import opened Bytes
  import opened Runes
  import opened ZipReader
  import opened ZipArchive
  import opened ZipDigest
  import opened ZipStream

  // ----- names -----

  const SLASH: byte := 47
  const DOT: byte := 46
  const BACKSLASH: byte := 92

  function Ascii(s: string): seq<byte> {
    seq(|s|, i requires 0 <= i < |s| => if s[i] < 128 as char then s[i] as nat else 63)
  }

  const TABLE_NAMES := ["chats.json", "contacts.json", "messages.jsonl", "notes.jsonl", "media_notes.jsonl",
                        "transcriptions.jsonl", "notes_meta.jsonl"]
  const MARKER_NAME := "notes.db.ingest-sent-reset"

  /** Category Cc. */
  predicate IsControl(r: nat) {
    r < 0x20 || 0x7F <= r <= 0x9F
  }

  predicate HasControl(s: seq<byte>) {
    s != [] &&
    var n := UnitLength(s);
    (RuneLength(s) > 0 && IsControl(Rune(s[..n]))) || HasControl(s[n..])
  }

  predicate HasParent(s: seq<byte>) {
    exists i :: 0 <= i < |s| - 1 && s[i] == DOT && s[i + 1] == DOT
  }

  predicate SingleComponent(s: seq<byte>) {
    s != [] && s != [DOT] && !HasParent(s) && SLASH !in s && BACKSLASH !in s && !HasControl(s)
  }

  predicate Temporary(file: seq<byte>) {
    |file| >= 5 && file[|file| - 5..] == Ascii(".part")
  }

  /** `checkMediaPathComponents`. */
  predicate CheckComponents(dir: seq<byte>, file: seq<byte>) {
    !Temporary(file) && SingleComponent(dir) && SingleComponent(file)
  }

  function MediaName(dir: seq<byte>, file: seq<byte>): seq<byte> {
    Ascii("media/") + dir + [SLASH] + file
  }

  /** The names an export gives its entries. */
  ghost predicate ExportName(name: seq<byte>) {
    || (exists i :: 0 <= i < |TABLE_NAMES| && name == Ascii(TABLE_NAMES[i]))
    || name == Ascii(MARKER_NAME)
    || exists dir, file :: CheckComponents(dir, file) && name == MediaName(dir, file)
  }

  /** A newline would be a rune of its own, wherever it stands. */
  lemma {:induction false} NoControlNoNewline(s: seq<byte>)
    requires !HasControl(s)
    ensures NEWLINE !in s
    decreases |s|
  {
    if s != [] {
      var n := UnitLength(s);
      NoControlNoNewline(s[n..]);
      assert s == s[..n] + s[n..];
      UnitHasNoNewline(s);
    }
  }

  lemma UnitHasNoNewline(s: seq<byte>)
    requires s != [] && !(RuneLength(s) > 0 && IsControl(Rune(s[..UnitLength(s)])))
    ensures NEWLINE !in s[..UnitLength(s)]
  {
    assert forall i :: 0 < i < UnitLength(s) ==> s[i] >= 0x80;
  }

  lemma FixedNamesArePlain()
    ensures forall i :: 0 <= i < |TABLE_NAMES| ==> NEWLINE !in Ascii(TABLE_NAMES[i])
    ensures NEWLINE !in Ascii(MARKER_NAME) && NEWLINE !in Ascii("media/")
  {
    assert forall i :: 0 <= i < |TABLE_NAMES| ==> '\n' !in TABLE_NAMES[i];
  }

  lemma ExportNameIsPlain(name: seq<byte>)
    requires ExportName(name)
    ensures NEWLINE !in name
  {
    hide Ascii;
    FixedNamesArePlain();
    if dir, file :| CheckComponents(dir, file) && name == MediaName(dir, file) {
      NoControlNoNewline(dir);
      NoControlNoNewline(file);
    }
  }

  // ----- the cache -----

  /** What writing an entry produced: its bytes, the count it reports, and whether it got to its end. */
  datatype Content = Content(data: seq<byte>, count: int, ok: bool)

  /** A name in a chat's directory; anything but a regular file is in the way. */
  datatype Stat = Absent | InTheWay | Regular(content: Content)

  datatype Directory = NoDirectory | NotReal | Real(files: seq<byte> -> Stat)

  type Disk = seq<byte> -> Directory

  datatype Lookup = Nothing | RefusedPath | Failed | Cached(name: seq<byte>, content: Content)

  /** The first of the names that is a regular file. */
  function Scan(files: seq<byte> -> Stat, names: seq<seq<byte>>): Lookup {
    if names == [] then Nothing
    else
      match files(names[0])
      case Regular(content) => Cached(names[0], content)
      case Absent => Scan(files, names[1..])
      case InTheWay => var rest := Scan(files, names[1..]); if rest.Nothing? then Failed else rest
  }

  ghost predicate FirstRegular(files: seq<byte> -> Stat, names: seq<seq<byte>>, name: seq<byte>) {
    exists i :: 0 <= i < |names| && names[i] == name && (forall k :: 0 <= k < i ==> !files(names[k]).Regular?)
  }

  lemma {:induction false} ScanFinds(files: seq<byte> -> Stat, names: seq<seq<byte>>)
    ensures var r := Scan(files, names);
            && (r.Nothing? <==> forall i :: 0 <= i < |names| ==> files(names[i]).Absent?)
            && (r.Cached? <==> exists i :: 0 <= i < |names| && files(names[i]).Regular?)
            && (r.Cached? ==> files(r.name) == Regular(r.content) && FirstRegular(files, names, r.name))
            && !r.RefusedPath?
  {
    if names != [] {
      var rest := names[1..];
      ScanFinds(files, rest);
      assert forall i :: 0 < i < |names| ==> names[i] == rest[i - 1];
      var r := Scan(files, rest);
      if r.Cached? && !files(names[0]).Regular? {
        var i :| 0 <= i < |rest| && rest[i] == r.name && (forall k :: 0 <= k < i ==> !files(rest[k]).Regular?);
        assert names[i + 1] == r.name && forall k :: 0 < k < i + 1 ==> names[k] == rest[k - 1];
      }
    }
  }

  function Found(disk: Disk, dir: seq<byte>, names: seq<seq<byte>>): Lookup {
    if exists i :: 0 <= i < |names| && !CheckComponents(dir, names[i]) then RefusedPath
    else
      match disk(dir)
      case NoDirectory => Nothing
      case NotReal => Failed
      case Real(files) => Scan(files, names)
  }

  function Remembering(refused: bool, r: Lookup): Lookup {
    if refused && r.Nothing? then Failed else r
  }

  /** `findCachedMediaInDir`: a name listed twice in a row is looked up once. */
  method FindInDirectory(files: seq<byte> -> Stat, names: seq<seq<byte>>) returns (r: Lookup)
    requires [] !in names
    ensures r == Scan(files, names)
  {
    var refused, previous := false, [];
    var i := 0;
    while i < |names|
      invariant 0 <= i <= |names|
      invariant Remembering(refused, Scan(files, names[i..])) == Scan(files, names)
      invariant if i == 0 then previous == [] else previous == names[i - 1]
      invariant i > 0 ==> !files(previous).Regular? && (files(previous).InTheWay? ==> refused)
    {
      var name := names[i];
      assert names[i..][0] == name && names[i..][1..] == names[i + 1..];
      if name != previous {
        previous := name;
        match files(name)
        case Regular(content) => return Cached(name, content);
        case InTheWay => refused := true;
        case Absent =>
      }
      i := i + 1;
    }
    return if refused then Failed else Nothing;
  }

  /** `findCachedMedia`: every name is checked before the directory is opened. */
  method FindCached(disk: Disk, dir: seq<byte>, names: seq<seq<byte>>) returns (r: Lookup)
    ensures r == Found(disk, dir, names)
  {
    hide HasControl, HasParent, Temporary, Scan;
    var i := 0;
    while i < |names|
      invariant 0 <= i <= |names| && forall k :: 0 <= k < i ==> CheckComponents(dir, names[k])
    {
      if !CheckComponents(dir, names[i]) {
        return RefusedPath;
      }
      i := i + 1;
    }
    match disk(dir)
    case NoDirectory => return Nothing;
    case NotReal => return Failed;
    case Real(files) =>
      assert forall k :: 0 <= k < |names| ==> names[k] != [];
      r := FindInDirectory(files, names);
  }

  // ----- the walk -----

  /**
   A row of a media message: its chat and the names its file may have. A row whose columns are not
   text, or whose time does not parse, is skipped like one whose path is refused.
   */
  datatype MediaRow = MediaRow(readable: bool, chat: seq<byte>, names: seq<seq<byte>>)

  /** One replay's view: the tables, a pending reset, the media rows in order and the cache. */
  datatype Store = Store(tables: seq<Content>, marker: Option<Content>, media: bool,
                         rows: seq<MediaRow>, rowsRead: bool, disk: Disk)

  predicate Shaped(s: Store) {
    |s.tables| == |TABLE_NAMES|
  }

  /** The chat JID with its colons replaced. */
  function ChatDirectory(chat: seq<byte>): seq<byte> {
    seq(|chat|, i requires 0 <= i < |chat| => if chat[i] == 58 then 95 else chat[i])
  }

  function Look(disk: Disk, row: MediaRow): Lookup {
    if row.readable then Found(disk, ChatDirectory(row.chat), row.names) else RefusedPath
  }

  function MediaEntry(row: MediaRow, hit: Lookup): Entry
    requires hit.Cached?
  {
    Entry(MediaName(ChatDirectory(row.chat), hit.name), hit.content.data, 1)
  }

  function TableEntries(tables: seq<Content>): seq<Entry>
    requires |tables| <= |TABLE_NAMES|
  {
    seq(|tables|, i requires 0 <= i < |tables| =>
      Entry(Ascii(TABLE_NAMES[i]), tables[i].data, tables[i].count))
  }

  function MarkerEntries(marker: Option<Content>): seq<Entry> {
    match marker
    case None => []
    case Some(c) => [Entry(Ascii(MARKER_NAME), c.data, 1)]
  }

  /** One entry for each row whose file is cached; the rest are left out. */
  function MediaEntries(disk: Disk, rows: seq<MediaRow>): seq<Entry> {
    if rows == [] then []
    else
      var n := |rows| - 1;
      var hit := Look(disk, rows[n]);
      MediaEntries(disk, rows[..n]) + if hit.Cached? then [MediaEntry(rows[n], hit)] else []
  }

  /** Everything an undisturbed export holds. */
  function Exported(s: Store): seq<Entry>
    requires Shaped(s)
  {
    TableEntries(s.tables) + MarkerEntries(s.marker) + if s.media then MediaEntries(s.disk, s.rows) else []
  }

  predicate RowGoes(disk: Disk, row: MediaRow) {
    var hit := Look(disk, row); !hit.Failed? && (hit.Cached? ==> hit.content.ok)
  }

  /** Nothing stands in the way of the whole walk. */
  predicate Complete(s: Store) {
    && (forall i :: 0 <= i < |s.tables| ==> s.tables[i].ok)
    && (s.marker.Some? ==> s.marker.value.ok)
    && (s.media ==> s.rowsRead && forall i :: 0 <= i < |s.rows| ==> RowGoes(s.disk, s.rows[i]))
  }

  lemma NextTable(tables: seq<Content>, i: nat)
    requires i < |tables| <= |TABLE_NAMES|
    ensures TableEntries(tables[..i + 1]) ==
            TableEntries(tables[..i]) + [Entry(Ascii(TABLE_NAMES[i]), tables[i].data, tables[i].count)]
  {
    hide Ascii;
  }

  lemma NextRow(disk: Disk, rows: seq<MediaRow>, i: nat)
    requires i < |rows|
    ensures var hit := Look(disk, rows[i]);
            MediaEntries(disk, rows[..i + 1]) ==
            MediaEntries(disk, rows[..i]) + if hit.Cached? then [MediaEntry(rows[i], hit)] else []
  {
    hide Look, MediaEntry;
    assert rows[..i + 1][..i] == rows[..i];
  }

  method WalkTables(tables: seq<Content>) returns (walk: Walk)
    requires |tables| == |TABLE_NAMES|
    ensures walk.ending.Ended? <==> forall i :: 0 <= i < |tables| ==> tables[i].ok
    ensures walk.ending.Ended? ==> walk.entries == TableEntries(tables)
  {
    hide Ascii;
    var entries: seq<Entry> := [];
    var i := 0;
    while i < |tables|
      invariant 0 <= i <= |tables| && entries == TableEntries(tables[..i])
      invariant forall k :: 0 <= k < i ==> tables[k].ok
    {
      var e := Entry(Ascii(TABLE_NAMES[i]), tables[i].data, tables[i].count);
      if !tables[i].ok {
        return Walk(entries, BrokeInside(e));
      }
      NextTable(tables, i);
      entries := entries + [e];
      i := i + 1;
    }
    assert tables[..i] == tables;
    return Walk(entries, Ended);
  }

  /** The rows, after what was already emitted. */
  method WalkRows(disk: Disk, rows: seq<MediaRow>, rowsRead: bool, before: seq<Entry>) returns (walk: Walk)
    ensures walk.ending.Ended? <==> rowsRead && forall i :: 0 <= i < |rows| ==> RowGoes(disk, rows[i])
    ensures walk.ending.Ended? ==> walk.entries == before + MediaEntries(disk, rows)
  {
    hide Found, MediaEntry;
    var entries := before;
    var i := 0;
    while i < |rows|
      invariant 0 <= i <= |rows| && entries == before + MediaEntries(disk, rows[..i])
      invariant forall k :: 0 <= k < i ==> RowGoes(disk, rows[k])
    {
      var row, hit := rows[i], RefusedPath;
      if row.readable {
        hit := FindCached(disk, ChatDirectory(row.chat), row.names);
      }
      NextRow(disk, rows, i);
      match hit {
        case Failed => return Walk(entries, Broke);
        case Cached(_, content) =>
          if !content.ok {
            return Walk(entries, BrokeInside(MediaEntry(row, hit)));
          }
          entries := entries + [MediaEntry(row, hit)];
        case _ =>
      }
      i := i + 1;
    }
    assert rows[..i] == rows;
    return Walk(entries, if rowsRead then Ended else Broke);
  }

  /** `exportWalk`: it gets to its end exactly when nothing is in the way, and then holds everything. */
  method ExportWalk(s: Store) returns (walk: Walk)
    requires Shaped(s)
    ensures walk.ending.Ended? <==> Complete(s)
    ensures walk.ending.Ended? ==> walk.entries == Exported(s)
  {
    hide Ascii, TableEntries, MediaEntries, RowGoes;
    walk := WalkTables(s.tables);
    if !walk.ending.Ended? {
      return;
    }
    var entries := walk.entries;
    match s.marker {
      case None =>
      case Some(c) =>
        var e := Entry(Ascii(MARKER_NAME), c.data, 1);
        if !c.ok {
          return Walk(entries, BrokeInside(e));
        }
        entries := entries + [e];
    }
    if !s.media {
      return Walk(entries, Ended);
    }
    walk := WalkRows(s.disk, s.rows, s.rowsRead, entries);
  }

  // ----- every export's names are plain -----

  lemma CachedNameIsChecked(disk: Disk, row: MediaRow)
    ensures var hit := Look(disk, row); hit.Cached? ==> ExportName(MediaEntry(row, hit).name)
  {
    hide CheckComponents, Scan;
    var hit, dir := Look(disk, row), ChatDirectory(row.chat);
    if hit.Cached? {
      ScanFinds(disk(dir).files, row.names);
      assert CheckComponents(dir, hit.name);
    }
  }

  lemma {:induction false} MediaNamesArePlain(disk: Disk, rows: seq<MediaRow>)
    ensures PlainNames(MediaEntries(disk, rows))
    decreases |rows|
  {
    hide Look, MediaEntry, ExportName;
    if rows != [] {
      var n := |rows| - 1;
      MediaNamesArePlain(disk, rows[..n]);
      CachedNameIsChecked(disk, rows[n]);
      var hit := Look(disk, rows[n]);
      if hit.Cached? {
        ExportNameIsPlain(MediaEntry(rows[n], hit).name);
      }
    }
  }

  lemma ExportedNamesArePlain(s: Store)
    requires Shaped(s)
    ensures PlainNames(Exported(s))
  {
    hide Ascii;
    FixedNamesArePlain();
    MediaNamesArePlain(s.disk, s.rows);
  }

  /**
   An export that is reported as streamed was undisturbed in all three replays, and, unless two of the
   texts hashed collide, it is an archive that reads back as exactly what the first replay exported,
   followed by the manifest. If the replays are undisturbed and agree, it is streamed.
   */
  method Export(crc: Crc, sha: Sha, first: Store, second: Store, third: Store, manifest: Content)
    returns (out: seq<byte>, r: Outcome)
    requires Shaped(first) && Shaped(second) && Shaped(third)
    ensures r.Streamed? ==> Complete(first) && Complete(second) && Complete(third) && manifest.ok
    ensures (&& r.Streamed? && HexDigests(sha) && |out| < LIMIT64
             && CollisionFree(sha, Exported(first), Exported(second), Exported(third))) ==>
              && Exported(first) == Exported(second) == Exported(third)
              && ReadArchive(crc, out) == Some(Items(Exported(first)) + [Item(MANIFEST_NAME, manifest.data)])
    ensures (&& Complete(first) && Complete(second) && Complete(third) && manifest.ok
             && Exported(first) == Exported(second) == Exported(third) && ShortNames(Exported(first))) ==> r.Streamed?
  {
    hide Exported, Complete, Emitted, ReadArchive, CollisionFree, HexDigests, Items, Stream, Segs, ShortNames;
    var one := ExportWalk(first);
    var two := ExportWalk(second);
    var three := ExportWalk(third);
    var run := ManifestRun(two.entries, manifest.data, manifest.count, manifest.ok && two.ending.Ended?);
    out, r := StreamArchive(crc, sha, one, run, three);
    if r.Streamed? {
      ExportedNamesArePlain(first);
      ExportedNamesArePlain(second);
      ExportedNamesArePlain(third);
      if HexDigests(sha) && |out| < LIMIT64 && CollisionFree(sha, one.entries, two.entries, three.entries) {
        PlainStreamReads(crc, sha, one, run, three);
      }
    }
  }
}
