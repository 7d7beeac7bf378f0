/**
 `streamArchive`: three replays of the same walk write the segments, the manifest and the central
 directory without remembering any entry, and a digest ties the replays together.
 */
module ZipStream {
  import opened Wrappers
  import opened Bytes
  import opened ZipFormat
  import opened ZipReader
  import opened ZipArchive
  import opened ZipDigest

  /** How a replay ends: at its end, with an error between entries, or inside an entry's writer. */
  datatype Ending = Ended | Broke | BrokeInside(entry: Entry)

  /** One replay: the entries it wrote in full, and how it ended. */
  datatype Walk = Walk(entries: seq<Entry>, ending: Ending)

  /** Every entry a replay began to write. */
  function Touched(walk: Walk): seq<Entry> {
    walk.entries + if walk.ending.BrokeInside? then [walk.ending.entry] else []
  }

  /** The manifest's own run: the entries it wrote through its walk, its bytes, its count and its end. */
  datatype ManifestRun = ManifestRun(seen: seq<Entry>, data: seq<byte>, count: int, ok: bool)

  datatype Refusal = ReplayFailed | ManifestFailed | ManifestChanged | StreamChanged

  datatype Outcome = Streamed(entries: uint64) | Refused(reason: Refusal)

  const MANIFEST_NAME: seq<byte> := [109, 97, 110, 105, 102, 101, 115, 116, 46, 106, 115, 111, 110]

  predicate ShortName(e: Entry) {
    |e.name| <= 65535
  }

  predicate ShortNames(es: seq<Entry>) {
    forall i :: 0 <= i < |es| ==> ShortName(es[i])
  }

  function Wrap(n: nat): uint64 {
    n % LIMIT64
  }

  /** `measureEntry`, seen from its result. */
  function Measured(crc: Crc, e: Entry, offset: uint64): Stats {
    Stats(e.name, Size(e.data), offset, crc(e.data))
  }

  function SegmentOf(crc: Crc, e: Entry): seq<byte>
    requires ShortName(e)
  {
    Local(e.name) + (e.data + Descriptor(Measured(crc, e, 0)))
  }

  /** What the first pass writes. */
  function Segs(crc: Crc, es: seq<Entry>): seq<byte>
    requires ShortNames(es)
  {
    if es == [] then [] else Segs(crc, es[..|es| - 1]) + SegmentOf(crc, es[|es| - 1])
  }

  /** What the third pass writes: each header carries the wrapped offset of its segment. */
  function Heads(crc: Crc, es: seq<Entry>): seq<byte>
    requires ShortNames(es)
  {
    if es == [] then []
    else
      var n := |es| - 1;
      Heads(crc, es[..n]) + Central(Measured(crc, es[n], Wrap(|Segs(crc, es[..n])|)))
  }

  function Manifest(run: ManifestRun): Entry {
    Entry(MANIFEST_NAME, run.data, run.count)
  }

  function Front(crc: Crc, first: seq<Entry>, run: ManifestRun): seq<byte>
    requires ShortNames(first)
  {
    Segs(crc, first) + SegmentOf(crc, Manifest(run))
  }

  function Catalog(crc: Crc, first: seq<Entry>, run: ManifestRun, third: seq<Entry>): seq<byte>
    requires ShortNames(first) && ShortNames(third)
  {
    Heads(crc, third) + Central(Measured(crc, Manifest(run), Wrap(|Segs(crc, first)|)))
  }

  function Finish(front: nat, catalog: nat, entries: uint64): seq<byte> {
    End(Wrap(front + catalog), Wrap(entries + 1), Wrap(front), Wrap(catalog))
  }

  /** Everything a successful run writes. */
  function Emitted(crc: Crc, first: seq<Entry>, run: ManifestRun, third: seq<Entry>): seq<byte>
    requires ShortNames(first) && ShortNames(third)
  {
    var front, catalog := Front(crc, first, run), Catalog(crc, first, run, third);
    front + (catalog + Finish(|front|, |catalog|, Wrap(|first|)))
  }

  predicate SameDigest(sha: Sha, es: seq<Entry>, fs: seq<Entry>) {
    sha(Stream(sha, es)) == sha(Stream(sha, fs))
  }

  /** The checks a run passes before the end records are written. */
  predicate Accepts(crc: Crc, sha: Sha, first: Walk, run: ManifestRun, third: Walk) {
    && first.ending.Ended? && ShortNames(first.entries)
    && run.ok && SameDigest(sha, first.entries, run.seen)
    && third.ending.Ended? && ShortNames(third.entries)
    && Wrap(|Segs(crc, third.entries)|) == Wrap(|Segs(crc, first.entries)|)
    && SameDigest(sha, first.entries, third.entries)
  }

  /** The first check that fails. */
  function WhyRefused(sha: Sha, first: Walk, run: ManifestRun, third: Walk): Refusal {
    if !(first.ending.Ended? && ShortNames(first.entries)) then ReplayFailed
    else if !run.ok then ManifestFailed
    else if !SameDigest(sha, first.entries, run.seen) then ManifestChanged
    else if !(third.ending.Ended? && ShortNames(third.entries)) then ReplayFailed
    else StreamChanged
  }

  /** A refused run stops before the manifest's directory header, so before any end record. */
  ghost predicate Unfinished(crc: Crc, first: Walk, run: ManifestRun, third: Walk, out: seq<byte>) {
    exists i, j :: 0 <= i <= |Touched(first)| && 0 <= j <= |third.entries|
      && ShortNames(Touched(first)[..i]) && ShortNames(third.entries[..j])
      && out <= Front(crc, Touched(first)[..i], run) + Heads(crc, third.entries[..j])
  }

  // ----- lengths -----

  lemma SegmentOfLength(crc: Crc, e: Entry)
    requires ShortName(e)
    ensures |SegmentOf(crc, e)| == 74 + |e.name| + |e.data|
  {
    LocalLength(e.name);
    DescriptorLength(Measured(crc, e, 0));
  }

  lemma SegsNext(crc: Crc, es: seq<Entry>, i: nat)
    requires i < |es| && ShortNames(es[..i]) && ShortName(es[i])
    ensures ShortNames(es[..i + 1])
    ensures Segs(crc, es[..i + 1]) == Segs(crc, es[..i]) + SegmentOf(crc, es[i])
  {
    assert es[..i + 1] == es[..i] + [es[i]];
    assert es[..i + 1][..i] == es[..i];
  }

  lemma HeadsNext(crc: Crc, es: seq<Entry>, i: nat)
    requires i < |es| && ShortNames(es[..i]) && ShortName(es[i])
    ensures ShortNames(es[..i + 1])
    ensures Heads(crc, es[..i + 1]) == Heads(crc, es[..i]) + Central(Measured(crc, es[i], Wrap(|Segs(crc, es[..i])|)))
  {
    assert es[..i + 1] == es[..i] + [es[i]];
    assert es[..i + 1][..i] == es[..i];
  }

  lemma StreamNext(sha: Sha, es: seq<Entry>, i: nat)
    requires i < |es|
    ensures Stream(sha, es[..i + 1]) == Stream(sha, es[..i]) + Line(sha, es[i])
  {
    assert es[..i + 1][..i] == es[..i];
  }

  /** The offset counter of the third pass follows the segments, modulo 2^64. */
  lemma OffsetNext(crc: Crc, es: seq<Entry>, i: nat, offset: uint64)
    requires i < |es| && ShortNames(es[..i]) && ShortName(es[i]) && ShortNames(es[..i + 1])
    requires offset == Wrap(|Segs(crc, es[..i])|)
    ensures Wrap(offset + (30 + |es[i].name| + 20 + 24) + Size(es[i].data)) == Wrap(|Segs(crc, es[..i + 1])|)
  {
    SegsNext(crc, es, i);
    SegmentOfLength(crc, es[i]);
    WrapSum(|Segs(crc, es[..i])|, 74 + |es[i].name|, |es[i].data|);
  }

  lemma WrapSum(a: nat, b: nat, c: nat)
    ensures Wrap(Wrap(a) + b + Wrap(c)) == Wrap(a + b + c)
  {
    var q, r := a / LIMIT64, c / LIMIT64;
    assert a + b + c == (Wrap(a) + b + Wrap(c)) + (q + r) * LIMIT64;
    WrapMultiple(Wrap(a) + b + Wrap(c), q + r);
  }

  lemma {:induction false} WrapMultiple(n: nat, k: nat)
    ensures Wrap(n + k * LIMIT64) == Wrap(n)
    decreases k
  {
    if k > 0 {
      WrapMultiple(n, k - 1);
      assert n + k * LIMIT64 == (n + (k - 1) * LIMIT64) + LIMIT64;
    }
  }

  lemma Regroup(out: seq<byte>, a: seq<byte>, b: seq<byte>, c: seq<byte>)
    ensures ((out + a) + b) + c == out + (a + (b + c))
  {
  }

  // ----- the writer -----

  class CountingWriter {
    var out: seq<byte>
    var count: uint64

    ghost predicate Valid()
      reads this
    {
      count == Wrap(|out|)
    }

    constructor ()
      ensures Valid() && out == []
    {
      out, count := [], 0;
    }

    method Write(p: seq<byte>)
      requires Valid()
      modifies this
      ensures Valid() && out == old(out) + p
    {
      WrapSum(|out|, |p|, 0);
      out, count := out + p, (count + |p|) % 0x1_0000_0000_0000_0000;
    }

    method WriteNumbers(fields: seq<Field>)
      requires Valid()
      modifies this
      ensures Valid() && out == old(out) + Numbers(fields)
    {
      var i := 0;
      while i < |fields|
        invariant 0 <= i <= |fields|
        invariant Valid() && out == old(out) + Numbers(fields[..i])
      {
        assert fields[..i + 1][..i] == fields[..i];
        Write(LittleEndian(Value(fields[i]), Width(fields[i])));
        i := i + 1;
      }
      assert fields[..i] == fields;
    }

    method WriteLocal(name: seq<byte>) returns (ok: bool)
      requires Valid()
      modifies this
      ensures Valid() && ok == (|name| <= 65535)
      ensures out == old(out) + if ok then Local(name) else []
    {
      hide Numbers;
      ok := |name| <= 65535;
      if ok {
        WriteNumbers(LocalFields(|name|));
        Write(name);
        WriteNumbers(LOCAL_EXTRA);
      }
    }

    method WriteCentral(s: Stats) returns (ok: bool)
      requires Valid()
      modifies this
      ensures Valid() && ok == (|s.name| <= 65535)
      ensures out == old(out) + if ok then Central(s) else []
    {
      hide Numbers;
      ok := |s.name| <= 65535;
      if ok {
        WriteNumbers(CentralFields(|s.name|, s.crc));
        Write(s.name);
        WriteNumbers(CentralExtra(s));
      }
    }

    method WriteEnd(entries: uint64, offset: uint64, size: uint64)
      requires Valid()
      modifies this
      ensures Valid() && out == old(out) + End(old(count), entries, offset, size)
    {
      var endOffset := count;
      WriteNumbers(End64Fields(entries, offset, size));
      WriteNumbers(LocatorFields(endOffset));
      WriteNumbers(END_FIELDS);
    }

    /** One entry of the first pass, or the manifest: its name, its bytes and its descriptor. */
    method WriteSegment(crc: Crc, e: Entry) returns (ok: bool)
      requires Valid()
      modifies this
      ensures Valid() && ok == ShortName(e)
      ensures out == old(out) + if ok then SegmentOf(crc, e) else []
    {
      ok := WriteLocal(e.name);
      if ok {
        Write(e.data);
        WriteNumbers(DescriptorFields(Measured(crc, e, 0)));
        Regroup(old(out), Local(e.name), e.data, Descriptor(Measured(crc, e, 0)));
      }
    }
  }

  // ----- the passes -----

  /** The first pass after `i` entries. */
  ghost predicate Laid(crc: Crc, sha: Sha, es: seq<Entry>, i: nat, out: seq<byte>, digest: seq<byte>, entries: uint64) {
    && i <= |es| && ShortNames(es[..i]) && out == Segs(crc, es[..i])
    && digest == Stream(sha, es[..i]) && entries == Wrap(i)
  }

  lemma LaidNext(crc: Crc, sha: Sha, es: seq<Entry>, i: nat, out: seq<byte>, digest: seq<byte>, entries: uint64)
    requires Laid(crc, sha, es, i, out, digest, entries) && i < |es| && ShortName(es[i])
    ensures Laid(crc, sha, es, i + 1, out + SegmentOf(crc, es[i]), digest + Line(sha, es[i]), Wrap(entries + 1))
  {
    hide SegmentOf, Line;
    SegsNext(crc, es, i);
    StreamNext(sha, es, i);
    WrapSum(i, 1, 0);
  }

  /** A first pass that failed wrote part of what it would have written for the entries it began. */
  ghost predicate Stopped(crc: Crc, walk: Walk, out: seq<byte>) {
    exists i :: 0 <= i <= |Touched(walk)| && ShortNames(Touched(walk)[..i]) && out <= Segs(crc, Touched(walk)[..i])
  }

  lemma StoppedBetween(crc: Crc, walk: Walk, i: nat)
    requires i <= |walk.entries| && ShortNames(walk.entries[..i])
    ensures Stopped(crc, walk, Segs(crc, walk.entries[..i]))
  {
    assert Touched(walk)[..i] == walk.entries[..i];
  }

  lemma StoppedInside(crc: Crc, walk: Walk)
    requires walk.ending.BrokeInside? && ShortNames(walk.entries) && ShortName(walk.ending.entry)
    ensures var e, n := walk.ending.entry, |walk.entries|;
            Stopped(crc, walk, (Segs(crc, walk.entries[..n]) + Local(e.name)) + e.data)
  {
    hide Local, Descriptor;
    var es, e, n := Touched(walk), walk.ending.entry, |walk.entries|;
    assert es[..n] == walk.entries[..n] && es[..n + 1] == es && es[n] == e;
    SegsNext(crc, es, n);
    Regroup(Segs(crc, es[..n]), Local(e.name), e.data, Descriptor(Measured(crc, e, 0)));
  }

  method WriteSegments(crc: Crc, sha: Sha, walk: Walk, w: CountingWriter)
    returns (ok: bool, ghost done: nat, digest: seq<byte>, entries: uint64)
    requires w.Valid() && w.out == []
    modifies w
    ensures w.Valid() && done <= |walk.entries| && ShortNames(walk.entries[..done])
    ensures ok == (walk.ending.Ended? && ShortNames(walk.entries))
    ensures ok ==> done == |walk.entries| && Laid(crc, sha, walk.entries, done, w.out, digest, entries)
    ensures !ok ==> Stopped(crc, walk, w.out)
  {
    hide SegmentOf, Line, Local;
    var es := walk.entries;
    ok, digest, entries, done := true, [], 0, 0;
    var i := 0;
    while i < |es|
      invariant 0 <= i <= |es| && done == i && ok && w.Valid()
      invariant forall k :: 0 <= k < i ==> ShortName(es[k])
      invariant Laid(crc, sha, es, i, w.out, digest, entries)
    {
      ghost var before := w.out;
      ok := w.WriteSegment(crc, es[i]);
      if !ok {
        assert !ShortName(es[i]);
        StoppedBetween(crc, walk, i);
        return;
      }
      LaidNext(crc, sha, es, i, before, digest, entries);
      digest := digest + Line(sha, es[i]);
      entries := (entries + 1) % 0x1_0000_0000_0000_0000;
      i, done := i + 1, i + 1;
    }
    match walk.ending
    case Ended =>
    case Broke =>
      ok := false;
      StoppedBetween(crc, walk, i);
    case BrokeInside(e) =>
      var named := w.WriteLocal(e.name);
      if named {
        w.Write(e.data);
        StoppedInside(crc, walk);
      } else {
        StoppedBetween(crc, walk, i);
      }
      ok := false;
  }

  /** The third pass after `i` entries, `before` being what was written ahead of it. */
  ghost predicate Listed(crc: Crc, sha: Sha, es: seq<Entry>, i: nat, before: seq<byte>, out: seq<byte>,
                         digest: seq<byte>, offset: uint64) {
    && i <= |es| && ShortNames(es[..i]) && out == before + Heads(crc, es[..i])
    && digest == Stream(sha, es[..i]) && offset == Wrap(|Segs(crc, es[..i])|)
  }

  function AfterEntry(offset: uint64, e: Entry): uint64 {
    Wrap(offset + (30 + |e.name| + 20 + 24) + Size(e.data))
  }

  lemma ListedNext(crc: Crc, sha: Sha, es: seq<Entry>, i: nat, before: seq<byte>, out: seq<byte>, digest: seq<byte>,
                   offset: uint64)
    requires Listed(crc, sha, es, i, before, out, digest, offset) && i < |es| && ShortName(es[i])
    ensures Listed(crc, sha, es, i + 1, before, out + Central(Measured(crc, es[i], offset)),
                   digest + Line(sha, es[i]), AfterEntry(offset, es[i]))
  {
    hide SegmentOf, Line, Central;
    SegsNext(crc, es, i);
    HeadsNext(crc, es, i);
    StreamNext(sha, es, i);
    OffsetNext(crc, es, i, offset);
  }

  method WriteHeaders(crc: Crc, sha: Sha, walk: Walk, w: CountingWriter)
    returns (ok: bool, ghost done: nat, digest: seq<byte>, offset: uint64)
    requires w.Valid()
    modifies w
    ensures w.Valid() && Listed(crc, sha, walk.entries, done, old(w.out), w.out, digest, offset)
    ensures ok == (walk.ending.Ended? && ShortNames(walk.entries))
    ensures ok ==> done == |walk.entries|
  {
    hide SegmentOf, Line, Central;
    var es := walk.entries;
    ok, digest, offset, done := true, [], 0, 0;
    var i := 0;
    while i < |es|
      invariant 0 <= i <= |es| && done == i && ok && w.Valid()
      invariant forall k :: 0 <= k < i ==> ShortName(es[k])
      invariant Listed(crc, sha, es, i, old(w.out), w.out, digest, offset)
    {
      ghost var before := w.out;
      ok := w.WriteCentral(Measured(crc, es[i], offset));
      if !ok {
        assert !ShortName(es[i]);
        return;
      }
      ListedNext(crc, sha, es, i, old(w.out), before, digest, offset);
      digest := digest + Line(sha, es[i]);
      offset := AfterEntry(offset, es[i]);
      i, done := i + 1, i + 1;
    }
    ok := walk.ending.Ended?;
  }

  lemma WrapDifference(a: nat, b: nat)
    ensures Wrap(Wrap(a + b) + LIMIT64 - Wrap(a)) == Wrap(b)
  {
    var x, y := (a + b) / LIMIT64, a / LIMIT64;
    assert Wrap(a + b) + LIMIT64 - Wrap(a) == b + LIMIT64 * (1 + y - x);
    if x <= y + 1 {
      WrapMultiple(b, 1 + y - x);
    } else {
      WrapMultiple(Wrap(a + b) + LIMIT64 - Wrap(a), x - y - 1);
    }
  }

  lemma UnfinishedEarly(crc: Crc, first: Walk, run: ManifestRun, third: Walk, out: seq<byte>)
    requires Stopped(crc, first, out)
    ensures Unfinished(crc, first, run, third, out)
  {
    hide SegmentOf;
    var i :| 0 <= i <= |Touched(first)| && ShortNames(Touched(first)[..i]) && out <= Segs(crc, Touched(first)[..i]);
    var front := Front(crc, Touched(first)[..i], run);
    assert out <= front + Heads(crc, third.entries[..0]);
  }

  lemma UnfinishedLate(crc: Crc, first: Walk, run: ManifestRun, third: Walk, done: nat, out: seq<byte>)
    requires ShortNames(first.entries) && done <= |third.entries| && ShortNames(third.entries[..done])
    requires out <= Front(crc, first.entries, run) + Heads(crc, third.entries[..done])
    ensures Unfinished(crc, first, run, third, out)
  {
    hide SegmentOf, Segs, Heads;
    assert Touched(first)[..|first.entries|] == first.entries;
  }

  /** The manifest is written and measured like any entry, and kept only if its replay matched. */
  method WriteManifest(crc: Crc, run: ManifestRun, same: bool, w: CountingWriter) returns (problem: Option<Refusal>)
    requires w.Valid()
    modifies w
    ensures w.Valid() && (problem.None? <==> run.ok && same)
    ensures problem.Some? ==> problem.value == if run.ok then ManifestChanged else ManifestFailed
    ensures problem.None? ==> w.out == old(w.out) + SegmentOf(crc, Manifest(run))
    ensures problem.Some? ==> w.out <= old(w.out) + SegmentOf(crc, Manifest(run))
  {
    hide Local, Numbers;
    var named := w.WriteLocal(MANIFEST_NAME);
    w.Write(run.data);
    Regroup(old(w.out), Local(MANIFEST_NAME), run.data, Descriptor(Measured(crc, Manifest(run), 0)));
    if !run.ok {
      return Some(ManifestFailed);
    }
    if !same {
      return Some(ManifestChanged);
    }
    w.WriteNumbers(DescriptorFields(Measured(crc, Manifest(run), 0)));
    return None;
  }

  /** The manifest's header and the end records close the archive. */
  method WriteClosing(crc: Crc, run: ManifestRun, entries: uint64, manifestOffset: uint64, centralOffset: uint64,
                      ghost front: nat, w: CountingWriter)
    requires w.Valid() && front <= |w.out| && centralOffset == Wrap(front)
    modifies w
    ensures var last := Central(Measured(crc, Manifest(run), manifestOffset));
            w.out == old(w.out) + (last + Finish(front, |old(w.out)| + |last| - front, entries))
  {
    hide Central, End;
    var named := w.WriteCentral(Measured(crc, Manifest(run), manifestOffset));
    WrapDifference(front, |w.out| - front);
    var total: int := w.count;
    w.WriteEnd(Wrap(entries + 1), centralOffset, Wrap(total + 0x1_0000_0000_0000_0000 - centralOffset));
  }

  method StreamArchive(crc: Crc, sha: Sha, first: Walk, run: ManifestRun, third: Walk)
    returns (out: seq<byte>, r: Outcome)
    ensures r.Streamed? <==> Accepts(crc, sha, first, run, third)
    ensures r.Streamed? ==> out == Emitted(crc, first.entries, run, third.entries) && r.entries == Wrap(|first.entries|)
    ensures r.Refused? ==> r.reason == WhyRefused(sha, first, run, third) && Unfinished(crc, first, run, third, out)
  {
    hide SegmentOf, Line, Local, Central, Descriptor, Numbers, Segs, Heads, Stream, Finish, Unfinished;
    var w := new CountingWriter();
    var ok, done, digest, entries := WriteSegments(crc, sha, first, w);
    if !ok {
      UnfinishedEarly(crc, first, run, third, w.out);
      return w.out, Refused(ReplayFailed);
    }
    assert first.entries[..done] == first.entries;
    var manifestOffset := w.count;
    var problem := WriteManifest(crc, run, sha(digest) == sha(Stream(sha, run.seen)), w);
    assert w.out <= Front(crc, first.entries, run);
    if problem.Some? {
      UnfinishedLate(crc, first, run, third, 0, w.out);
      return w.out, Refused(problem.value);
    }
    var centralOffset := w.count;
    var listed, upTo, again, offset := WriteHeaders(crc, sha, third, w);
    UnfinishedLate(crc, first, run, third, upTo, w.out);
    if !listed {
      return w.out, Refused(ReplayFailed);
    }
    assert third.entries[..upTo] == third.entries;
    if offset != manifestOffset || sha(digest) != sha(again) {
      return w.out, Refused(StreamChanged);
    }
    ghost var front := Front(crc, first.entries, run);
    WriteClosing(crc, run, entries, manifestOffset, centralOffset, |front|, w);
    return w.out, Streamed(entries);
  }

  // ----- a run that is accepted is a readable archive of one replay -----

  function Items(es: seq<Entry>): seq<Item> {
    seq(|es|, i requires 0 <= i < |es| => Item(es[i].name, es[i].data))
  }

  lemma OffsetPrefix(crc: Crc, items: seq<Item>, n: nat, i: nat)
    requires AllFit(items) && i <= n <= |items|
    ensures AllFit(items[..n]) && Offset(crc, items[..n], i) == Offset(crc, items, i)
    ensures Segments(crc, items[..n]) == Segments(crc, items)[..n]
  {
    hide Segment, Concat;
    assert Segments(crc, items[..n]) == Segments(crc, items)[..n];
    assert Segments(crc, items[..n])[..i] == Segments(crc, items)[..i];
  }

  lemma SegmentOfItem(crc: Crc, es: seq<Entry>, i: nat)
    requires i < |es| && ShortName(es[i]) && |es[i].data| < LIMIT64
    ensures Fits(Items(es)[i]) && SegmentOf(crc, es[i]) == Segment(crc, Items(es)[i])
  {
    hide Local, Descriptor;
  }

  /** Segments whose total length fits in 64 bits carry true sizes and offsets. */
  lemma {:induction false} SegsAreBody(crc: Crc, es: seq<Entry>)
    requires ShortNames(es) && |Segs(crc, es)| < LIMIT64
    ensures |es| <= |Segs(crc, es)| && Small(crc, Items(es)) && Body(crc, Items(es)) == Segs(crc, es)
    decreases |es|
  {
    hide Segment, SegmentOf;
    if es != [] {
      var n := |es| - 1;
      SegmentOfLength(crc, es[n]);
      SegsAreBody(crc, es[..n]);
      SegsAreBodyNext(crc, es);
    }
  }

  lemma SegsAreBodyNext(crc: Crc, es: seq<Entry>)
    requires es != [] && ShortNames(es) && |Segs(crc, es)| < LIMIT64 && |es[|es| - 1].data| < LIMIT64
    requires var before := es[..|es| - 1]; Small(crc, Items(before)) && Body(crc, Items(before)) == Segs(crc, before)
    ensures Small(crc, Items(es)) && Body(crc, Items(es)) == Segs(crc, es)
  {
    hide Segment, SegmentOf;
    var n, items := |es| - 1, Items(es);
    assert items[..n] == Items(es[..n]);
    SegmentOfItem(crc, es, n);
    assert forall i :: 0 <= i < n ==> items[i] == items[..n][i];
    OffsetPrefix(crc, items, n, n);
    assert Segments(crc, items)[..n + 1] == Segments(crc, items);
    forall i | 0 <= i <= |items| ensures Offset(crc, items, i) < LIMIT64 {
      if i <= n {
        OffsetPrefix(crc, items, n, i);
      }
    }
  }

  lemma SegsShorter(crc: Crc, es: seq<Entry>)
    requires es != [] && ShortNames(es)
    ensures |Segs(crc, es[..|es| - 1])| <= |Segs(crc, es)|
  {
    hide SegmentOf;
  }

  lemma {:induction false} HeadsAreDir(crc: Crc, es: seq<Entry>)
    requires ShortNames(es) && Small(crc, Items(es)) && |Segs(crc, es)| < LIMIT64
    ensures Dir(crc, Items(es)) == Heads(crc, es)
    decreases |es|
  {
    hide Segment, SegmentOf, Central, Offset, Body, Segs, Segments;
    if es != [] {
      var n, items := |es| - 1, Items(es);
      assert items[..n] == Items(es[..n]);
      SegsShorter(crc, es);
      SegsAreBody(crc, es[..n]);
      HeadsAreDir(crc, es[..n]);
      HeadersPrefix(crc, items, n);
      assert Offset(crc, items, n) == |Segs(crc, es[..n])|;
    }
  }

  lemma HeadersPrefix(crc: Crc, items: seq<Item>, n: nat)
    requires Small(crc, items) && n < |items|
    ensures Small(crc, items[..n]) && Headers(crc, items)[..n] == Headers(crc, items[..n])
    ensures Offset(crc, items, n) == |Body(crc, items[..n])|
  {
    hide Segment, Central, Concat;
    forall i | 0 <= i <= n ensures AllFit(items[..n]) && Offset(crc, items[..n], i) == Offset(crc, items, i) {
      OffsetPrefix(crc, items, n, i);
    }
    OffsetPrefix(crc, items, n, n);
    assert forall i :: 0 <= i < n ==> Header(crc, items, i) == Header(crc, items[..n], i);
  }

  lemma ManifestIsLast(crc: Crc, es: seq<Entry>, run: ManifestRun)
    requires ShortNames(es)
    ensures var all := es + [Manifest(run)];
            ShortNames(all) && Front(crc, es, run) == Segs(crc, all) && Catalog(crc, es, run, es) == Heads(crc, all)
  {
    hide SegmentOf, Central;
    assert (es + [Manifest(run)])[..|es|] == es;
  }

  /** When the replays agree, what was emitted is the archive of the entries and the manifest. */
  lemma EmittedIsArchive(crc: Crc, es: seq<Entry>, run: ManifestRun)
    requires ShortNames(es) && |Emitted(crc, es, run, es)| < LIMIT64
    ensures var items := Items(es + [Manifest(run)]);
            Streamable(crc, items) && Emitted(crc, es, run, es) == Archive(crc, items)
  {
    hide SegmentOf, Segs, Heads, Front, Catalog, End, Body, Dir, Small;
    var all := es + [Manifest(run)];
    ManifestIsLast(crc, es, run);
    SegsAreBody(crc, all);
    HeadsAreDir(crc, all);
  }

  /** The hash tells apart everything the three replays hashed. */
  predicate CollisionFree(sha: Sha, first: seq<Entry>, second: seq<Entry>, third: seq<Entry>) {
    Distinguishes(sha, Inputs(sha, first) + Inputs(sha, second) + Inputs(sha, third))
  }

  /**
   A run that passes its checks emitted a ZIP64 archive which reads back as exactly the entries of the
   replay, in order, followed by the manifest; and all three replays were the same.
   */
  lemma PlainStreamReads(crc: Crc, sha: Sha, first: Walk, run: ManifestRun, third: Walk)
    requires Accepts(crc, sha, first, run, third)
    requires HexDigests(sha) && CollisionFree(sha, first.entries, run.seen, third.entries)
    requires PlainNames(first.entries) && PlainNames(run.seen) && PlainNames(third.entries)
    requires |Emitted(crc, first.entries, run, third.entries)| < LIMIT64
    ensures first.entries == run.seen == third.entries
    ensures ReadArchive(crc, Emitted(crc, first.entries, run, third.entries)) ==
            Some(Items(first.entries) + [Item(MANIFEST_NAME, run.data)])
  {
    hide Emitted, Stream, Archive, ReadArchive, Contents, HexDigests, Streamable;
    DigestDetects(sha, first.entries, run.seen);
    DigestDetects(sha, first.entries, third.entries);
    EmittedIsArchive(crc, first.entries, run);
    ArchiveReads(crc, Items(first.entries + [Manifest(run)]));
    assert Items(first.entries + [Manifest(run)]) == Items(first.entries) + [Item(MANIFEST_NAME, run.data)];
  }
}
