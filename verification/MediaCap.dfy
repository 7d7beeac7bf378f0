/** The byte-capped file of an automatic download, and the cap on its encrypted form. */
module MediaCap {
  import opened Wrappers
  import opened Bytes

  const MAX_INT64: nat := 0x7fff_ffff_ffff_ffff

  // ----- the encrypted length -----

  /** AES-CBC with the padding of section 6.3 of RFC 5652, then ten MAC bytes. */
  function WireLength(plain: nat): nat {
    plain + (16 - plain % 16) + 10
  }

  /** The cap on written bytes for a plaintext limit. */
  function WireCap(limit: nat): nat {
    if limit <= MAX_INT64 - 26 then (limit / 16 + 1) * 16 + 10 else MAX_INT64
  }

  function PlainCap(limit: nat): nat {
    if limit <= MAX_INT64 then limit else MAX_INT64
  }

  /** The cap fits its type and admits a ciphertext exactly when its plaintext ends in a block the limit reaches. */
  lemma WireCapIsExact(limit: nat, plain: nat)
    ensures WireCap(limit) <= MAX_INT64
    ensures limit <= MAX_INT64 - 26 ==> (WireLength(plain) <= WireCap(limit) <==> plain / 16 <= limit / 16)
    ensures plain <= limit && WireLength(plain) <= MAX_INT64 ==> WireLength(plain) <= WireCap(limit)
    ensures limit <= MAX_INT64 - 26 && WireLength(plain) <= WireCap(limit) ==> plain < limit + 16
  {
    assert WireLength(plain) == (plain / 16 + 1) * 16 + 10;
    if plain <= limit {
      assert plain / 16 <= limit / 16;
    }
  }

  // ----- the file -----

  datatype Op =
    | Write(p: seq<byte>, accepted: nat)
    | WriteAt(p: seq<byte>, off: int, accepted: nat)
    | Truncate(size: int)
    | SeekTo(off: int)

  datatype Disk = Disk(data: seq<byte>, pos: nat)

  function Min(a: nat, b: nat): nat {
    if a < b then a else b
  }

  function Zeros(n: nat): (z: seq<byte>)
    ensures |z| == n
  {
    seq(n, _ => 0)
  }

  /** Bytes put at an offset; a gap reads as zeros, and no bytes change nothing. */
  function Overlay(data: seq<byte>, off: nat, p: seq<byte>): (r: seq<byte>)
    ensures |r| <= |data| || |r| == off + |p|
    ensures forall i :: 0 <= i < |p| ==> off + i < |r| && r[off + i] == p[i]
    ensures forall i :: 0 <= i < |data| && !(off <= i < off + |p|) ==> i < |r| && r[i] == data[i]
  {
    if p == [] then data
    else
      var padded := if |data| < off then data + Zeros(off - |data|) else data;
      padded[..off] + p + if off + |p| <= |padded| then padded[off + |p|..] else []
  }

  /** What the operating system does with an operation; negative offsets and sizes are errors. */
  function Apply(d: Disk, op: Op): Disk {
    match op
    case Write(p, accepted) =>
      var n := Min(accepted, |p|);
      Disk(Overlay(d.data, d.pos, p[..n]), d.pos + n)
    case WriteAt(p, off, accepted) =>
      if off < 0 then d else d.(data := Overlay(d.data, off, p[..Min(accepted, |p|)]))
    case Truncate(size) =>
      if size < 0 then d
      else d.(data := if size <= |d.data| then d.data[..size] else d.data + Zeros(size - |d.data|))
    case SeekTo(off) =>
      if off < 0 then d else d.(pos := off)
  }

  /** An operation that asks for bytes beyond the cap. */
  predicate Reaches(d: Disk, op: Op, cap: nat) {
    match op
    case Write(p, _) => d.pos + |p| > cap
    case WriteAt(p, off, _) => off >= 0 && off + |p| > cap
    case Truncate(size) => size > cap
    case SeekTo(_) => false
  }

  function ApplyAll(ops: seq<Op>): Disk {
    if ops == [] then Disk([], 0) else Apply(ApplyAll(ops[..|ops| - 1]), ops[|ops| - 1])
  }

  predicate Within(ops: seq<Op>, cap: nat) {
    forall i :: 0 <= i < |ops| ==> !Reaches(ApplyAll(ops[..i]), ops[i], cap)
  }

  class CappedMediaFile {
    var data: seq<byte>
    var pos: nat
    const limit: nat
    var exceeded: bool

    ghost predicate Valid()
      reads this
    {
      |data| <= limit
    }

    constructor (limit: nat)
      ensures Valid() && this.limit == limit && data == [] && pos == 0 && !exceeded
    {
      this.limit := limit;
      data, pos, exceeded := [], 0, false;
    }

    method Check(off: int, count: int) returns (ok: bool)
      requires count >= 0 || off == 0
      modifies `exceeded
      ensures ok <==> !(off >= 0 && off + count > limit)
      ensures exceeded == (old(exceeded) || !ok)
    {
      ok := !(off >= 0 && (off > limit || count > limit - off));
      if !ok {
        exceeded := true;
      }
    }

    /** Every operation the downloader has; a refused one changes nothing but `exceeded`. */
    method Perform(op: Op)
      requires Valid()
      modifies this
      ensures Valid()
      ensures exceeded == (old(exceeded) || Reaches(old(Disk(data, pos)), op, limit))
      ensures Disk(data, pos) ==
              if Reaches(old(Disk(data, pos)), op, limit) then old(Disk(data, pos)) else Apply(old(Disk(data, pos)), op)
    {
      match op
      case Write(p, accepted) =>
        var ok := Check(pos, |p|);
        if ok {
          var n := Min(accepted, |p|);
          data, pos := Overlay(data, pos, p[..n]), pos + n;
        }
      case WriteAt(p, off, accepted) =>
        var ok := Check(off, |p|);
        if ok && off >= 0 {
          data := Overlay(data, off, p[..Min(accepted, |p|)]);
        }
      case Truncate(size) =>
        var ok := Check(0, size);
        if ok && size >= 0 {
          data := if size <= |data| then data[..size] else data + Zeros(size - |data|);
        }
      case SeekTo(off) =>
        if off >= 0 {
          pos := off;
        }
    }
  }

  /**
   `writeMediaDownload` with a limit: `ops` is whatever the downloader does to the file, `filled`
   whether it reports success. Nothing above the limit is ever published.
   */
  method WriteDownload(limit: nat, ops: seq<Op>, filled: bool) returns (r: Option<seq<byte>>)
    requires limit > 0
    ensures r.Some? <==> filled && Within(ops, WireCap(limit)) && |ApplyAll(ops).data| <= PlainCap(limit)
    ensures r.Some? ==> r.value == ApplyAll(ops).data && |r.value| <= limit
  {
    var file := new CappedMediaFile(WireCap(limit));
    var i := 0;
    while i < |ops|
      invariant 0 <= i <= |ops| && file.Valid() && file.limit == WireCap(limit)
      invariant file.exceeded <==> !Within(ops[..i], WireCap(limit))
      invariant !file.exceeded ==> Disk(file.data, file.pos) == ApplyAll(ops[..i])
    {
      WithinNext(ops, i, WireCap(limit));
      file.Perform(ops[i]);
      i := i + 1;
    }
    assert ops[..i] == ops;
    if file.exceeded || !filled || |file.data| > PlainCap(limit) {
      return None;
    }
    return Some(file.data);
  }

  lemma WithinNext(ops: seq<Op>, i: nat, cap: nat)
    requires i < |ops|
    ensures Within(ops[..i + 1], cap) <==> Within(ops[..i], cap) && !Reaches(ApplyAll(ops[..i]), ops[i], cap)
    ensures ApplyAll(ops[..i + 1]) == Apply(ApplyAll(ops[..i]), ops[i])
  {
    hide Apply, Reaches, ApplyAll;
    var more, before := ops[..i + 1], ops[..i];
    assert more[..i] == before && more[i] == ops[i];
    assert ApplyAll(more) == Apply(ApplyAll(before), ops[i]) by { ApplyAllNext(more); }
    assert forall k :: 0 <= k < i ==> more[..k] == before[..k] && more[k] == before[k];
  }

  lemma ApplyAllNext(ops: seq<Op>)
    requires ops != []
    ensures ApplyAll(ops) == Apply(ApplyAll(ops[..|ops| - 1]), ops[|ops| - 1])
  {
  }

  /** A download that stays inside the ciphertext of a plaintext within the limit is never refused. */
  lemma HonestDownloadIsAccepted(limit: nat, plain: nat, ops: seq<Op>)
    requires plain <= limit && WireLength(plain) <= MAX_INT64 && Within(ops, WireLength(plain))
    ensures Within(ops, WireCap(limit))
  {
    hide ApplyAll;
    WireCapIsExact(limit, plain);
  }

  /** While nothing has been refused, the file on disk stays within the cap at every moment. */
  lemma {:induction false} DiskStaysWithinCap(ops: seq<Op>, cap: nat)
    requires Within(ops, cap)
    ensures |ApplyAll(ops).data| <= cap
    decreases |ops|
  {
    if ops != [] {
      var n := |ops| - 1;
      assert ops[..n + 1] == ops;
      WithinNext(ops, n, cap);
      DiskStaysWithinCap(ops[..n], cap);
      StepStaysWithinCap(ApplyAll(ops[..n]), ops[n], cap);
    }
  }

  lemma StepStaysWithinCap(d: Disk, op: Op, cap: nat)
    requires |d.data| <= cap && !Reaches(d, op, cap)
    ensures |Apply(d, op).data| <= cap
  {
  }
}
