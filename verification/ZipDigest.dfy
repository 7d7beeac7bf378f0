/**
 The digest that every replay of the store must reproduce. Each entry contributes one line with its
 name, size, content hash and count; equal digests must mean equal replays.
 */
module ZipDigest {
  import opened Bytes

  /** An entry as one pass saw it; `count` is what its writer reported. */
  datatype Entry = Entry(name: seq<byte>, data: seq<byte>, count: int)

  type Sha = seq<byte> -> seq<byte>

  const ZERO: byte := 48
  const NEWLINE: byte := 10

  function Decimal(n: nat): (d: seq<byte>)
    ensures |d| > 0 && forall i :: 0 <= i < |d| ==> 48 <= d[i] <= 57
  {
    if n < 10 then [ZERO + n] else Decimal(n / 10) + [ZERO + n % 10]
  }

  function Signed(n: int): (d: seq<byte>)
    ensures |d| > 0 && 0 !in d && NEWLINE !in d
  {
    if n < 0 then [45] + Decimal(-n) else Decimal(n)
  }

  /** The writer's byte count wraps. */
  function Size(data: seq<byte>): uint64 {
    |data| % 0x1_0000_0000_0000_0000
  }

  /** `entryDigest`, without its final newline. */
  function Text(sha: Sha, e: Entry): seq<byte> {
    e.name + ([0] + (Decimal(Size(e.data)) + ([0] + (sha(e.data) + ([0] + Signed(e.count))))))
  }

  function Line(sha: Sha, e: Entry): seq<byte> {
    Text(sha, e) + [NEWLINE]
  }

  /** Everything a pass feeds to its digest. */
  function Stream(sha: Sha, es: seq<Entry>): seq<byte> {
    if es == [] then [] else Stream(sha, es[..|es| - 1]) + Line(sha, es[|es| - 1])
  }

  // ----- the digest's text can be taken apart again -----

  lemma {:induction false} DecimalInjective(m: nat, n: nat)
    requires Decimal(m) == Decimal(n)
    ensures m == n
    decreases m
  {
    var d := Decimal(m);
    var last := |d| - 1;
    if m >= 10 && n >= 10 {
      assert d[..last] == Decimal(m / 10) == Decimal(n / 10);
      DecimalInjective(m / 10, n / 10);
      assert d[last] == ZERO + m % 10 == ZERO + n % 10;
    }
  }

  lemma SignedInjective(m: int, n: int)
    requires Signed(m) == Signed(n)
    ensures m == n
  {
    assert m < 0 <==> Signed(m)[0] == 45;
    assert n < 0 <==> Signed(n)[0] == 45;
    if m < 0 {
      assert Signed(m)[1..] == Decimal(-m) && Signed(n)[1..] == Decimal(-n);
      DecimalInjective(-m, -n);
    } else {
      DecimalInjective(m, n);
    }
  }

  /** Text splits in one way at its last separator. */
  lemma SplitAtLast(x: seq<byte>, u: seq<byte>, y: seq<byte>, v: seq<byte>, sep: byte)
    requires x + ([sep] + u) == y + ([sep] + v) && sep !in u && sep !in v
    ensures x == y && u == v
  {
    var a, b := x + ([sep] + u), y + ([sep] + v);
    assert a[|x|] == sep && b[|y|] == sep;
    assert forall k :: |x| < k < |a| ==> a[k] == u[k - |x| - 1];
    assert forall k :: |y| < k < |b| ==> b[k] == v[k - |y| - 1];
    assert a[..|x|] == x && b[..|y|] == y;
    assert a[|x| + 1..] == u && b[|y| + 1..] == v;
  }

  ghost predicate HexDigests(sha: Sha) {
    forall b :: |sha(b)| == 64 && 0 !in sha(b) && NEWLINE !in sha(b)
  }

  lemma TextInjective(sha: Sha, e: Entry, f: Entry)
    requires HexDigests(sha) && Text(sha, e) == Text(sha, f)
    ensures e.name == f.name && sha(e.data) == sha(f.data) && e.count == f.count
  {
    hide Text, Decimal, Signed;
    var p, q := Head(e), Head(f);
    TextParts(sha, e);
    TextParts(sha, f);
    SplitAtLast(p + ([0] + sha(e.data)), Signed(e.count), q + ([0] + sha(f.data)), Signed(f.count), 0);
    SignedInjective(e.count, f.count);
    SplitAtLast(p, sha(e.data), q, sha(f.data), 0);
    SplitAtLast(e.name, Decimal(Size(e.data)), f.name, Decimal(Size(f.data)), 0);
  }

  /** The name and the size. */
  function Head(e: Entry): seq<byte> {
    e.name + ([0] + Decimal(Size(e.data)))
  }

  lemma TextParts(sha: Sha, e: Entry)
    ensures Text(sha, e) == (Head(e) + ([0] + sha(e.data))) + ([0] + Signed(e.count))
    ensures 0 !in Decimal(Size(e.data)) && 0 !in Signed(e.count)
  {
    hide Decimal, Signed;
    var size, hash, count := Decimal(Size(e.data)), sha(e.data), Signed(e.count);
    assert e.name + ([0] + (size + ([0] + (hash + ([0] + count))))) ==
           ((e.name + ([0] + size)) + ([0] + hash)) + ([0] + count);
  }

  predicate PlainNames(es: seq<Entry>) {
    forall i :: 0 <= i < |es| ==> NEWLINE !in es[i].name
  }

  lemma TextHasNoNewline(sha: Sha, e: Entry)
    requires HexDigests(sha) && NEWLINE !in e.name
    ensures NEWLINE !in Text(sha, e)
  {
  }

  /** One hash value, one input: what makes the digest a check at all. */
  predicate Distinguishes(sha: Sha, inputs: set<seq<byte>>) {
    forall x, y :: x in inputs && y in inputs && sha(x) == sha(y) ==> x == y
  }

  function Contents(es: seq<Entry>): set<seq<byte>> {
    set e | e in es :: e.data
  }

  lemma StreamParts(sha: Sha, es: seq<Entry>)
    requires es != []
    ensures var n := |es| - 1;
            Stream(sha, es) == (Stream(sha, es[..n]) + Text(sha, es[n])) + [NEWLINE]
  {
    hide Text;
    var before, text := Stream(sha, es[..|es| - 1]), Text(sha, es[|es| - 1]);
    assert before + (text + [NEWLINE]) == (before + text) + [NEWLINE];
  }

  /** A stream ends with a newline, so the last line is what follows the last newline before it. */
  lemma LastLine(sha: Sha, es: seq<Entry>, fs: seq<Entry>)
    requires HexDigests(sha) && PlainNames(es) && PlainNames(fs) && es != [] && fs != []
    requires Stream(sha, es) == Stream(sha, fs)
    ensures Stream(sha, es[..|es| - 1]) == Stream(sha, fs[..|fs| - 1])
    ensures Text(sha, es[|es| - 1]) == Text(sha, fs[|fs| - 1])
  {
    var e, f := es[|es| - 1], fs[|fs| - 1];
    var x, y := Stream(sha, es[..|es| - 1]), Stream(sha, fs[..|fs| - 1]);
    StreamParts(sha, es);
    StreamParts(sha, fs);
    TextHasNoNewline(sha, e);
    TextHasNoNewline(sha, f);
    assert x + Text(sha, e) == Stream(sha, es)[..|Stream(sha, es)| - 1] == y + Text(sha, f);
    EndsWithNewline(sha, es[..|es| - 1]);
    EndsWithNewline(sha, fs[..|fs| - 1]);
    SplitLines(x, Text(sha, e), y, Text(sha, f));
  }

  lemma EndsWithNewline(sha: Sha, es: seq<Entry>)
    ensures var s := Stream(sha, es); s == [] || s[|s| - 1] == NEWLINE
  {
    if es != [] {
      StreamParts(sha, es);
    }
  }

  lemma SplitLines(x: seq<byte>, t: seq<byte>, y: seq<byte>, u: seq<byte>)
    requires x + t == y + u && NEWLINE !in t && NEWLINE !in u
    requires x == [] || x[|x| - 1] == NEWLINE
    requires y == [] || y[|y| - 1] == NEWLINE
    ensures x == y && t == u
  {
    var a, b := x + t, y + u;
    assert forall k :: |x| <= k < |a| ==> a[k] == t[k - |x|];
    assert forall k :: |y| <= k < |b| ==> b[k] == u[k - |y|];
    assert x != [] ==> a[|x| - 1] == NEWLINE;
    assert y != [] ==> b[|y| - 1] == NEWLINE;
    assert a[..|x|] == x && b[..|y|] == y;
    assert a[|x|..] == t && b[|y|..] == u;
  }

  ghost predicate Comparable(sha: Sha, es: seq<Entry>, fs: seq<Entry>) {
    && HexDigests(sha) && PlainNames(es) && PlainNames(fs)
    && Distinguishes(sha, Contents(es) + Contents(fs)) && Stream(sha, es) == Stream(sha, fs)
  }

  lemma ComparableNonEmpty(sha: Sha, es: seq<Entry>, fs: seq<Entry>)
    requires Comparable(sha, es, fs)
    ensures es == [] <==> fs == []
  {
    if es != [] { StreamParts(sha, es); }
    if fs != [] { StreamParts(sha, fs); }
  }

  lemma SameLast(sha: Sha, es: seq<Entry>, fs: seq<Entry>)
    requires Comparable(sha, es, fs) && es != [] && fs != []
    ensures es[|es| - 1] == fs[|fs| - 1] && Comparable(sha, es[..|es| - 1], fs[..|fs| - 1])
  {
    var m, n := |es| - 1, |fs| - 1;
    LastLine(sha, es, fs);
    TextInjective(sha, es[m], fs[n]);
    assert es[m].data in Contents(es) && fs[n].data in Contents(fs);
    assert Contents(es[..m]) <= Contents(es) && Contents(fs[..n]) <= Contents(fs);
  }

  lemma SameParts<T>(s: seq<T>, t: seq<T>)
    requires s != [] && t != [] && s[..|s| - 1] == t[..|t| - 1] && s[|s| - 1] == t[|t| - 1]
    ensures s == t
  {
    assert s == s[..|s| - 1] + [s[|s| - 1]] && t == t[..|t| - 1] + [t[|t| - 1]];
  }

  /** Two replays that feed the digest the same text are the same replay. */
  lemma {:induction false} StreamInjective(sha: Sha, es: seq<Entry>, fs: seq<Entry>)
    requires Comparable(sha, es, fs)
    ensures es == fs
    decreases |es|
  {
    ComparableNonEmpty(sha, es, fs);
    if es != [] {
      SameLast(sha, es, fs);
      StreamInjective(sha, es[..|es| - 1], fs[..|fs| - 1]);
      SameParts(es, fs);
    }
  }

  function Inputs(sha: Sha, es: seq<Entry>): set<seq<byte>> {
    Contents(es) + {Stream(sha, es)}
  }

  /** Without a hash collision among what was hashed, equal digests mean equal replays. */
  lemma DigestDetects(sha: Sha, es: seq<Entry>, fs: seq<Entry>)
    requires HexDigests(sha) && PlainNames(es) && PlainNames(fs)
    requires Distinguishes(sha, Inputs(sha, es) + Inputs(sha, fs))
    requires sha(Stream(sha, es)) == sha(Stream(sha, fs))
    ensures es == fs
  {
    StreamInjective(sha, es, fs);
  }
}
