/** The reversible one-line encoding of log text, over bytes as Go strings are. */
module Logging {
  import opened Bytes
  import opened Runes

  const BACKSLASH: byte := 92

  // ----- what must not reach a terminal -----

  predicate ReordersText(r: nat) {
    0x202A <= r <= 0x202E || 0x2066 <= r <= 0x2069
  }

  predicate Unsafe(r: nat) {
    r != 9 && (r < 0x20 || 0x7F <= r <= 0x9F || r == 0x2028 || r == 0x2029 || ReordersText(r))
  }

  // ----- escapes -----

  function HexDigit(d: nat): byte
    requires d < 16
  {
    if d < 10 then 48 + d else 87 + d
  }

  function Unhex(c: byte): nat {
    if 48 <= c <= 57 then c - 48 else if 97 <= c <= 102 then c - 87 else 0
  }

  function Hex2(n: nat): seq<byte>
    requires n < 256
  {
    [HexDigit(n / 16), HexDigit(n % 16)]
  }

  function Hex4(n: nat): seq<byte>
    requires n < 65536
  {
    Hex2(n / 256) + Hex2(n % 256)
  }

  /** Go's single-letter escape of a control character, or zero. */
  function Letter(r: nat): byte {
    if r == 7 then 97 else if r == 8 then 98 else if r == 12 then 102 else if r == 10 then 110
    else if r == 13 then 114 else if r == 11 then 118 else 0
  }

  /** What `QuoteRuneToASCII` writes between its quotes for an unsafe rune. */
  function Quoted(r: nat): seq<byte>
    requires r < 65536
  {
    if Letter(r) != 0 then [BACKSLASH, Letter(r)]
    else if r < 0x20 || r == 0x7F then [BACKSLASH, 120] + Hex2(r)
    else [BACKSLASH, 117] + Hex4(r)
  }

  /** One unit of the input in the output. */
  function Escape(u: seq<byte>): seq<byte>
    requires u != []
  {
    if u == [BACKSLASH] then [BACKSLASH, BACKSLASH]
    else if RuneLength(u) != |u| then [BACKSLASH, 120] + Hex2(u[0])
    else if Unsafe(Rune(u)) then Quoted(Rune(u))
    else u
  }

  function OneLine(s: seq<byte>): seq<byte> {
    if s == [] then [] else Escape(s[..UnitLength(s)]) + OneLine(s[UnitLength(s)..])
  }

  // ----- reading it back -----

  function Utf8(r: nat): seq<byte>
    requires r < 65536
  {
    if r < 0x80 then [r]
    else if r < 0x800 then [0xC0 + r / 64, 0x80 + r % 64]
    else [0xE0 + r / 4096, 0x80 + r / 64 % 64, 0x80 + r % 64]
  }

  function FromLetter(c: byte): byte {
    if c == 97 then 7 else if c == 98 then 8 else if c == 102 then 12 else if c == 110 then 10
    else if c == 114 then 13 else if c == 118 then 11 else c
  }

  /** The length of the encoded token a line starts with, as `escapedTextBoundary` steps over it. */
  function TokenLength(t: seq<byte>): (n: nat)
    requires t != []
    ensures n >= 1
  {
    if t[0] == BACKSLASH && |t| > 1 then
      (if t[1] == 120 then 4 else if t[1] == 117 then 6 else if t[1] == 85 then 10 else 2)
    else UnitLength(t)
  }

  function Unescape(t: seq<byte>): seq<byte>
    requires t != []
  {
    if t[0] != BACKSLASH || |t| < 2 then t
    else if t[1] == 120 && |t| == 4 then [(Unhex(t[2]) * 16 + Unhex(t[3])) % 256]
    else if t[1] == 117 && |t| == 6
      then Utf8((Unhex(t[2]) * 4096 + Unhex(t[3]) * 256 + Unhex(t[4]) * 16 + Unhex(t[5])) % 65536)
    else [FromLetter(t[1])]
  }

  /** The original text of an encoded line. */
  function Original(t: seq<byte>): seq<byte> {
    if t == [] then []
    else if TokenLength(t) > |t| then []
    else Unescape(t[..TokenLength(t)]) + Original(t[TokenLength(t)..])
  }

  // ----- one unit -----

  lemma HexRoundTrip(n: nat)
    requires n < 256
    ensures Unhex(Hex2(n)[0]) * 16 + Unhex(Hex2(n)[1]) == n
  {
  }

  lemma Hex4RoundTrip(n: nat)
    requires n < 65536
    ensures var h := Hex4(n); Unhex(h[0]) * 4096 + Unhex(h[1]) * 256 + Unhex(h[2]) * 16 + Unhex(h[3]) == n
  {
    HexRoundTrip(n / 256);
    HexRoundTrip(n % 256);
    hide Unhex, Hex2;
    var h, a, b := Hex4(n), Hex2(n / 256), Hex2(n % 256);
    assert h[0] == a[0] && h[1] == a[1] && h[2] == b[0] && h[3] == b[1];
  }

  lemma Utf8RoundTrip(u: seq<byte>)
    requires u != [] && RuneLength(u) == |u| && Rune(u) < 65536
    ensures Utf8(Rune(u)) == u
  {
    if |u| == 2 {
      TwoBytes(Payload(u[0], 0xC0), Payload(u[1], 0x80));
    } else if |u| == 3 {
      ThreeBytes(Payload(u[0], 0xE0), Payload(u[1], 0x80), Payload(u[2], 0x80));
    }
  }

  lemma TwoBytes(a: nat, b: nat)
    requires 2 <= a < 32 && b < 64
    ensures 0x80 <= a * 64 + b < 0x800 && (a * 64 + b) / 64 == a && (a * 64 + b) % 64 == b
  {
  }

  lemma ThreeBytes(a: nat, b: nat, c: nat)
    requires a < 16 && b < 64 && c < 64 && (a == 0 ==> b >= 32)
    ensures var r := a * 4096 + b * 64 + c; r >= 0x800 && r / 4096 == a && r / 64 % 64 == b && r % 64 == c
  {
    assert a * 4096 + b * 64 + c == 64 * (64 * a + b) + c;
  }

  /** An escape is read back as the unit it stands for, and nothing else. */
  lemma EscapeReadsBack(u: seq<byte>)
    requires u != [] && |u| == UnitLength(u)
    ensures Escape(u) != [] && TokenLength(Escape(u)) == |Escape(u)| && Unescape(Escape(u)) == u
  {
    if u == [BACKSLASH] {
    } else if RuneLength(u) != |u| {
      HexRoundTrip(u[0]);
    } else if Unsafe(Rune(u)) {
      QuotedReadsBack(u);
    }
  }

  lemma QuotedParts(r: nat)
    requires r < 65536
    ensures |Hex4(r)| == 4 && (r < 256 ==> |Hex2(r)| == 2) && (r < 0x80 ==> Utf8(r) == [r])
  {
  }

  lemma QuotedReadsBack(u: seq<byte>)
    requires u != [] && RuneLength(u) == |u| && Unsafe(Rune(u)) && u != [BACKSLASH]
    ensures var t := Quoted(Rune(u)); TokenLength(t) == |t| && Unescape(t) == u
  {
    hide Unhex, Hex2, Hex4, Rune, RuneLength, Utf8;
    var r := Rune(u);
    Utf8RoundTrip(u);
    QuotedParts(r);
    if Letter(r) == 0 {
      if r < 0x20 || r == 0x7F {
        HexRoundTrip(r);
      } else {
        Hex4RoundTrip(r);
      }
    }
  }

  /** A token's length is known from the token alone. */
  lemma TokenStands(u: seq<byte>, rest: seq<byte>)
    requires u != [] && |u| == UnitLength(u)
    ensures TokenLength(Escape(u) + rest) == |Escape(u)|
  {
    EscapeReadsBack(u);
    var e := Escape(u);
    if e[0] != BACKSLASH {
      RuneStands(e, rest);
    }
  }

  // ----- whole texts -----

  /** Nothing is lost: the original text can be read back from its line. */
  lemma {:induction false} OneLineReadsBack(s: seq<byte>)
    ensures Original(OneLine(s)) == s
    decreases |s|
  {
    hide Escape, Unescape, TokenLength, UnitLength;
    if s != [] {
      var u, rest := s[..UnitLength(s)], s[UnitLength(s)..];
      UnitAlone(s);
      EscapeReadsBack(u);
      TokenStands(u, OneLine(rest));
      var t := Escape(u) + OneLine(rest);
      assert t[..|Escape(u)|] == Escape(u) && t[|Escape(u)|..] == OneLine(rest);
      OneLineReadsBack(rest);
      assert s == u + rest;
    }
  }

  /** The front unit of a string is a unit by itself. */
  lemma UnitAlone(s: seq<byte>)
    requires s != []
    ensures UnitLength(s[..UnitLength(s)]) == UnitLength(s)
    ensures RuneLength(s) == 0 ==> RuneLength(s[..1]) == 0
  {
    if RuneLength(s) == 0 {
      GarbageStays(s, 1);
    }
  }

  /** Different texts never share a line. */
  lemma OneLineInjective(s: seq<byte>, t: seq<byte>)
    requires OneLine(s) == OneLine(t)
    ensures s == t
  {
    OneLineReadsBack(s);
    OneLineReadsBack(t);
  }

  // ----- safety -----

  /** Valid UTF-8 without an unsafe rune. */
  predicate SafeText(t: seq<byte>) {
    t == [] || (RuneLength(t) > 0 && !Unsafe(Rune(t[..RuneLength(t)])) && SafeText(t[RuneLength(t)..]))
  }

  lemma SafePrepend(u: seq<byte>, rest: seq<byte>)
    requires u != [] && RuneLength(u) == |u| && !Unsafe(Rune(u)) && SafeText(rest)
    ensures SafeText(u + rest)
  {
    RuneStands(u, rest);
  }

  predicate Printable(e: seq<byte>) {
    forall i :: 0 <= i < |e| ==> 0x20 <= e[i] <= 0x7E
  }

  lemma {:induction false} PrintablePrepend(e: seq<byte>, rest: seq<byte>)
    requires Printable(e) && SafeText(rest)
    ensures SafeText(e + rest)
    decreases |e|
  {
    hide SafeText, RuneLength, Rune, Unsafe;
    if e == [] {
      assert e + rest == rest;
    } else {
      PrintablePrepend(e[1..], rest);
      PrintableIsSafe(e[..1]);
      SafePrepend(e[..1], e[1..] + rest);
      assert e + rest == e[..1] + (e[1..] + rest);
    }
  }

  lemma PrintableIsSafe(u: seq<byte>)
    requires |u| == 1 && 0x20 <= u[0] <= 0x7E
    ensures RuneLength(u) == 1 && !Unsafe(Rune(u))
  {
  }

  lemma EscapeIsSafe(u: seq<byte>)
    requires u != [] && |u| == UnitLength(u)
    ensures Printable(Escape(u)) || (Escape(u) == u && RuneLength(u) == |u| && !Unsafe(Rune(u)))
  {
  }

  /** Whatever the input, its line holds no control character, no line separator and no reordering. */
  lemma {:induction false} OneLineIsSafe(s: seq<byte>)
    ensures SafeText(OneLine(s))
    decreases |s|
  {
    hide Escape, UnitLength, RuneLength;
    if s != [] {
      var u, rest := s[..UnitLength(s)], s[UnitLength(s)..];
      UnitAlone(s);
      EscapeIsSafe(u);
      OneLineIsSafe(rest);
      if Printable(Escape(u)) {
        PrintablePrepend(Escape(u), OneLine(rest));
      } else {
        SafePrepend(u, OneLine(rest));
      }
    }
  }

  /** Text that needs no escape comes back unchanged. */
  lemma {:induction false} PlainIsUnchanged(s: seq<byte>)
    requires SafeText(s) && BACKSLASH !in s
    ensures OneLine(s) == s
    decreases |s|
  {
    if s != [] {
      var u, rest := s[..UnitLength(s)], s[UnitLength(s)..];
      UnitAlone(s);
      assert s == u + rest;
      assert s[0] in s && u[0] == s[0];
      PlainIsUnchanged(rest);
    }
  }

  method EncodeLine(s: seq<byte>) returns (line: seq<byte>)
    ensures line == OneLine(s)
  {
    hide Escape, UnitLength, SafeText, OneLine;
    if SafeText(s) && BACKSLASH !in s {
      PlainIsUnchanged(s);
      return s;
    }
    line := [];
    var i := 0;
    assert s[0..] == s;
    while i < |s|
      invariant 0 <= i <= |s|
      invariant line + OneLine(s[i..]) == OneLine(s)
    {
      var n := UnitLength(s[i..]);
      LineNext(s, i, line);
      line := line + Escape(s[i..i + n]);
      i := i + n;
    }
    LineEnd(s[i..]);
  }

  lemma LineNext(s: seq<byte>, i: nat, line: seq<byte>)
    requires i < |s|
    ensures var n := UnitLength(s[i..]);
            line + OneLine(s[i..]) == (line + Escape(s[i..i + n])) + OneLine(s[i + n..])
  {
    hide Escape, UnitLength;
    var n := UnitLength(s[i..]);
    assert s[i..][..n] == s[i..i + n] && s[i..][n..] == s[i + n..];
  }

  lemma LineEnd(rest: seq<byte>)
    requires rest == []
    ensures OneLine(rest) == []
  {
  }

  // ----- cutting a line -----

  /** `escapedTextBoundary`: the end of the last whole token within the budget. */
  function Boundary(t: seq<byte>, budget: int): (end: nat)
    ensures end <= |t| && (end <= budget || end == 0)
  {
    if t == [] then 0
    else
      var n := TokenLength(t);
      if n > budget || n > |t| then 0 else n + Boundary(t[n..], budget - n)
  }

  method EscapedTextBoundary(text: seq<byte>, budget: int) returns (end: nat)
    ensures end == Boundary(text, budget)
  {
    hide TokenLength;
    end := 0;
    while end < |text|
      invariant end <= |text| && end + Boundary(text[end..], budget - end) == Boundary(text, budget)
    {
      var n := TokenLength(text[end..]);
      if end + n > budget || end + n > |text| {
        return;
      }
      assert text[end..][n..] == text[end + n..];
      end := end + n;
    }
  }

  /** The original bytes whose encoding fits the budget, in whole units. */
  function Fitting(s: seq<byte>, budget: int): (k: nat)
    ensures k <= |s|
  {
    if s == [] then 0
    else
      var n := UnitLength(s);
      if |Escape(s[..n])| > budget then 0 else n + Fitting(s[n..], budget - |Escape(s[..n])|)
  }

  /** A prefix that ends between units is encoded as it was in the whole text. */
  lemma PrefixUnit(s: seq<byte>, k: nat)
    requires s != [] && UnitLength(s) <= k <= |s|
    ensures var n := UnitLength(s); OneLine(s[..k]) == Escape(s[..n]) + OneLine(s[n..][..k - n])
  {
    var n := UnitLength(s);
    assert s[..k][..n] == s[..n] && s[..k][n..] == s[n..][..k - n];
    if RuneLength(s) == 0 {
      GarbageStays(s, k);
    } else {
      RuneStands(s[..n], s[..k][n..]);
      assert s[..k] == s[..n] + s[..k][n..];
    }
  }

  /** Cutting an encoded line at the boundary leaves the encoding of a prefix. */
  lemma {:induction false} CutIsAnEncoding(s: seq<byte>, budget: int)
    ensures OneLine(s)[..Boundary(OneLine(s), budget)] == OneLine(s[..Fitting(s, budget)])
    decreases |s|
  {
    hide Escape, UnitLength, TokenLength;
    if s != [] {
      var n := UnitLength(s);
      var e, t := Escape(s[..n]), OneLine(s[n..]);
      UnitAlone(s);
      EscapeReadsBack(s[..n]);
      TokenStands(s[..n], t);
      assert (e + t)[|e|..] == t;
      if |e| <= budget {
        CutIsAnEncoding(s[n..], budget - |e|);
        PrefixUnit(s, n + Fitting(s[n..], budget - |e|));
        CutBehind(e, t, Boundary(t, budget - |e|));
      }
    }
  }

  lemma CutBehind(e: seq<byte>, t: seq<byte>, k: nat)
    requires k <= |t|
    ensures (e + t)[..|e| + k] == e + t[..k]
  {
  }

  /** A rune of two or more bytes is kept, or becomes a `\u` escape. */
  lemma WideEscape(u: seq<byte>)
    requires |u| > 1 && RuneLength(u) == |u|
    ensures |Escape(u)| > 1 && (Escape(u)[0] != BACKSLASH || Escape(u)[1] == 117)
  {
    hide Hex2, Hex4;
    if |u| == 2 {
      TwoBytes(u[0] - 0xC0, u[1] - 0x80);
    } else if |u| == 3 {
      ThreeBytes(u[0] - 0xE0, u[1] - 0x80, u[2] - 0x80);
    }
  }

  /** A rune cut short becomes a `\x` escape, so its encoding does not begin the whole text's. */
  lemma CutInsideRune(s: seq<byte>, j: nat)
    requires s != [] && 0 < j < UnitLength(s)
    ensures !(OneLine(s[..j]) <= OneLine(s))
  {
    hide Hex2;
    var n := UnitLength(s);
    var cut := s[..j];
    assert RuneLength(cut) == 0;
    RuneAlone(s);
    WideEscape(s[..n]);
    var a, b := OneLine(cut), OneLine(s);
    assert a == Escape(cut[..1]) + OneLine(cut[1..]) && a[0] == BACKSLASH && a[1] == 120;
    assert b == Escape(s[..n]) + OneLine(s[n..]) && b[0] == Escape(s[..n])[0] && b[1] == Escape(s[..n])[1];
    PrefixesAgree(a, b);
  }

  lemma PrefixesAgree(a: seq<byte>, b: seq<byte>)
    requires |a| > 1 && |b| > 1
    ensures a <= b ==> a[0] == b[0] && a[1] == b[1]
  {
  }

  lemma RuneAlone(s: seq<byte>)
    requires s != [] && RuneLength(s) > 0
    ensures RuneLength(s[..RuneLength(s)]) == RuneLength(s)
  {
  }

  /** Of the prefixes whose encoding begins the line and fits the budget, the cut leaves the longest. */
  lemma {:induction false} CutIsLongest(s: seq<byte>, budget: int, j: nat)
    requires j <= |s| && OneLine(s[..j]) <= OneLine(s) && |OneLine(s[..j])| <= budget
    ensures j <= Fitting(s, budget)
    decreases |s|
  {
    hide Escape, UnitLength;
    if j > 0 {
      var n := UnitLength(s);
      if j < n {
        CutInsideRune(s, j);
      } else {
        var e, rest := Escape(s[..n]), s[n..];
        PrefixUnit(s, j);
        assert OneLine(s)[|e|..] == OneLine(rest);
        assert OneLine(s[..j])[|e|..] == OneLine(rest[..j - n]);
        CutIsLongest(rest, budget - |e|, j - n);
      }
    }
  }

  /** Of all prefixes it need not: one byte of a line separator takes four, the separator six. */
  lemma ShorterCutFits()
    ensures var s: seq<byte> := [0xE2, 0x80, 0xA8];
            Fitting(s, 4) == 0 && |OneLine(s[..1])| == 4
  {
    var s: seq<byte> := [0xE2, 0x80, 0xA8];
    assert s[..3] == s && Rune(s) == 0x2028;
    assert |Escape(s)| == 6;
    var cut: seq<byte> := [0xE2];
    assert s[..1] == cut && cut[..1] == cut && cut[1..] == [];
  }

  const MAX_LINE: nat := 8192
  const TRUNCATED: seq<byte> := [32, 91, 116, 114, 117, 110, 99, 97, 116, 101, 100, 93]

  /** `capTextLine`: no record is longer than the cap, its newline included. */
  function CapLine(line: seq<byte>): (r: seq<byte>)
    ensures 0 < |r| <= MAX_LINE && r[|r| - 1] == 10
    ensures |line| < MAX_LINE ==> r == line + [10]
  {
    if |line| + 1 <= MAX_LINE then line + [10]
    else line[..Boundary(line, MAX_LINE - 1 - |TRUNCATED|)] + TRUNCATED + [10]
  }

  /** A capped line still says exactly which prefix of the original it shows. */
  lemma CappedLineIsReadable(s: seq<byte>)
    requires |OneLine(s)| >= MAX_LINE
    ensures var k := Fitting(s, MAX_LINE - 1 - |TRUNCATED|);
            && CapLine(OneLine(s)) == OneLine(s[..k]) + TRUNCATED + [10]
            && Original(CapLine(OneLine(s))[..|OneLine(s[..k])|]) == s[..k]
            && SafeText(OneLine(s[..k]))
  {
    hide OneLine, Original, SafeText, Boundary, Fitting;
    var budget := MAX_LINE - 1 - |TRUNCATED|;
    var k := Fitting(s, budget);
    CutIsAnEncoding(s, budget);
    OneLineReadsBack(s[..k]);
    OneLineIsSafe(s[..k]);
    assert CapLine(OneLine(s))[..|OneLine(s[..k])|] == OneLine(s[..k]);
  }
}
