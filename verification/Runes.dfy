/** UTF-8, as section 4 of RFC 3629 and Go's decoder define it, over bytes as Go strings are. */
module Runes {
  import opened Bytes

  predicate Cont(b: byte) {
    0x80 <= b <= 0xBF
  }

  /** The second byte a leading byte of a three- or four-byte rune admits. */
  predicate Second(first: byte, b: byte) {
    if first == 0xE0 then 0xA0 <= b <= 0xBF
    else if first == 0xED then 0x80 <= b <= 0x9F
    else if first == 0xF0 then 0x90 <= b <= 0xBF
    else if first == 0xF4 then 0x80 <= b <= 0x8F
    else Cont(b)
  }

  /** The length of the rune a string starts with; zero when its first byte starts none. */
  function RuneLength(s: seq<byte>): (n: nat)
    requires s != []
    ensures n <= 4 && n <= |s|
  {
    if s[0] < 0x80 then 1
    else if 0xC2 <= s[0] <= 0xDF && |s| > 1 && Cont(s[1]) then 2
    else if 0xE0 <= s[0] <= 0xEF && |s| > 2 && Second(s[0], s[1]) && Cont(s[2]) then 3
    else if 0xF0 <= s[0] <= 0xF4 && |s| > 3 && Second(s[0], s[1]) && Cont(s[2]) && Cont(s[3]) then 4
    else 0
  }

  /** The bytes `DecodeRuneInString` consumes: a rune, or one byte of garbage. */
  function UnitLength(s: seq<byte>): (n: nat)
    requires s != []
    ensures 1 <= n <= |s| && n <= 4
  {
    if RuneLength(s) == 0 then 1 else RuneLength(s)
  }

  /** A byte's payload above its UTF-8 marker bits. */
  function Payload(b: byte, marker: nat): nat {
    if b >= marker then b - marker else 0
  }

  function Rune(u: seq<byte>): nat
    requires u != []
  {
    if |u| == 1 then u[0]
    else if |u| == 2 then Payload(u[0], 0xC0) * 64 + Payload(u[1], 0x80)
    else if |u| == 3 then Payload(u[0], 0xE0) * 4096 + Payload(u[1], 0x80) * 64 + Payload(u[2], 0x80)
    else if |u| == 4
      then Payload(u[0], 0xF0) * 262144 + Payload(u[1], 0x80) * 4096 + Payload(u[2], 0x80) * 64 + Payload(u[3], 0x80)
    else 0
  }

  /** A rune at the front is the same rune whatever follows it. */
  lemma RuneStands(u: seq<byte>, rest: seq<byte>)
    requires u != [] && RuneLength(u) == |u|
    ensures RuneLength(u + rest) == |u| && (u + rest)[..|u|] == u && (u + rest)[|u|..] == rest
  {
  }

  /** Cutting a string never turns garbage at its front into a rune. */
  lemma GarbageStays(s: seq<byte>, k: nat)
    requires 0 < k <= |s| && RuneLength(s) == 0
    ensures RuneLength(s[..k]) == 0
  {
  }
}
