/** UTF-8 as Go's `unicode/utf8` encodes and decodes it, invalid bytes included. */
module Utf8 {
  import opened Text

  const RUNE_ERROR: Rune := 0xFFFD

  function Encode(r: Rune): (s: seq<Byte>)
    ensures 1 <= |s| <= 4 && (s[0] < 0x80 <==> r < 0x80) && (r < 0x80 ==> s == [r])
  {
    if r < 0x80 then [r]
    else if r < 0x800 then [0xC0 + r / 64, 0x80 + r % 64]
    else if r < 0x10000 then [0xE0 + r / 64 / 64, 0x80 + r / 64 % 64, 0x80 + r % 64]
    else [0xF0 + r / 64 / 64 / 64, 0x80 + r / 64 / 64 % 64, 0x80 + r / 64 % 64, 0x80 + r % 64]
  }

  /** `size` is 1 with `RUNE_ERROR` for an invalid byte. */
  datatype Decoded = Decoded(rune: Rune, size: nat)

  predicate Cont(b: Byte) {
    0x80 <= b <= 0xBF
  }

  /** The least and greatest second byte after the given first byte of three or four. */
  function SecondLow(b: Byte): int {
    if b == 0xE0 then 0xA0 else if b == 0xF0 then 0x90 else 0x80
  }

  function SecondHigh(b: Byte): int {
    if b == 0xED then 0x9F else if b == 0xF4 then 0x8F else 0xBF
  }

  /** Six more bits, from a continuation byte. */
  function Join(high: int, b: Byte): (r: int)
    requires Cont(b)
    ensures r / 64 == high && r % 64 == b - 0x80
  {
    high * 64 + (b - 0x80)
  }

  /** `utf8.DecodeRuneInString` on a string that is not empty. */
  function Decode(s: seq<Byte>): (d: Decoded)
    requires s != []
    ensures 1 <= d.size <= |s| && d.size <= 4
    ensures s[0] < 0x80 ==> d == Decoded(s[0], 1)
  {
    var b := s[0];
    if b < 0x80 then Decoded(b, 1)
    else if 0xC2 <= b <= 0xDF && |s| >= 2 && Cont(s[1]) then Decoded(Join(b - 0xC0, s[1]), 2)
    else if 0xE0 <= b <= 0xEF && |s| >= 3 && SecondLow(b) <= s[1] <= SecondHigh(b) && Cont(s[2]) then
      Decoded(Join(Join(b - 0xE0, s[1]), s[2]), 3)
    else if 0xF0 <= b <= 0xF4 && |s| >= 4 && SecondLow(b) <= s[1] <= SecondHigh(b) && Cont(s[2]) && Cont(s[3]) then
      Decoded(Join(Join(Join(b - 0xF0, s[1]), s[2]), s[3]), 4)
    else Decoded(RUNE_ERROR, 1)
  }

  /** Decoding undoes encoding, whatever follows. */
  lemma DecodeEncode(r: Rune, rest: seq<Byte>)
    ensures Decode(Encode(r) + rest) == Decoded(r, |Encode(r)|)
  {
    var q := r / 64;
    var p := q / 64;
    assert r == q * 64 + r % 64 && q == p * 64 + q % 64 && p == p / 64 * 64 + p % 64;
    var s := Encode(r) + rest;
    assert forall i :: 0 <= i < |Encode(r)| ==> s[i] == Encode(r)[i];
  }

  /** What decodes as more than a byte, or as ASCII, was encoded that way. */
  lemma EncodeDecode(s: seq<Byte>)
    requires s != [] && (s[0] < 0x80 || Decode(s).size > 1)
    ensures Encode(Decode(s).rune) == s[..Decode(s).size]
  {
    assert |Encode(Decode(s).rune)| == Decode(s).size;
  }

  /** Decoding fails, by one byte, exactly where no character begins. */
  lemma DecodeFailsIff(s: seq<Byte>)
    requires s != [] && s[0] >= 0x80
    ensures Decode(s) == Decoded(RUNE_ERROR, 1) <==> forall r: Rune :: !(Encode(r) <= s)
  {
    if Decode(s) == Decoded(RUNE_ERROR, 1) {
      forall r: Rune ensures !(Encode(r) <= s) {
        if Encode(r) <= s {
          assert s == Encode(r) + s[|Encode(r)|..];
          DecodeEncode(r, s[|Encode(r)|..]);
        }
      }
    } else {
      EncodeDecode(s);
      assert Encode(Decode(s).rune) <= s;
    }
  }

  /** What a byte carries besides its mark. */
  function Bits(b: Byte, mark: int): int {
    b as int - mark
  }

  /** The encoding is the shortest that holds the code point (section 3 of RFC 3629). */
  lemma EncodingIs(r: Rune)
    ensures var s := Encode(r);
            && |s| == (if r <= 0x7F then 1 else if r <= 0x7FF then 2 else if r <= 0xFFFF then 3 else 4)
            && (forall i :: 0 < i < |s| ==> 0x80 <= s[i] <= 0xBF)
            && (|s| == 1 ==> s[0] == r)
            && (|s| == 2 ==> r == Bits(s[0], 0xC0) * 64 + Bits(s[1], 0x80))
            && (|s| == 3 ==> r == (Bits(s[0], 0xE0) * 64 + Bits(s[1], 0x80)) * 64 + Bits(s[2], 0x80))
            && (|s| == 4 ==>
                  r == ((Bits(s[0], 0xF0) * 64 + Bits(s[1], 0x80)) * 64 + Bits(s[2], 0x80)) * 64 + Bits(s[3], 0x80))
  {
    var q := r / 64;
    var p := q / 64;
    assert r == q * 64 + r % 64 && q == p * 64 + q % 64 && p == p / 64 * 64 + p % 64;
  }

  function EncodeAll(rs: seq<Rune>): seq<Byte> {
    if rs == [] then [] else Encode(rs[0]) + EncodeAll(rs[1..])
  }

  /** The runes a Go `range` loop over the string yields. */
  function Runes(s: seq<Byte>): seq<Rune> {
    if s == [] then [] else [Decode(s).rune] + Runes(s[Decode(s).size..])
  }

  lemma {:induction false} RunesOfEncoded(rs: seq<Rune>)
    ensures Runes(EncodeAll(rs)) == rs
  {
    if rs != [] {
      DecodeEncode(rs[0], EncodeAll(rs[1..]));
      assert EncodeAll(rs)[|Encode(rs[0])|..] == EncodeAll(rs[1..]);
      RunesOfEncoded(rs[1..]);
    }
  }

  lemma {:induction false} EncodeAllConcat(a: seq<Rune>, b: seq<Rune>)
    ensures EncodeAll(a + b) == EncodeAll(a) + EncodeAll(b)
  {
    if a == [] {
      assert a + b == b;
    } else {
      assert (a + b)[1..] == a[1..] + b;
      EncodeAllConcat(a[1..], b);
    }
  }
}
