/** UTF-8 (section 4 of RFC 3629) with the decoding rule of Go's unicode/utf8 package:
    a byte that does not start a well-formed sequence decodes to U+FFFD and has size 1. */
module Utf8 {
  import opened Seqs

  type Byte = b: int | 0 <= b < 256

  type Bytes = seq<Byte>

  /** Unicode scalar values: code points other than surrogates. */
  type Rune = r: int | 0 <= r < 0xD800 || 0xE000 <= r < 0x110000

  const RUNE_ERROR: Rune := 0xFFFD

  datatype Decoded = Decoded(rune: Rune, size: nat)

  // ----- decoding one rune

  /** The length announced by a leading byte, 0 when the byte cannot lead a sequence. */
  function Width(b: Byte): nat {
    if b < 0x80 then 1
    else if 0xC2 <= b <= 0xDF then 2
    else if 0xE0 <= b <= 0xEF then 3
    else if 0xF0 <= b <= 0xF4 then 4
    else 0
  }

  predicate IsContinuation(b: Byte) {
    0x80 <= b <= 0xBF
  }

  /** The second byte of a sequence; the extra bounds exclude overlong forms, surrogates and
      values above U+10FFFF. */
  predicate IsSecond(lead: Byte, b: Byte) {
    && IsContinuation(b)
    && (lead == 0xE0 ==> 0xA0 <= b)
    && (lead == 0xED ==> b <= 0x9F)
    && (lead == 0xF0 ==> 0x90 <= b)
    && (lead == 0xF4 ==> b <= 0x8F)
  }

  /** `s` starts with a well-formed sequence. */
  predicate StartsRune(s: Bytes) {
    && s != []
    && var n := Width(s[0]);
    && 1 <= n <= |s|
    && (2 <= n ==> IsSecond(s[0], s[1]))
    && (3 <= n ==> IsContinuation(s[2]))
    && (4 <= n ==> IsContinuation(s[3]))
  }

  /** Appends the six payload bits of a continuation byte. */
  function Pack(high: int, b: Byte): int {
    high * 64 + (b - 0x80)
  }

  /** The continuation byte that carries the low six bits. */
  function Low(r: nat): (b: Byte)
    ensures IsContinuation(b) && Pack(r / 64, b) == r
  {
    0x80 + r % 64
  }

  /** utf8.DecodeRuneInString. */
  function Decode(s: Bytes): (d: Decoded)
    ensures d.size <= |s| && d.size <= 4
    ensures s != [] ==> 1 <= d.size
    ensures s != [] && s[0] < 0x80 ==> d == Decoded(s[0], 1)
    ensures s != [] && 0x80 <= s[0] ==> 0x80 <= d.rune
    ensures s != [] && 0x80 <= s[0] ==> forall k :: 0 <= k < d.size ==> 0x80 <= s[k]
  {
    if s == [] then Decoded(RUNE_ERROR, 0)
    else if !StartsRune(s) then Decoded(RUNE_ERROR, 1)
    else if s[0] < 0x80 then Decoded(s[0], 1)
    else if s[0] < 0xE0 then Decoded(Pack(s[0] - 0xC0, s[1]), 2)
    else if s[0] < 0xF0 then Decoded(Pack(Pack(s[0] - 0xE0, s[1]), s[2]), 3)
    else Decoded(Pack(Pack(Pack(s[0] - 0xF0, s[1]), s[2]), s[3]), 4)
  }

  // ----- encoding

  function Lead(base: Byte, bits: nat): Byte
    requires base + bits < 256
  {
    base + bits
  }

  /** strings.Builder.WriteRune. */
  function EncodeRune(r: Rune): (s: Bytes)
    ensures 1 <= |s| <= 4
    ensures r < 0x80 ==> s == [r]
    ensures 0x80 <= r ==> forall k :: 0 <= k < |s| ==> 0x80 <= s[k]
  {
    if r < 0x80 then var b: Byte := r; [b]
    else
      var q, p := r / 64, r / 4096;
      if r < 0x800 then [Lead(0xC0, q), Low(r)]
      else if r < 0x10000 then [Lead(0xE0, p), Low(q), Low(r)]
      else [Lead(0xF0, p / 64), Low(p), Low(q), Low(r)]
  }

  function Encode(rs: seq<Rune>): (s: Bytes)
    ensures rs != [] ==> s != []
  {
    if rs == [] then [] else EncodeRune(rs[0]) + Encode(rs[1..])
  }

  /** utf8.ValidString. */
  predicate ValidString(s: Bytes)
    decreases |s|
  {
    s == [] || (StartsRune(s) && ValidString(s[Decode(s).size..]))
  }

  function Runes(s: Bytes): (rs: seq<Rune>)
    decreases |s|
  {
    if s == [] then [] else [Decode(s).rune] + Runes(s[Decode(s).size..])
  }

  // ----- one rune round trips

  /** Decoding undoes encoding, whatever follows. */
  lemma DecodeEncoded(r: Rune, rest: Bytes)
    ensures StartsRune(EncodeRune(r) + rest)
    ensures Decode(EncodeRune(r) + rest) == Decoded(r, |EncodeRune(r)|)
  {
    var s := EncodeRune(r) + rest;
    forall k | 0 <= k < |EncodeRune(r)|
      ensures s[k] == EncodeRune(r)[k]
    {
    }
    assert r / 4096 == r / 64 / 64;
  }

  /** Encoding undoes decoding of a well-formed sequence. */
  lemma EncodeDecoded(s: Bytes)
    requires StartsRune(s)
    ensures EncodeRune(Decode(s).rune) == s[..Decode(s).size]
  {
    var d := Decode(s);
    if d.size == 4 {
      EncodeDecodedFour(s);
    } else if d.size == 3 {
      EncodeDecodedThree(s);
    } else if d.size == 2 {
      Unpack(s[0] - 0xC0, s[1]);
    }
  }

  lemma EncodeDecodedThree(s: Bytes)
    requires StartsRune(s) && Decode(s).size == 3
    ensures EncodeRune(Decode(s).rune) == s[..3]
  {
    var q := Pack(s[0] - 0xE0, s[1]);
    var r := Pack(q, s[2]);
    Unpack(s[0] - 0xE0, s[1]);
    Unpack(q, s[2]);
    assert r / 4096 == s[0] - 0xE0;
    assert EncodeRune(r) == [s[0], s[1], s[2]];
  }

  lemma EncodeDecodedFour(s: Bytes)
    requires StartsRune(s) && Decode(s).size == 4
    ensures EncodeRune(Decode(s).rune) == s[..4]
  {
    var p := Pack(s[0] - 0xF0, s[1]);
    var q := Pack(p, s[2]);
    var r := Pack(q, s[3]);
    Unpack(s[0] - 0xF0, s[1]);
    Unpack(p, s[2]);
    Unpack(q, s[3]);
    assert r / 4096 == p;
    assert EncodeRune(r) == [s[0], s[1], s[2], s[3]];
  }

  lemma Unpack(high: nat, b: Byte)
    requires IsContinuation(b)
    ensures 0 <= Pack(high, b) && Pack(high, b) / 64 == high && Low(Pack(high, b)) == b
  {
  }

  /** Decoding never looks past an ASCII byte. */
  lemma DecodeIsLocal(u: Bytes, x: Bytes, y: Bytes)
    requires u != [] && u[|u| - 1] < 0x80
    ensures Decode(u + x) == Decode(u + y)
    ensures Decode(u + x).size <= |u|
  {
    var s, t := u + x, u + y;
    assert s[0] == u[0] == t[0];
    forall k | 0 <= k < |u|
      ensures s[k] == t[k] == u[k]
    {
    }
  }

  // ----- whole strings

  lemma EncodeCons(r: Rune, rs: seq<Rune>)
    ensures Encode([r] + rs) == EncodeRune(r) + Encode(rs)
  {
    assert ([r] + rs)[1..] == rs;
  }

  lemma {:induction false} EncodeAppend(a: seq<Rune>, b: seq<Rune>)
    ensures Encode(a + b) == Encode(a) + Encode(b)
  {
    if a == [] {
      assert a + b == b;
    } else {
      var r, rest := a[0], a[1..];
      EncodeAppend(rest, b);
      assert Encode(a + b) == EncodeRune(r) + (Encode(rest) + Encode(b)) by {
        assert a + b == [r] + (rest + b);
        EncodeCons(r, rest + b);
      }
      Assoc(EncodeRune(r), Encode(rest), Encode(b));
    }
  }

  lemma EncodePush(a: seq<Rune>, r: Rune)
    ensures Encode(a + [r]) == Encode(a) + EncodeRune(r)
  {
    EncodeAppend(a, [r]);
    EncodeCons(r, []);
    assert [r] + [] == [r];
  }

  /** Every encoding is valid, and reading it back gives the runes written. */
  lemma {:induction false} RunesOfEncoded(rs: seq<Rune>)
    ensures ValidString(Encode(rs))
    ensures Runes(Encode(rs)) == rs
  {
    if rs != [] {
      var rest := Encode(rs[1..]);
      DecodeEncoded(rs[0], rest);
      assert Encode(rs)[|EncodeRune(rs[0])|..] == rest;
      RunesOfEncoded(rs[1..]);
    }
  }

  /** Every valid string is the encoding of its runes. */
  lemma {:induction false} EncodedRunes(s: Bytes)
    requires ValidString(s)
    ensures Encode(Runes(s)) == s
    decreases |s|
  {
    if s != [] {
      var n := Decode(s).size;
      EncodedRunes(s[n..]);
      assert Encode(Runes(s)) == s[..n] + s[n..] by {
        EncodeDecoded(s);
        EncodeCons(Decode(s).rune, Runes(s[n..]));
      }
    }
  }
}
