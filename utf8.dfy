/**
 * UTF-8, as used by `str.encode("utf-8")` and `bytes.decode("utf-8")` in the
 * envelope codec. Decoding is strict: it accepts exactly the well-formed byte
 * sequences of the Unicode standard (table 3-7 of chapter 3): no overlong
 * forms, no encoded surrogates, nothing above U+10FFFF.
 */
module Utf8 {
  import opened Wrappers

  newtype Byte = x: int | 0 <= x < 0x100

  predicate IsContinuation(b: Byte) { 0x80 <= b <= 0xBF }

  /** The one to four bytes that encode `c`. */
  function EncodeChar(c: char): (bs: seq<Byte>)
    ensures 1 <= |bs| <= 4
    ensures (bs[0] < 0x80) == ((c as int) < 0x80)
  {
    var n := c as int;
    var q1, r0 := n / 0x40, n % 0x40;
    var q2, r1 := q1 / 0x40, q1 % 0x40;
    var q3, r2 := q2 / 0x40, q2 % 0x40;
    if n < 0x80 then [n as Byte]
    else if n < 0x800 then [(0xC0 + q1) as Byte, (0x80 + r0) as Byte]
    else if n < 0x10000 then [(0xE0 + q2) as Byte, (0x80 + r1) as Byte, (0x80 + r0) as Byte]
    else [(0xF0 + q3) as Byte, (0x80 + r2) as Byte, (0x80 + r1) as Byte, (0x80 + r0) as Byte]
  }

  /** `s.encode("utf-8")` */
  function Encode(s: string): (bs: seq<Byte>)
    ensures |s| <= |bs| <= 4 * |s|
  {
    if s == [] then [] else EncodeChar(s[0]) + Encode(s[1..])
  }

  /**
   * The code point of the well-formed sequence at the head of `bs`, with the
   * number of bytes it takes; None when the head is not well formed.
   */
  function DecodeChar(bs: seq<Byte>): (r: Option<(char, nat)>)
    requires |bs| > 0
    ensures r.Some? ==> 1 <= r.value.1 <= 4 && r.value.1 <= |bs|
  {
    var b0 := bs[0] as int;
    if b0 < 0x80 then Some((b0 as char, 1))
    else if 0xC2 <= b0 <= 0xDF then
      if |bs| < 2 || !IsContinuation(bs[1]) then None
      else Some((((b0 - 0xC0) * 0x40 + (bs[1] as int - 0x80)) as char, 2))
    else if 0xE0 <= b0 <= 0xEF then
      var lo := if b0 == 0xE0 then 0xA0 else 0x80;
      var hi := if b0 == 0xED then 0x9F else 0xBF;
      if |bs| < 3 || !(lo <= bs[1] as int <= hi) || !IsContinuation(bs[2]) then None
      else Some((((b0 - 0xE0) * 0x1000 + (bs[1] as int - 0x80) * 0x40 + (bs[2] as int - 0x80)) as char, 3))
    else if 0xF0 <= b0 <= 0xF4 then
      var lo := if b0 == 0xF0 then 0x90 else 0x80;
      var hi := if b0 == 0xF4 then 0x8F else 0xBF;
      if |bs| < 4 || !(lo <= bs[1] as int <= hi) || !IsContinuation(bs[2]) || !IsContinuation(bs[3]) then None
      else Some((((b0 - 0xF0) * 0x40000 + (bs[1] as int - 0x80) * 0x1000
                  + (bs[2] as int - 0x80) * 0x40 + (bs[3] as int - 0x80)) as char, 4))
    else None
  }

  /** `bs.decode("utf-8")`: None stands for UnicodeDecodeError. */
  function Decode(bs: seq<Byte>): (r: Option<string>)
    ensures r.Some? ==> |r.value| <= |bs|
    decreases |bs|
  {
    if bs == [] then Some([])
    else match DecodeChar(bs)
      case None => None
      case Some((c, k)) =>
        match Decode(bs[k..])
        case None => None
        case Some(s) => Some([c] + s)
  }

  /** Decoding reads back the character that was encoded, and exactly its bytes. */
  lemma DecodeEncodeChar(c: char, rest: seq<Byte>)
    ensures DecodeChar(EncodeChar(c) + rest) == Some((c, |EncodeChar(c)|))
  {
    var n := c as int;
    var q1, r0 := n / 0x40, n % 0x40;
    var q2, r1 := q1 / 0x40, q1 % 0x40;
    var q3, r2 := q2 / 0x40, q2 % 0x40;
    assert n == q1 * 0x40 + r0;
    assert q1 == q2 * 0x40 + r1;
    assert q2 == q3 * 0x40 + r2;
  }

  /** Round trip: `s.encode("utf-8").decode("utf-8") == s` for every string. */
  lemma {:induction false} DecodeEncode(s: string)
    ensures Decode(Encode(s)) == Some(s)
  {
    if s != [] {
      var head := EncodeChar(s[0]);
      var tail := Encode(s[1..]);
      assert Encode(s) == head + tail;
      DecodeEncodeChar(s[0], tail);
      assert (head + tail)[|head|..] == tail;
      DecodeEncode(s[1..]);
      assert [s[0]] + s[1..] == s;
    }
  }

  lemma TwoBytes(b0: int, b1: int)
    requires 0xC2 <= b0 <= 0xDF && 0x80 <= b1 <= 0xBF
    ensures EncodeChar(((b0 - 0xC0) * 0x40 + (b1 - 0x80)) as char) == [b0 as Byte, b1 as Byte]
  {
    SplitDigit(b0 - 0xC0, b1 - 0x80);
  }

  lemma ThreeBytes(b0: int, b1: int, b2: int)
    requires 0xE0 <= b0 <= 0xEF && 0x80 <= b2 <= 0xBF
    requires (if b0 == 0xE0 then 0xA0 else 0x80) <= b1 <= (if b0 == 0xED then 0x9F else 0xBF)
    ensures EncodeChar(((b0 - 0xE0) * 0x1000 + (b1 - 0x80) * 0x40 + (b2 - 0x80)) as char) == [b0 as Byte, b1 as Byte, b2 as Byte]
  {
    var hi := (b0 - 0xE0) * 0x40 + (b1 - 0x80);
    assert (b0 - 0xE0) * 0x1000 + (b1 - 0x80) * 0x40 + (b2 - 0x80) == hi * 0x40 + (b2 - 0x80);
    SplitDigit(hi, b2 - 0x80);
    SplitDigit(b0 - 0xE0, b1 - 0x80);
  }

  lemma FourBytes(b0: int, b1: int, b2: int, b3: int)
    requires 0xF0 <= b0 <= 0xF4 && 0x80 <= b2 <= 0xBF && 0x80 <= b3 <= 0xBF
    requires (if b0 == 0xF0 then 0x90 else 0x80) <= b1 <= (if b0 == 0xF4 then 0x8F else 0xBF)
    ensures EncodeChar(((b0 - 0xF0) * 0x40000 + (b1 - 0x80) * 0x1000 + (b2 - 0x80) * 0x40 + (b3 - 0x80)) as char)
            == [b0 as Byte, b1 as Byte, b2 as Byte, b3 as Byte]
  {
    var top := (b0 - 0xF0) * 0x40 + (b1 - 0x80);
    var hi := top * 0x40 + (b2 - 0x80);
    assert (b0 - 0xF0) * 0x40000 + (b1 - 0x80) * 0x1000 + (b2 - 0x80) * 0x40 + (b3 - 0x80) == hi * 0x40 + (b3 - 0x80);
    SplitDigit(hi, b3 - 0x80);
    SplitDigit(top, b2 - 0x80);
    SplitDigit(b0 - 0xF0, b1 - 0x80);
  }

  /** Decoding is strict: whatever decodes is the encoding of what it decodes to. */
  lemma EncodeDecodeChar(bs: seq<Byte>)
    requires |bs| > 0 && DecodeChar(bs).Some?
    ensures EncodeChar(DecodeChar(bs).value.0) == bs[..DecodeChar(bs).value.1]
  {
    var k := DecodeChar(bs).value.1;
    if k == 2 {
      TwoBytes(bs[0] as int, bs[1] as int);
      assert bs[..2] == [bs[0], bs[1]];
    } else if k == 3 {
      ThreeBytes(bs[0] as int, bs[1] as int, bs[2] as int);
      assert bs[..3] == [bs[0], bs[1], bs[2]];
    } else if k == 4 {
      FourBytes(bs[0] as int, bs[1] as int, bs[2] as int, bs[3] as int);
      assert bs[..4] == [bs[0], bs[1], bs[2], bs[3]];
    }
  }

  /** Dividing by 64 takes off the last base-64 digit. */
  lemma SplitDigit(a: int, b: int)
    requires 0 <= a && 0 <= b < 0x40
    ensures (a * 0x40 + b) / 0x40 == a && (a * 0x40 + b) % 0x40 == b
  {
  }

  lemma {:induction false} EncodeDecode(bs: seq<Byte>)
    requires Decode(bs).Some?
    ensures Encode(Decode(bs).value) == bs
    decreases |bs|
  {
    if bs != [] {
      var (c, k) := DecodeChar(bs).value;
      var s := Decode(bs[k..]).value;
      assert Decode(bs).value == [c] + s;
      EncodeDecodeChar(bs);
      EncodeDecode(bs[k..]);
      EncodeCons(bs, c, k, s);
    }
  }

  /** A character's bytes followed by the rest's bytes are the bytes of the whole. */
  lemma EncodeCons(bs: seq<Byte>, c: char, k: nat, s: string)
    requires k <= |bs| && EncodeChar(c) == bs[..k] && Encode(s) == bs[k..]
    ensures Encode([c] + s) == bs
  {
    assert ([c] + s)[0] == c && ([c] + s)[1..] == s;
    assert bs == bs[..k] + bs[k..];
  }

  /** Strict decoding rejects exactly the byte strings that encode no string. */
  lemma DecodeRejects(bs: seq<Byte>)
    ensures Decode(bs).None? <==> forall s :: Encode(s) != bs
  {
    if Decode(bs).Some? {
      EncodeDecode(bs);
    } else {
      forall s ensures Encode(s) != bs {
        DecodeEncode(s);
      }
    }
  }
}
