/** UTF-8 encoding of text, as Swift produces it for
    `text.lengthOfBytes(using: .utf8)` and for the C string that
    `OutputStream.write(_:maxLength:)` receives. A Dafny `char` is a Unicode
    scalar value, so every character has an encoding. */
module Utf8 {
  import opened Common

  /** True when `b` is a continuation byte, 10xxxxxx. */
  predicate IsContinuation(b: byte) { 0x80 <= b < 0xC0 }

  /** The continuation byte that carries the low six bits of `v`. */
  function Continuation(v: nat): (b: byte)
    ensures IsContinuation(b)
  {
    (0x80 + v % 0x40) as byte
  }

  /** A lead byte: the marker bits `marker` followed by the payload `top`. */
  function Lead(marker: nat, top: nat): (b: byte)
    requires marker in {0xC0, 0xE0, 0xF0} && top < 0x100 - marker
    ensures 0xC0 <= b
  {
    (marker + top) as byte
  }

  /** The one to four bytes that encode `c`. */
  function EncodeChar(c: char): (r: seq<byte>)
    ensures 1 <= |r| <= 4
    ensures |r| == 1 <==> c as int < 0x80
    ensures |r| == 1 ==> r[0] as int == c as int
    ensures |r| > 1 ==> 0xC0 <= r[0] && forall i :: 1 <= i < |r| ==> IsContinuation(r[i])
  {
    var v := c as int;
    assert v < 0x11_0000;
    if v < 0x80 then
      [v as byte]
    else if v < 0x800 then
      [Lead(0xC0, v / 0x40), Continuation(v)]
    else if v < 0x1_0000 then
      [Lead(0xE0, v / 0x1000), Continuation(v / 0x40), Continuation(v)]
    else
      assert v / 0x4_0000 < 0x10;
      [Lead(0xF0, v / 0x4_0000), Continuation(v / 0x1000), Continuation(v / 0x40), Continuation(v)]
  }

  /** The UTF-8 bytes of `s`, character by character. */
  function Encode(s: string): (r: seq<byte>)
    ensures |s| <= |r| <= 4 * |s|
    ensures s == [] <==> r == []
  {
    if s == [] then [] else EncodeChar(s[0]) + Encode(s[1..])
  }

  /** Encoding is a homomorphism: text that is joined encodes to the joined bytes. */
  lemma {:induction false} EncodeConcat(a: string, b: string)
    ensures Encode(a + b) == Encode(a) + Encode(b)
  {
    if a == [] {
      assert a + b == b;
    } else {
      assert (a + b)[0] == a[0];
      assert (a + b)[1..] == a[1..] + b;
      EncodeConcat(a[1..], b);
    }
  }

  /** True when every character of `s` is ASCII. */
  predicate IsAscii(s: string) { forall i :: 0 <= i < |s| ==> s[i] as int < 0x80 }

  /** The bytes of ASCII text, one per character. */
  function AsciiBytes(s: string): (r: seq<byte>)
    requires IsAscii(s)
    ensures |r| == |s|
    ensures forall i :: 0 <= i < |s| ==> r[i] as int == s[i] as int
  {
    seq(|s|, i requires 0 <= i < |s| => s[i] as int as byte)
  }

  /** On ASCII text UTF-8 is one byte per character, the character's code. */
  lemma {:induction false} EncodeAscii(s: string)
    requires IsAscii(s)
    ensures Encode(s) == AsciiBytes(s)
  {
    if s != [] {
      assert IsAscii(s[1..]) by {
        forall i | 0 <= i < |s[1..]| ensures s[1..][i] as int < 0x80 {
          assert s[1..][i] == s[i + 1];
        }
      }
      EncodeAscii(s[1..]);
      assert AsciiBytes(s) == EncodeChar(s[0]) + AsciiBytes(s[1..]);
    }
  }

  /** ASCII text that is joined has the joined bytes. */
  lemma AsciiBytesConcat(a: string, b: string)
    requires IsAscii(a) && IsAscii(b)
    ensures IsAscii(a + b) && AsciiBytes(a + b) == AsciiBytes(a) + AsciiBytes(b)
  {
    assert IsAscii(a + b) by {
      forall i | 0 <= i < |a + b| ensures (a + b)[i] as int < 0x80 {
        if i >= |a| {
          assert (a + b)[i] == b[i - |a|];
        }
      }
    }
    assert AsciiBytes(a + b) == AsciiBytes(a) + AsciiBytes(b);
  }
}
