/** The bytes of a text in UTF-8 (section 3 of RFC 3629), their number, and what decodes to it. */
module Utf8 {
  import opened Text
  import opened Outcomes
  import opened Sums
  import opened CanonicalJsonl

  function CharBytes(c: CodePoint): (b: seq<Byte>) {
    if c < 0x80 then [c]
    else if c < 0x800 then [0xC0 + c / 0x40, 0x80 + c % 0x40]
    else if c < 0x1_0000 then [0xE0 + c / 0x1000, 0x80 + c / 0x40 % 0x40, 0x80 + c % 0x40]
    else [0xF0 + c / 0x4_0000, 0x80 + c / 0x1000 % 0x40, 0x80 + c / 0x40 % 0x40, 0x80 + c % 0x40]
  }

  function TextBytes(text: Str): seq<Byte> {
    if text == [] then [] else CharBytes(text[0]) + TextBytes(text[1..])
  }

  predicate SurrogateFree(text: Str) {
    forall c :: c in text ==> !(0xD800 <= c <= 0xDFFF)
  }

  lemma {:induction false} SizeIsByteCount(text: Str)
    ensures |TextBytes(text)| == Utf8Size(text)
  {
    if text != [] {
      SizeIsByteCount(text[1..]);
    }
  }

  /** Bytes decode to a text exactly when they are its bytes and it holds no surrogate. */
  lemma DecodesExactly(b: seq<Byte>, text: Str)
    ensures DecodeUtf8(b) == Some(text) <==> SurrogateFree(text) && b == TextBytes(text)
  {
    if DecodeUtf8(b) == Some(text) {
      DecodedIsEncoded(b);
    }
    if SurrogateFree(text) {
      EncodedDecodes(text);
    }
  }

  lemma FirstChar(c: CodePoint, rest: seq<Byte>)
    requires !(0xD800 <= c <= 0xDFFF)
    ensures DecodeUtf8(CharBytes(c) + rest) == Prepend(c, DecodeUtf8(rest))
  {
    var b := CharBytes(c) + rest;
    Split(CharBytes(c), rest);
    assert c / 0x40 / 0x40 == c / 0x1000 && c / 0x1000 / 0x40 == c / 0x4_0000;
  }

  lemma {:induction false} EncodedDecodes(text: Str)
    requires SurrogateFree(text)
    ensures DecodeUtf8(TextBytes(text)) == Some(text)
  {
    hide DecodeUtf8, CharBytes;
    if text == [] {
      AsciiDecodesToItself([]);
    } else {
      assert text[0] in text && forall c :: c in text[1..] ==> c in text;
      EncodedDecodes(text[1..]);
      FirstChar(text[0], TextBytes(text[1..]));
      assert [text[0]] + text[1..] == text;
    }
  }

  lemma TwoBytes(c: CodePoint, x: Byte, y: Byte)
    requires 0xC2 <= x <= 0xDF && 0x80 <= y <= 0xBF
    requires c == (x - 0xC0) as int * 0x40 + (y - 0x80)
    ensures CharBytes(c) == [x, y]
  {
  }

  lemma ThreeBytes(c: CodePoint, x: Byte, y: Byte, z: Byte)
    requires 0xE0 <= x <= 0xEF && 0x80 <= y <= 0xBF && 0x80 <= z <= 0xBF
    requires c >= 0x800 && c == (x - 0xE0) as int * 0x1000 + (y - 0x80) as int * 0x40 + (z - 0x80)
    ensures CharBytes(c) == [x, y, z]
  {
    assert c / 0x40 == (x - 0xE0) as int * 0x40 + (y - 0x80);
    assert c / 0x40 / 0x40 == c / 0x1000;
  }

  lemma FourBytes(c: CodePoint, x: Byte, y: Byte, z: Byte, w: Byte)
    requires 0xF0 <= x <= 0xF4 && 0x80 <= y <= 0xBF && 0x80 <= z <= 0xBF && 0x80 <= w <= 0xBF
    requires c >= 0x1_0000
    requires c == (x - 0xF0) as int * 0x4_0000 + (y - 0x80) as int * 0x1000 + (z - 0x80) as int * 0x40 + (w - 0x80)
    ensures CharBytes(c) == [x, y, z, w]
  {
    assert c / 0x40 == (x - 0xF0) as int * 0x1000 + (y - 0x80) as int * 0x40 + (z - 0x80);
    assert c / 0x40 / 0x40 == c / 0x1000 == (x - 0xF0) as int * 0x40 + (y - 0x80);
    assert c / 0x1000 / 0x40 == c / 0x4_0000;
  }

  /** The first character of what decodes, and the bytes behind it. */
  lemma FirstBytes(b: seq<Byte>) returns (c: CodePoint, n: nat)
    requires b != [] && DecodeUtf8(b).Some?
    ensures 0 < n <= |b| && !(0xD800 <= c <= 0xDFFF) && b[..n] == CharBytes(c)
    ensures DecodeUtf8(b) == Prepend(c, DecodeUtf8(b[n..]))
  {
    hide CharBytes;
    if b[0] < 0x80 {
      c, n := b[0], 1;
      OneByte(c);
    } else if b[0] <= 0xDF {
      c, n := Bits(b[0], 0xC0) * 0x40 + Bits(b[1], 0x80), 2;
      TwoBytes(c, b[0], b[1]);
    } else if b[0] <= 0xEF {
      c, n := Bits(b[0], 0xE0) * 0x1000 + Bits(b[1], 0x80) * 0x40 + Bits(b[2], 0x80), 3;
      ThreeBytes(c, b[0], b[1], b[2]);
    } else {
      c := Bits(b[0], 0xF0) * 0x4_0000 + Bits(b[1], 0x80) * 0x1000 + Bits(b[2], 0x80) * 0x40 + Bits(b[3], 0x80);
      n := 4;
      FourBytes(c, b[0], b[1], b[2], b[3]);
    }
  }

  lemma OneByte(c: CodePoint)
    requires c < 0x80
    ensures CharBytes(c) == [c]
  {
  }

  lemma {:induction false} DecodedIsEncoded(b: seq<Byte>)
    requires DecodeUtf8(b).Some?
    ensures SurrogateFree(DecodeUtf8(b).value) && b == TextBytes(DecodeUtf8(b).value)
    decreases |b|
  {
    hide DecodeUtf8, CharBytes;
    if b == [] {
      AsciiDecodesToItself([]);
    } else {
      var c, n := FirstBytes(b);
      DecodedIsEncoded(b[n..]);
      var rest := DecodeUtf8(b[n..]).value;
      assert ([c] + rest)[1..] == rest;
      assert b == b[..n] + b[n..];
    }
  }
}
