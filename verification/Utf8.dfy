/**
 UTF-8 (section 3 of RFC 3629) and the streaming decoder: a byte at a time,
 replacing what is malformed and dropping a leading byte order mark.
 */
module Utf8 {
  import opened Octet

  type Scalar = x: int | 0 <= x < 0x11_0000 && !(0xD800 <= x < 0xE000)

  type Text = seq<Scalar>

  const REPLACEMENT: Scalar := 0xFFFD
  const BYTE_ORDER_MARK: Scalar := 0xFEFF

  // ---- encoding ----

  function EncodeScalar(c: Scalar): seq<byte> {
    if c < 0x80 then [c]
    else if c < 0x800 then [0xC0 + c / 64, 0x80 + c % 64]
    else if c < 0x1_0000 then [0xE0 + c / 0x1000, 0x80 + c / 64 % 64, 0x80 + c % 64]
    else [0xF0 + c / 0x4_0000, 0x80 + c / 0x1000 % 64, 0x80 + c / 64 % 64, 0x80 + c % 64]
  }

  function Encode(t: Text): seq<byte> {
    if t == [] then [] else EncodeScalar(t[0]) + Encode(t[1..])
  }

  // ---- decoding ----

  /** `needed` continuation bytes are outstanding, the next one between `lower` and `upper`. */
  datatype RawDecoder = Decoder(needed: nat, point: nat, lower: nat, upper: nat, atStart: bool)

  predicate Coherent(d: RawDecoder) {
    && d.needed <= 3 && 0x80 <= d.lower && d.upper <= 0xBF
    && (d.needed == 0 ==> d.point == 0 && d.lower == 0x80 && d.upper == 0xBF)
    && (d.needed == 1 ==> d.point < 0x4400 && !(0x360 <= d.point < 0x380))
    && (d.needed == 2 ==> d.point < 0x110 && (d.point == 0xD ==> d.upper == 0x9F))
    && (d.needed == 3 ==> d.point <= 4 && (d.point == 0 ==> d.lower == 0x90) && (d.point == 4 ==> d.upper == 0x8F))
  }

  type Decoder = d: RawDecoder | Coherent(d) witness Decoder(0, 0, 0x80, 0xBF, true)

  const NEW_DECODER: Decoder := Decoder(0, 0, 0x80, 0xBF, true)

  datatype Decoded = Decoded(decoder: Decoder, text: Text)

  function Idle(d: Decoder): Decoder {
    Decoder(0, 0, 0x80, 0xBF, d.atStart)
  }

  /** A byte where a character starts. */
  function Lead(d: Decoder, b: byte): Decoded {
    if b < 0x80 then Decoded(Idle(d), [b])
    else if 0xC2 <= b < 0xE0 then Decoded(Decoder(1, b - 0xC0, 0x80, 0xBF, d.atStart), [])
    else if 0xE0 <= b < 0xF0 then
      Decoded(Decoder(2, b - 0xE0, if b == 0xE0 then 0xA0 else 0x80, if b == 0xED then 0x9F else 0xBF, d.atStart), [])
    else if 0xF0 <= b < 0xF5 then
      Decoded(Decoder(3, b - 0xF0, if b == 0xF0 then 0x90 else 0x80, if b == 0xF4 then 0x8F else 0xBF, d.atStart), [])
    else Decoded(Idle(d), [REPLACEMENT])
  }

  /** One byte; a byte that does not continue the character is read again as the start of one. */
  function RawStep(d: Decoder, b: byte): Decoded {
    if d.needed == 0 then Lead(d, b)
    else if b < d.lower || b > d.upper then
      var again := Lead(Idle(d), b);
      Decoded(again.decoder, [REPLACEMENT] + again.text)
    else if d.needed == 1 then Decoded(Idle(d), [64 * d.point + (b - 0x80)])
    else Decoded(Decoder(d.needed - 1, 64 * d.point + (b - 0x80), 0x80, 0xBF, d.atStart), [])
  }

  /** The byte order mark is dropped when it is the very first character. */
  function Step(d: Decoder, b: byte): Decoded {
    var raw := RawStep(d, b);
    if !d.atStart || raw.text == [] then raw
    else Decoded(raw.decoder.(atStart := false), if raw.text[0] == BYTE_ORDER_MARK then raw.text[1..] else raw.text)
  }

  function Decode(d: Decoder, bytes: seq<byte>): Decoded
    decreases |bytes|
  {
    if bytes == [] then Decoded(d, []) else
    var first := Step(d, bytes[0]);
    var rest := Decode(first.decoder, bytes[1..]);
    Decoded(rest.decoder, first.text + rest.text)
  }

  /** Decoding in chunks, wherever they are cut, is decoding the whole. */
  lemma {:induction false} DecodeInChunks(d: Decoder, a: seq<byte>, b: seq<byte>)
    ensures var first := Decode(d, a); var rest := Decode(first.decoder, b);
            Decode(d, a + b) == Decoded(rest.decoder, first.text + rest.text)
    decreases |a|
  {
    hide Step;
    if a == [] {
      assert a + b == b;
    } else {
      assert (a + b)[1..] == a[1..] + b;
      DecodeInChunks(Step(d, a[0]).decoder, a[1..], b);
    }
  }

  // ---- what is encoded decodes to itself ----

  /** A whole character emitted by a decoder between characters. */
  function Emitted(d: Decoder, c: Scalar): Decoded {
    if d.atStart then Decoded(Idle(d).(atStart := false), if c == BYTE_ORDER_MARK then [] else [c])
    else Decoded(Idle(d), [c])
  }

  lemma DecodeOne(d: Decoder, b: byte)
    ensures Decode(d, [b]) == Step(d, b)
  {
  }

  lemma DecodeMore(d: Decoder, b: byte, rest: seq<byte>)
    requires Step(d, b).text == []
    ensures Decode(d, [b] + rest) == Decode(Step(d, b).decoder, rest)
  {
  }

  lemma DecodeOfTwo(d: Decoder, c: Scalar)
    requires d.needed == 0 && 0x80 <= c < 0x800
    ensures Decode(d, EncodeScalar(c)) == Emitted(d, c)
  {
    var b0: byte, b1: byte := 0xC0 + c / 64, 0x80 + c % 64;
    DecodeMore(d, b0, [b1]);
    DecodeOne(Step(d, b0).decoder, b1);
    assert EncodeScalar(c) == [b0] + [b1];
    assert 64 * (c / 64) + c % 64 == c;
  }

  /** The four groups of six bits. */
  lemma SixBitGroups(c: Scalar)
    ensures c / 0x1000 == c / 64 / 64 && c / 0x4_0000 == c / 64 / 64 / 64
    ensures 64 * (c / 64) + c % 64 == c
    ensures 64 * (c / 64 / 64) + c / 64 % 64 == c / 64
    ensures 64 * (c / 64 / 64 / 64) + c / 64 / 64 % 64 == c / 64 / 64
  {
  }

  lemma FirstOfThree(d: Decoder, c: Scalar)
    requires d.needed == 0 && 0x800 <= c < 0x1_0000
    ensures var b0: byte, b1: byte := 0xE0 + c / 0x1000, 0x80 + c / 64 % 64;
            && Step(d, b0).text == [] && Step(Step(d, b0).decoder, b1).text == []
            && Step(Step(d, b0).decoder, b1).decoder == Decoder(1, c / 64, 0x80, 0xBF, d.atStart)
  {
    SixBitGroups(c);
    var b0: byte, b1: byte := 0xE0 + c / 0x1000, 0x80 + c / 64 % 64;
    var d1 := Step(d, b0).decoder;
    assert d1.needed == 2 && d1.point == c / 0x1000;
    assert d1.lower <= b1 <= d1.upper;
  }

  lemma DecodeOfThree(d: Decoder, c: Scalar)
    requires d.needed == 0 && 0x800 <= c < 0x1_0000
    ensures Decode(d, EncodeScalar(c)) == Emitted(d, c)
  {
    var b0: byte, b1: byte, b2: byte := 0xE0 + c / 0x1000, 0x80 + c / 64 % 64, 0x80 + c % 64;
    assert EncodeScalar(c) == [b0] + ([b1] + [b2]);
    FirstOfThree(d, c);
    var d1 := Step(d, b0).decoder;
    var d2 := Step(d1, b1).decoder;
    SixBitGroups(c);
    assert Step(d2, b2) == Emitted(d, c);
    hide Step, Decode, EncodeScalar;
    DecodeMore(d, b0, [b1] + [b2]);
    DecodeMore(d1, b1, [b2]);
    DecodeOne(d2, b2);
  }

  lemma FirstOfFour(d: Decoder, c: Scalar)
    requires d.needed == 0 && 0x1_0000 <= c
    ensures var b0: byte, b1: byte := 0xF0 + c / 0x4_0000, 0x80 + c / 0x1000 % 64;
            && Step(d, b0).text == [] && Step(Step(d, b0).decoder, b1).text == []
            && Step(Step(d, b0).decoder, b1).decoder == Decoder(2, c / 0x1000, 0x80, 0xBF, d.atStart)
  {
    SixBitGroups(c);
    var b0: byte, b1: byte := 0xF0 + c / 0x4_0000, 0x80 + c / 0x1000 % 64;
    var d1 := Step(d, b0).decoder;
    assert d1.needed == 3 && d1.point == c / 0x4_0000;
    assert d1.lower <= b1 <= d1.upper;
  }

  lemma LastOfFour(d: Decoder, c: Scalar)
    requires 0x1_0000 <= c && d == Decoder(2, c / 0x1000, 0x80, 0xBF, d.atStart)
    ensures var b2: byte, b3: byte := 0x80 + c / 64 % 64, 0x80 + c % 64;
            && Step(d, b2).text == []
            && Step(Step(d, b2).decoder, b3) == Emitted(d, c)
  {
    SixBitGroups(c);
  }

  lemma DecodeOfFour(d: Decoder, c: Scalar)
    requires d.needed == 0 && 0x1_0000 <= c
    ensures Decode(d, EncodeScalar(c)) == Emitted(d, c)
  {
    var b0: byte, b1: byte := 0xF0 + c / 0x4_0000, 0x80 + c / 0x1000 % 64;
    var b2: byte, b3: byte := 0x80 + c / 64 % 64, 0x80 + c % 64;
    assert EncodeScalar(c) == [b0] + ([b1] + ([b2] + [b3]));
    FirstOfFour(d, c);
    hide Step, Decode, EncodeScalar;
    var d1 := Step(d, b0).decoder;
    var d2 := Step(d1, b1).decoder;
    LastOfFour(d2, c);
    DecodeMore(d, b0, [b1] + ([b2] + [b3]));
    DecodeMore(d1, b1, [b2] + [b3]);
    DecodeMore(d2, b2, [b3]);
    DecodeOne(Step(d2, b2).decoder, b3);
  }

  lemma DecodeOfScalar(d: Decoder, c: Scalar)
    requires d.needed == 0
    ensures Decode(d, EncodeScalar(c)) == Emitted(d, c)
  {
    if c < 0x80 { DecodeOne(d, c); }
    else if c < 0x800 { DecodeOfTwo(d, c); }
    else if c < 0x1_0000 { DecodeOfThree(d, c); }
    else { DecodeOfFour(d, c); }
  }

  /** Encoded text decodes to itself but for a leading byte order mark. */
  lemma {:induction false} DecodeOfEncode(d: Decoder, t: Text)
    requires d.needed == 0
    ensures Decode(d, Encode(t)).text == if d.atStart && t != [] && t[0] == BYTE_ORDER_MARK then t[1..] else t
    ensures Decode(d, Encode(t)).decoder.needed == 0
    decreases |t|
  {
    if t != [] {
      hide EncodeScalar, Decode;
      var first := Emitted(d, t[0]);
      DecodeOfScalar(d, t[0]);
      DecodeInChunks(d, EncodeScalar(t[0]), Encode(t[1..]));
      DecodeOfEncode(first.decoder, t[1..]);
    }
  }
}
