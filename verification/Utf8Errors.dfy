/**
 What the decoder makes of malformed bytes (section 3 of RFC 3629): a stretch
 that begins a character and breaks off becomes one replacement character, and
 so does each byte that begins none.
 */
module Utf8Errors {
  import opened Octet
  import opened Utf8

  /** The bytes are the beginning of some character's encoding. */
  ghost predicate Begins(s: seq<byte>) {
    exists c: Scalar :: s <= EncodeScalar(c)
  }

  /** They are a beginning and not the whole. */
  ghost predicate Truncated(s: seq<byte>) {
    s != [] && exists c: Scalar :: s < EncodeScalar(c)
  }

  // ---- which bytes begin a character ----

  predicate Leads(b: byte) {
    b < 0x80 || 0xC2 <= b < 0xF5
  }

  function Lowest(lead: byte): byte {
    if lead == 0xE0 then 0xA0 else if lead == 0xF0 then 0x90 else 0x80
  }

  function Highest(lead: byte): byte {
    if lead == 0xED then 0x9F else if lead == 0xF4 then 0x8F else 0xBF
  }

  lemma EncodedBytes(c: Scalar)
    ensures var e := EncodeScalar(c);
            && Leads(e[0]) && (|e| == 1 <==> e[0] < 0x80)
            && (|e| > 1 ==> Lowest(e[0]) <= e[1] <= Highest(e[0]))
            && forall i :: 1 <= i < |e| ==> 0x80 <= e[i] <= 0xBF
  {
  }

  /** A character that begins with these two bytes. */
  function WithTwo(lead: byte, b: byte): Scalar
    requires 0xC2 <= lead < 0xF5 && Lowest(lead) <= b <= Highest(lead)
  {
    if lead < 0xE0 then 64 * (lead - 0xC0) + (b - 0x80)
    else if lead < 0xF0 then 0x1000 * (lead - 0xE0) + 64 * (b - 0x80)
    else 0x4_0000 * (lead - 0xF0) + 0x1000 * (b - 0x80)
  }

  lemma TwoOfTwo(lead: byte, b: byte)
    requires 0xC2 <= lead < 0xE0 && 0x80 <= b <= 0xBF
    ensures [lead, b] <= EncodeScalar(WithTwo(lead, b))
  {
    var c := WithTwo(lead, b);
    assert c / 64 == lead - 0xC0 && c % 64 == b - 0x80;
  }

  lemma TwoOfThree(lead: byte, b: byte)
    requires 0xE0 <= lead < 0xF0 && Lowest(lead) <= b <= Highest(lead)
    ensures [lead, b] <= EncodeScalar(WithTwo(lead, b))
  {
    var c := WithTwo(lead, b);
    assert 0x800 <= c < 0x1_0000;
    assert c / 0x1000 == lead - 0xE0 && c / 64 == 64 * (lead - 0xE0) + (b - 0x80);
    assert c / 64 % 64 == b - 0x80;
  }

  lemma TwoOfFour(lead: byte, b: byte)
    requires 0xF0 <= lead < 0xF5 && Lowest(lead) <= b <= Highest(lead)
    ensures [lead, b] <= EncodeScalar(WithTwo(lead, b))
  {
    var c := WithTwo(lead, b);
    assert 0x1_0000 <= c;
    assert c / 0x4_0000 == lead - 0xF0 && c / 0x1000 == 64 * (lead - 0xF0) + (b - 0x80);
    assert c / 0x1000 % 64 == b - 0x80;
  }

  lemma TwoBegin(lead: byte, b: byte)
    requires 0xC2 <= lead < 0xF5 && Lowest(lead) <= b <= Highest(lead)
    ensures [lead, b] <= EncodeScalar(WithTwo(lead, b))
  {
    hide EncodeScalar, WithTwo;
    if lead < 0xE0 { TwoOfTwo(lead, b); } else if lead < 0xF0 { TwoOfThree(lead, b); } else { TwoOfFour(lead, b); }
  }

  lemma SecondByte(lead: byte, b: byte)
    requires 0xC2 <= lead < 0xF5
    ensures Begins([lead, b]) <==> Lowest(lead) <= b <= Highest(lead)
  {
    hide EncodeScalar;
    if Begins([lead, b]) {
      var c: Scalar :| [lead, b] <= EncodeScalar(c);
      EncodedBytes(c);
      assert EncodeScalar(c)[0] == [lead, b][0] && EncodeScalar(c)[1] == [lead, b][1];
    }
    if Lowest(lead) <= b <= Highest(lead) { TwoBegin(lead, b); }
  }

  lemma FirstByte(b: byte)
    ensures Begins([b]) <==> Leads(b)
  {
    if Begins([b]) {
      var c: Scalar :| [b] <= EncodeScalar(c);
      EncodedBytes(c);
      assert EncodeScalar(c)[0] == [b][0];
    }
    if b < 0x80 {
      assert [b] <= EncodeScalar(b);
    } else if Leads(b) {
      TwoBegin(b, Lowest(b));
      assert [b] <= [b, Lowest(b)];
      assert [b] <= EncodeScalar(WithTwo(b, Lowest(b)));
    }
  }

  /** A character that differs from `c` in the last six bits only. */
  function WithLast(c: Scalar, b: byte): Scalar
    requires 0x800 <= c && 0x80 <= b <= 0xBF
  {
    c / 64 * 64 + (b - 0x80)
  }

  lemma LastReplaced(c: Scalar, b: byte)
    requires 0x800 <= c && 0x80 <= b <= 0xBF
    ensures var n := |EncodeScalar(c)| - 1; EncodeScalar(WithLast(c, b)) == EncodeScalar(c)[..n] + [b]
  {
    var d := WithLast(c, b);
    assert d / 64 == c / 64 && d % 64 == b - 0x80;
    assert d / 0x1000 == d / 64 / 64 && c / 0x1000 == c / 64 / 64;
    assert d / 0x4_0000 == d / 64 / 64 / 64 && c / 0x4_0000 == c / 64 / 64 / 64;
  }

  function WithThird(c: Scalar, b: byte): Scalar
    requires 0x1_0000 <= c && 0x80 <= b <= 0xBF
  {
    c / 0x1000 * 0x1000 + 64 * (b - 0x80)
  }

  lemma ThirdReplaced(c: Scalar, b: byte)
    requires 0x1_0000 <= c && 0x80 <= b <= 0xBF
    ensures EncodeScalar(c)[..2] + [b] <= EncodeScalar(WithThird(c, b))
  {
    var d := WithThird(c, b);
    assert d / 0x1000 == c / 0x1000 && d / 64 == 64 * (c / 0x1000) + (b - 0x80);
    assert d / 64 % 64 == b - 0x80;
    assert d / 0x4_0000 == d / 0x1000 / 64 && c / 0x4_0000 == c / 0x1000 / 64;
  }

  lemma LaterByte(c: Scalar, n: nat, b: byte)
    requires 2 <= n < |EncodeScalar(c)|
    ensures Begins(EncodeScalar(c)[..n] + [b]) <==> 0x80 <= b <= 0xBF
  {
    var s := EncodeScalar(c)[..n] + [b];
    if Begins(s) {
      var d: Scalar :| s <= EncodeScalar(d);
      EncodedBytes(d);
      assert EncodeScalar(d)[n] == s[n];
    }
    if 0x80 <= b <= 0xBF {
      if n == |EncodeScalar(c)| - 1 {
        LastReplaced(c, b);
        assert s <= EncodeScalar(WithLast(c, b));
      } else {
        ThirdReplaced(c, b);
        assert s <= EncodeScalar(WithThird(c, b));
      }
    }
  }

  // ---- the decoder inside a character ----

  /** The decoder has taken a beginning, given nothing out, and waits for what can go on from there. */
  ghost predicate Waits(d: Decoder, s: seq<byte>, r: Decoded) {
    && r.text == [] && r.decoder.needed > 0 && r.decoder.atStart == d.atStart
    && forall b: byte :: r.decoder.lower <= b <= r.decoder.upper <==> Begins(s + [b])
  }

  lemma AfterFirst(d: Decoder, c: Scalar)
    requires d.needed == 0 && |EncodeScalar(c)| > 1
    ensures Waits(d, EncodeScalar(c)[..1], Decode(d, EncodeScalar(c)[..1]))
  {
    EncodedBytes(c);
    var lead := EncodeScalar(c)[0];
    assert EncodeScalar(c)[..1] == [lead];
    DecodeOne(d, lead);
    forall b: byte ensures Begins([lead] + [b]) <==> Lowest(lead) <= b <= Highest(lead) {
      assert [lead] + [b] == [lead, b];
      SecondByte(lead, b);
    }
    hide Begins;
  }

  lemma AfterSecond(d: Decoder, c: Scalar)
    requires d.needed == 0 && |EncodeScalar(c)| > 2
    ensures Waits(d, EncodeScalar(c)[..2], Decode(d, EncodeScalar(c)[..2]))
  {
    var e := EncodeScalar(c);
    if c < 0x1_0000 { FirstOfThree(d, c); } else { FirstOfFour(d, c); }
    assert e[..2] == [e[0]] + [e[1]];
    DecodeMore(d, e[0], [e[1]]);
    DecodeOne(Step(d, e[0]).decoder, e[1]);
    forall b: byte ensures Begins(e[..2] + [b]) <==> 0x80 <= b <= 0xBF { LaterByte(c, 2, b); }
    hide Begins, Step, Decode, EncodeScalar;
  }

  lemma AfterThird(d: Decoder, c: Scalar)
    requires d.needed == 0 && |EncodeScalar(c)| > 3
    ensures Waits(d, EncodeScalar(c)[..3], Decode(d, EncodeScalar(c)[..3]))
  {
    var e := EncodeScalar(c);
    FirstOfFour(d, c);
    var d2 := Step(Step(d, e[0]).decoder, e[1]).decoder;
    assert e[2] == 0x80 + c / 64 % 64;
    assert Step(d2, e[2]).text == [] && Step(d2, e[2]).decoder == Decoder(1, 64 * (c / 0x1000) + c / 64 % 64, 0x80, 0xBF, d.atStart);
    assert e[..3] == [e[0]] + ([e[1]] + [e[2]]);
    forall b: byte ensures Begins(e[..3] + [b]) <==> 0x80 <= b <= 0xBF { LaterByte(c, 3, b); }
    hide Begins, Step, Decode, EncodeScalar;
    DecodeMore(d, e[0], [e[1]] + [e[2]]);
    DecodeMore(Step(d, e[0]).decoder, e[1], [e[2]]);
    DecodeOne(d2, e[2]);
  }

  /** A character that is not finished yet gives nothing. */
  lemma UnfinishedWaits(d: Decoder, s: seq<byte>)
    requires d.needed == 0 && Truncated(s)
    ensures Waits(d, s, Decode(d, s))
  {
    var c: Scalar :| s < EncodeScalar(c);
    assert s == EncodeScalar(c)[..|s|];
    hide EncodeScalar, Decode, Waits;
    if |s| == 1 { AfterFirst(d, c); } else if |s| == 2 { AfterSecond(d, c); } else { AfterThird(d, c); }
  }

  // ---- malformed bytes ----

  lemma StepAfterBreak(d: Decoder, b: byte, idle: Decoder)
    requires d.needed > 0 && !(d.lower <= b <= d.upper)
    requires idle.needed == 0 && idle.atStart == d.atStart
    ensures var again := Step(Emitted(idle, REPLACEMENT).decoder, b);
            Step(d, b) == Decoded(again.decoder, [REPLACEMENT] + again.text)
  {
  }

  lemma DecodeCons(d: Decoder, b: byte, rest: seq<byte>)
    ensures Decode(d, [b] + rest)
         == Decoded(Decode(Step(d, b).decoder, rest).decoder, Step(d, b).text + Decode(Step(d, b).decoder, rest).text)
  {
    hide Step;
    assert ([b] + rest)[1..] == rest;
  }

  /** A beginning that breaks off becomes one replacement character, and the byte that broke it off is read anew. */
  lemma BrokenOff(d: Decoder, s: seq<byte>, b: byte, rest: seq<byte>)
    requires d.needed == 0 && Truncated(s) && !Begins(s + [b])
    ensures var first := Emitted(d, REPLACEMENT); var after := Decode(first.decoder, [b] + rest);
            Decode(d, s + ([b] + rest)) == Decoded(after.decoder, [REPLACEMENT] + after.text)
  {
    hide Step, Decode, Truncated, Begins, EncodeScalar;
    UnfinishedWaits(d, s);
    var inside := Decode(d, s).decoder;
    var first := Emitted(d, REPLACEMENT);
    DecodeInChunks(d, s, [b] + rest);
    StepAfterBreak(inside, b, d);
    DecodeCons(inside, b, rest);
    DecodeCons(first.decoder, b, rest);
  }

  /** A byte that begins no character becomes one replacement character. */
  lemma StrayByte(d: Decoder, b: byte, rest: seq<byte>)
    requires d.needed == 0 && !Begins([b])
    ensures var first := Emitted(d, REPLACEMENT); var after := Decode(first.decoder, rest);
            Decode(d, [b] + rest) == Decoded(after.decoder, [REPLACEMENT] + after.text)
  {
    FirstByte(b);
    assert Step(d, b) == Emitted(d, REPLACEMENT);
    hide Step, Decode, Begins;
    DecodeCons(d, b, rest);
  }

  /** Every input falls under one of the cases: nothing, a character, a beginning and nothing more or a byte that breaks it off, or a stray byte. */
  lemma {:induction false} Cases(bytes: seq<byte>) returns (n: nat, c: Scalar)
    requires bytes != []
    ensures 1 <= n <= |bytes|
    ensures || (n == |EncodeScalar(c)| && bytes[..n] == EncodeScalar(c))
            || (n == |bytes| && Truncated(bytes))
            || (n < |bytes| && Truncated(bytes[..n]) && !Begins(bytes[..n] + [bytes[n]]))
            || (n == 1 && !Begins([bytes[0]]))
  {
    n, c := 1, 0;
    FirstByte(bytes[0]);
    if !Begins([bytes[0]]) { return; }
    assert bytes[..1] == [bytes[0]];
    while true
      invariant 1 <= n <= |bytes| && Begins(bytes[..n])
      decreases |bytes| - n
    {
      c :| bytes[..n] <= EncodeScalar(c);
      if bytes[..n] == EncodeScalar(c) { return; }
      assert bytes[..n] < EncodeScalar(c);
      if n == |bytes| {
        assert bytes[..n] == bytes;
        return;
      }
      assert bytes[..n + 1] == bytes[..n] + [bytes[n]];
      if !Begins(bytes[..n] + [bytes[n]]) { return; }
      n := n + 1;
    }
  }
}
