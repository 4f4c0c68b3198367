/** base64url without padding (section 5 of RFC 4648), and the lenient decoder of Python's `base64` module.

    The decoder takes both alphabets, skips every other character, and stops at a completed pad. */
module Base64Url {
  import opened Prelude
  import opened Text

  const PAD: CodePoint := 0x3D

  function Symbol(v: nat): CodePoint
    requires v < 64
  {
    if v < 26 then 0x41 + v
    else if v < 52 then 0x61 + (v - 26)
    else if v < 62 then 0x30 + (v - 52)
    else if v == 62 then 0x2D
    else 0x5F
  }

  /** The value of a symbol of either alphabet. */
  function SymbolValue(c: CodePoint): (v: Option<nat>)
    ensures v.Some? ==> v.value < 64
  {
    if 0x41 <= c <= 0x5A then Some(c - 0x41)
    else if 0x61 <= c <= 0x7A then Some(c - 0x61 + 26)
    else if 0x30 <= c <= 0x39 then Some(c - 0x30 + 52)
    else if c == 0x2D || c == 0x2B then Some(62)
    else if c == 0x5F || c == 0x2F then Some(63)
    else None
  }

  lemma SymbolRoundTrip(v: nat)
    requires v < 64
    ensures SymbolValue(Symbol(v)) == Some(v) && Symbol(v) != PAD && Symbol(v) < 0x80 && !IsSpace(Symbol(v))
  {
  }

  function EncodeNoPad(b: Bytes): Str {
    if |b| == 0 then []
    else if |b| == 1 then [Symbol(b[0] / 4), Symbol(b[0] % 4 * 16)]
    else if |b| == 2 then [Symbol(b[0] / 4), Symbol(b[0] % 4 * 16 + b[1] / 16), Symbol(b[1] % 16 * 4)]
    else Group(b[0], b[1], b[2]) + EncodeNoPad(b[3..])
  }

  /** The four symbols of three bytes. */
  function Group(b0: Byte, b1: Byte, b2: Byte): (g: Str)
    ensures |g| == 4
  {
    [Symbol(b0 / 4), Symbol(b0 % 4 * 16 + b1 / 16), Symbol(b1 % 16 * 4 + b2 / 64), Symbol(b2 % 64)]
  }

  function Pads(length: nat): Str {
    if length % 4 == 1 then [PAD, PAD, PAD]
    else if length % 4 == 2 then [PAD, PAD]
    else if length % 4 == 3 then [PAD]
    else []
  }

  function Emit(b: int, r: Option<Bytes>): Option<Bytes>
    requires 0 <= b < 0x100
  {
    if r.Some? then Some([b as Byte] + r.value) else None
  }

  /** The decoder's loop: `quad` symbols of the current group were seen, `left` is what they carry over. */
  function DecodeFrom(s: Str, quad: nat, left: nat, pads: nat): Option<Bytes>
    requires quad < 4 && left < 64 && (quad == 2 ==> left < 16) && (quad == 3 ==> left < 4)
  {
    if s == [] then if quad == 0 then Some([]) else None
    else if s[0] == PAD then
      if quad >= 2 && quad + pads + 1 >= 4 then Some([])
      else DecodeFrom(s[1..], quad, left, if quad >= 2 then pads + 1 else pads)
    else match SymbolValue(s[0])
      case None => DecodeFrom(s[1..], quad, left, pads)
      case Some(v) =>
        if quad == 0 then DecodeFrom(s[1..], 1, v, 0)
        else if quad == 1 then Emit(left * 4 + v / 16, DecodeFrom(s[1..], 2, v % 16, 0))
        else if quad == 2 then Emit(left * 16 + v / 4, DecodeFrom(s[1..], 3, v % 4, 0))
        else Emit(left * 64 + v, DecodeFrom(s[1..], 0, 0, 0))
  }

  /** `base64.urlsafe_b64decode(s + pad)`: text outside ASCII is refused. */
  function DecodePadded(s: Str): Option<Bytes> {
    if AllAscii(s) then DecodeFrom(s + Pads(|s|), 0, 0, 0) else None
  }

  lemma DecodeSymbol(s: Str, quad: nat, left: nat, pads: nat, v: nat, rest: Str)
    requires quad < 4 && left < 64 && (quad == 2 ==> left < 16) && (quad == 3 ==> left < 4) && v < 64
    requires s == [Symbol(v)] + rest
    ensures DecodeFrom(s, quad, left, pads) ==
            if quad == 0 then DecodeFrom(rest, 1, v, 0)
            else if quad == 1 then Emit(left * 4 + v / 16, DecodeFrom(rest, 2, v % 16, 0))
            else if quad == 2 then Emit(left * 16 + v / 4, DecodeFrom(rest, 3, v % 4, 0))
            else Emit(left * 64 + v, DecodeFrom(rest, 0, 0, 0))
  {
    SymbolRoundTrip(v);
    assert s[1..] == rest;
  }

  /** Four symbols decode to the three bytes they were made from. */
  lemma DecodeGroup(b0: Byte, b1: Byte, b2: Byte, rest: Str, tail: Bytes)
    requires DecodeFrom(rest, 0, 0, 0) == Some(tail)
    ensures DecodeFrom(Group(b0, b1, b2) + rest, 0, 0, 0) == Some([b0, b1, b2] + tail)
  {
    hide DecodeFrom, Symbol;
    var v0, v1, v2, v3 := b0 / 4, b0 % 4 * 16 + b1 / 16, b1 % 16 * 4 + b2 / 64, b2 % 64;
    var s3 := [Symbol(v3)] + rest;
    var s2 := [Symbol(v2)] + s3;
    var s1 := [Symbol(v1)] + s2;
    DecodeSymbol(s3, 3, v2 % 4, 0, v3, rest);
    DecodeSymbol(s2, 2, v1 % 16, 0, v2, s3);
    DecodeSymbol(s1, 1, v0, 0, v1, s2);
    DecodeSymbol([Symbol(v0)] + s1, 0, 0, 0, v0, s1);
    assert Group(b0, b1, b2) + rest == [Symbol(v0)] + s1;
    assert v0 * 4 + v1 / 16 == b0 && v1 % 16 * 16 + v2 / 4 == b1 && v2 % 4 * 64 + v3 == b2;
    assert [b0] + ([b1] + ([b2] + tail)) == [b0, b1, b2] + tail;
  }

  lemma DecodeOne(b0: Byte)
    ensures DecodeFrom([Symbol(b0 / 4), Symbol(b0 % 4 * 16)] + [PAD, PAD], 0, 0, 0) == Some([b0])
  {
    var v0, v1 := b0 / 4, b0 % 4 * 16;
    var s1 := [Symbol(v1)] + [PAD, PAD];
    DecodeSymbol(s1, 1, v0, 0, v1, [PAD, PAD]);
    DecodeSymbol([Symbol(v0)] + s1, 0, 0, 0, v0, s1);
    assert [Symbol(v0), Symbol(v1)] + [PAD, PAD] == [Symbol(v0)] + s1;
    assert [PAD, PAD][1..] == [PAD];
    assert DecodeFrom([PAD, PAD], 2, v1 % 16, 0) == DecodeFrom([PAD], 2, v1 % 16, 1) == Some([]);
    assert v0 * 4 + v1 / 16 == b0;
    var none: Bytes := [];
    assert [b0] + none == [b0];
  }

  lemma DecodeTwo(b0: Byte, b1: Byte)
    ensures DecodeFrom([Symbol(b0 / 4), Symbol(b0 % 4 * 16 + b1 / 16), Symbol(b1 % 16 * 4)] + [PAD], 0, 0, 0)
        == Some([b0, b1])
  {
    var v0, v1, v2 := b0 / 4, b0 % 4 * 16 + b1 / 16, b1 % 16 * 4;
    var s2 := [Symbol(v2)] + [PAD];
    var s1 := [Symbol(v1)] + s2;
    DecodeSymbol(s2, 2, v1 % 16, 0, v2, [PAD]);
    DecodeSymbol(s1, 1, v0, 0, v1, s2);
    DecodeSymbol([Symbol(v0)] + s1, 0, 0, 0, v0, s1);
    assert [Symbol(v0), Symbol(v1), Symbol(v2)] + [PAD] == [Symbol(v0)] + s1;
    assert DecodeFrom([PAD], 3, v2 % 4, 0) == Some([]);
    assert v0 * 4 + v1 / 16 == b0 && v1 % 16 * 16 + v2 / 4 == b1;
    var none: Bytes := [];
    assert [b0] + ([b1] + none) == [b0, b1];
  }

  predicate AllSymbols(s: Str) {
    forall i | 0 <= i < |s| :: SymbolValue(s[i]).Some?
  }

  lemma SymbolsArePlain(s: Str)
    requires AllSymbols(s)
    ensures AllAscii(s) && forall i | 0 <= i < |s| :: !IsSpace(s[i])
  {
    forall i | 0 <= i < |s| ensures 0 <= s[i] < 0x80 && !IsSpace(s[i]) {
      assert SymbolValue(s[i]).Some?;
    }
  }

  lemma {:induction false} EncodedIsSymbols(b: Bytes)
    ensures AllSymbols(EncodeNoPad(b))
  {
    forall v: nat | v < 64 ensures SymbolValue(Symbol(v)).Some? {
      SymbolRoundTrip(v);
    }
    if |b| >= 3 {
      EncodedIsSymbols(b[3..]);
    }
  }

  lemma {:induction false} EncodedLength(b: Bytes)
    ensures |EncodeNoPad(b)| % 4 == if |b| % 3 == 0 then 0 else |b| % 3 + 1
    ensures |EncodeNoPad(b)| == 0 <==> b == []
  {
    hide Symbol, Group;
    if |b| >= 3 {
      EncodedLength(b[3..]);
    }
  }

  lemma DecodeLastBytes(b: Bytes)
    requires |b| < 3
    ensures DecodeFrom(EncodeNoPad(b) + Pads(|EncodeNoPad(b)|), 0, 0, 0) == Some(b)
  {
    if |b| == 1 {
      DecodeOne(b[0]);
      assert b == [b[0]] && Pads(2) == [PAD, PAD];
    } else if |b| == 2 {
      DecodeTwo(b[0], b[1]);
      assert b == [b[0], b[1]] && Pads(3) == [PAD];
    }
  }

  lemma {:induction false} DecodeEncoded(b: Bytes)
    ensures DecodeFrom(EncodeNoPad(b) + Pads(|EncodeNoPad(b)|), 0, 0, 0) == Some(b)
  {
    hide DecodeFrom, Group;
    if |b| < 3 {
      DecodeLastBytes(b);
    } else {
      DecodeEncoded(b[3..]);
      var pads := Pads(|EncodeNoPad(b)|);
      var group, rest := Group(b[0], b[1], b[2]), EncodeNoPad(b[3..]);
      assert |group + rest| % 4 == |rest| % 4;
      assert group + rest + pads == group + (rest + pads);
      DecodeGroup(b[0], b[1], b[2], rest + pads, b[3..]);
      assert [b[0], b[1], b[2]] + b[3..] == b;
    }
  }

  /** Re-padding and decoding an unpadded encoding gives the bytes back, whatever their number. */
  lemma Base64RoundTrip(b: Bytes)
    ensures DecodePadded(EncodeNoPad(b)) == Some(b)
  {
    EncodedIsSymbols(b);
    SymbolsArePlain(EncodeNoPad(b));
    DecodeEncoded(b);
  }
}
