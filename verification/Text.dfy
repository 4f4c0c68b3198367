/** Python text and bytes: strings of code points, `str.strip`, decimal and hexadecimal numerals, UTF-8. */
module Text {
  import opened Prelude

  type CodePoint = c: int | 0 <= c < 0x110000
  type Byte = b: int | 0 <= b < 0x100
  type Str = seq<CodePoint>
  type Bytes = seq<Byte>

  /** The code points of a literal. */
  function Lit(s: string): (t: Str)
    ensures |t| == |s| && forall i | 0 <= i < |s| :: t[i] == s[i] as int
  {
    seq(|s|, i requires 0 <= i < |s| => s[i] as int)
  }

  predicate IsSpace(c: CodePoint) {
    || 0x09 <= c <= 0x0D || 0x1C <= c <= 0x20 || c == 0x85 || c == 0xA0 || c == 0x1680
    || 0x2000 <= c <= 0x200A || c == 0x2028 || c == 0x2029 || c == 0x202F || c == 0x205F || c == 0x3000
  }

  function StripLeft(s: Str): Str {
    if s != [] && IsSpace(s[0]) then StripLeft(s[1..]) else s
  }

  function StripRight(s: Str): Str {
    if s != [] && IsSpace(s[|s| - 1]) then StripRight(s[..|s| - 1]) else s
  }

  function Strip(s: Str): Str {
    StripRight(StripLeft(s))
  }

  lemma {:induction false} StripRightEnds(s: Str)
    ensures var t := StripRight(s); t <= s && (t != [] ==> !IsSpace(t[|t| - 1]))
  {
    if s != [] && IsSpace(s[|s| - 1]) {
      StripRightEnds(s[..|s| - 1]);
    }
  }

  lemma {:induction false} StripLeftStarts(s: Str)
    ensures var t := StripLeft(s); t != [] ==> !IsSpace(t[0])
  {
    if s != [] && IsSpace(s[0]) {
      StripLeftStarts(s[1..]);
    }
  }

  predicate AllSpace(s: Str) {
    forall i | 0 <= i < |s| :: IsSpace(s[i])
  }

  lemma {:induction false} StripLeftDrops(s: Str) returns (head: Str)
    ensures s == head + StripLeft(s) && AllSpace(head)
  {
    head := [];
    if s != [] && IsSpace(s[0]) {
      var more := StripLeftDrops(s[1..]);
      head := [s[0]] + more;
    }
  }

  lemma {:induction false} StripRightDrops(s: Str) returns (tail: Str)
    ensures s == StripRight(s) + tail && AllSpace(tail)
  {
    tail := [];
    if s != [] && IsSpace(s[|s| - 1]) {
      var more := StripRightDrops(s[..|s| - 1]);
      tail := more + [s[|s| - 1]];
    }
  }

  /** `strip` drops space at both ends, and leaves none there. */
  lemma StripMeaning(s: Str) returns (head: Str, tail: Str)
    ensures var t := Strip(s);
            && s == head + t + tail && AllSpace(head) && AllSpace(tail)
            && (t != [] ==> !IsSpace(t[0]) && !IsSpace(t[|t| - 1]))
  {
    head := StripLeftDrops(s);
    tail := StripRightDrops(StripLeft(s));
    StripLeftStarts(s);
    StripRightEnds(StripLeft(s));
  }

  /** Stripping twice is stripping once. */
  lemma StripIsIdempotent(s: Str)
    ensures Strip(Strip(s)) == Strip(s)
  {
    StripLeftStarts(s);
    StripRightEnds(StripLeft(s));
  }

  /** Text without space at its ends is what `strip` leaves of it. */
  lemma StripKeeps(s: Str)
    requires s != [] && !IsSpace(s[0]) && !IsSpace(s[|s| - 1])
    ensures Strip(s) == s
  {
    assert StripLeft(s) == s;
  }

  /** ASCII lower case. */
  function Lower(c: CodePoint): CodePoint {
    if 0x41 <= c <= 0x5A then c + 0x20 else c
  }

  predicate AllAscii(s: seq<int>) {
    forall i | 0 <= i < |s| :: 0 <= s[i] < 0x80
  }

  /* ---------- numerals ---------- */

  predicate IsDigit(c: CodePoint) {
    0x30 <= c <= 0x39
  }

  function Digits(n: nat): Str {
    if n < 10 then [0x30 + n] else Digits(n / 10) + [0x30 + n % 10]
  }

  function Decimal(n: int): Str {
    if n < 0 then [0x2D] + Digits(-n) else Digits(n)
  }

  /** The number a run of digits denotes. */
  function ValueOf(s: Str): nat
    requires forall i | 0 <= i < |s| :: IsDigit(s[i])
  {
    if s == [] then 0
    else
      assert IsDigit(s[|s| - 1]);
      ValueOf(s[..|s| - 1]) * 10 + (s[|s| - 1] as int - 0x30)
  }

  lemma {:induction false} DigitsDenote(n: nat)
    ensures var s := Digits(n);
            && s != [] && (forall i | 0 <= i < |s| :: IsDigit(s[i]))
            && ValueOf(s) == n
            && (s[0] == 0x30 ==> n == 0 && |s| == 1)
  {
    if n >= 10 {
      DigitsDenote(n / 10);
      assert Digits(n)[..|Digits(n)| - 1] == Digits(n / 10);
    } else {
      assert Digits(n)[..0] == [];
    }
  }

  /** The longest run of digits at the start of `s`. */
  function LeadingDigits(s: Str): (k: nat)
    ensures k <= |s| && forall i | 0 <= i < k :: IsDigit(s[i])
    ensures k < |s| ==> !IsDigit(s[k])
  {
    if s == [] || !IsDigit(s[0]) then 0 else 1 + LeadingDigits(s[1..])
  }

  lemma {:induction false} LeadingDigitsOf(digits: Str, rest: Str)
    requires forall i | 0 <= i < |digits| :: IsDigit(digits[i])
    requires rest == [] || !IsDigit(rest[0])
    ensures LeadingDigits(digits + rest) == |digits|
  {
    if digits == [] {
      assert digits + rest == rest;
    } else {
      LeadingDigitsOf(digits[1..], rest);
      assert (digits + rest)[1..] == digits[1..] + rest;
    }
  }

  function HexDigit(v: nat): CodePoint
    requires v < 16
  {
    if v < 10 then 0x30 + v else 0x57 + v
  }

  function HexValue(c: CodePoint): Option<nat> {
    if IsDigit(c) then Some(c - 0x30)
    else if 0x61 <= c <= 0x66 then Some(c - 0x57)
    else if 0x41 <= c <= 0x46 then Some(c - 0x37)
    else None
  }

  function Hex4(v: nat): Str
    requires v < 0x10000
  {
    [HexDigit(v / 0x1000), HexDigit(v / 0x100 % 16), HexDigit(v / 0x10 % 16), HexDigit(v % 16)]
  }

  function ParseHex4(s: Str): (v: Option<nat>)
    ensures v.Some? ==> |s| >= 4 && v.value < 0x10000
  {
    if |s| < 4 then None
    else match (HexValue(s[0]), HexValue(s[1]), HexValue(s[2]), HexValue(s[3]))
      case (Some(a), Some(b), Some(c), Some(d)) =>
        if a < 16 && b < 16 && c < 16 && d < 16 then Some(a * 0x1000 + b * 0x100 + c * 0x10 + d) else None
      case _ => None
  }

  lemma HexDigitRoundTrip(v: nat)
    requires v < 16
    ensures HexValue(HexDigit(v)) == Some(v)
  {
  }

  lemma HexParts(v: nat)
    ensures v == v / 0x1000 * 0x1000 + v / 0x100 % 16 * 0x100 + v / 0x10 % 16 * 0x10 + v % 16
  {
    var q := v / 0x10;
    var p := q / 0x10;
    assert p == v / 0x100 && p / 0x10 == v / 0x1000;
    assert v == q * 0x10 + v % 16 && q == p * 0x10 + q % 16 && p == p / 0x10 * 0x10 + p % 16;
  }

  lemma Hex4RoundTrip(v: nat, rest: Str)
    requires v < 0x10000
    ensures ParseHex4(Hex4(v) + rest) == Some(v)
  {
    HexDigitRoundTrip(v / 0x1000);
    HexDigitRoundTrip(v / 0x100 % 16);
    HexDigitRoundTrip(v / 0x10 % 16);
    HexDigitRoundTrip(v % 16);
    HexParts(v);
    var s := Hex4(v) + rest;
    assert s[0] == Hex4(v)[0] && s[1] == Hex4(v)[1] && s[2] == Hex4(v)[2] && s[3] == Hex4(v)[3];
  }

  /* ---------- UTF-8 (RFC 3629) ---------- */

  predicate IsSurrogate(c: int) {
    0xD800 <= c < 0xE000
  }

  function Utf8EncodeOne(c: CodePoint): Bytes {
    if c < 0x80 then [c]
    else if c < 0x800 then [0xC0 + c / 0x40, 0x80 + c % 0x40]
    else if c < 0x10000 then [0xE0 + c / 0x1000, 0x80 + c / 0x40 % 0x40, 0x80 + c % 0x40]
    else [0xF0 + c / 0x40000, 0x80 + c / 0x1000 % 0x40, 0x80 + c / 0x40 % 0x40, 0x80 + c % 0x40]
  }

  /** Strict encoding: a surrogate code point is an error. */
  function Utf8Encode(s: Str): Option<Bytes> {
    if s == [] then Some([])
    else if IsSurrogate(s[0]) then None
    else match Utf8Encode(s[1..])
      case None => None
      case Some(rest) => Some(Utf8EncodeOne(s[0]) + rest)
  }

  predicate IsContinuation(b: Byte) {
    0x80 <= b < 0xC0
  }

  /** The first code point and the bytes it takes, when they are the shortest form of a scalar value. */
  function Utf8DecodeOne(s: Bytes): (r: Option<(CodePoint, nat)>)
    ensures r.Some? ==> 0 < r.value.1 <= |s|
  {
    if |s| >= 1 && s[0] < 0x80 then Some((s[0], 1))
    else if |s| >= 2 && 0xC2 <= s[0] < 0xE0 && IsContinuation(s[1]) then
      Some(((s[0] as int - 0xC0) * 0x40 + (s[1] as int - 0x80), 2))
    else if |s| >= 3 && 0xE0 <= s[0] < 0xF0 && IsContinuation(s[1]) && IsContinuation(s[2]) then
      var c := (s[0] as int - 0xE0) * 0x1000 + (s[1] as int - 0x80) * 0x40 + (s[2] as int - 0x80);
      if c < 0x800 || IsSurrogate(c) then None else Some((c, 3))
    else if |s| >= 4 && 0xF0 <= s[0] < 0xF5 && IsContinuation(s[1]) && IsContinuation(s[2]) && IsContinuation(s[3]) then
      var c := (s[0] as int - 0xF0) * 0x40000 + (s[1] as int - 0x80) * 0x1000 + (s[2] as int - 0x80) * 0x40
          + (s[3] as int - 0x80);
      if c < 0x10000 || c >= 0x110000 then None else Some((c, 4))
    else None
  }

  function Utf8Decode(s: Bytes): Option<Str> {
    if s == [] then Some([])
    else match Utf8DecodeOne(s)
      case None => None
      case Some((c, used)) =>
        match Utf8Decode(s[used..])
        case None => None
        case Some(rest) => Some([c] + rest)
  }

  lemma {:induction false} AsciiDecodesToItself(s: Bytes)
    requires AllAscii(s)
    ensures Utf8Decode(s) == Some(s)
  {
    if s != [] {
      AsciiDecodesToItself(s[1..]);
      assert [s[0]] + s[1..] == s;
    }
  }

  lemma Utf8TwoRoundTrip(c: CodePoint, rest: Bytes)
    requires 0x80 <= c < 0x800
    ensures Utf8DecodeOne(Utf8EncodeOne(c) + rest) == Some((c, 2))
  {
  }

  lemma Utf8ThreeRoundTrip(c: CodePoint, rest: Bytes)
    requires 0x800 <= c < 0x10000 && !IsSurrogate(c)
    ensures Utf8DecodeOne(Utf8EncodeOne(c) + rest) == Some((c, 3))
  {
    var s := Utf8EncodeOne(c) + rest;
    var q := c / 0x40;
    assert c == q * 0x40 + c % 0x40 && q == q / 0x40 * 0x40 + q % 0x40 && q / 0x40 == c / 0x1000;
    assert s[0] == 0xE0 + c / 0x1000 && s[1] == 0x80 + q % 0x40 && s[2] == 0x80 + c % 0x40;
  }

  lemma Utf8FourRoundTrip(c: CodePoint, rest: Bytes)
    requires 0x10000 <= c
    ensures Utf8DecodeOne(Utf8EncodeOne(c) + rest) == Some((c, 4))
  {
    var s := Utf8EncodeOne(c) + rest;
    var q := c / 0x40;
    var p := q / 0x40;
    assert c == q * 0x40 + c % 0x40 && q == p * 0x40 + q % 0x40 && p == p / 0x40 * 0x40 + p % 0x40;
    assert p == c / 0x1000 && p / 0x40 == c / 0x40000;
    assert s[0] == 0xF0 + c / 0x40000 && s[1] == 0x80 + p % 0x40 && s[2] == 0x80 + q % 0x40 && s[3] == 0x80 + c % 0x40;
  }

  lemma Utf8OneRoundTrip(c: CodePoint, rest: Bytes)
    requires !IsSurrogate(c)
    ensures Utf8DecodeOne(Utf8EncodeOne(c) + rest) == Some((c, |Utf8EncodeOne(c)|))
  {
    hide Utf8DecodeOne;
    if c < 0x80 {
      Utf8AsciiRoundTrip(c, rest);
    } else if c < 0x800 {
      Utf8TwoRoundTrip(c, rest);
    } else if c < 0x10000 {
      Utf8ThreeRoundTrip(c, rest);
    } else {
      Utf8FourRoundTrip(c, rest);
    }
  }

  lemma Utf8AsciiRoundTrip(c: CodePoint, rest: Bytes)
    requires c < 0x80
    ensures Utf8DecodeOne(Utf8EncodeOne(c) + rest) == Some((c, 1))
  {
  }

  /** Text that can be encoded at all is recovered from its encoding. */
  lemma {:induction false} Utf8RoundTrip(s: Str)
    requires Utf8Encode(s).Some?
    ensures Utf8Decode(Utf8Encode(s).value) == Some(s)
  {
    hide Utf8DecodeOne, Utf8EncodeOne;
    if s != [] {
      Utf8RoundTrip(s[1..]);
      var head, rest := Utf8EncodeOne(s[0]), Utf8Encode(s[1..]).value;
      Utf8OneRoundTrip(s[0], rest);
      assert (head + rest)[|head|..] == rest;
      assert [s[0]] + s[1..] == s;
    }
  }
}
