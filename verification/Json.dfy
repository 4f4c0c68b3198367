/** JSON text as Python's `json` module writes and reads it (RFC 8259).

    `EscapeAll` is the string form `json.dumps` writes with ASCII output; `Loads` is the reader. */
module Json {
  import opened Prelude
  import opened Text

  datatype Json =
    | JNull
    | JBool(b: bool)
    | JInt(n: int)
    | JReal(r: real)
    | JStr(s: Str)
    | JArr(items: seq<Json>)
    | JObj(members: seq<(Str, Json)>)

  const QUOTE: CodePoint := 0x22
  const BACKSLASH: CodePoint := 0x5C
  const COMMA: CodePoint := 0x2C
  const COLON: CodePoint := 0x3A
  const OPEN_BRACE: CodePoint := 0x7B
  const CLOSE_BRACE: CodePoint := 0x7D
  const OPEN_BRACKET: CodePoint := 0x5B
  const CLOSE_BRACKET: CodePoint := 0x5D
  const MINUS: CodePoint := 0x2D
  const LOWER_U: CodePoint := 0x75
  const NULL: Str := [0x6E, 0x75, 0x6C, 0x6C]
  const TRUE: Str := [0x74, 0x72, 0x75, 0x65]
  const FALSE: Str := [0x66, 0x61, 0x6C, 0x73, 0x65]

  /* ---------- string escaping (section 7 of RFC 8259) ---------- */

  predicate IsHigh(c: int) {
    0xD800 <= c < 0xDC00
  }

  predicate IsLow(c: int) {
    0xDC00 <= c < 0xE000
  }

  function Combine(high: CodePoint, low: CodePoint): CodePoint
    requires IsHigh(high) && IsLow(low)
  {
    0x10000 + (high - 0xD800) * 0x400 + (low - 0xDC00)
  }

  function HighOf(c: CodePoint): (h: CodePoint)
    requires c >= 0x10000
    ensures IsHigh(h)
  {
    0xD800 + (c - 0x10000) / 0x400
  }

  function LowOf(c: CodePoint): (l: CodePoint)
    requires c >= 0x10000
    ensures IsLow(l)
  {
    0xDC00 + (c - 0x10000) % 0x400
  }

  lemma SurrogatePairRoundTrip(c: CodePoint)
    requires c >= 0x10000
    ensures Combine(HighOf(c), LowOf(c)) == c
  {
  }

  lemma CombineRoundTrip(h: CodePoint, l: CodePoint)
    requires IsHigh(h) && IsLow(l)
    ensures HighOf(Combine(h, l)) == h && LowOf(Combine(h, l)) == l
  {
  }

  /** The letter of a two-character escape, if `c` has one. */
  function ShortEscape(c: CodePoint): Option<CodePoint> {
    if c == QUOTE then Some(QUOTE)
    else if c == BACKSLASH then Some(BACKSLASH)
    else if c == 0x08 then Some(0x62)
    else if c == 0x0C then Some(0x66)
    else if c == 0x0A then Some(0x6E)
    else if c == 0x0D then Some(0x72)
    else if c == 0x09 then Some(0x74)
    else None
  }

  function UnicodeEscape(v: nat): Str
    requires v < 0x10000
  {
    [BACKSLASH, LOWER_U] + Hex4(v)
  }

  function Escape(c: CodePoint): Str {
    if ShortEscape(c).Some? then [BACKSLASH, ShortEscape(c).value]
    else if 0x20 <= c < 0x7F then [c]
    else if c < 0x10000 then UnicodeEscape(c)
    else UnicodeEscape(HighOf(c)) + UnicodeEscape(LowOf(c))
  }

  function EscapeAll(s: Str): Str {
    if s == [] then [] else Escape(s[0]) + EscapeAll(s[1..])
  }

  function Quoted(s: Str): Str {
    [QUOTE] + EscapeAll(s) + [QUOTE]
  }

  /** What a reader makes of escaped text: a high surrogate directly followed by a low one becomes one code point. */
  function Join(s: Str): Str {
    if |s| >= 2 && IsHigh(s[0]) && IsLow(s[1]) then [Combine(s[0], s[1])] + Join(s[2..])
    else if s == [] then []
    else [s[0]] + Join(s[1..])
  }

  predicate SplitsPair(s: Str) {
    exists i | 0 <= i < |s| - 1 :: IsHigh(s[i]) && IsLow(s[i + 1])
  }

  /* ---------- the reader ---------- */

  function UnescapeShort(c: CodePoint): Option<CodePoint> {
    if c == QUOTE || c == BACKSLASH || c == 0x2F then Some(c)
    else if c == 0x62 then Some(0x08)
    else if c == 0x66 then Some(0x0C)
    else if c == 0x6E then Some(0x0A)
    else if c == 0x72 then Some(0x0D)
    else if c == 0x74 then Some(0x09)
    else None
  }

  /** The low surrogate written as an escape at the start of `s`, if there is one. */
  function LowEscapeAt(s: Str): (r: Option<CodePoint>)
    ensures r.Some? ==> |s| >= 6 && IsLow(r.value)
  {
    if |s| >= 2 && s[0] == BACKSLASH && s[1] == LOWER_U && ParseHex4(s[2..]).Some? && IsLow(ParseHex4(s[2..]).value)
    then Some(ParseHex4(s[2..]).value) else None
  }

  function Prepend(c: CodePoint, r: Option<(Str, Str)>): Option<(Str, Str)> {
    if r.Some? then Some(([c] + r.value.0, r.value.1)) else None
  }

  /** Reads string content up to and including the closing quote. */
  function ReadChars(s: Str): (r: Option<(Str, Str)>)
    ensures r.Some? ==> |r.value.1| < |s|
    decreases |s|
  {
    if s == [] || s[0] < 0x20 then None
    else if s[0] == QUOTE then Some(([], s[1..]))
    else if s[0] != BACKSLASH then Prepend(s[0], ReadChars(s[1..]))
    else if |s| < 2 then None
    else if s[1] != LOWER_U then
      match UnescapeShort(s[1])
      case None => None
      case Some(c) => Prepend(c, ReadChars(s[2..]))
    else
      match ParseHex4(s[2..])
      case None => None
      case Some(v) =>
        if IsHigh(v) && LowEscapeAt(s[6..]).Some?
            then Prepend(Combine(v, LowEscapeAt(s[6..]).value), ReadChars(s[12..]))
        else Prepend(v, ReadChars(s[6..]))
  }

  predicate IsJsonSpace(c: CodePoint) {
    c == 0x20 || c == 0x09 || c == 0x0A || c == 0x0D
  }

  function SkipSpace(s: Str): (r: Str)
    ensures |r| <= |s|
  {
    if s != [] && IsJsonSpace(s[0]) then SkipSpace(s[1..]) else s
  }

  function PowerOfTen(n: nat): real {
    if n == 0 then 1.0 else 10.0 * PowerOfTen(n - 1)
  }

  lemma PowerOfTenPositive(n: nat)
    ensures PowerOfTen(n) > 0.0
  {
  }

  function ScaleByTen(r: real, e: int): real {
    if e >= 0 then r * PowerOfTen(e)
    else
      PowerOfTenPositive(-e);
      r / PowerOfTen(-e)
  }

  function DigitsValue(s: Str, k: nat): nat
    requires k <= |s| && forall i | 0 <= i < k :: IsDigit(s[i])
  {
    ValueOf(s[..k])
  }

  /** The fraction `.d+` at the start of `s`: its digit count, value and the rest; none when absent. */
  function ReadFraction(s: Str): (r: Option<(nat, nat, Str)>)
    ensures r.Some? ==> |r.value.2| < |s|
  {
    if |s| >= 2 && s[0] == 0x2E && IsDigit(s[1]) then
      var k := LeadingDigits(s[1..]);
      Some((k, DigitsValue(s[1..], k), s[1 + k..]))
    else None
  }

  function ReadExponent(s: Str): (r: Option<(int, Str)>)
    ensures r.Some? ==> |r.value.1| < |s|
  {
    if |s| >= 2 && (s[0] == 0x65 || s[0] == 0x45) then
      var signed := if s[1] == 0x2B || s[1] == MINUS then 2 else 1;
      var k := LeadingDigits(s[signed..]);
      if k == 0 then None
      else
        var v: int := DigitsValue(s[signed..], k);
        Some((if s[1] == MINUS then -v else v, s[signed + k..]))
    else None
  }

  /** An unsigned number: integer part, then an optional fraction and an optional exponent. */
  function ReadUnsigned(s: Str): (r: Option<(Json, Str)>)
    ensures r.Some? ==> |r.value.1| < |s|
  {
    var k := LeadingDigits(s);
    if k == 0 then None
    else
      var used := if s[0] == 0x30 then 1 else k;
      var whole, after := DigitsValue(s, used), s[used..];
      var fraction := ReadFraction(after);
      var rest := if fraction.Some? then fraction.value.2 else after;
      var exponent := ReadExponent(rest);
      if fraction.None? && exponent.None? then Some((JInt(whole), after))
      else
        var mantissa := (whole as real) + if fraction.Some?
            then ScaleByTen(fraction.value.1 as real, -(fraction.value.0 as int)) else 0.0;
        if exponent.None? then Some((JReal(mantissa), rest))
        else Some((JReal(ScaleByTen(mantissa, exponent.value.0)), exponent.value.1))
  }

  function Negated(j: Json): Json {
    match j
    case JInt(n) => JInt(-n)
    case JReal(r) => JReal(-r)
    case _ => j
  }

  function ReadNumber(s: Str): (r: Option<(Json, Str)>)
    ensures r.Some? ==> |r.value.1| < |s|
  {
    if s != [] && s[0] == MINUS then
      match ReadUnsigned(s[1..])
      case None => None
      case Some((j, rest)) => Some((Negated(j), rest))
    else ReadUnsigned(s)
  }

  function ReadValue(s: Str): (r: Option<(Json, Str)>)
    ensures r.Some? ==> |r.value.1| < |s|
    decreases |s|, 0
  {
    if s == [] then None
    else if s[0] == QUOTE then
      match ReadChars(s[1..])
      case None => None
      case Some((text, rest)) => Some((JStr(text), rest))
    else if s[0] == OPEN_BRACE then
      var t := SkipSpace(s[1..]);
      if t != [] && t[0] == CLOSE_BRACE then Some((JObj([]), t[1..]))
      else
        match ReadMembers(t)
        case None => None
        case Some((members, rest)) => Some((JObj(members), rest))
    else if s[0] == OPEN_BRACKET then
      var t := SkipSpace(s[1..]);
      if t != [] && t[0] == CLOSE_BRACKET then Some((JArr([]), t[1..]))
      else
        match ReadItems(t)
        case None => None
        case Some((items, rest)) => Some((JArr(items), rest))
    else if NULL <= s then Some((JNull, s[4..]))
    else if TRUE <= s then Some((JBool(true), s[4..]))
    else if FALSE <= s then Some((JBool(false), s[5..]))
    else ReadNumber(s)
  }

  /** One `"name" : value` member. */
  function ReadMember(s: Str): (r: Option<((Str, Json), Str)>)
    ensures r.Some? ==> |r.value.1| < |s|
    decreases |s|, 1
  {
    if s == [] || s[0] != QUOTE then None
    else match ReadChars(s[1..])
      case None => None
      case Some((name, afterName)) =>
        var t := SkipSpace(afterName);
        if t == [] || t[0] != COLON then None
        else match ReadValue(SkipSpace(t[1..]))
          case None => None
          case Some((value, rest)) => Some(((name, value), rest))
  }

  function ReadMembers(s: Str): (r: Option<(seq<(Str, Json)>, Str)>)
    ensures r.Some? ==> |r.value.1| < |s|
    decreases |s|, 2
  {
    match ReadMember(s)
    case None => None
    case Some((member, afterMember)) =>
      var t := SkipSpace(afterMember);
      if t == [] then None
      else if t[0] == CLOSE_BRACE then Some(([member], t[1..]))
      else if t[0] != COMMA then None
      else match ReadMembers(SkipSpace(t[1..]))
        case None => None
        case Some((more, rest)) => Some(([member] + more, rest))
  }

  function ReadItems(s: Str): (r: Option<(seq<Json>, Str)>)
    ensures r.Some? ==> |r.value.1| < |s|
    decreases |s|, 1
  {
    match ReadValue(s)
    case None => None
    case Some((item, afterItem)) =>
      var t := SkipSpace(afterItem);
      if t == [] then None
      else if t[0] == CLOSE_BRACKET then Some(([item], t[1..]))
      else if t[0] != COMMA then None
      else match ReadItems(SkipSpace(t[1..]))
        case None => None
        case Some((more, rest)) => Some(([item] + more, rest))
  }

  /** `json.loads`: one value with nothing but white space around it. */
  function Loads(s: Str): Option<Json> {
    match ReadValue(SkipSpace(s))
    case None => None
    case Some((value, rest)) => if SkipSpace(rest) == [] then Some(value) else None
  }

  /** The value `dict` access gives: the last member of that name. */
  function Lookup(members: seq<(Str, Json)>, name: Str): Option<Json> {
    if members == [] then None
    else if members[|members| - 1].0 == name then Some(members[|members| - 1].1)
    else Lookup(members[..|members| - 1], name)
  }

  /* ---------- strings survive being written and read ---------- */

  lemma EscapeIsAscii(c: CodePoint)
    ensures AllAscii(Escape(c))
  {
  }

  lemma {:induction false} EscapeAllIsAscii(s: Str)
    ensures AllAscii(EscapeAll(s))
  {
    if s != [] {
      EscapeIsAscii(s[0]);
      EscapeAllIsAscii(s[1..]);
    }
  }

  lemma ReadUnicodeEscape(v: nat, rest: Str)
    requires v < 0x10000
    ensures ReadChars(UnicodeEscape(v) + rest)
            == if IsHigh(v) && LowEscapeAt(rest).Some?
                then Prepend(Combine(v, LowEscapeAt(rest).value), ReadChars(rest[6..]))
               else Prepend(v, ReadChars(rest))
  {
    var s := UnicodeEscape(v) + rest;
    assert s[2..] == Hex4(v) + rest && s[6..] == rest;
    Hex4RoundTrip(v, rest);
    if LowEscapeAt(rest).Some? {
      assert s[12..] == rest[6..];
    }
  }

  lemma LowEscapeOf(v: nat, rest: Str)
    requires v < 0x10000
    ensures LowEscapeAt(UnicodeEscape(v) + rest) == if IsLow(v) then Some(v) else None
  {
    assert (UnicodeEscape(v) + rest)[2..] == Hex4(v) + rest;
    Hex4RoundTrip(v, rest);
  }

  lemma LowEscapeOfChar(c: CodePoint, rest: Str)
    ensures LowEscapeAt(Escape(c) + rest) == if IsLow(c) then Some(c) else None
  {
    var t := Escape(c) + rest;
    if ShortEscape(c).Some? || 0x20 <= c < 0x7F {
      assert t[0] == Escape(c)[0] && (ShortEscape(c).Some? ==> t[1] == Escape(c)[1]);
    } else if c < 0x10000 {
      LowEscapeOf(c, rest);
    } else {
      assert t == UnicodeEscape(HighOf(c)) + (UnicodeEscape(LowOf(c)) + rest);
      LowEscapeOf(HighOf(c), UnicodeEscape(LowOf(c)) + rest);
    }
  }

  /** Escaped text starts with a low-surrogate escape exactly when the text starts with a low surrogate. */
  lemma LowEscapeOfText(s: Str, rest: Str)
    ensures LowEscapeAt(EscapeAll(s) + [QUOTE] + rest) == if s != [] && IsLow(s[0]) then Some(s[0]) else None
  {
    if s == [] {
      assert (EscapeAll(s) + [QUOTE] + rest)[0] == QUOTE;
    } else {
      var more := EscapeAll(s[1..]) + [QUOTE] + rest;
      var head := Escape(s[0]);
      assert EscapeAll(s) + [QUOTE] + rest == head + more;
      LowEscapeOfChar(s[0], more);
    }
  }

  lemma ReadEscapedPlain(c: CodePoint, rest: Str)
    requires ShortEscape(c).Some? || 0x20 <= c < 0x7F
    ensures ReadChars(Escape(c) + rest) == Prepend(c, ReadChars(rest))
  {
    var s := Escape(c) + rest;
    if ShortEscape(c).Some? {
      assert s[2..] == rest;
    } else {
      assert s[1..] == rest;
    }
  }

  lemma ReadEscapedAstral(c: CodePoint, rest: Str)
    requires c >= 0x10000
    ensures ReadChars(Escape(c) + rest) == Prepend(c, ReadChars(rest))
  {
    var low := UnicodeEscape(LowOf(c)) + rest;
    assert Escape(c) + rest == UnicodeEscape(HighOf(c)) + low;
    ReadUnicodeEscape(HighOf(c), low);
    LowEscapeOf(LowOf(c), rest);
    assert low[6..] == rest;
    SurrogatePairRoundTrip(c);
  }

  lemma ReadEscapedChar(c: CodePoint, rest: Str)
    requires IsHigh(c) ==> LowEscapeAt(rest).None?
    ensures ReadChars(Escape(c) + rest) == Prepend(c, ReadChars(rest))
  {
    if ShortEscape(c).Some? || 0x20 <= c < 0x7F {
      ReadEscapedPlain(c, rest);
    } else if c < 0x10000 {
      ReadUnicodeEscape(c, rest);
    } else {
      ReadEscapedAstral(c, rest);
    }
  }

  lemma ReadEscapedPair(h: CodePoint, l: CodePoint, rest: Str)
    requires IsHigh(h) && IsLow(l)
    ensures ReadChars(Escape(h) + (Escape(l) + rest)) == Prepend(Combine(h, l), ReadChars(rest))
  {
    hide ReadChars, LowEscapeAt;
    var low := Escape(l) + rest;
    ReadUnicodeEscape(h, low);
    LowEscapeOf(l, rest);
    assert low[6..] == rest;
  }

  lemma ReadClosingQuote(rest: Str)
    ensures ReadChars([QUOTE] + rest) == Some(([], rest))
  {
    assert ([QUOTE] + rest)[1..] == rest;
  }

  /** Reading back what was written yields the text with its split surrogate pairs joined, and nothing more. */
  lemma {:induction false} ReadEscaped(s: Str, rest: Str)
    ensures ReadChars(EscapeAll(s) + [QUOTE] + rest) == Some((Join(s), rest))
    decreases |s|
  {
    hide Escape, ReadChars, LowEscapeAt;
    if s == [] {
      assert EscapeAll(s) + [QUOTE] + rest == [QUOTE] + rest;
      ReadClosingQuote(rest);
    } else if |s| >= 2 && IsHigh(s[0]) && IsLow(s[1]) {
      assert s[1..][1..] == s[2..];
      var more := EscapeAll(s[2..]) + [QUOTE] + rest;
      assert EscapeAll(s) + [QUOTE] + rest == Escape(s[0]) + (Escape(s[1]) + more);
      ReadEscapedPair(s[0], s[1], more);
      ReadEscaped(s[2..], rest);
    } else {
      var more := EscapeAll(s[1..]) + [QUOTE] + rest;
      assert EscapeAll(s) + [QUOTE] + rest == Escape(s[0]) + more;
      LowEscapeOfText(s[1..], rest);
      ReadEscapedChar(s[0], more);
      ReadEscaped(s[1..], rest);
    }
  }

  lemma EscapeOfCombined(h: CodePoint, l: CodePoint)
    requires IsHigh(h) && IsLow(l)
    ensures Escape(Combine(h, l)) == Escape(h) + Escape(l)
  {
    CombineRoundTrip(h, l);
  }

  lemma EscapeAllCons(c: CodePoint, s: Str)
    ensures EscapeAll([c] + s) == Escape(c) + EscapeAll(s)
  {
    assert ([c] + s)[1..] == s;
  }

  /** Joining pairs does not change what is written. */
  lemma {:induction false} EscapeForgetsJoin(s: Str)
    ensures EscapeAll(Join(s)) == EscapeAll(s)
    decreases |s|
  {
    hide Escape;
    if |s| >= 2 && IsHigh(s[0]) && IsLow(s[1]) {
      EscapeForgetsJoin(s[2..]);
      EscapeOfCombined(s[0], s[1]);
      EscapeAllCons(Combine(s[0], s[1]), Join(s[2..]));
      assert s == [s[0]] + ([s[1]] + s[2..]);
      EscapeAllCons(s[0], [s[1]] + s[2..]);
      EscapeAllCons(s[1], s[2..]);
    } else if s != [] {
      EscapeForgetsJoin(s[1..]);
      EscapeAllCons(s[0], Join(s[1..]));
    }
  }

  /** Text is its own joined form exactly when it splits no surrogate pair. */
  lemma {:induction false} JoinIsIdentityExactly(s: Str)
    ensures |Join(s)| <= |s|
    ensures Join(s) == s <==> !SplitsPair(s)
    decreases |s|
  {
    if |s| >= 2 && IsHigh(s[0]) && IsLow(s[1]) {
      JoinIsIdentityExactly(s[2..]);
    } else if s != [] {
      JoinIsIdentityExactly(s[1..]);
      if SplitsPair(s) {
        var i :| 0 <= i < |s| - 1 && IsHigh(s[i]) && IsLow(s[i + 1]);
        assert IsHigh(s[1..][i - 1]) && IsLow(s[1..][i - 1 + 1]);
      }
      if SplitsPair(s[1..]) {
        var i :| 0 <= i < |s[1..]| - 1 && IsHigh(s[1..][i]) && IsLow(s[1..][i + 1]);
        assert IsHigh(s[i + 1]) && IsLow(s[i + 1 + 1]);
      }
      assert Join(s)[1..] == Join(s[1..]);
    }
  }

  /* ---------- numbers and literals ---------- */

  lemma ReadDigits(n: nat, rest: Str)
    requires rest != [] && (rest[0] == COMMA || rest[0] == CLOSE_BRACE)
    ensures ReadUnsigned(Digits(n) + rest) == Some((JInt(n), rest))
  {
    DigitsDenote(n);
    var s := Digits(n) + rest;
    LeadingDigitsOf(Digits(n), rest);
    var k := |Digits(n)|;
    assert s[0] == Digits(n)[0] && s[..k] == Digits(n) && s[k..] == rest;
  }

  lemma ReadsAsNumber(s: Str)
    requires s != [] && (s[0] == MINUS || IsDigit(s[0]))
    ensures ReadValue(s) == ReadNumber(s)
  {
    assert !(NULL <= s) by { assert NULL[0] == 0x6E; }
    assert !(TRUE <= s) by { assert TRUE[0] == 0x74; }
    assert !(FALSE <= s) by { assert FALSE[0] == 0x66; }
  }

  lemma ReadSigned(t: Str, j: Json, rest: Str)
    requires t != [] && t[0] != MINUS && ReadUnsigned(t) == Some((j, rest))
    ensures ReadNumber(t) == Some((j, rest)) && ReadNumber([MINUS] + t) == Some((Negated(j), rest))
  {
    assert ([MINUS] + t)[1..] == t;
  }

  lemma ReadDecimal(n: int, rest: Str)
    requires rest != [] && (rest[0] == COMMA || rest[0] == CLOSE_BRACE)
    ensures ReadValue(Decimal(n) + rest) == Some((JInt(n), rest))
  {
    hide ReadUnsigned, ReadNumber, ReadValue;
    var size := if n < 0 then -n else n;
    var t := Digits(size) + rest;
    DigitsDenote(size);
    assert IsDigit(Digits(size)[0]) && t[0] == Digits(size)[0];
    ReadDigits(size, rest);
    ReadSigned(t, JInt(size), rest);
    if n < 0 {
      assert Decimal(n) + rest == [MINUS] + t;
    }
    ReadsAsNumber(Decimal(n) + rest);
  }

  lemma ReadNull(rest: Str)
    ensures ReadValue(NULL + rest) == Some((JNull, rest))
  {
    var s := NULL + rest;
    assert s[0] == 0x6E && s[4..] == rest;
  }

  lemma ReadString(text: Str, rest: Str)
    ensures ReadValue(Quoted(text) + rest) == Some((JStr(Join(text)), rest))
  {
    var s := Quoted(text) + rest;
    assert s[1..] == EscapeAll(text) + [QUOTE] + rest;
    ReadEscaped(text, rest);
  }

  lemma NoSpaceToSkip(s: Str)
    requires s != [] && !IsJsonSpace(s[0])
    ensures SkipSpace(s) == s
  {
  }

  lemma ReadMemberParts(s: Str, name: Str, t: Str, value: Json, rest: Str)
    requires s != [] && s[0] == QUOTE && ReadChars(s[1..]).Some? && ReadChars(s[1..]).value.0 == name
    requires t == SkipSpace(ReadChars(s[1..]).value.1) && t != [] && t[0] == COLON
    requires ReadValue(SkipSpace(t[1..])) == Some((value, rest))
    ensures ReadMember(s) == Some(((name, value), rest))
  {
  }

  lemma ReadQuoted(text: Str, tail: Str)
    ensures var s := Quoted(text) + tail; s[0] == QUOTE && ReadChars(s[1..]) == Some((Join(text), tail))
  {
    assert (Quoted(text) + tail)[1..] == EscapeAll(text) + [QUOTE] + tail;
    ReadEscaped(text, tail);
  }

  /** A member written without spaces is read back, given that its value is. */
  lemma ReadWrittenMember(name: Str, after: Str, value: Json, rest: Str)
    requires after != [] && !IsJsonSpace(after[0]) && ReadValue(after) == Some((value, rest))
    ensures ReadMember(Quoted(name) + ([COLON] + after)) == Some(((Join(name), value), rest))
  {
    var tail := [COLON] + after;
    ReadQuoted(name, tail);
    NoSpaceToSkip(tail);
    NoSpaceToSkip(after);
    assert tail[1..] == after;
    ReadMemberParts(Quoted(name) + tail, Join(name), tail, value, rest);
  }

  /** An object cannot start with a control character other than white space. */
  lemma ControlAfterBraceFails(s: Str)
    requires |s| >= 2 && s[0] == OPEN_BRACE && s[1] < 0x20 && !IsJsonSpace(s[1])
    ensures Loads(s) == None
  {
    NoSpaceToSkip(s);
    var t := s[1..];
    NoSpaceToSkip(t);
    assert ReadMember(t) == None;
    assert ReadMembers(t) == None;
    assert ReadValue(s) == None;
  }
}
