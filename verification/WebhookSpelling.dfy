/** How a bearer record may be spelled, and how it is written: white space and number forms a configured secret may
    use, the exact canonical text, and the alphabets underneath (alerts/webhook_bearer.py,
    scripts/python/generate_webhook_bearer_token.py). */
module WebhookSpelling {
  import opened Prelude
  import opened Text
  import opened Json
  import opened Base64Url
  import opened WebhookBearer

  /* ---------- a secret with white space in it ---------- */

  /** The white space of section 2 of RFC 8259. */
  predicate IsGap(gap: Str) {
    forall i | 0 <= i < |gap| :: gap[i] in {0x20, 0x09, 0x0A, 0x0D}
  }

  function SpacedMember(name: Str, gap: Str, value: Str, rest: Str): Str {
    Quoted(name) + ([COLON] + (gap + (value + rest)))
  }

  /** A comma, a gap and what follows. */
  function Then(gap: Str, next: Str): Str {
    [COMMA] + (gap + next)
  }

  function SpacedWarn(r: Record, colon: Str): Str { SpacedMember(WARN, colon, Decimal(r.warn), [CLOSE_BRACE]) }
  function SpacedKey(r: Record, colon: Str, comma: Str): Str {
    SpacedMember(KEY, colon, Quoted(r.key), Then(comma, SpacedWarn(r, colon)))
  }
  function SpacedIat(r: Record, colon: Str, comma: Str): Str {
    SpacedMember(IAT, colon, Decimal(r.iat), Then(comma, SpacedKey(r, colon, comma)))
  }
  function SpacedExp(r: Record, colon: Str, comma: Str): Str {
    SpacedMember(EXP, colon, ExpText(r.exp), Then(comma, SpacedIat(r, colon, comma)))
  }

  /** The record's text with a gap after every colon, and one after the brace and every comma. */
  function SpacedText(r: Record, colon: Str, comma: Str): Str {
    [OPEN_BRACE] + (comma + SpacedExp(r, colon, comma))
  }

  lemma {:induction false} SkipsGap(gap: Str, s: Str)
    requires IsGap(gap) && s != [] && !IsJsonSpace(s[0])
    ensures SkipSpace(gap + s) == s
  {
    if gap == [] {
      assert gap + s == s;
    } else {
      SkipsGap(gap[1..], s);
      assert (gap + s)[0] == gap[0] && (gap + s)[1..] == gap[1..] + s;
    }
  }

  lemma SpacedMemberReads(name: Str, gap: Str, value: Str, j: Json, rest: Str)
    requires AllAscii(name) && IsGap(gap) && value != [] && !IsJsonSpace(value[0])
    requires ReadValue(value + rest) == Some((j, rest))
    ensures SpacedMember(name, gap, value, rest) != [] && SpacedMember(name, gap, value, rest)[0] == QUOTE
    ensures ReadMember(SpacedMember(name, gap, value, rest)) == Some(((name, j), rest))
  {
    hide ReadValue, ReadMember, ReadChars, SkipSpace, EscapeAll;
    PlainNameJoins(name);
    var after := gap + (value + rest);
    var tail := [COLON] + after;
    ReadQuoted(name, tail);
    NoSpaceToSkip(tail);
    SkipsGap(gap, value + rest);
    assert tail[1..] == after;
    ReadMemberParts(Quoted(name) + tail, name, tail, j, rest);
  }

  lemma SpacedFurtherReads(s: Str, m: (Str, Json), gap: Str, t: Str, more: Members, rest: Str)
    requires IsGap(gap) && t != [] && t[0] == QUOTE
    requires ReadMember(s) == Some((m, Then(gap, t))) && ReadMembers(t) == Some((more, rest))
    ensures ReadMembers(s) == Some(([m] + more, rest))
  {
    NoSpaceToSkip(Then(gap, t));
    assert Then(gap, t)[1..] == gap + t;
    SkipsGap(gap, t);
  }

  lemma SpacedPartReads(name: Str, colon: Str, value: Str, j: Json, comma: Str, next: Str, more: Members)
    requires AllAscii(name) && IsGap(colon) && IsGap(comma) && value != [] && !IsJsonSpace(value[0])
    requires ReadValue(value + Then(comma, next)) == Some((j, Then(comma, next)))
    requires next != [] && next[0] == QUOTE && ReadMembers(next) == Some((more, []))
    ensures var part := SpacedMember(name, colon, value, Then(comma, next));
            part != [] && part[0] == QUOTE && ReadMembers(part) == Some(([(name, j)] + more, []))
  {
    hide ReadValue, ReadMember, ReadMembers, Then;
    SpacedMemberReads(name, colon, value, j, Then(comma, next));
    SpacedFurtherReads(SpacedMember(name, colon, value, Then(comma, next)), (name, j), comma, next, more, []);
  }

  lemma ThenStarts(gap: Str, next: Str)
    ensures Then(gap, next) != [] && Then(gap, next)[0] == COMMA
  {
  }

  lemma SpacedWarnReads(r: Record, colon: Str)
    requires IsGap(colon)
    ensures SpacedWarn(r, colon) != [] && SpacedWarn(r, colon)[0] == QUOTE
    ensures ReadMembers(SpacedWarn(r, colon)) == Some(([(WARN, JInt(r.warn))], []))
  {
    hide ReadValue, ReadMember, ReadMembers, Decimal;
    DecimalStarts(r.warn);
    ReadDecimal(r.warn, [CLOSE_BRACE]);
    SpacedMemberReads(WARN, colon, Decimal(r.warn), JInt(r.warn), [CLOSE_BRACE]);
    assert [CLOSE_BRACE] == [CLOSE_BRACE] + [];
    LastMemberReads(SpacedWarn(r, colon), (WARN, JInt(r.warn)), []);
  }

  lemma SpacedKeyReads(r: Record, colon: Str, comma: Str)
    requires IsGap(colon) && IsGap(comma)
    ensures SpacedKey(r, colon, comma) != [] && SpacedKey(r, colon, comma)[0] == QUOTE
    ensures ReadMembers(SpacedKey(r, colon, comma)) == Some((MembersOf(r)[2..], []))
  {
    hide ReadMembers, ReadValue, SpacedWarn, Join, Then, SpacedMember;
    SpacedWarnReads(r, colon);
    ReadString(r.key, Then(comma, SpacedWarn(r, colon)));
    SpacedPartReads(KEY, colon, Quoted(r.key), JStr(Join(r.key)), comma, SpacedWarn(r, colon), [(WARN, JInt(r.warn))]);
    assert [(KEY, JStr(Join(r.key)))] + [(WARN, JInt(r.warn))] == MembersOf(r)[2..];
  }

  lemma SpacedIatReads(r: Record, colon: Str, comma: Str)
    requires IsGap(colon) && IsGap(comma)
    ensures SpacedIat(r, colon, comma) != [] && SpacedIat(r, colon, comma)[0] == QUOTE
    ensures ReadMembers(SpacedIat(r, colon, comma)) == Some((MembersOf(r)[1..], []))
  {
    hide ReadMembers, ReadValue, SpacedKey, Join, Decimal, Then, SpacedMember;
    SpacedKeyReads(r, colon, comma);
    DecimalStarts(r.iat);
    ThenStarts(comma, SpacedKey(r, colon, comma));
    ReadDecimal(r.iat, Then(comma, SpacedKey(r, colon, comma)));
    SpacedPartReads(IAT, colon, Decimal(r.iat), JInt(r.iat), comma, SpacedKey(r, colon, comma), MembersOf(r)[2..]);
    assert [(IAT, JInt(r.iat))] + MembersOf(r)[2..] == MembersOf(r)[1..];
  }

  lemma SpacedExpReads(r: Record, colon: Str, comma: Str)
    requires IsGap(colon) && IsGap(comma)
    ensures SpacedExp(r, colon, comma) != [] && SpacedExp(r, colon, comma)[0] == QUOTE
    ensures ReadMembers(SpacedExp(r, colon, comma)) == Some((MembersOf(r), []))
  {
    hide ReadMembers, ReadValue, SpacedIat, Join, Decimal, Then, SpacedMember;
    SpacedIatReads(r, colon, comma);
    ThenStarts(comma, SpacedIat(r, colon, comma));
    if r.exp.None? {
      ReadNull(Then(comma, SpacedIat(r, colon, comma)));
    } else {
      DecimalStarts(r.exp.value);
      ReadDecimal(r.exp.value, Then(comma, SpacedIat(r, colon, comma)));
    }
    SpacedPartReads(EXP, colon, ExpText(r.exp), MembersOf(r)[0].1, comma, SpacedIat(r, colon, comma),
        MembersOf(r)[1..]);
    assert [MembersOf(r)[0]] + MembersOf(r)[1..] == MembersOf(r);
  }

  /** White space after the brace, colons and commas changes nothing: the text reads as the same four members. */
  lemma SpacedTextLoads(r: Record, colon: Str, comma: Str)
    requires IsGap(colon) && IsGap(comma)
    ensures Loads(SpacedText(r, colon, comma)) == Some(JObj(MembersOf(r)))
  {
    hide SpacedExp, ReadMembers, MembersOf;
    var s := SpacedText(r, colon, comma);
    SpacedExpReads(r, colon, comma);
    assert s[1..] == comma + SpacedExp(r, colon, comma);
    NoSpaceToSkip(s);
    SkipsGap(comma, SpacedExp(r, colon, comma));
    assert ReadValue(s) == Some((JObj(MembersOf(r)), []));
  }

  lemma SpacedTextEnds(r: Record, colon: Str, comma: Str)
    ensures var s := SpacedText(r, colon, comma); s != [] && s[0] == OPEN_BRACE && s[|s| - 1] == CLOSE_BRACE
  {
    hide Quoted, Decimal, ExpText;
  }

  /** A secret configured with such spacing is the record's own: it compares equal to every token of the record. */
  lemma SpacedSecretIsItsRecord(r: Record, colon: Str, comma: Str)
    requires r.key != [] && IsGap(colon) && IsGap(comma)
    ensures ExpectedBytes(SpacedText(r, colon, comma)) == Some(CanonicalBytes(r))
    ensures Matches(BearerToken(r), SpacedText(r, colon, comma))
  {
    hide SpacedText, Loads, Coerce, MembersOf, Strip, CanonicalText, ParseHeader, BearerToken;
    SpacedTextLoads(r, colon, comma);
    SpacedTextEnds(r, colon, comma);
    StripKeeps(SpacedText(r, colon, comma));
    CanonicalReadsBack(r);
    RecanonicalizingIsIdentity(r);
    BearerRoundTrip(r);
  }

  /* ---------- the forms of a value ---------- */

  lemma {:induction false} DigitsOnlyOfDigits(s: Str)
    requires forall i | 0 <= i < |s| :: IsDigit(s[i])
    ensures DigitsOnly(s) == s
  {
    if s != [] {
      DigitsOnlyOfDigits(s[1..]);
    }
  }

  lemma DigitsAreNumber(d: Str)
    requires d != [] && forall i | 0 <= i < |d| :: IsDigit(d[i])
    ensures IsUnderscoredDigits(d) && DigitsOnly(d) == d
  {
    DigitsOnlyOfDigits(d);
  }

  lemma DecimalStripped(n: int)
    ensures Strip(Decimal(n)) == Decimal(n) != []
  {
    hide Strip;
    var size := if n < 0 then -n else n;
    DigitsDenote(size);
    assert forall i | 0 <= i < |Digits(size)| :: IsDigit(Digits(size)[i]);
    StripKeeps(Decimal(n));
  }

  lemma DecimalParts(n: int)
    ensures var d := Digits(if n < 0 then -n else n);
            && d != [] && d[0] != MINUS && d[0] != 0x2B
            && Decimal(n) != [] && (n < 0 ==> Decimal(n)[0] == MINUS && Decimal(n)[1..] == d)
                && (n >= 0 ==> Decimal(n) == d)
  {
    DigitsDenote(if n < 0 then -n else n);
    assert IsDigit(Digits(if n < 0 then -n else n)[0]);
  }

  lemma TextOfNumber(n: int)
    ensures IntOfText(Decimal(n)) == Some(n)
  {
    hide Strip, Digits, Decimal, DigitsOnly, IsUnderscoredDigits, ValueOf;
    var size := if n < 0 then -n else n;
    DigitsDenote(size);
    DecimalStripped(n);
    DecimalParts(n);
    DigitsAreNumber(Digits(size));
  }

  /** A number counts the same as an integer, a float or text; `true` and `false` count as 1 and 0. */
  lemma NumberForms(n: int)
    ensures IntOf(JInt(n)) == IntOf(JReal(n as real)) == IntOf(JStr(Decimal(n))) == Some(n)
    ensures IntOf(JBool(true)) == Some(1) && IntOf(JBool(false)) == Some(0)
    ensures IntOf(JNull) == None && IntOf(JStr([])) == None
  {
    TextOfNumber(n);
    WholeReal(n);
    hide IntOfText, Decimal, Truncate;
    BlankIsNoNumber();
  }

  lemma WholeReal(n: int)
    ensures Truncate(n as real) == n
  {
    assert (-(n as real)) == (-n) as real;
  }

  lemma BlankIsNoNumber()
    ensures IntOfText([]) == None
  {
  }

  const POINT_ZERO: Str := [0x2E, 0x30]

  lemma PointZeroReads(rest: Str)
    requires rest != [] && (rest[0] == COMMA || rest[0] == CLOSE_BRACE)
    ensures ReadFraction(POINT_ZERO + rest) == Some((1, 0, rest)) && ReadExponent(rest) == None
  {
    var s := POINT_ZERO + rest;
    assert s[1..] == [0x30] + rest;
    LeadingDigitsOf([0x30], rest);
    assert s[1..][..1] == [0x30] && s[2..] == rest;
    assert ValueOf([0x30]) == 0 by {
      assert [0x30][..0] == [];
    }
  }

  lemma UnsignedPointZeroReads(n: nat, rest: Str)
    requires rest != [] && (rest[0] == COMMA || rest[0] == CLOSE_BRACE)
    ensures ReadUnsigned(Digits(n) + (POINT_ZERO + rest)) == Some((JReal(n as real), rest))
  {
    hide Digits, ReadFraction, ReadExponent, ValueOf, LeadingDigits;
    DigitsDenote(n);
    PointZeroReads(rest);
    var s := Digits(n) + (POINT_ZERO + rest);
    LeadingDigitsOf(Digits(n), POINT_ZERO + rest);
    var k := |Digits(n)|;
    assert s[0] == Digits(n)[0] && s[..k] == Digits(n) && s[k..] == POINT_ZERO + rest;
    assert ScaleByTen(0 as real, -1) == 0.0;
  }

  lemma PointZeroNumber(n: int, rest: Str)
    requires rest != [] && (rest[0] == COMMA || rest[0] == CLOSE_BRACE)
    ensures ReadValue(Decimal(n) + (POINT_ZERO + rest)) == Some((JReal(n as real), rest))
  {
    hide ReadUnsigned, ReadNumber, ReadValue, Digits, IntOf;
    var size := if n < 0 then -n else n;
    var t := Digits(size) + (POINT_ZERO + rest);
    DigitsDenote(size);
    assert IsDigit(Digits(size)[0]) && t[0] == Digits(size)[0];
    UnsignedPointZeroReads(size, rest);
    ReadSigned(t, JReal(size as real), rest);
    if n < 0 {
      assert Decimal(n) + (POINT_ZERO + rest) == [MINUS] + t;
    }
    ReadsAsNumber(Decimal(n) + (POINT_ZERO + rest));
  }

  /** `30.0` in a payload counts as `30` does. */
  lemma PointZeroIsWhole(n: int, rest: Str)
    requires rest != [] && (rest[0] == COMMA || rest[0] == CLOSE_BRACE)
    ensures ReadValue(Decimal(n) + (POINT_ZERO + rest)) == Some((JReal(n as real), rest))
    ensures ReadValue(Decimal(n) + rest) == Some((JInt(n), rest)) && IntOf(JReal(n as real)) == IntOf(JInt(n))
  {
    hide ReadValue, Decimal;
    PointZeroNumber(n, rest);
    ReadDecimal(n, rest);
    WholeReal(n);
  }

  /** A float loses its fraction, towards zero. */
  lemma FractionsAreDropped(n: int, part: real)
    requires 0 <= n && 0.0 <= part < 1.0
    ensures IntOf(JReal(n as real + part)) == Some(n) && IntOf(JReal(-(n as real + part))) == Some(-n)
  {
    assert (n as real + part).Floor == n;
  }

  /** A key counts the same as a number and as its text. */
  lemma KeyForms(n: int, s: Str)
    ensures StrOf(JInt(n)) == StrOf(JStr(Decimal(n))) && StrOf(JStr(s)) == Some(s)
    ensures StrOf(JBool(true)) == Some(Lit("True")) && StrOf(JBool(false)) == Some(Lit("False"))
        && StrOf(JNull) == Some(Lit("None"))
  {
    assert TRUE_NAME == Lit("True") && FALSE_NAME == Lit("False") && NONE_NAME == Lit("None");
  }

  /** A payload is coerced iff all four fields are there, three of them are numbers (`exp` may be null) and the key
      is not empty; each field of the record comes from the member of its own name. */
  lemma CoercesExactly(members: Members, r: Record)
    ensures Coerce(members) == Some(r) <==>
              && r.key != []
              && (exists j :: Lookup(members, Lit("iat")) == Some(j) && IntOf(j) == Some(r.iat))
              && (exists j :: Lookup(members, Lit("warn")) == Some(j) && IntOf(j) == Some(r.warn))
              && (exists j :: Lookup(members, Lit("key")) == Some(j) && StrOf(j) == Some(r.key))
              && (exists j ::
                    && Lookup(members, Lit("exp")) == Some(j)
                    && (if j == JNull then r.exp == None else r.exp.Some? && IntOf(j) == r.exp))
  {
    hide IntOf, StrOf, Lookup, Lit;
    FieldSpellings();
  }

  lemma FieldSpellings()
    ensures IAT == Lit("iat") && EXP == Lit("exp") && KEY == Lit("key") && WARN == Lit("warn")
  {
  }

  /* ---------- what is written ---------- */

  lemma {:induction false} PlainTextEscapes(s: Str)
    requires forall i | 0 <= i < |s| :: 0x20 <= s[i] < 0x7F && s[i] != QUOTE && s[i] != BACKSLASH
    ensures EscapeAll(s) == s
  {
    if s != [] {
      PlainTextEscapes(s[1..]);
    }
  }

  lemma NamesEscape()
    ensures Quoted(EXP) == Lit("\"exp\"") && Quoted(IAT) == Lit("\"iat\"") && Quoted(KEY) == Lit("\"key\"")
        && Quoted(WARN) == Lit("\"warn\"")
  {
    hide EscapeAll;
    PlainTextEscapes(EXP);
    PlainTextEscapes(IAT);
    PlainTextEscapes(KEY);
    PlainTextEscapes(WARN);
  }

  lemma Regroup(a: Str, b: Str, c: Str, x: Str, abc: Str)
    requires abc == a + b + c
    ensures a + (b + (c + x)) == abc + x
  {
  }

  lemma LiteralParts()
    ensures Lit("{\"exp\":") == [OPEN_BRACE] + Lit("\"exp\"") + [COLON]
    ensures Lit(",\"iat\":") == [COMMA] + Lit("\"iat\"") + [COLON]
    ensures Lit(",\"key\":") == [COMMA] + Lit("\"key\"") + [COLON]
    ensures Lit(",\"warn\":") == [COMMA] + Lit("\"warn\"") + [COLON]
    ensures Lit("}") == [CLOSE_BRACE] && Lit("null") == NULL && Lit("\"") == [QUOTE]
  {
  }

  /** The canonical text, character by character: the four fields in alphabetical order, without spaces. */
  lemma CanonicalShape(r: Record)
    ensures CanonicalText(r) ==
              Lit("{\"exp\":") + ((if r.exp.None? then Lit("null") else Decimal(r.exp.value)) + (
              Lit(",\"iat\":") + (Decimal(r.iat) + (
              Lit(",\"key\":") + ((Lit("\"") + EscapeAll(r.key) + Lit("\"")) + (
              Lit(",\"warn\":") + (Decimal(r.warn) + Lit("}"))))))))
  {
    NamesEscape();
    LiteralParts();
    hide EscapeAll, Decimal, Lit;
    var w := Decimal(r.warn) + [CLOSE_BRACE];
    Regroup([COMMA], Quoted(WARN), [COLON], w, Lit(",\"warn\":"));
    var k := Quoted(r.key) + ([COMMA] + WarnPart(r));
    Regroup([COMMA], Quoted(KEY), [COLON], k, Lit(",\"key\":"));
    var i := Decimal(r.iat) + ([COMMA] + KeyPart(r));
    Regroup([COMMA], Quoted(IAT), [COLON], i, Lit(",\"iat\":"));
    var e := ExpText(r.exp) + ([COMMA] + IatPart(r));
    Regroup([OPEN_BRACE], Quoted(EXP), [COLON], e, Lit("{\"exp\":"));
  }

  /** `\uXXXX` */
  function HexEscape(v: nat): Str
    requires v < 0x10000
  {
    [0x5C, 'u' as int, LowerHex(v / 4096), LowerHex(v / 256 % 16), LowerHex(v / 16 % 16), LowerHex(v % 16)]
  }

  function LowerHex(d: nat): CodePoint
    requires d < 16
  {
    if d < 10 then '0' as int + d else 'a' as int + (d - 10)
  }

  lemma UnicodeEscapeIsHex(v: nat)
    requires v < 0x10000
    ensures UnicodeEscape(v) == HexEscape(v)
  {
  }

  /** Escapes as `json.dumps` writes them: the seven short forms, printable ASCII as itself, everything else as
      lower-case hexadecimal, beyond 16 bits as a surrogate pair. */
  lemma EscapesExactly(c: CodePoint)
    ensures Escape(c) ==
              if c == 0x22 then [0x5C, 0x22]
              else if c == 0x5C then [0x5C, 0x5C]
              else if c == 0x08 then [0x5C, 'b' as int]
              else if c == 0x0C then [0x5C, 'f' as int]
              else if c == 0x0A then [0x5C, 'n' as int]
              else if c == 0x0D then [0x5C, 'r' as int]
              else if c == 0x09 then [0x5C, 't' as int]
              else if 0x20 <= c <= 0x7E then [c]
              else if c < 0x10000 then HexEscape(c)
              else HexEscape(0xD800 + (c - 0x10000) / 0x400) + HexEscape(0xDC00 + (c - 0x10000) % 0x400)
  {
    if c < 0x10000 {
      UnicodeEscapeIsHex(c);
    } else {
      UnicodeEscapeIsHex(HighOf(c));
      UnicodeEscapeIsHex(LowOf(c));
    }
    hide UnicodeEscape, HexEscape;
  }

  /** The URL-safe alphabet (table 2 of RFC 4648). */
  lemma Alphabet(v: nat)
    requires v < 64
    ensures v < 26 ==> Symbol(v) == 'A' as int + v
    ensures 26 <= v < 52 ==> Symbol(v) == 'a' as int + (v - 26)
    ensures 52 <= v < 62 ==> Symbol(v) == '0' as int + (v - 52)
    ensures v == 62 ==> Symbol(v) == '-' as int
    ensures v == 63 ==> Symbol(v) == '_' as int
  {
  }

  /** Four symbols are the 24 bits of three bytes, most significant first; a last group of one or two bytes is what a
      group padded with zero bytes starts with (section 4 of RFC 4648). */
  lemma GroupsAreBits(a: Byte, b: Byte, c: Byte)
    ensures var g := Group(a, b, c);
            && SymbolValue(g[0]).Some? && SymbolValue(g[1]).Some? && SymbolValue(g[2]).Some? && SymbolValue(g[3]).Some?
            && SymbolValue(g[0]).value * 0x40000 + SymbolValue(g[1]).value * 0x1000 + SymbolValue(g[2]).value * 0x40
               + SymbolValue(g[3]).value == a as int * 0x10000 + b as int * 0x100 + c as int
    ensures EncodeNoPad([a]) == Group(a, 0, 0)[..2] && EncodeNoPad([a, b]) == Group(a, b, 0)[..3]
    ensures EncodeNoPad([a, b, c]) == Group(a, b, c)
  {
    SymbolRoundTrip(a / 4);
    SymbolRoundTrip(a % 4 * 16 + b / 16);
    SymbolRoundTrip(b % 16 * 4 + c / 64);
    SymbolRoundTrip(c % 64);
    assert [a, b, c][3..] == [];
    assert a as int == a / 4 * 4 + a % 4 && b as int == b / 16 * 16 + b % 16 && c as int == c / 64 * 64 + c % 64;
  }

  /* ---------- the header ---------- */

  lemma {:induction false} StripsBefore(gap: Str, s: Str)
    requires (forall i | 0 <= i < |gap| :: IsSpace(gap[i])) && s != [] && !IsSpace(s[0]) && !IsSpace(s[|s| - 1])
    ensures Strip(gap + s) == s
  {
    if gap == [] {
      assert gap + s == s;
      StripKeeps(s);
    } else {
      StripsBefore(gap[1..], s);
      assert (gap + s)[0] == gap[0] && (gap + s)[1..] == gap[1..] + s;
    }
  }

  /** `Bearer` may be written in any case and be followed by more spaces. */
  lemma BearerInAnyCase(prefix: Str, gap: Str, s: Str)
    requires |prefix| == 7 && forall i | 0 <= i < 7 :: Lower(prefix[i]) == Lit("bearer ")[i]
    requires (forall i | 0 <= i < |gap| :: IsSpace(gap[i])) && s != [] && !IsSpace(s[0]) && !IsSpace(s[|s| - 1])
    ensures StripBearerPrefix(prefix + (gap + s)) == s
  {
    hide Strip;
    var v := prefix + (gap + s);
    assert v[|v| - 1] == s[|s| - 1] && v[0] == prefix[0] && Lower(prefix[0]) == 'b' as int;
    StripKeeps(v);
    StripsBefore(gap, s);
    assert v[7..] == gap + s;
    assert BEARER_LOWER == Lit("bearer ");
    forall i | 0 <= i < 7 ensures Lower(v[i]) == BEARER_LOWER[i] {
      assert v[i] == prefix[i];
    }
  }
}
