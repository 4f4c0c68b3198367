/** The webhook bearer record: canonical JSON, the two accepted token forms, and the comparison with the configured
    secret (alerts/webhook_bearer.py, scripts/python/generate_webhook_bearer_token.py). */
module WebhookBearer {
  import opened Prelude
  import opened Text
  import opened Json
  import opened Base64Url

  /** A bearer record after coercion of its fields. */
  datatype Record = Record(exp: Option<int>, iat: int, key: Str, warn: int)

  type Members = seq<(Str, Json)>

  const EXP: Str := [0x65, 0x78, 0x70]
  const IAT: Str := [0x69, 0x61, 0x74]
  const KEY: Str := [0x6B, 0x65, 0x79]
  const WARN: Str := [0x77, 0x61, 0x72, 0x6E]
  const BEARER_LOWER: Str := [0x62, 0x65, 0x61, 0x72, 0x65, 0x72, 0x20]
  const BEARER: Str := [0x42, 0x65, 0x61, 0x72, 0x65, 0x72, 0x20]
  const TRUE_NAME: Str := [0x54, 0x72, 0x75, 0x65]
  const FALSE_NAME: Str := [0x46, 0x61, 0x6C, 0x73, 0x65]
  const NONE_NAME: Str := [0x4E, 0x6F, 0x6E, 0x65]

  /* ---------- coercion ---------- */

  function Truncate(r: real): int {
    if r >= 0.0 then r.Floor else -((-r).Floor)
  }

  /** Digits in which single underscores may separate digits, as `int(str)` accepts them. */
  predicate IsUnderscoredDigits(s: Str) {
    s != [] && IsDigit(s[|s| - 1]) &&
    forall i | 0 <= i < |s| :: IsDigit(s[i]) || (s[i] == 0x5F && 0 < i && IsDigit(s[i - 1]))
  }

  function DigitsOnly(s: Str): (d: Str)
    ensures forall i | 0 <= i < |d| :: IsDigit(d[i])
  {
    if s == [] then [] else (if IsDigit(s[0]) then [s[0]] else []) + DigitsOnly(s[1..])
  }

  function IntOfText(s: Str): Option<int> {
    var t := Strip(s);
    var signed := t != [] && (t[0] == MINUS || t[0] == 0x2B);
    var body := if signed then t[1..] else t;
    if !IsUnderscoredDigits(body) then None
    else
      var v: int := ValueOf(DigitsOnly(body));
      Some(if signed && t[0] == MINUS then -v else v)
  }

  /** `int(value)` */
  function IntOf(j: Json): Option<int> {
    match j
    case JInt(n) => Some(n)
    case JReal(r) => Some(Truncate(r))
    case JBool(b) => Some(if b then 1 else 0)
    case JStr(s) => IntOfText(s)
    case _ => None
  }

  /** `str(value)`, for the values whose text does not depend on Python's float and container formatting. */
  function StrOf(j: Json): Option<Str> {
    match j
    case JStr(s) => Some(s)
    case JInt(n) => Some(Decimal(n))
    case JBool(b) => Some(if b then TRUE_NAME else FALSE_NAME)
    case JNull => Some(NONE_NAME)
    case _ => None
  }

  /** The coerced record of a parsed object, or none where the source raises. */
  function Coerce(members: Members): Option<Record> {
    match (Lookup(members, IAT), Lookup(members, EXP), Lookup(members, WARN), Lookup(members, KEY))
    case (Some(iat), Some(exp), Some(warn), Some(key)) =>
      (match (IntOf(iat), IntOf(exp), IntOf(warn), StrOf(key))
       case (Some(i), e, Some(w), Some(k)) =>
         if k == [] || (exp != JNull && e.None?) then None
         else Some(Record(if exp == JNull then None else e, i, k, w))
       case _ => None)
    case _ => None
  }

  /* ---------- canonical text ---------- */

  function ExpText(exp: Option<int>): Str {
    if exp.None? then NULL else Decimal(exp.value)
  }

  function Member(name: Str, value: Str, rest: Str): Str {
    Quoted(name) + ([COLON] + (value + rest))
  }

  function WarnPart(r: Record): Str { Member(WARN, Decimal(r.warn), [CLOSE_BRACE]) }
  function KeyPart(r: Record): Str { Member(KEY, Quoted(r.key), [COMMA] + WarnPart(r)) }
  function IatPart(r: Record): Str { Member(IAT, Decimal(r.iat), [COMMA] + KeyPart(r)) }
  function ExpPart(r: Record): Str { Member(EXP, ExpText(r.exp), [COMMA] + IatPart(r)) }

  /** `json.dumps` of the record with sorted keys and no spaces. */
  function CanonicalText(r: Record): Str {
    [OPEN_BRACE] + ExpPart(r)
  }

  lemma DecimalIsAscii(n: int)
    ensures AllAscii(Decimal(n))
  {
    var digits := Digits(if n < 0 then -n else n);
    DigitsDenote(if n < 0 then -n else n);
    assert forall i | 0 <= i < |digits| :: IsDigit(digits[i]);
  }

  lemma ExpTextIsAscii(exp: Option<int>)
    ensures AllAscii(ExpText(exp))
  {
    if exp.Some? {
      DecimalIsAscii(exp.value);
    }
  }

  lemma MemberIsAscii(name: Str, value: Str, rest: Str)
    requires AllAscii(value) && AllAscii(rest)
    ensures AllAscii(Member(name, value, rest)) && AllAscii([COMMA] + Member(name, value, rest))
  {
    EscapeAllIsAscii(name);
  }

  lemma CanonicalIsAscii(r: Record)
    ensures AllAscii(CanonicalText(r))
  {
    hide Decimal, EscapeAll, Member;
    DecimalIsAscii(r.warn);
    MemberIsAscii(WARN, Decimal(r.warn), [CLOSE_BRACE]);
    EscapeAllIsAscii(r.key);
    MemberIsAscii(KEY, Quoted(r.key), [COMMA] + WarnPart(r));
    DecimalIsAscii(r.iat);
    MemberIsAscii(IAT, Decimal(r.iat), [COMMA] + KeyPart(r));
    ExpTextIsAscii(r.exp);
    MemberIsAscii(EXP, ExpText(r.exp), [COMMA] + IatPart(r));
    assert AllAscii(ExpPart(r));
  }

  function CanonicalBytes(r: Record): (b: Bytes)
    ensures AllAscii(b)
  {
    CanonicalIsAscii(r);
    CanonicalText(r)
  }

  /* ---------- decoding a header ---------- */

  function StripBearerPrefix(header: Str): Str {
    var v := Strip(header);
    if |v| >= 7 && (forall i | 0 <= i < 7 :: Lower(v[i]) == BEARER_LOWER[i]) then Strip(v[7..]) else v
  }

  /** The value of the base64url-then-UTF-8-then-JSON attempt. */
  function FromBase64(blob: Str): Option<Json> {
    match DecodePadded(blob)
    case None => None
    case Some(raw) =>
      match Utf8Decode(raw)
      case None => None
      case Some(text) => Loads(text)
  }

  /** The base64url attempt, or the raw JSON reading when that attempt fails. */
  function DecodeBlob(blob: Str): Option<Json> {
    if FromBase64(Strip(blob)).Some? then FromBase64(Strip(blob)) else Loads(Strip(blob))
  }

  /** `parse_incoming_bearer_payload`: the coerced record; the bytes compared later are `CanonicalBytes` of it. */
  function ParseHeader(header: Str): Option<Record> {
    match DecodeBlob(StripBearerPrefix(header))
    case Some(JObj(members)) => Coerce(members)
    case _ => None
  }

  /** `normalize_expected_secret_to_canonical_bytes` */
  function ExpectedBytes(secret: Str): Option<Bytes> {
    var raw := Strip(secret);
    if raw == [] then None
    else match Loads(raw)
      case None => Utf8Encode(raw)
      case Some(JObj(members)) =>
        (match Coerce(members)
         case None => None
         case Some(r) => Some(CanonicalBytes(r)))
      case Some(_) => None
  }

  /** The header is accepted by the comparison of `validate_webhook_bearer`. */
  predicate Matches(header: Str, secret: Str) {
    ParseHeader(header).Some? && ExpectedBytes(secret) == Some(CanonicalBytes(ParseHeader(header).value))
  }

  /* ---------- reading canonical text back ---------- */

  function Normalized(r: Record): Record {
    r.(key := Join(r.key))
  }

  function MembersOf(r: Record): Members {
    [(EXP, if r.exp.None? then JNull else JInt(r.exp.value)), (IAT, JInt(r.iat)), (KEY, JStr(Join(r.key))),
        (WARN, JInt(r.warn))]
  }

  lemma LastMemberReads(s: Str, m: (Str, Json), rest: Str)
    requires ReadMember(s) == Some((m, [CLOSE_BRACE] + rest))
    ensures ReadMembers(s) == Some(([m], rest))
  {
    NoSpaceToSkip([CLOSE_BRACE] + rest);
    assert ([CLOSE_BRACE] + rest)[1..] == rest;
  }

  lemma FurtherMemberReads(s: Str, m: (Str, Json), t: Str, more: Members, rest: Str)
    requires ReadMember(s) == Some((m, [COMMA] + t)) && t != [] && t[0] == QUOTE
    requires ReadMembers(t) == Some((more, rest))
    ensures ReadMembers(s) == Some(([m] + more, rest))
  {
    NoSpaceToSkip([COMMA] + t);
    assert ([COMMA] + t)[1..] == t;
    NoSpaceToSkip(t);
  }

  lemma PlainNameJoins(name: Str)
    requires AllAscii(name)
    ensures Join(name) == name
  {
    JoinIsIdentityExactly(name);
  }

  lemma MemberReads(name: Str, value: Str, j: Json, rest: Str)
    requires AllAscii(name) && value != [] && !IsJsonSpace(value[0])
    requires ReadValue(value + rest) == Some((j, rest))
    ensures Member(name, value, rest) != [] && Member(name, value, rest)[0] == QUOTE
    ensures ReadMember(Member(name, value, rest)) == Some(((name, j), rest))
  {
    PlainNameJoins(name);
    ReadWrittenMember(name, value + rest, j, rest);
  }

  lemma DecimalStarts(n: int)
    ensures Decimal(n) != [] && (Decimal(n)[0] == MINUS || IsDigit(Decimal(n)[0]))
  {
    DigitsDenote(if n < 0 then -n else n);
  }

  lemma WarnPartReads(r: Record)
    ensures WarnPart(r) != [] && WarnPart(r)[0] == QUOTE
    ensures ReadMembers(WarnPart(r)) == Some(([(WARN, JInt(r.warn))], []))
  {
    DecimalStarts(r.warn);
    ReadDecimal(r.warn, [CLOSE_BRACE]);
    MemberReads(WARN, Decimal(r.warn), JInt(r.warn), [CLOSE_BRACE]);
    assert [CLOSE_BRACE] == [CLOSE_BRACE] + [];
    LastMemberReads(WarnPart(r), (WARN, JInt(r.warn)), []);
  }

  /** Reading a member that is followed by parts already known to read. */
  lemma PartReads(name: Str, value: Str, j: Json, next: Str, more: Members)
    requires AllAscii(name) && value != [] && !IsJsonSpace(value[0])
    requires ReadValue(value + ([COMMA] + next)) == Some((j, [COMMA] + next))
    requires next != [] && next[0] == QUOTE && ReadMembers(next) == Some((more, []))
    ensures var part := Member(name, value, [COMMA] + next);
            part != [] && part[0] == QUOTE && ReadMembers(part) == Some(([(name, j)] + more, []))
  {
    MemberReads(name, value, j, [COMMA] + next);
    FurtherMemberReads(Member(name, value, [COMMA] + next), (name, j), next, more, []);
  }

  lemma KeyPartReads(r: Record)
    ensures KeyPart(r) != [] && KeyPart(r)[0] == QUOTE
    ensures ReadMembers(KeyPart(r)) == Some(([(KEY, JStr(Join(r.key))), (WARN, JInt(r.warn))], []))
  {
    hide ReadMembers, ReadValue, WarnPart, Join;
    WarnPartReads(r);
    ReadString(r.key, [COMMA] + WarnPart(r));
    PartReads(KEY, Quoted(r.key), JStr(Join(r.key)), WarnPart(r), [(WARN, JInt(r.warn))]);
    assert [(KEY, JStr(Join(r.key)))] + [(WARN, JInt(r.warn))] == [(KEY, JStr(Join(r.key))), (WARN, JInt(r.warn))];
  }

  lemma IatPartReads(r: Record)
    ensures IatPart(r) != [] && IatPart(r)[0] == QUOTE
    ensures ReadMembers(IatPart(r)) == Some((MembersOf(r)[1..], []))
  {
    hide ReadMembers, ReadValue, KeyPart, Join, Decimal;
    KeyPartReads(r);
    DecimalStarts(r.iat);
    ReadDecimal(r.iat, [COMMA] + KeyPart(r));
    PartReads(IAT, Decimal(r.iat), JInt(r.iat), KeyPart(r), [(KEY, JStr(Join(r.key))), (WARN, JInt(r.warn))]);
    assert [(IAT, JInt(r.iat))] + [(KEY, JStr(Join(r.key))), (WARN, JInt(r.warn))] == MembersOf(r)[1..];
  }

  lemma ExpPartReads(r: Record)
    ensures ExpPart(r) != [] && ExpPart(r)[0] == QUOTE
    ensures ReadMembers(ExpPart(r)) == Some((MembersOf(r), []))
  {
    hide ReadMembers, ReadValue, IatPart, Join, Decimal;
    IatPartReads(r);
    if r.exp.None? {
      ReadNull([COMMA] + IatPart(r));
    } else {
      DecimalStarts(r.exp.value);
      ReadDecimal(r.exp.value, [COMMA] + IatPart(r));
    }
    PartReads(EXP, ExpText(r.exp), MembersOf(r)[0].1, IatPart(r), MembersOf(r)[1..]);
    assert [MembersOf(r)[0]] + MembersOf(r)[1..] == MembersOf(r);
  }

  /** The reader takes canonical text apart into exactly the four members that were written. */
  lemma CanonicalTextLoads(r: Record)
    ensures Loads(CanonicalText(r)) == Some(JObj(MembersOf(r)))
  {
    var s := CanonicalText(r);
    ExpPartReads(r);
    assert s[1..] == ExpPart(r);
    NoSpaceToSkip(s);
    NoSpaceToSkip(ExpPart(r));
    assert ReadValue(s) == Some((JObj(MembersOf(r)), []));
  }

  lemma LookupFour(a: (Str, Json), b: (Str, Json), c: (Str, Json), d: (Str, Json))
    requires a.0 == EXP && b.0 == IAT && c.0 == KEY && d.0 == WARN
    ensures var ms := [a, b, c, d];
            Lookup(ms, EXP) == Some(a.1) && Lookup(ms, IAT) == Some(b.1) && Lookup(ms, KEY) == Some(c.1)
                && Lookup(ms, WARN) == Some(d.1)
  {
    var ms := [a, b, c, d];
    assert EXP[0] != IAT[0] && EXP[0] != KEY[0] && EXP[0] != WARN[0] && IAT[0] != KEY[0] && IAT[0] != WARN[0]
        && KEY[0] != WARN[0];
    assert ms[..3] == [a, b, c] && [a, b, c][..2] == [a, b] && [a, b][..1] == [a];
    assert Lookup([a], EXP) == Some(a.1);
    assert Lookup([a, b], EXP) == Some(a.1) && Lookup([a, b], IAT) == Some(b.1);
    assert Lookup([a, b, c], EXP) == Some(a.1) && Lookup([a, b, c], IAT) == Some(b.1)
        && Lookup([a, b, c], KEY) == Some(c.1);
  }

  lemma JoinKeepsNonempty(s: Str)
    ensures Join(s) == [] <==> s == []
  {
  }

  /** Reading canonical text and coercing it gives the record with its key's surrogate pairs joined. */
  lemma CanonicalReadsBack(r: Record)
    requires r.key != []
    ensures Loads(CanonicalText(r)) == Some(JObj(MembersOf(r))) && Coerce(MembersOf(r)) == Some(Normalized(r))
  {
    hide CanonicalText, Loads, Lookup, Join;
    CanonicalTextLoads(r);
    var ms := MembersOf(r);
    LookupFour(ms[0], ms[1], ms[2], ms[3]);
    JoinKeepsNonempty(r.key);
  }

  /** Re-canonicalizing is the identity on bytes, for every record. */
  lemma RecanonicalizingIsIdentity(r: Record)
    ensures CanonicalBytes(Normalized(r)) == CanonicalBytes(r)
  {
    EscapeForgetsJoin(r.key);
    assert Quoted(Join(r.key)) == Quoted(r.key);
  }

  /** The record itself survives exactly when its key splits no surrogate pair. */
  lemma RecordRoundTripExactly(r: Record)
    requires r.key != []
    ensures Coerce(MembersOf(r)) == Some(r) <==> !SplitsPair(r.key)
  {
    CanonicalReadsBack(r);
    JoinIsIdentityExactly(r.key);
  }

  /** A key that splits a pair does not survive: its canonical bytes are those of another record. */
  lemma SplitPairCollides()
    ensures var r := Record(None, 0, [0xD83D, 0xDE00], 0);
            var s := Record(None, 0, [0x1F600], 0);
            r != s && CanonicalBytes(r) == CanonicalBytes(s) && Coerce(MembersOf(r)) == Some(s)
  {
    var r := Record(None, 0, [0xD83D, 0xDE00], 0);
    assert Join([0xD83D, 0xDE00][2..]) == [];
    assert Join(r.key) == [0x1F600];
    RecanonicalizingIsIdentity(r);
    CanonicalReadsBack(r);
  }

  /** Canonical bytes are injective on records, up to joining surrogate pairs in the key. */
  lemma CanonicalInjective(r: Record, s: Record)
    requires r.key != [] && s.key != []
    ensures CanonicalBytes(r) == CanonicalBytes(s) <==> Normalized(r) == Normalized(s)
  {
    CanonicalReadsBack(r);
    CanonicalReadsBack(s);
    RecanonicalizingIsIdentity(r);
    RecanonicalizingIsIdentity(s);
  }

  /* ---------- the two token forms ---------- */

  lemma NotBearer(s: Str)
    requires s != [] && !IsSpace(s[0]) && !IsSpace(s[|s| - 1])
        && (|s| >= 7 ==> !(forall i | 0 <= i < 7 :: Lower(s[i]) == BEARER_LOWER[i]))
    ensures StripBearerPrefix(s) == s
  {
    StripKeeps(s);
  }

  lemma BearerPrefixIsRemoved(s: Str)
    requires s != [] && !IsSpace(s[0]) && !IsSpace(s[|s| - 1])
    ensures StripBearerPrefix(BEARER + s) == s
  {
    var v := BEARER + s;
    assert v[0] == 0x42 && v[|v| - 1] == s[|s| - 1];
    StripKeeps(v);
    StripKeeps(s);
    assert v[7..] == s;
    forall i | 0 <= i < 7 ensures Lower(v[i]) == BEARER_LOWER[i] {
      assert v[i] == BEARER[i];
    }
  }

  /** The characters canonical text starts and ends with. */
  predicate StartsWithExp(s: Str) {
    && |s| >= 9 && s[0] == OPEN_BRACE && s[1] == QUOTE && s[2] == 0x65 && s[3] == 0x78 && s[4] == 0x70
    && s[5] == QUOTE && s[6] == COLON && SymbolValue(s[7]).Some? && s[|s| - 1] == CLOSE_BRACE
  }

  lemma EscapePlain(c: CodePoint, s: Str)
    requires 0x20 <= c < 0x7F && c != QUOTE && c != BACKSLASH
    ensures EscapeAll([c] + s) == [c] + EscapeAll(s)
  {
    EscapeAllCons(c, s);
  }

  lemma QuotedExp()
    ensures Quoted(EXP) == [QUOTE, 0x65, 0x78, 0x70, QUOTE]
  {
    hide EscapeAll;
    assert EXP == [0x65] + ([0x78] + ([0x70] + []));
    EscapePlain(0x65, [0x78] + ([0x70] + []));
    EscapePlain(0x78, [0x70] + []);
    EscapePlain(0x70, []);
    assert EscapeAll([]) == [] by { EscapeNothing(); }
  }

  lemma EscapeNothing()
    ensures EscapeAll([]) == []
  {
  }

  lemma ExpTextStarts(exp: Option<int>)
    ensures ExpText(exp) != [] && SymbolValue(ExpText(exp)[0]).Some?
  {
    if exp.Some? {
      DecimalStarts(exp.value);
    }
  }

  lemma CanonicalEnds(r: Record)
    ensures StartsWithExp(CanonicalText(r))
  {
    hide EscapeAll, Quoted, IatPart, SymbolValue;
    var s, value, rest := CanonicalText(r), ExpText(r.exp), [COMMA] + IatPart(r);
    QuotedExp();
    ExpTextStarts(r.exp);
    PartEnds(r);
    assert s == [OPEN_BRACE] + (Quoted(EXP) + ([COLON] + (value + rest)));
    assert s[7] == value[0];
  }

  lemma MemberEnds(name: Str, value: Str, rest: Str)
    requires rest != []
    ensures Member(name, value, rest) != []
        && Member(name, value, rest)[|Member(name, value, rest)| - 1] == rest[|rest| - 1]
  {
  }

  lemma PartEnds(r: Record)
    ensures ExpPart(r)[|ExpPart(r)| - 1] == CLOSE_BRACE
  {
    MemberEnds(WARN, Decimal(r.warn), [CLOSE_BRACE]);
    MemberEnds(KEY, Quoted(r.key), [COMMA] + WarnPart(r));
    MemberEnds(IAT, Decimal(r.iat), [COMMA] + KeyPart(r));
    MemberEnds(EXP, ExpText(r.exp), [COMMA] + IatPart(r));
  }

  lemma SkipsOther(s: Str, quad: nat, left: nat, pads: nat)
    requires quad < 4 && left < 64 && (quad == 2 ==> left < 16) && (quad == 3 ==> left < 4)
    requires s != [] && s[0] != PAD && SymbolValue(s[0]).None?
    ensures DecodeFrom(s, quad, left, pads) == DecodeFrom(s[1..], quad, left, pads)
  {
  }

  /** Whatever follows, `{"exp":` and one more symbol decode to bytes starting 0x7B 0x1A, if they decode at all. */
  lemma ExpPrefixDecodes(s: Str)
    requires |s| >= 8 && s[0] == OPEN_BRACE && s[1] == QUOTE && s[2] == 0x65 && s[3] == 0x78 && s[4] == 0x70
    requires s[5] == QUOTE && s[6] == COLON && SymbolValue(s[7]).Some?
    ensures var d := DecodeFrom(s, 0, 0, 0);
            d.Some? ==> |d.value| >= 2 && d.value[0] == 0x7B && d.value[1] == 0x1A
  {
    var s2, s3, s4, s5, s6, s7 := s[2..], s[3..], s[4..], s[5..], s[6..], s[7..];
    assert s[1..][1..] == s2 && s2[1..] == s3 && s3[1..] == s4 && s4[1..] == s5 && s5[1..] == s6 && s6[1..] == s7;
    SkipsOther(s, 0, 0, 0);
    SkipsOther(s[1..], 0, 0, 0);
    SkipsOther(s5, 3, 1, 0);
    SkipsOther(s6, 3, 1, 0);
    assert DecodeFrom(s4, 2, 1, 0) == Emit(0x1A, DecodeFrom(s5, 3, 1, 0));
    assert DecodeFrom(s3, 1, 30, 0) == Emit(0x7B, DecodeFrom(s4, 2, 1, 0));
    assert DecodeFrom(s2, 0, 0, 0) == DecodeFrom(s3, 1, 30, 0);
  }

  lemma TwoAsciiBytesDecode(b: Bytes)
    requires |b| >= 2 && b[0] < 0x80 && b[1] < 0x80
    ensures var t := Utf8Decode(b); t.Some? ==> |t.value| >= 2 && t.value[0] == b[0] && t.value[1] == b[1]
  {
    assert Utf8DecodeOne(b) == Some((b[0], 1)) && Utf8DecodeOne(b[1..]) == Some((b[1], 1));
  }

  /** Raw canonical text always fails the base64url attempt, so it is read as the JSON it is. */
  lemma CanonicalIsNotBase64(r: Record)
    ensures FromBase64(CanonicalText(r)) == None
  {
    hide CanonicalText, Loads, Utf8Decode, DecodeFrom;
    var s := CanonicalText(r);
    CanonicalIsAscii(r);
    CanonicalEnds(r);
    ExpPrefixDecodes(s + Pads(|s|));
    var raw := DecodePadded(s);
    if raw.Some? {
      TwoAsciiBytesDecode(raw.value);
      var text := Utf8Decode(raw.value);
      if text.Some? {
        ControlAfterBraceFails(text.value);
      }
    }
  }

  /** The generator's token, `Bearer ` plus the unpadded base64url of the canonical bytes. */
  function BearerToken(r: Record): Str {
    BEARER + EncodeNoPad(CanonicalBytes(r))
  }

  lemma EncodedCanonicalDecodes(r: Record)
    requires r.key != []
    ensures var e := EncodeNoPad(CanonicalBytes(r));
            && e != [] && !IsSpace(e[0]) && !IsSpace(e[|e| - 1]) && (forall i | 0 <= i < |e| :: e[i] != 0x20)
            && DecodeBlob(e) == Some(JObj(MembersOf(r)))
  {
    var b := CanonicalBytes(r);
    var e := EncodeNoPad(b);
    EncodedLength(b);
    EncodedIsSymbols(b);
    SymbolsArePlain(e);
    StripKeeps(e);
    Base64RoundTrip(b);
    AsciiDecodesToItself(b);
    CanonicalTextLoads(r);
  }

  lemma RawCanonicalDecodes(r: Record)
    ensures DecodeBlob(CanonicalText(r)) == Some(JObj(MembersOf(r)))
        && StripBearerPrefix(CanonicalText(r)) == CanonicalText(r)
    ensures Strip(CanonicalText(r)) == CanonicalText(r)
  {
    hide CanonicalText, Loads, FromBase64, Strip;
    CanonicalEnds(r);
    CanonicalIsNotBase64(r);
    CanonicalTextLoads(r);
    StripKeeps(CanonicalText(r));
    var s := CanonicalText(r);
    assert Lower(s[0]) != BEARER_LOWER[0];
    NotBearer(s);
  }

  /** Every accepted form of a record's token parses to that record, and canonicalizes to the same bytes. */
  lemma BearerRoundTrip(r: Record)
    requires r.key != []
    ensures ParseHeader(BearerToken(r)) == Some(Normalized(r))
    ensures ParseHeader(EncodeNoPad(CanonicalBytes(r))) == Some(Normalized(r))
    ensures ParseHeader(CanonicalText(r)) == Some(Normalized(r))
    ensures CanonicalBytes(Normalized(r)) == CanonicalBytes(r)
  {
    hide StripBearerPrefix, DecodeBlob, Coerce, EncodeNoPad, CanonicalText, Loads, MembersOf, IsSpace;
    CanonicalReadsBack(r);
    RecanonicalizingIsIdentity(r);
    RawCanonicalDecodes(r);
    var e := EncodeNoPad(CanonicalBytes(r));
    EncodedCanonicalDecodes(r);
    BearerPrefixIsRemoved(e);
    if |e| >= 7 {
      assert Lower(e[6]) != BEARER_LOWER[6];
    }
    NotBearer(e);
  }

  /* ---------- the comparison ---------- */

  predicate NoSurrogates(s: Str) {
    forall i | 0 <= i < |s| :: !IsSurrogate(s[i])
  }

  lemma {:induction false} ReaderNeverSplitsPairs(s: Str)
    requires NoSurrogates(s)
    ensures match ReadChars(s)
            case None => true
            case Some((text, rest)) =>
              && !SplitsPair(text) && NoSurrogates(rest)
              && (text != [] && IsLow(text[0]) ==> LowEscapeAt(s).Some?)
    decreases |s|
  {
    if s == [] || s[0] < 0x20 || s[0] == QUOTE {
    } else if s[0] != BACKSLASH {
      ReaderNeverSplitsPairs(s[1..]);
      PrependNeverSplits(s[0], s[1..]);
    } else if |s| >= 2 && s[1] != LOWER_U {
      ReaderNeverSplitsPairs(s[2..]);
      if UnescapeShort(s[1]).Some? {
        PrependNeverSplits(UnescapeShort(s[1]).value, s[2..]);
      }
    } else if |s| >= 2 && ParseHex4(s[2..]).Some? {
      var v := ParseHex4(s[2..]).value;
      if IsHigh(v) && LowEscapeAt(s[6..]).Some? {
        ReaderNeverSplitsPairs(s[12..]);
        PrependNeverSplits(Combine(v, LowEscapeAt(s[6..]).value), s[12..]);
      } else {
        ReaderNeverSplitsPairs(s[6..]);
        PrependNeverSplits(v, s[6..]);
      }
    }
  }

  lemma PrependNeverSplits(c: CodePoint, s: Str)
    requires IsHigh(c) ==> LowEscapeAt(s).None?
    requires ReadChars(s).Some? ==>
               var text := ReadChars(s).value.0;
               !SplitsPair(text) && (text != [] && IsLow(text[0]) ==> LowEscapeAt(s).Some?)
    ensures ReadChars(s).Some? ==> !SplitsPair([c] + ReadChars(s).value.0)
  {
    if ReadChars(s).Some? {
      var text := ReadChars(s).value.0;
      var joined := [c] + text;
      forall i | 0 <= i < |joined| - 1 ensures !(IsHigh(joined[i]) && IsLow(joined[i + 1])) {
        if i > 0 {
          assert joined[i] == text[i - 1] && joined[i + 1] == text[i - 1 + 1];
        }
      }
    }
  }

  predicate ValueSplits(j: Json) {
    j.JStr? && SplitsPair(j.s)
  }

  lemma {:induction false} SkipKeepsClean(s: Str)
    requires NoSurrogates(s)
    ensures NoSurrogates(SkipSpace(s))
  {
    if s != [] && IsJsonSpace(s[0]) {
      SkipKeepsClean(s[1..]);
    }
  }

  lemma FractionKeepsClean(s: Str)
    requires NoSurrogates(s) && ReadFraction(s).Some?
    ensures NoSurrogates(ReadFraction(s).value.2)
  {
  }

  lemma ExponentKeepsClean(s: Str)
    requires NoSurrogates(s) && ReadExponent(s).Some?
    ensures NoSurrogates(ReadExponent(s).value.1)
  {
  }

  lemma UnsignedKeepsClean(s: Str)
    requires NoSurrogates(s) && ReadUnsigned(s).Some?
    ensures NoSurrogates(ReadUnsigned(s).value.1) && !ReadUnsigned(s).value.0.JStr?
  {
    var after := s[if s[0] == 0x30 then 1 else LeadingDigits(s)..];
    assert NoSurrogates(after);
    var fraction := ReadFraction(after);
    if fraction.Some? {
      FractionKeepsClean(after);
    }
    var rest := if fraction.Some? then fraction.value.2 else after;
    if ReadExponent(rest).Some? {
      ExponentKeepsClean(rest);
    }
  }

  lemma NumberKeepsClean(s: Str)
    requires NoSurrogates(s) && ReadNumber(s).Some?
    ensures NoSurrogates(ReadNumber(s).value.1) && !ReadNumber(s).value.0.JStr?
  {
    UnsignedKeepsClean(if s[0] == MINUS then s[1..] else s);
  }

  lemma {:induction false} ValueKeepsClean(s: Str)
    requires NoSurrogates(s) && ReadValue(s).Some?
    ensures NoSurrogates(ReadValue(s).value.1) && !ValueSplits(ReadValue(s).value.0)
    decreases |s|, 0
  {
    if s[0] == QUOTE {
      ReaderNeverSplitsPairs(s[1..]);
    } else if s[0] == OPEN_BRACE {
      SkipKeepsClean(s[1..]);
      var t := SkipSpace(s[1..]);
      if !(t != [] && t[0] == CLOSE_BRACE) {
        MembersKeepClean(t);
      }
    } else if s[0] == OPEN_BRACKET {
      SkipKeepsClean(s[1..]);
      var t := SkipSpace(s[1..]);
      if !(t != [] && t[0] == CLOSE_BRACKET) {
        ItemsKeepClean(t);
      }
    } else if !(NULL <= s || TRUE <= s || FALSE <= s) {
      NumberKeepsClean(s);
    }
  }

  lemma {:induction false} MemberKeepsClean(s: Str)
    requires NoSurrogates(s) && ReadMember(s).Some?
    ensures NoSurrogates(ReadMember(s).value.1) && !ValueSplits(ReadMember(s).value.0.1)
    decreases |s|, 1
  {
    ReaderNeverSplitsPairs(s[1..]);
    var afterName := ReadChars(s[1..]).value.1;
    SkipKeepsClean(afterName);
    var t := SkipSpace(afterName);
    SkipKeepsClean(t[1..]);
    ValueKeepsClean(SkipSpace(t[1..]));
  }

  lemma {:induction false} MembersKeepClean(s: Str)
    requires NoSurrogates(s) && ReadMembers(s).Some?
    ensures NoSurrogates(ReadMembers(s).value.1)
    ensures forall i | 0 <= i < |ReadMembers(s).value.0| :: !ValueSplits(ReadMembers(s).value.0[i].1)
    decreases |s|, 2
  {
    MemberKeepsClean(s);
    var afterMember := ReadMember(s).value.1;
    SkipKeepsClean(afterMember);
    var t := SkipSpace(afterMember);
    if t[0] != CLOSE_BRACE {
      SkipKeepsClean(t[1..]);
      MembersKeepClean(SkipSpace(t[1..]));
    }
  }

  lemma {:induction false} ItemsKeepClean(s: Str)
    requires NoSurrogates(s) && ReadItems(s).Some?
    ensures NoSurrogates(ReadItems(s).value.1)
    decreases |s|, 1
  {
    ValueKeepsClean(s);
    var afterItem := ReadValue(s).value.1;
    SkipKeepsClean(afterItem);
    var t := SkipSpace(afterItem);
    if t[0] != CLOSE_BRACKET {
      SkipKeepsClean(t[1..]);
      ItemsKeepClean(SkipSpace(t[1..]));
    }
  }

  lemma ObjectMembersAreClean(text: Str, members: Members)
    requires NoSurrogates(text) && Loads(text) == Some(JObj(members))
    ensures forall i | 0 <= i < |members| :: !ValueSplits(members[i].1)
  {
    SkipKeepsClean(text);
    var s := SkipSpace(text);
    assert s[0] == OPEN_BRACE;
    SkipKeepsClean(s[1..]);
    var t := SkipSpace(s[1..]);
    if t[0] != CLOSE_BRACE {
      MembersKeepClean(t);
    }
  }

  lemma {:induction false} LookupIsMember(members: Members, name: Str)
    ensures Lookup(members, name).Some? ==> exists i ::
        0 <= i < |members| && members[i].1 == Lookup(members, name).value
  {
    if members != [] && members[|members| - 1].0 != name {
      var shorter := members[..|members| - 1];
      LookupIsMember(shorter, name);
      if Lookup(members, name).Some? {
        var i :| 0 <= i < |shorter| && shorter[i].1 == Lookup(members, name).value;
        assert members[i].1 == shorter[i].1;
      }
    }
  }

  /** Keys that were read from Unicode text are never ones that lose their identity when written. */
  lemma ReadKeysAreJoined(text: Str, members: Members)
    requires NoSurrogates(text) && Loads(text) == Some(JObj(members)) && Coerce(members).Some?
    ensures Normalized(Coerce(members).value) == Coerce(members).value && Coerce(members).value.key != []
  {
    ObjectMembersAreClean(text, members);
    LookupIsMember(members, KEY);
    var j := Lookup(members, KEY).value;
    var key := Coerce(members).value.key;
    if j.JInt? {
      DecimalIsAscii(j.n);
    }
    assert AllAscii(TRUE_NAME) && AllAscii(FALSE_NAME) && AllAscii(NONE_NAME);
    assert j.JStr? || AllAscii(key);
    JoinIsIdentityExactly(key);
  }

  lemma {:induction false} DecodedTextIsClean(b: Bytes)
    ensures Utf8Decode(b).Some? ==> NoSurrogates(Utf8Decode(b).value)
    decreases |b|
  {
    if b != [] && Utf8DecodeOne(b).Some? {
      DecodedTextIsClean(b[Utf8DecodeOne(b).value.1..]);
    }
  }

  lemma {:induction false} StripKeepsClean(s: Str)
    requires NoSurrogates(s)
    ensures NoSurrogates(StripLeft(s)) && NoSurrogates(StripRight(s))
  {
    if s != [] {
      StripKeepsClean(s[1..]);
      StripKeepsClean(s[..|s| - 1]);
    }
  }

  lemma StrippedIsClean(s: Str)
    requires NoSurrogates(s)
    ensures NoSurrogates(Strip(s))
  {
    StripKeepsClean(s);
    StripKeepsClean(StripLeft(s));
  }

  lemma ParsedHeaderIsJoined(header: Str)
    requires NoSurrogates(header)
    ensures var r := ParseHeader(header); r.Some? ==> Normalized(r.value) == r.value && r.value.key != []
  {
    if ParseHeader(header).Some? {
      StrippedIsClean(header);
      StrippedIsClean(Strip(header)[if |Strip(header)| >= 7 then 7 else 0..]);
      var blob := StripBearerPrefix(header);
      StrippedIsClean(blob);
      var members := DecodeBlob(blob).value.members;
      if FromBase64(Strip(blob)).Some? {
        var raw := DecodePadded(Strip(blob)).value;
        DecodedTextIsClean(raw);
        ReadKeysAreJoined(Utf8Decode(raw).value, members);
      } else {
        ReadKeysAreJoined(Strip(blob), members);
      }
    }
  }

  /** The record a configured secret stands for, when it is a JSON object with coercible fields. */
  function SecretRecord(secret: Str): Option<Record> {
    match Loads(Strip(secret))
    case Some(JObj(members)) => Coerce(members)
    case _ => None
  }

  lemma {:induction false} AsciiBytesComeFromThemselves(s: Str, b: Bytes)
    requires Utf8Encode(s) == Some(b) && AllAscii(b)
    ensures s == b
  {
    if s != [] {
      var rest := Utf8Encode(s[1..]).value;
      assert b[0] == Utf8EncodeOne(s[0])[0];
      assert b[1..] == rest;
      AsciiBytesComeFromThemselves(s[1..], rest);
    }
  }

  /** A secret that is not JSON is compared literally, and therefore never equals a token's canonical bytes. */
  lemma LiteralSecretNeverMatches(r: Record, raw: Str)
    requires Loads(raw) == None
    ensures Utf8Encode(raw) != Some(CanonicalBytes(r))
  {
    if Utf8Encode(raw) == Some(CanonicalBytes(r)) {
      AsciiBytesComeFromThemselves(raw, CanonicalBytes(r));
      CanonicalTextLoads(r);
    }
  }

  /** The comparison accepts exactly when header and secret stand for the same coerced record. */
  lemma MatchesExactly(header: Str, secret: Str)
    requires NoSurrogates(header) && NoSurrogates(secret)
    ensures Matches(header, secret) <==> ParseHeader(header).Some? && SecretRecord(secret) == ParseHeader(header)
  {
    if ParseHeader(header).Some? {
      var r := ParseHeader(header).value;
      ParsedHeaderIsJoined(header);
      StrippedIsClean(secret);
      var raw := Strip(secret);
      if Loads(raw) == None {
        LiteralSecretNeverMatches(r, raw);
      } else if SecretRecord(secret).Some? {
        ReadKeysAreJoined(raw, Loads(raw).value.members);
        CanonicalInjective(r, SecretRecord(secret).value);
      }
    }
  }
}
