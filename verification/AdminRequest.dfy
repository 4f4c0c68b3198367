/** The signed log-level request, client half and server half
    (scripts/python/thaum_log_override.py, thaum/admin_log_level.py).

    `mac` stands for HMAC-SHA256 and `upper` for `str.upper`; nothing is assumed about them beyond being functions,
    except that a MAC is never empty. */
module AdminRequest {
  import opened Prelude
  import opened Text
  import opened Base64Url
  import opened IsoTime
  import opened Json

  type Mac = (Bytes, Bytes) -> Bytes
  type Upper = Str -> Str

  const NEWLINE: CodePoint := 0x0A
  const SLASH: CodePoint := 0x2F
  const NONCE_LENGTH := 32

  /** thaum-log-level-v1 */
  const SCHEME: Str := [0x74, 0x68, 0x61, 0x75, 0x6D, 0x2D, 0x6C, 0x6F, 0x67, 0x2D, 0x6C, 0x65, 0x76, 0x65, 0x6C, 0x2D,
      0x76, 0x31]
  /** POST */
  const POST: Str := [0x50, 0x4F, 0x53, 0x54]
  /** /log-level */
  const PATH_TAIL: Str := [0x2F, 0x6C, 0x6F, 0x67, 0x2D, 0x6C, 0x65, 0x76, 0x65, 0x6C]
  /** loglevel= */
  const LEVEL_PREFIX: Str := [0x6C, 0x6F, 0x67, 0x6C, 0x65, 0x76, 0x65, 0x6C, 0x3D]
  /** loglevel */
  const LOGLEVEL: Str := [0x6C, 0x6F, 0x67, 0x6C, 0x65, 0x76, 0x65, 0x6C]
  /** v */
  const V: Str := [0x76]
  /** v=1 */
  const VERSION: Str := [0x76, 0x3D, 0x31]
  /** HS256. */
  const SIG_PREFIX: Str := [0x48, 0x53, 0x32, 0x35, 0x36, 0x2E]

  /** The names of `LogLevel`, and DEFAULT. */
  const SPAM: Str := [0x53, 0x50, 0x41, 0x4D]
  const DEBUG: Str := [0x44, 0x45, 0x42, 0x55, 0x47]
  const VERBOSE: Str := [0x56, 0x45, 0x52, 0x42, 0x4F, 0x53, 0x45]
  const INFO: Str := [0x49, 0x4E, 0x46, 0x4F]
  const NOTICE: Str := [0x4E, 0x4F, 0x54, 0x49, 0x43, 0x45]
  const WARNING: Str := [0x57, 0x41, 0x52, 0x4E, 0x49, 0x4E, 0x47]
  const ERROR: Str := [0x45, 0x52, 0x52, 0x4F, 0x52]
  const CRITICAL: Str := [0x43, 0x52, 0x49, 0x54, 0x49, 0x43, 0x41, 0x4C]
  const DEFAULT: Str := [0x44, 0x45, 0x46, 0x41, 0x55, 0x4C, 0x54]

  function LevelNames(): set<Str> {
    {SPAM, DEBUG, VERBOSE, INFO, NOTICE, WARNING, ERROR, CRITICAL}
  }

  /** How the constants are spelled. */
  lemma Spellings()
    ensures SCHEME == Lit("thaum-log-level-v1") && POST == Lit("POST") && PATH_TAIL == Lit("/log-level")
    ensures LEVEL_PREFIX == Lit("loglevel=") && LOGLEVEL == Lit("loglevel") && V == Lit("v") && VERSION == Lit("v=1")
    ensures SIG_PREFIX == Lit("HS256.") && DEFAULT == Lit("DEFAULT")
    ensures LevelNames()
        == {Lit("SPAM"), Lit("DEBUG"), Lit("VERBOSE"), Lit("INFO"), Lit("NOTICE"), Lit("WARNING"), Lit("ERROR"),
            Lit("CRITICAL")}
  {
    assert SPAM == Lit("SPAM") && DEBUG == Lit("DEBUG") && VERBOSE == Lit("VERBOSE") && INFO == Lit("INFO");
    assert NOTICE == Lit("NOTICE") && WARNING == Lit("WARNING") && ERROR == Lit("ERROR") && CRITICAL == Lit("CRITICAL");
  }

  function JoinLines(lines: seq<Str>): Str
    requires lines != []
  {
    if |lines| == 1 then lines[0] else lines[0] + ([NEWLINE] + JoinLines(lines[1..]))
  }

  /** The text both sides sign. */
  function Message(route: Str, epoch: int, nonce: Str, level: Str): Str {
    JoinLines([SCHEME, POST, [SLASH] + route + PATH_TAIL, Decimal(epoch), nonce, LEVEL_PREFIX + level, VERSION, []])
  }

  function Normalize(upper: Upper, raw: Str): Str {
    upper(Strip(raw))
  }

  function LowerAll(s: Str): (t: Str)
    ensures |t| == |s|
    ensures forall i | 0 <= i < |s| :: t[i] == Lower(s[i])
  {
    if s == [] then [] else [Lower(s[0])] + LowerAll(s[1..])
  }

  predicate IsNonce(s: Str) {
    |s| == NONCE_LENGTH && forall i | 0 <= i < |s| :: IsDigit(s[i]) || 0x61 <= s[i] <= 0x66
  }

  predicate NoNewline(s: Str) {
    forall i | 0 <= i < |s| :: s[i] != NEWLINE
  }

  /* ---------- the client ---------- */

  /** The three headers, and the body as `get_json` parses it; none when it is no JSON. */
  datatype Request = Request(timestamp: Str, nonce: Str, signature: Str, body: Option<Json>)

  /** The client's body, which spells the level as the user did. */
  function BodyFor(level: Str): Json {
    JObj([(LOGLEVEL, JStr(level)), (V, JInt(1))])
  }

  function Signature(mac: Mac, key: Bytes, message: Bytes): Str {
    SIG_PREFIX + EncodeNoPad(mac(key, message))
  }

  /** `_build_request`: none when the level text cannot be encoded. */
  function BuildRequest(mac: Mac, upper: Upper, key: Bytes, route: Str, epoch: int, nonce: Str,
      level: Str): Option<Request>
    requires InRange(epoch)
  {
    match Utf8Encode(Message(route, epoch, nonce, Normalize(upper, level)))
    case None => None
    case Some(bytes) => Some(Request(Stamp(epoch), nonce, Signature(mac, key, bytes), Some(BodyFor(level))))
  }

  /* ---------- the server ---------- */

  datatype Refusal = Unauthorized | BadRequest | InternalError

  function VerifySignature(mac: Mac, key: Bytes, message: Bytes, header: Str): bool {
    |header| >= 6 && header[..6] == SIG_PREFIX && Strip(header[6..]) != [] &&
    DecodePadded(Strip(header[6..])) == Some(mac(key, message))
  }

  /** What the handler goes on with when the request is authentic: its epoch, nonce and normalized level. */
  datatype Authentic = Authentic(epoch: int, nonce: Str, level: Str)

  /** Values that Python finds equal to 1. */
  predicate EqualsOne(j: Json) {
    j == JInt(1) || j == JBool(true) || j == JReal(1.0)
  }

  /** The level the body names, if it is an object of version 1 with a string level. */
  function LevelOfBody(body: Option<Json>): Option<Str> {
    match body
    case Some(JObj(members)) =>
      (match (Lookup(members, V), Lookup(members, LOGLEVEL))
       case (Some(v), Some(JStr(level))) => if EqualsOne(v) then Some(level) else None
       case _ => None)
    case _ => None
  }

  /** `handle_admin_log_level_post` up to its database transaction; `now` is the server's whole second. */
  function Authenticate(mac: Mac, upper: Upper, key: Bytes, route: Str, skew: int, now: int,
      r: Request): Result<Authentic, Refusal>
  {
    var nonce := LowerAll(Strip(r.nonce));
    var signature := Strip(r.signature);
    if r.timestamp == [] || nonce == [] || signature == [] || !IsNonce(nonce) then Err(Unauthorized)
    else match ParseHeaderTime(r.timestamp)
      case None => Err(Unauthorized)
      case Some(epoch) =>
        if !WithinSkew(now, epoch, skew) then Err(Unauthorized)
        else if LevelOfBody(r.body).None? then Err(BadRequest)
        else
          var level := Normalize(upper, LevelOfBody(r.body).value);
          if level != DEFAULT && level !in LevelNames() then Err(BadRequest)
          else match Utf8Encode(Message(route, epoch, nonce, level))
            case None => Err(InternalError)
            case Some(bytes) =>
              if VerifySignature(mac, key, bytes, signature)
                  then Ok(Authentic(epoch, nonce, level))
                  else Err(Unauthorized)
  }

  /* ---------- the message determines its four fields ---------- */

  /** Text before the first newline and text after it are both determined. */
  lemma {:induction false} LineSplitsUniquely(a: Str, x: Str, b: Str, y: Str)
    requires a + ([NEWLINE] + x) == b + ([NEWLINE] + y) && NoNewline(a) && NoNewline(b)
    ensures a == b && x == y
  {
    var s := a + ([NEWLINE] + x);
    assert s[|a|] == NEWLINE && s[|b|] == NEWLINE;
    assert forall i | 0 <= i < |a| :: s[i] == a[i] != NEWLINE;
    assert forall i | 0 <= i < |b| :: s[i] == b[i] != NEWLINE;
    assert a == s[..|a|] && x == s[|a| + 1..];
    assert b == s[..|b|] && y == s[|b| + 1..];
  }

  lemma LiteralsHaveNoNewline()
    ensures NoNewline(SCHEME) && NoNewline(POST)
  {
  }

  lemma DecimalHasNoNewline(n: int)
    ensures NoNewline(Decimal(n))
  {
    var digits := Digits(if n < 0 then -n else n);
    DigitsDenote(if n < 0 then -n else n);
    assert forall i | 0 <= i < |digits| :: IsDigit(digits[i]);
  }

  lemma DecimalInjective(m: int, n: int)
    requires Decimal(m) == Decimal(n)
    ensures m == n
  {
    var a, b := if m < 0 then -m else m, if n < 0 then -n else n;
    DigitsDenote(a);
    DigitsDenote(b);
    assert IsDigit(Digits(a)[0]) && IsDigit(Digits(b)[0]);
    assert m < 0 <==> Decimal(m)[0] == 0x2D;
    assert n < 0 <==> Decimal(n)[0] == 0x2D;
    assert m < 0 ==> Decimal(m)[1..] == Digits(a) && Decimal(n)[1..] == Digits(b);
  }

  function PathLine(route: Str): Str { [SLASH] + route + PATH_TAIL }

  lemma PathLineInjective(a: Str, b: Str)
    requires PathLine(a) == PathLine(b)
    ensures a == b
  {
    assert |a| == |b|;
    assert a == PathLine(a)[1..1 + |a|] && b == PathLine(b)[1..1 + |b|];
  }

  function LevelPart(level: Str): Str { (LEVEL_PREFIX + level) + ([NEWLINE] + (VERSION + ([NEWLINE] + []))) }

  lemma LevelPartInjective(a: Str, b: Str)
    requires LevelPart(a) == LevelPart(b)
    ensures a == b
  {
    assert |a| == |b|;
    assert a == LevelPart(a)[9..9 + |a|] && b == LevelPart(b)[9..9 + |b|];
  }

  /** The message line by line, nested to the right. */
  lemma MessageLines(route: Str, epoch: int, nonce: Str, level: Str)
    ensures Message(route, epoch, nonce, level) ==
            SCHEME + ([NEWLINE] + (POST + ([NEWLINE] + (PathLine(route)
              + ([NEWLINE] + (Decimal(epoch) + ([NEWLINE] + (nonce + ([NEWLINE] + LevelPart(level))))))))))
  {
    hide Decimal;
    var blank: seq<Str> := [[]];
    var versions: seq<Str> := [VERSION] + blank;
    var tail: seq<Str> := [LEVEL_PREFIX + level] + versions;
    assert tail[1..] == versions && versions[1..] == blank;
    assert JoinLines(blank) == [];
    assert JoinLines(versions) == VERSION + ([NEWLINE] + JoinLines(blank));
    assert JoinLines(tail) == LevelPart(level);
    var t4: seq<Str> := [nonce] + tail;
    var t3: seq<Str> := [Decimal(epoch)] + t4;
    var t2: seq<Str> := [PathLine(route)] + t3;
    var t1: seq<Str> := [POST] + t2;
    var t0: seq<Str> := [SCHEME] + t1;
    assert t4[1..] == tail && t3[1..] == t4 && t2[1..] == t3 && t1[1..] == t2 && t0[1..] == t1;
    assert JoinLines(t4) == nonce + ([NEWLINE] + JoinLines(tail));
    assert JoinLines(t3) == Decimal(epoch) + ([NEWLINE] + JoinLines(t4));
    assert JoinLines(t2) == PathLine(route) + ([NEWLINE] + JoinLines(t3));
    assert JoinLines(t1) == POST + ([NEWLINE] + JoinLines(t2));
    assert JoinLines(t0) == SCHEME + ([NEWLINE] + JoinLines(t1));
    assert t0 == [SCHEME, POST, PathLine(route), Decimal(epoch), nonce, LEVEL_PREFIX + level, VERSION, []];
  }

  /** Two signed messages are the same bytes only if route, epoch, nonce and level all agree; the level may be any
      text. */
  lemma MessageInjective(route: Str, epoch: int, nonce: Str, level: Str, route': Str, epoch': int, nonce': Str,
      level': Str)
    requires NoNewline(route) && NoNewline(route') && NoNewline(nonce) && NoNewline(nonce')
    requires Utf8Encode(Message(route, epoch, nonce, level)).Some?
    requires Utf8Encode(Message(route, epoch, nonce, level)) == Utf8Encode(Message(route', epoch', nonce', level'))
    ensures route == route' && epoch == epoch' && nonce == nonce' && level == level'
  {
    hide Message, Decimal, LevelPart, PathLine, Utf8Encode;
    Utf8RoundTrip(Message(route, epoch, nonce, level));
    Utf8RoundTrip(Message(route', epoch', nonce', level'));
    MessageLines(route, epoch, nonce, level);
    MessageLines(route', epoch', nonce', level');
    LiteralsHaveNoNewline();
    PathLineHasNoNewline(route);
    PathLineHasNoNewline(route');
    DecimalHasNoNewline(epoch);
    DecimalHasNoNewline(epoch');
    var d, d' := nonce + ([NEWLINE] + LevelPart(level)), nonce' + ([NEWLINE] + LevelPart(level'));
    var c, c' := Decimal(epoch) + ([NEWLINE] + d), Decimal(epoch') + ([NEWLINE] + d');
    var b, b' := PathLine(route) + ([NEWLINE] + c), PathLine(route') + ([NEWLINE] + c');
    LineSplitsUniquely(SCHEME, POST + ([NEWLINE] + b), SCHEME, POST + ([NEWLINE] + b'));
    LineSplitsUniquely(POST, b, POST, b');
    LineSplitsUniquely(PathLine(route), c, PathLine(route'), c');
    LineSplitsUniquely(Decimal(epoch), d, Decimal(epoch'), d');
    LineSplitsUniquely(nonce, LevelPart(level), nonce', LevelPart(level'));
    PathLineInjective(route, route');
    DecimalInjective(epoch, epoch');
    LevelPartInjective(level, level');
  }

  lemma PathLineHasNoNewline(route: Str)
    requires NoNewline(route)
    ensures NoNewline(PathLine(route))
  {
    assert NoNewline(PATH_TAIL);
  }

  /* ---------- the two halves agree ---------- */

  lemma NonceIsNormal(nonce: Str)
    requires IsNonce(nonce)
    ensures LowerAll(Strip(nonce)) == nonce && NoNewline(nonce)
  {
    StripKeeps(nonce);
    assert forall i | 0 <= i < |nonce| :: Lower(nonce[i]) == nonce[i];
  }

  lemma SignatureVerifies(mac: Mac, key: Bytes, message: Bytes)
    requires mac(key, message) != []
    ensures var s := Signature(mac, key, message);
            s != [] && Strip(s) == s && VerifySignature(mac, key, message, s)
  {
    hide EncodeNoPad, DecodePadded;
    var m := mac(key, message);
    var e := EncodeNoPad(m);
    EncodedLength(m);
    EncodedIsSymbols(m);
    SymbolsArePlain(e);
    Base64RoundTrip(m);
    var s := SIG_PREFIX + e;
    assert s[0] == 0x48 && s[|s| - 1] == e[|e| - 1] && s[6..] == e;
    StripKeeps(s);
    StripKeeps(e);
  }

  lemma StampIsNotEmpty(epoch: int)
    requires InRange(epoch)
    ensures Stamp(epoch) != []
  {
    StampEnds(epoch);
  }

  lemma BodyNamesLevel(level: Str)
    ensures LevelOfBody(Some(BodyFor(level))) == Some(level)
  {
    var members := [(LOGLEVEL, JStr(level)), (V, JInt(1))];
    assert members[..1] == [(LOGLEVEL, JStr(level))];
    assert |LOGLEVEL| != |V|;
    assert Lookup(members[..1], LOGLEVEL) == Some(JStr(level));
  }

  /** Every request the client builds, for any epoch, nonce, route and level spelling, is authentic to a server with
      the same key and route whose clock is within skew and that knows the level: it rebuilds the signed message byte
      for byte. */
  lemma ClientRequestIsAuthentic(mac: Mac, upper: Upper, key: Bytes, route: Str, skew: int, epoch: int, nonce: Str,
      level: Str, now: int)
    requires InRange(epoch) && IsNonce(nonce) && forall message :: mac(key, message) != []
    ensures var normal, request := Normalize(upper, level), BuildRequest(mac, upper, key, route, epoch, nonce, level);
            request.Some? ==>
              Authenticate(mac, upper, key, route, skew, now, request.value)
              == if now - epoch > skew || epoch - now > skew then Err(Unauthorized)
                 else if normal != DEFAULT && normal !in LevelNames() then Err(BadRequest)
                 else Ok(Authentic(epoch, nonce, normal))
  {
    hide Message, Stamp, Signature, VerifySignature, ParseHeaderTime, Utf8Encode, LevelNames, InRange, LevelOfBody,
        BodyFor;
    if BuildRequest(mac, upper, key, route, epoch, nonce, level).Some? {
      var bytes := Utf8Encode(Message(route, epoch, nonce, Normalize(upper, level))).value;
      StampRoundTrip(epoch);
      StampIsNotEmpty(epoch);
      NonceIsNormal(nonce);
      SignatureVerifies(mac, key, bytes);
      BodyNamesLevel(level);
    }
  }

  /** Conversely, what the server calls authentic carries a MAC of exactly the message for its own route and the
      epoch, nonce and level it goes on with. */
  lemma AuthenticMeansSigned(mac: Mac, upper: Upper, key: Bytes, route: Str, skew: int, now: int, r: Request)
    ensures Authenticate(mac, upper, key, route, skew, now, r).Ok? ==>
            var a := Authenticate(mac, upper, key, route, skew, now, r).value;
            var text := Strip(r.signature);
            var message := Utf8Encode(Message(route, a.epoch, a.nonce, a.level));
            && message.Some? && |text| > 6 && DecodePadded(Strip(text[6..])) == Some(mac(key, message.value))
            && IsNonce(a.nonce) && -skew <= now - a.epoch <= skew
            && Some(a.epoch) == ParseHeaderTime(r.timestamp) && a.nonce == LowerAll(Strip(r.nonce))
            && LevelOfBody(r.body).Some? && a.level == Normalize(upper, LevelOfBody(r.body).value)
            && (a.level == DEFAULT || a.level in LevelNames())
  {
    hide Message, ParseHeaderTime, Utf8Encode, LevelNames, DecodePadded, IsNonce, LowerAll, LevelOfBody;
  }

  /** The level in a body: an object whose `v` equals 1 and whose `loglevel` is a string; in any other body there is
      none. */
  lemma BodyLevelExactly(body: Option<Json>, level: Str)
    ensures LevelOfBody(body) == Some(level) <==>
              && body.Some? && body.value.JObj?
              && Lookup(body.value.members, Lit("loglevel")) == Some(JStr(level))
              && Lookup(body.value.members, Lit("v")) in {Some(JInt(1)), Some(JBool(true)), Some(JReal(1.0))}
  {
    hide Lit;
    Spellings();
  }
}
