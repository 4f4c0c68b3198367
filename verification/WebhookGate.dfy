/** Validation of webhook calls: comparison, expiry and the throttled rotation warning (alerts/webhook_bearer.py).
    Times are microseconds; `fingerprint` stands for SHA-256. */
module WebhookGate {
  import opened Prelude
  import opened Text
  import opened Json
  import opened Base64Url
  import opened WebhookBearer
  import T = BearerThrottle

  type Fingerprint = Bytes -> string

  /** One call, of one worker: its Authorization value (empty when there is none), the configured secret, and the
      clock at the expiry test, at the window test and in the throttle transaction. */
  datatype Visit = Visit(header: Str, secret: Str, bot: Option<string>, checkedAt: int, windowAt: int, dbAt: int)

  datatype Verdict = Accepted | Rejected | Raised

  function Pow2(n: nat): nat {
    if n == 0 then 1 else 2 * Pow2(n - 1)
  }

  /** The least integer that `float` cannot convert. */
  const FLOAT_LIMIT: int := Pow2(1024) - Pow2(970)

  lemma {:induction false} Pow2Grows(m: nat, n: nat)
    requires m <= n
    ensures 1 <= Pow2(m) <= Pow2(n)
    decreases n
  {
    if m < n {
      Pow2Grows(m, n - 1);
    } else if n > 0 {
      Pow2Grows(n - 1, n - 1);
    }
  }

  lemma Pow2Doubles(n: nat)
    ensures Pow2(n + 1) == 2 * Pow2(n)
  {
  }

  lemma FloatLimitIsPositive()
    ensures FLOAT_LIMIT > 0
  {
    hide Pow2;
    Pow2Grows(970, 1023);
    Pow2Doubles(1023);
  }

  /** The first instant of year 10000, which `datetime` cannot represent. */
  const MAX_TIME := 253_402_300_800 * T.SECOND

  /** `float(value)`, for the values that the coercion of the record accepts. */
  function SecondsOf(j: Json): Option<real> {
    match j
    case JReal(r) => Some(r)
    case _ => if IntOf(j).Some? then Some(IntOf(j).value as real) else None
  }

  function ParsedMembers(header: Str): Option<Members> {
    match DecodeBlob(StripBearerPrefix(header))
    case Some(JObj(members)) => Some(members)
    case _ => None
  }

  /** The expiry as the token spells it, down to the microsecond; none when it never expires. */
  function ExpiryOf(members: Members): Option<int> {
    match Lookup(members, EXP)
    case Some(j) => if j == JNull || SecondsOf(j).None? then None else Some((SecondsOf(j).value * 1000000.0).Floor)
    case None => None
  }

  /** The expiry of a call's token. */
  function Expiry(v: Visit): Option<int> {
    if ParsedMembers(v.header).Some? then ExpiryOf(ParsedMembers(v.header).value) else None
  }

  /** The expiry is an integer that no float can hold. */
  predicate ExpiryOverflows(members: Members) {
    match Lookup(members, EXP)
    case Some(JInt(n)) => n >= FLOAT_LIMIT || n <= -FLOAT_LIMIT
    case _ => false
  }

  /** Header and secret compare equal. */
  predicate Authentic(v: Visit) {
    v.header != [] && Matches(v.header, v.secret)
  }

  predicate Expired(v: Visit) {
    Expiry(v).Some? && v.checkedAt > Expiry(v).value
  }

  function WarnDays(v: Visit): int {
    if ParseHeader(v.header).Some? then ParseHeader(v.header).value.warn else 0
  }

  predicate InWindow(v: Visit) {
    Expiry(v).Some? && WarnDays(v) > 0 && v.windowAt >= Expiry(v).value - WarnDays(v) * T.DAY
  }

  /** The arithmetic on the token's numbers raises: its expiry or its warning period exceeds a float, or a warning is
      due whose expiry lies beyond the calendar. */
  predicate Overflows(v: Visit) {
    && Expiry(v).Some? && ParsedMembers(v.header).Some?
    && (|| ExpiryOverflows(ParsedMembers(v.header).value)
        || (!Expired(v) && (WarnDays(v) >= FLOAT_LIMIT || (InWindow(v) && Expiry(v).value >= MAX_TIME))))
  }

  /** What a call is to the throttle: nothing, unless its token is authentic and its numbers are in range. */
  function CallOf(fingerprint: Fingerprint, v: Visit): T.Call {
    if Authentic(v) && !Overflows(v) && Expiry(v).Some? then
      T.Call(fingerprint(CanonicalBytes(ParseHeader(v.header).value)), Expiry(v).value, WarnDays(v), v.bot,
          v.checkedAt, v.windowAt, v.dbAt)
    else T.Call("", 0, 0, v.bot, v.checkedAt, v.windowAt, v.dbAt)
  }

  predicate Emits(t: T.Table, c: T.Call) {
    T.Consults(c) && T.Throttle(t, c.fp, c.dbAt, c.expT, c.bot).1 == T.Emit
  }

  lemma AuthenticParses(v: Visit)
    ensures Authentic(v) ==>
              && ParseHeader(v.header).Some? && ParsedMembers(v.header).Some?
              && Coerce(ParsedMembers(v.header).value) == ParseHeader(v.header)
  {
    hide DecodeBlob, StripBearerPrefix, Coerce, ExpectedBytes;
  }

  /** `validate_webhook_bearer`; `warned` says whether the advisory was logged. */
  method ValidateWebhookBearer(table: T.WarnTable, fingerprint: Fingerprint, v: Visit)
      returns (verdict: Verdict, warned: bool)
    modifies table
    ensures verdict == Raised <==> Authentic(v) && Overflows(v)
    ensures verdict == Accepted <==> Authentic(v) && !Overflows(v) && !Expired(v)
    ensures warned ==> verdict == Accepted
    ensures warned <==> Emits(old(table.rows), CallOf(fingerprint, v))
    ensures table.rows == T.AfterCall(old(table.rows), CallOf(fingerprint, v))
    ensures warned ==>
              && ExpectedBytes(v.secret).Some? && Expiry(v).Some?
              && var fp := fingerprint(ExpectedBytes(v.secret).value);
                 && fp in table.rows && table.rows[fp].lastWarn == v.dbAt && table.rows[fp].expires == Expiry(v)
                 && (v.bot.Some? ==> table.rows[fp].botKey == v.bot)
  {
    hide Matches, CanonicalBytes, ExpectedBytes, ExpiryOf, ExpiryOverflows, T.Throttle, ParseHeader, ParsedMembers;
    warned := false;
    FloatLimitIsPositive();
    WarnedUnderSecret(fingerprint, v, table.rows);
    if Emits(table.rows, CallOf(fingerprint, v)) {
      T.EmissionIsRecorded(table.rows, CallOf(fingerprint, v));
    }
    if v.header == [] || !Matches(v.header, v.secret) {
      return Rejected, false;
    }
    AuthenticParses(v);
    var exp := Expiry(v);
    if exp.None? {
      return Accepted, false;
    }
    if ExpiryOverflows(ParsedMembers(v.header).value) {
      return Raised, false;
    }
    if v.checkedAt > exp.value {
      return Rejected, false;
    }
    verdict := Accepted;
    var warnDays := WarnDays(v);
    if warnDays > 0 {
      if warnDays >= FLOAT_LIMIT {
        return Raised, false;
      }
      if v.windowAt >= exp.value - warnDays * T.DAY {
        if exp.value >= MAX_TIME {
          return Raised, false;
        }
        var outcome := table.ShouldLog(fingerprint(CanonicalBytes(ParseHeader(v.header).value)), v.dbAt, exp.value,
            v.bot);
        warned := outcome == T.Emit;
      }
    }
  }

  /* ---------- what validation promises ---------- */

  lemma ScaledFloor(r: real)
    ensures r.Floor * T.SECOND <= (r * 1000000.0).Floor < (r.Floor + 1) * T.SECOND
  {
    assert r.Floor as real <= r < (r.Floor + 1) as real;
  }

  lemma ScaledTruncation(r: real)
    ensures var e, x := Truncate(r), (r * 1000000.0).Floor;
            && (e > 0 ==> e * T.SECOND <= x < (e + 1) * T.SECOND)
            && (e < 0 ==> (e - 1) * T.SECOND <= x <= e * T.SECOND)
            && (e == 0 ==> -T.SECOND <= x < T.SECOND)
  {
    ScaledFloor(r);
    if r < 0.0 {
      assert Truncate(r) == -((-r).Floor);
      assert r <= Truncate(r) as real < r + 1.0;
      assert r * 1000000.0 <= (Truncate(r) * T.SECOND) as real;
    }
  }

  lemma WholeSecondsScale(n: int)
    ensures (n as real * 1000000.0).Floor == n * T.SECOND
  {
    assert n as real * 1000000.0 == (n * T.SECOND) as real;
  }

  /** However a token spells its expiry, it lies in the second that its canonical record names, on the side of zero:
      after it for a positive expiry, before it for a negative one, and on either side for zero. */
  lemma ExpiryWithinItsSecond(members: Members, r: Record)
    requires Coerce(members) == Some(r) && r.exp.Some?
    ensures ExpiryOf(members).Some?
    ensures var e, x := r.exp.value, ExpiryOf(members).value;
            && (e > 0 ==> e * T.SECOND <= x < (e + 1) * T.SECOND)
            && (e < 0 ==> (e - 1) * T.SECOND <= x <= e * T.SECOND)
            && (e == 0 ==> -T.SECOND <= x < T.SECOND)
  {
    var j := Lookup(members, EXP).value;
    assert r.exp == IntOf(j);
    if j.JReal? {
      ScaledTruncation(j.r);
    } else {
      WholeSecondsScale(r.exp.value);
    }
  }

  lemma NeverExpiring(members: Members, r: Record)
    requires Coerce(members) == Some(r) && r.exp.None?
    ensures ExpiryOf(members) == None
  {
  }

  /** Tokens of one record expire within a second of each other, however they spell it; within two if the record says
      0. */
  lemma SpellingsAgree(a: Str, b: Str)
    ensures var r := ParseHeader(a);
            r.Some? && r == ParseHeader(b) && r.value.exp.Some? ==>
              var x, y := ExpiryOf(ParsedMembers(a).value), ExpiryOf(ParsedMembers(b).value);
              && x.Some? && y.Some? && x.value - y.value < 2 * T.SECOND
              && (r.value.exp.value > 0 ==> x.value - y.value < T.SECOND)
              && (r.value.exp.value < 0 ==> x.value - y.value <= T.SECOND)
  {
    hide Coerce, ExpiryOf, DecodeBlob, StripBearerPrefix;
    var r := ParseHeader(a);
    if r.Some? && r == ParseHeader(b) && r.value.exp.Some? {
      ExpiryWithinItsSecond(ParsedMembers(a).value, r.value);
      ExpiryWithinItsSecond(ParsedMembers(b).value, r.value);
    }
  }

  lemma CanonicalSecretIsItsRecord(r: Record)
    requires r.key != []
    ensures ExpectedBytes(CanonicalText(r)) == Some(CanonicalBytes(r))
  {
    hide CanonicalText, Loads, Coerce, MembersOf, Strip;
    RawCanonicalDecodes(r);
    CanonicalReadsBack(r);
    RecanonicalizingIsIdentity(r);
    CanonicalNonempty(r);
  }

  lemma CanonicalNonempty(r: Record)
    ensures CanonicalText(r) != [] && BearerToken(r) != []
  {
  }

  lemma ExpiryOfMembers(r: Record)
    ensures ExpiryOf(MembersOf(r)) == if r.exp.None? then None else Some(r.exp.value * T.SECOND)
    ensures ExpiryOverflows(MembersOf(r))
        <==> r.exp.Some? && (r.exp.value >= FLOAT_LIMIT || r.exp.value <= -FLOAT_LIMIT)
  {
    var ms := MembersOf(r);
    LookupFour(ms[0], ms[1], ms[2], ms[3]);
    if r.exp.Some? {
      WholeSecondsScale(r.exp.value);
    }
  }

  lemma GeneratedTokenParses(r: Record)
    requires r.key != []
    ensures Matches(BearerToken(r), CanonicalText(r)) && Matches(CanonicalText(r), CanonicalText(r))
    ensures ParsedMembers(BearerToken(r)) == ParsedMembers(CanonicalText(r)) == Some(MembersOf(r))
    ensures ParseHeader(BearerToken(r)) == ParseHeader(CanonicalText(r)) == Some(Normalized(r))
  {
    hide CanonicalText, StripBearerPrefix, DecodeBlob, Coerce, EncodeNoPad, MembersOf, ExpectedBytes, IsSpace;
    BearerRoundTrip(r);
    CanonicalSecretIsItsRecord(r);
    RawCanonicalDecodes(r);
    var e := EncodeNoPad(CanonicalBytes(r));
    EncodedCanonicalDecodes(r);
    BearerPrefixIsRemoved(e);
  }

  /** The record's numbers fit floats and the calendar. */
  predicate InRange(r: Record) {
    r.warn < FLOAT_LIMIT && (r.exp.None?
        || (-FLOAT_LIMIT < r.exp.value < FLOAT_LIMIT && r.exp.value * T.SECOND < MAX_TIME))
  }

  /** End to end: the secret the generator prints, configured at the server, admits the bearer line the generator
      prints, and the same record sent as raw JSON, exactly until the record's expiry. */
  lemma GeneratedTokenAdmits(r: Record, v: Visit)
    requires r.key != [] && InRange(r) && v.secret == CanonicalText(r)
    requires v.header == BearerToken(r) || v.header == CanonicalText(r)
    ensures Authentic(v) && !Overflows(v)
    ensures !Expired(v) <==> r.exp.None? || v.checkedAt <= r.exp.value * 1_000_000
  {
    hide CanonicalText, BearerToken, ParsedMembers, ParseHeader, Matches, MembersOf, ExpiryOf, ExpiryOverflows;
    GeneratedTokenParses(r);
    ExpiryOfMembers(r);
    CanonicalNonempty(r);
  }

  /** The printed token's advisory: a call with it consults the throttle exactly in the record's last `warn` days, up
      to its expiry. */
  lemma GeneratedTokenWarns(r: Record, v: Visit, fingerprint: Fingerprint)
    requires r.key != [] && InRange(r) && v.secret == CanonicalText(r)
    requires v.header == BearerToken(r) || v.header == CanonicalText(r)
    ensures T.Consults(CallOf(fingerprint, v)) <==>
              && r.exp.Some? && r.warn > 0
              && v.checkedAt <= r.exp.value * 1_000_000
              && v.windowAt >= (r.exp.value - r.warn * 86_400) * 1_000_000
  {
    hide CanonicalText, BearerToken, ParsedMembers, ParseHeader, Matches, MembersOf, ExpiryOf, ExpiryOverflows,
        CanonicalBytes, InRange, Overflows, Authentic;
    GeneratedTokenAdmits(r, v);
    GeneratedTokenParses(r);
    ExpiryOfMembers(r);
    assert WarnDays(v) == r.warn;
    assert Expiry(v) == if r.exp.None? then None else Some(r.exp.value * T.SECOND);
  }

  /* ---------- runs of calls ---------- */

  ghost predicate CollisionFree(fingerprint: Fingerprint) {
    forall a, b :: fingerprint(a) == fingerprint(b) ==> a == b
  }

  function CallsOf(fingerprint: Fingerprint, run: seq<Visit>): (calls: seq<T.Call>)
    ensures |calls| == |run|
    ensures forall i | 0 <= i < |run| :: calls[i] == CallOf(fingerprint, run[i])
  {
    seq(|run|, i requires 0 <= i < |run| => CallOf(fingerprint, run[i]))
  }

  /** Shared monotone clocks, past the first second of 1970, and at most `stall` from expiry test to transaction. */
  ghost predicate OnTime(run: seq<Visit>, stall: int) {
    && (forall i | 0 <= i < |run| :: run[i].checkedAt <= run[i].windowAt <= run[i].dbAt <= run[i].checkedAt + stall)
    && (forall i, j | 0 <= i < j < |run| :: run[i].dbAt <= run[j].dbAt)
    && (forall i | 0 <= i < |run| :: T.SECOND <= run[i].checkedAt)
  }

  lemma CoercedKey(members: Members)
    ensures Coerce(members).Some? ==> Coerce(members).value.key != []
  {
  }

  lemma ConsultsMeans(fingerprint: Fingerprint, v: Visit)
    requires T.SECOND <= v.checkedAt
    ensures T.Consults(CallOf(fingerprint, v)) ==>
              && Authentic(v) && ParseHeader(v.header).Some?
              && var r := ParseHeader(v.header).value;
                 && r.key != [] && r.exp.Some? && r.exp.value > 0
                 && CallOf(fingerprint, v).fp == fingerprint(CanonicalBytes(r))
                 && r.exp.value * T.SECOND <= CallOf(fingerprint, v).expT < (r.exp.value + 1) * T.SECOND
  {
    if !Authentic(v) {
      return;
    }
    hide Matches, CanonicalBytes, ExpiryOf, ExpiryOverflows, ParseHeader, ParsedMembers, Coerce;
    AuthenticParses(v);
    var r, members := ParseHeader(v.header).value, ParsedMembers(v.header).value;
    CoercedKey(members);
    if r.exp.None? {
      NeverExpiring(members, r);
    } else {
      ExpiryWithinItsSecond(members, r);
    }
  }

  /** Two calls that reach the throttle under one fingerprint carry one record, so their expiries lie within a
      second. */
  lemma SameTokenSameSecond(fingerprint: Fingerprint, v: Visit, u: Visit)
    requires CollisionFree(fingerprint) && T.SECOND <= v.checkedAt && T.SECOND <= u.checkedAt
    ensures var c, d := CallOf(fingerprint, v), CallOf(fingerprint, u);
            T.Consults(c) && T.Consults(d) && c.fp == d.fp ==> c.expT - d.expT < T.SECOND
  {
    hide CallOf, T.Consults, CanonicalBytes, ParseHeader, Authentic;
    var c, d := CallOf(fingerprint, v), CallOf(fingerprint, u);
    if T.Consults(c) && T.Consults(d) && c.fp == d.fp {
      ConsultsMeans(fingerprint, v);
      ConsultsMeans(fingerprint, u);
      CanonicalInjective(ParseHeader(v.header).value, ParseHeader(u.header).value);
    }
  }

  lemma CallsAreTimely(fingerprint: Fingerprint, run: seq<Visit>, stall: int)
    requires CollisionFree(fingerprint) && OnTime(run, stall)
    ensures T.Timely(CallsOf(fingerprint, run), stall)
  {
    var calls := CallsOf(fingerprint, run);
    forall i | 0 <= i < |run|
      ensures calls[i].checkedAt == run[i].checkedAt && calls[i].windowAt == run[i].windowAt
          && calls[i].dbAt == run[i].dbAt
    {
    }
    hide CallOf, T.Consults;
    forall i, j | 0 <= i < |run| && 0 <= j < |run| && T.Consults(calls[i]) && T.Consults(calls[j])
        && calls[i].fp == calls[j].fp
      ensures calls[i].expT - calls[j].expT < T.SECOND
    {
      SameTokenSameSecond(fingerprint, run[i], run[j]);
    }
  }

  /** The warn table after a run of calls. */
  function TableAfter(fingerprint: Fingerprint, run: seq<Visit>): T.Table {
    if run == [] then map[]
    else T.AfterCall(TableAfter(fingerprint, run[..|run| - 1]), CallOf(fingerprint, run[|run| - 1]))
  }

  predicate WarnsAt(fingerprint: Fingerprint, run: seq<Visit>, i: nat)
    requires i < |run|
  {
    Emits(TableAfter(fingerprint, run[..i]), CallOf(fingerprint, run[i]))
  }

  lemma {:induction false} RunIsCalls(fingerprint: Fingerprint, run: seq<Visit>)
    ensures TableAfter(fingerprint, run) == T.After(CallsOf(fingerprint, run))
  {
    hide T.AfterCall, CallOf;
    if run != [] {
      var n := |run| - 1;
      RunIsCalls(fingerprint, run[..n]);
      assert CallsOf(fingerprint, run)[..n] == CallsOf(fingerprint, run[..n]);
    }
  }

  lemma WarningIsEmission(fingerprint: Fingerprint, run: seq<Visit>, i: nat)
    requires i < |run|
    ensures WarnsAt(fingerprint, run, i) <==> T.EmitsAt(CallsOf(fingerprint, run), i)
  {
    hide T.Consults, T.Throttle, CallOf;
    RunIsCalls(fingerprint, run[..i]);
    assert CallsOf(fingerprint, run)[..i] == CallsOf(fingerprint, run[..i]);
  }

  /** The fingerprint of a call that warns is that of its secret's canonical bytes. */
  lemma WarnedUnderSecret(fingerprint: Fingerprint, v: Visit, t: T.Table)
    ensures Emits(t, CallOf(fingerprint, v)) ==>
              ExpectedBytes(v.secret).Some? && CallOf(fingerprint, v).fp == fingerprint(ExpectedBytes(v.secret).value)
  {
    hide ExpectedBytes, CanonicalBytes, ParseHeader, T.Throttle, Overflows, Expiry;
  }

  lemma CallKeepsTimes(fingerprint: Fingerprint, v: Visit)
    ensures CallOf(fingerprint, v).dbAt == v.dbAt
  {
  }

  /** In every run of calls with any headers and secrets, on any workers: two warnings given under one secret are at
      least a day apart, however the tokens were spelled, if no call stalls for a day less a second. */
  lemma WarningsAreSpaced(fingerprint: Fingerprint, run: seq<Visit>, stall: int, i: nat, j: nat)
    requires CollisionFree(fingerprint) && OnTime(run, stall) && stall <= 86_399_000_001 && i < j < |run|
    ensures WarnsAt(fingerprint, run, i) && WarnsAt(fingerprint, run, j)
            && ExpectedBytes(run[i].secret) == ExpectedBytes(run[j].secret) ==>
              run[j].dbAt - run[i].dbAt >= T.DAY
  {
    WarnedUnderSecret(fingerprint, run[i], TableAfter(fingerprint, run[..i]));
    WarnedUnderSecret(fingerprint, run[j], TableAfter(fingerprint, run[..j]));
    CallKeepsTimes(fingerprint, run[i]);
    CallKeepsTimes(fingerprint, run[j]);
    hide OnTime, CollisionFree, WarnsAt, T.EmitsAt, T.Timely, CallOf, ExpectedBytes;
    CallsAreTimely(fingerprint, run, stall);
    WarningIsEmission(fingerprint, run, i);
    WarningIsEmission(fingerprint, run, j);
    T.PromptCallsAreSpaced(CallsOf(fingerprint, run), stall);
  }

  /** A warning under the secret of call `j` was given less than a day before it. */
  ghost predicate WarnedWithinDay(fingerprint: Fingerprint, run: seq<Visit>, j: nat)
    requires j < |run|
  {
    exists i: nat :: i < j && WarnsAt(fingerprint, run, i)
        && ExpectedBytes(run[i].secret) == ExpectedBytes(run[j].secret)
                     && run[j].dbAt - run[i].dbAt < 86_400_000_000
  }

  /** The call passes every test of validation, and its token is due for a warning. */
  predicate IsDue(v: Visit) {
    && Authentic(v) && !Overflows(v) && !Expired(v) && Expiry(v).Some? && WarnDays(v) > 0
    && v.windowAt >= Expiry(v).value - WarnDays(v) * 86_400_000_000
  }

  lemma DueIsDue(fingerprint: Fingerprint, v: Visit)
    ensures T.IsDue(CallOf(fingerprint, v)) <==> IsDue(v)
    ensures IsDue(v) ==>
              ExpectedBytes(v.secret).Some? && CallOf(fingerprint, v).fp == fingerprint(ExpectedBytes(v.secret).value)
    ensures T.Consults(CallOf(fingerprint, v)) <==> IsDue(v)
  {
    hide ExpectedBytes, CanonicalBytes, ParseHeader, Overflows, Expiry, ParsedMembers;
  }

  lemma SameTokenWarned(fingerprint: Fingerprint, run: seq<Visit>, j: nat)
    requires CollisionFree(fingerprint) && j < |run|
    ensures IsDue(run[j]) ==>
              (WarnedWithinDay(fingerprint, run, j) <==> T.WarnedWithinDay(CallsOf(fingerprint, run), j))
  {
    hide IsDue, T.IsDue, T.EmitsAt, WarnsAt, CallOf, ExpectedBytes;
    if IsDue(run[j]) {
      var calls := CallsOf(fingerprint, run);
      DueIsDue(fingerprint, run[j]);
      CallKeepsTimes(fingerprint, run[j]);
      forall i: nat | i < j
        ensures WarnsAt(fingerprint, run, i) <==> T.EmitsAt(calls, i)
        ensures WarnsAt(fingerprint, run, i) ==>
                  (calls[i].fp == calls[j].fp <==> ExpectedBytes(run[i].secret) == ExpectedBytes(run[j].secret))
        ensures calls[i].dbAt == run[i].dbAt
      {
        WarningIsEmission(fingerprint, run, i);
        CallKeepsTimes(fingerprint, run[i]);
        if WarnsAt(fingerprint, run, i) {
          WarnsUnderSecret(fingerprint, run, i);
        }
      }
      if WarnedWithinDay(fingerprint, run, j) {
        var i: nat :| i < j && WarnsAt(fingerprint, run, i)
            && ExpectedBytes(run[i].secret) == ExpectedBytes(run[j].secret)
            && run[j].dbAt - run[i].dbAt < 86_400_000_000;
        assert T.EmitsAt(calls, i);
      }
      if T.WarnedWithinDay(calls, j) {
        var i: nat :| i < j && T.EmitsAt(calls, i) && calls[i].fp == calls[j].fp
            && calls[j].dbAt - calls[i].dbAt < 86_400_000_000;
        assert WarnsAt(fingerprint, run, i);
      }
    }
  }

  lemma WarnsUnderSecret(fingerprint: Fingerprint, run: seq<Visit>, i: nat)
    requires i < |run|
    ensures WarnsAt(fingerprint, run, i) ==>
              ExpectedBytes(run[i].secret).Some?
                  && CallOf(fingerprint, run[i]).fp == fingerprint(ExpectedBytes(run[i].secret).value)
  {
    hide CallOf, ExpectedBytes, T.Consults, T.Throttle;
    WarnedUnderSecret(fingerprint, run[i], TableAfter(fingerprint, run[..i]));
  }

  /** The exact advisory, in every run of calls with any headers and secrets within the stall bound: a call is logged
      about if and only if it passes validation, its token is in its last `warn` days, and no warning under its
      secret was given less than a day before. */
  lemma WarnsExactly(fingerprint: Fingerprint, run: seq<Visit>, stall: int, j: nat)
    requires CollisionFree(fingerprint) && OnTime(run, stall) && stall <= 86_399_000_001 && j < |run|
    ensures WarnsAt(fingerprint, run, j) <==> IsDue(run[j]) && !WarnedWithinDay(fingerprint, run, j)
  {
    hide OnTime, CollisionFree, WarnsAt, T.EmitsAt, T.Timely, CallOf, IsDue, T.IsDue, WarnedWithinDay,
        T.WarnedWithinDay;
    CallsAreTimely(fingerprint, run, stall);
    WarningIsEmission(fingerprint, run, j);
    DueIsDue(fingerprint, run[j]);
    if IsDue(run[j]) {
      SameTokenWarned(fingerprint, run, j);
    }
    T.WarnsExactly(CallsOf(fingerprint, run), stall, j);
  }
}
