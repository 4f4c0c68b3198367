/** The UTC timestamps of the signed admin request: epoch seconds to ISO 8601 text in the client, and back in the server
    (scripts/python/thaum_log_override.py, thaum/admin_log_level.py), over the proleptic Gregorian calendar of Python's
    `datetime` (years 1 to 9999). */
module IsoTime {
  import opened Prelude
  import opened Text

  datatype Civil = Civil(year: int, month: int, day: int, hour: int, minute: int, second: int)

  const EPOCH_ORDINAL := 719163
  const MAX_ORDINAL := 3652059
  const SECONDS_PER_DAY := 86400

  /** `abs(now - epoch) <= skew` */
  predicate WithinSkew(now: int, epoch: int, skew: int) {
    -skew <= now - epoch <= skew
  }

  predicate IsLeap(y: int) {
    y % 4 == 0 && (y % 100 != 0 || y % 400 == 0)
  }

  function YearLength(y: int): int {
    if IsLeap(y) then 366 else 365
  }

  function DaysBeforeYear(y: int): int {
    (y - 1) * 365 + (y - 1) / 4 - (y - 1) / 100 + (y - 1) / 400
  }

  function MonthLength(y: int, m: int): int {
    if m == 2 then if IsLeap(y) then 29 else 28
    else if m == 4 || m == 6 || m == 9 || m == 11 then 30
    else 31
  }

  function DaysBeforeMonth(y: int, m: nat): int {
    if m <= 1 then 0 else DaysBeforeMonth(y, m - 1) + MonthLength(y, m - 1)
  }

  predicate IsCivil(c: Civil) {
    && 1 <= c.year <= 9999 && 1 <= c.month <= 12 && 1 <= c.day <= MonthLength(c.year, c.month)
    && 0 <= c.hour < 24 && 0 <= c.minute < 60 && 0 <= c.second < 60
  }

  function OrdinalOf(c: Civil): int
    requires IsCivil(c)
  {
    DaysBeforeYear(c.year) + DaysBeforeMonth(c.year, c.month) + c.day
  }

  function EpochOf(c: Civil): int
    requires IsCivil(c)
  {
    (OrdinalOf(c) - EPOCH_ORDINAL) * SECONDS_PER_DAY + c.hour * 3600 + c.minute * 60 + c.second
  }

  /* ---------- from epoch to calendar ---------- */

  lemma NextYear(y: int)
    ensures DaysBeforeYear(y + 1) == DaysBeforeYear(y) + YearLength(y)
  {
    assert y / 4 == (y - 1) / 4 + if y % 4 == 0 then 1 else 0;
    assert y / 100 == (y - 1) / 100 + if y % 100 == 0 then 1 else 0;
    assert y / 400 == (y - 1) / 400 + if y % 400 == 0 then 1 else 0;
    assert y % 400 == 0 ==> y % 100 == 0 && y % 4 == 0;
    assert y % 100 == 0 ==> y % 4 == 0;
  }

  lemma {:induction false} MonthsFillYear(y: int)
    ensures DaysBeforeMonth(y, 13) == YearLength(y)
  {
    assert DaysBeforeMonth(y, 2) == 31 && DaysBeforeMonth(y, 3) == 31 + MonthLength(y, 2);
    assert DaysBeforeMonth(y, 4) == 62 + MonthLength(y, 2);
    assert DaysBeforeMonth(y, 5) == 92 + MonthLength(y, 2);
    assert DaysBeforeMonth(y, 6) == 123 + MonthLength(y, 2);
    assert DaysBeforeMonth(y, 7) == 153 + MonthLength(y, 2);
    assert DaysBeforeMonth(y, 8) == 184 + MonthLength(y, 2);
    assert DaysBeforeMonth(y, 9) == 215 + MonthLength(y, 2);
    assert DaysBeforeMonth(y, 10) == 245 + MonthLength(y, 2);
    assert DaysBeforeMonth(y, 11) == 276 + MonthLength(y, 2);
    assert DaysBeforeMonth(y, 12) == 306 + MonthLength(y, 2);
  }

  /** The year that contains day `ordinal`, searched upwards from `y`. */
  function YearOf(ordinal: int, y: int): (r: int)
    requires DaysBeforeYear(y) < ordinal
    ensures y <= r && DaysBeforeYear(r) < ordinal <= DaysBeforeYear(r + 1)
    decreases ordinal - DaysBeforeYear(y)
  {
    NextYear(y);
    if DaysBeforeYear(y + 1) < ordinal then YearOf(ordinal, y + 1) else y
  }

  function MonthOf(y: int, day: int, m: int): (r: int)
    requires 1 <= m <= 12 && DaysBeforeMonth(y, m) < day <= YearLength(y)
    ensures m <= r <= 12 && DaysBeforeMonth(y, r) < day <= DaysBeforeMonth(y, r + 1)
    decreases 12 - m
  {
    MonthsFillYear(y);
    if DaysBeforeMonth(y, m + 1) < day then MonthOf(y, day, m + 1) else m
  }

  lemma {:induction false} YearsGrow(y: int, z: int)
    requires y <= z
    ensures DaysBeforeYear(y) <= DaysBeforeYear(z)
    decreases z - y
  {
    if y < z {
      YearsGrow(y, z - 1);
      NextYear(z - 1);
    }
  }

  /** `datetime.fromtimestamp(epoch, tz=utc)`, for epochs from 1970 to the end of year 9999. */
  predicate InRange(epoch: int) {
    0 <= epoch && epoch / SECONDS_PER_DAY + EPOCH_ORDINAL <= MAX_ORDINAL
  }

  function CivilOf(epoch: int): (c: Civil)
    requires InRange(epoch)
    ensures IsCivil(c) && 1970 <= c.year && EpochOf(c) == epoch
  {
    var ordinal, s := epoch / SECONDS_PER_DAY + EPOCH_ORDINAL, epoch % SECONDS_PER_DAY;
    var y := YearOf(ordinal, 1970);
    YearInRange(ordinal, y);
    NextYear(y);
    var m := MonthOf(y, ordinal - DaysBeforeYear(y), 1);
    var c := Civil(y, m, ordinal - DaysBeforeYear(y) - DaysBeforeMonth(y, m), s / 3600, s / 60 % 60, s % 60);
    ClockParts(s);
    c
  }

  lemma YearInRange(ordinal: int, y: int)
    requires DaysBeforeYear(y) < ordinal <= MAX_ORDINAL
    ensures y <= 9999
  {
    if y > 9999 {
      YearsGrow(10000, y);
    }
  }

  lemma ClockParts(s: int)
    requires 0 <= s < SECONDS_PER_DAY
    ensures 0 <= s / 3600 < 24 && s == s / 3600 * 3600 + s / 60 % 60 * 60 + s % 60
  {
    var q := s / 60;
    assert s == q * 60 + s % 60 && q == q / 60 * 60 + q % 60 && q / 60 == s / 3600;
  }

  /* ---------- text ---------- */

  const HYPHEN: CodePoint := 0x2D
  const COLON: CodePoint := 0x3A
  const PLUS: CodePoint := 0x2B
  const UPPER_T: CodePoint := 0x54
  const UPPER_Z: CodePoint := 0x5A
  const ZERO_OFFSET: Str := [0x2B, 0x30, 0x30, 0x3A, 0x30, 0x30]

  function Pad2(n: int): (s: Str)
    requires 0 <= n < 100
    ensures |s| == 2
  {
    [0x30 + n / 10, 0x30 + n % 10]
  }

  function Parse2(s: Str, at: nat): (n: Option<int>)
    requires at + 2 <= |s|
    ensures n.Some? ==> 0 <= n.value < 100
  {
    if IsDigit(s[at]) && IsDigit(s[at + 1]) then Some((s[at] as int - 0x30) * 10 + (s[at + 1] as int - 0x30)) else None
  }

  lemma Pad2RoundTrip(n: int, s: Str, at: nat)
    requires 0 <= n < 100 && at + 2 <= |s| && s[at] == Pad2(n)[0] && s[at + 1] == Pad2(n)[1]
    ensures Parse2(s, at) == Some(n)
  {
  }

  function DateText(c: Civil): Str
    requires IsCivil(c)
  {
    Pad2(c.year / 100) + Pad2(c.year % 100) + [HYPHEN] + Pad2(c.month) + [HYPHEN]
    + Pad2(c.day)
  }

  function TimeText(c: Civil): Str
    requires IsCivil(c)
  {
    Pad2(c.hour) + [COLON] + Pad2(c.minute) + [COLON] + Pad2(c.second)
  }

  /** The client's `strftime("%Y-%m-%dT%H:%M:%SZ")` of an epoch. */
  function Stamp(epoch: int): Str
    requires InRange(epoch)
  {
    DateText(CivilOf(epoch)) + [UPPER_T] + TimeText(CivilOf(epoch)) + [UPPER_Z]
  }

  function ParseDate(s: Str): (r: Option<(int, int, int)>)
    requires |s| >= 10
  {
    match (Parse2(s, 0), Parse2(s, 2), Parse2(s, 5), Parse2(s, 8))
    case (Some(c), Some(y), Some(m), Some(d)) =>
      if s[4] == HYPHEN && s[7] == HYPHEN then Some((c * 100 + y, m, d)) else None
    case _ => None
  }

  function ParseTime(s: Str): (r: Option<(int, int, int)>)
    requires |s| >= 8
  {
    match (Parse2(s, 0), Parse2(s, 3), Parse2(s, 6))
    case (Some(h), Some(m), Some(sec)) => if s[2] == COLON && s[5] == COLON then Some((h, m, sec)) else None
    case _ => None
  }

  /** A UTC offset in minutes, from `+HH:MM` or `-HH:MM`. */
  function ParseOffset(s: Str): Option<int>
    requires |s| == 6
  {
    match (Parse2(s, 1), Parse2(s, 4))
    case (Some(h), Some(m)) =>
      if s[3] != COLON || h >= 24 || m >= 60 then None
      else if s[0] == PLUS then Some(h * 60 + m)
      else if s[0] == HYPHEN then Some(-(h * 60 + m))
      else None
    case _ => None
  }

  /** `datetime.fromisoformat` on `YYYY-MM-DDTHH:MM:SS`, with an optional offset; without one the time is taken as
      UTC. */
  function ParseIso(s: Str): Option<int> {
    if |s| != 19 && |s| != 25 then None
    else
      var offset := if |s| == 25 then ParseOffset(s[19..]) else Some(0);
      match (ParseDate(s), ParseTime(s[11..]), offset)
      case (Some((y, mo, d)), Some((h, mi, sec)), Some(minutes)) =>
        var c := Civil(y, mo, d, h, mi, sec);
        if s[10] == UPPER_T && IsCivil(c) then Some(EpochOf(c) - minutes * 60) else None
      case _ => None
  }

  /** The server's `_parse_iso_utc_epoch_seconds`. */
  function ParseHeaderTime(header: Str): Option<int> {
    var s := Strip(header);
    if s != [] && s[|s| - 1] == UPPER_Z then ParseIso(s[..|s| - 1] + ZERO_OFFSET) else ParseIso(s)
  }

  lemma DateRoundTrip(c: Civil, rest: Str)
    requires IsCivil(c)
    ensures |DateText(c)| == 10 && ParseDate(DateText(c) + rest) == Some((c.year, c.month, c.day))
  {
    hide Pad2, Parse2;
    var s := DateText(c) + rest;
    Pad2RoundTrip(c.year / 100, s, 0);
    Pad2RoundTrip(c.year % 100, s, 2);
    Pad2RoundTrip(c.month, s, 5);
    Pad2RoundTrip(c.day, s, 8);
  }

  lemma TimeRoundTrip(c: Civil, rest: Str)
    requires IsCivil(c)
    ensures |TimeText(c)| == 8 && ParseTime(TimeText(c) + rest) == Some((c.hour, c.minute, c.second))
  {
    hide Pad2, Parse2;
    var s := TimeText(c) + rest;
    Pad2RoundTrip(c.hour, s, 0);
    Pad2RoundTrip(c.minute, s, 3);
    Pad2RoundTrip(c.second, s, 6);
  }

  lemma StampEnds(epoch: int)
    requires InRange(epoch)
    ensures var s := Stamp(epoch);
            && |s| == 20 && s[19] == UPPER_Z && IsDigit(s[0])
            && s[..19] + ZERO_OFFSET
                == DateText(CivilOf(epoch)) + ([UPPER_T] + (TimeText(CivilOf(epoch)) + ZERO_OFFSET))
  {
    hide CivilOf, IsCivil, DateText, TimeText;
    var c := CivilOf(epoch);
    DateRoundTrip(c, []);
    TimeRoundTrip(c, []);
    DateStarts(c);
  }

  lemma DateStarts(c: Civil)
    requires IsCivil(c)
    ensures DateText(c) != [] && IsDigit(DateText(c)[0])
  {
  }

  lemma IsoParses(c: Civil)
    requires IsCivil(c)
    ensures ParseIso(DateText(c) + ([UPPER_T] + (TimeText(c) + ZERO_OFFSET))) == Some(EpochOf(c))
  {
    hide ParseDate, ParseTime, DateText, TimeText, EpochOf, IsCivil;
    var tail := TimeText(c) + ZERO_OFFSET;
    var s := DateText(c) + ([UPPER_T] + tail);
    DateRoundTrip(c, [UPPER_T] + tail);
    TimeRoundTrip(c, ZERO_OFFSET);
    assert s[10] == UPPER_T && s[11..] == tail && s[19..] == ZERO_OFFSET;
    assert ParseOffset(ZERO_OFFSET) == Some(0);
  }

  /** The server recovers from the client's timestamp exactly the epoch that was signed. */
  lemma StampRoundTrip(epoch: int)
    requires InRange(epoch)
    ensures ParseHeaderTime(Stamp(epoch)) == Some(epoch)
  {
    hide ParseIso, Stamp, CivilOf, DateText, TimeText;
    var s := Stamp(epoch);
    StampEnds(epoch);
    StripKeeps(s);
    IsoParses(CivilOf(epoch));
    CivilHasEpoch(epoch);
  }

  lemma CivilHasEpoch(epoch: int)
    requires InRange(epoch)
    ensures IsCivil(CivilOf(epoch)) && EpochOf(CivilOf(epoch)) == epoch
  {
  }

  /* ---------- the calendar itself ---------- */

  /** The Gregorian rule. */
  lemma MonthLengths(y: int)
    ensures MonthLength(y, 2) == if y % 4 == 0 && (y % 100 != 0 || y % 400 == 0) then 29 else 28
    ensures forall m | m in {1, 3, 5, 7, 8, 10, 12} :: MonthLength(y, m) == 31
    ensures forall m | m in {4, 6, 9, 11} :: MonthLength(y, m) == 30
  {
  }

  function NextDay(c: Civil): Civil {
    if c.day < MonthLength(c.year, c.month) then c.(day := c.day + 1)
    else if c.month < 12 then c.(month := c.month + 1, day := 1)
    else c.(year := c.year + 1, month := 1, day := 1)
  }

  /** Time starts with 1970 and every day of the calendar has 86400 seconds, so an epoch counts the seconds since
      then. */
  lemma EpochCountsSeconds(c: Civil)
    requires IsCivil(c)
    ensures EpochOf(Civil(1970, 1, 1, 0, 0, 0)) == 0
    ensures EpochOf(c) == EpochOf(Civil(c.year, c.month, c.day, 0, 0, 0)) + c.hour * 3600 + c.minute * 60 + c.second
    ensures IsCivil(NextDay(c)) ==> EpochOf(NextDay(c)) == EpochOf(c) + 86400
  {
    NextYear(c.year);
    MonthsFillYear(c.year);
    assert DaysBeforeMonth(c.year, c.month + 1) == DaysBeforeMonth(c.year, c.month) + MonthLength(c.year, c.month);
    assert DaysBeforeMonth(c.year + 1, 1) == 0;
  }

  lemma Pad2Digits(n: int)
    requires 0 <= n < 100
    ensures IsDigit(Pad2(n)[0]) && IsDigit(Pad2(n)[1]) && Pad2(n)[0] == 0x30 + n / 10 && Pad2(n)[1] == 0x30 + n % 10
  {
  }

  /** The client's stamp reads, digit by digit, as year-month-dayThour:minute:secondZ. */
  lemma StampShape(epoch: int)
    requires InRange(epoch)
    ensures var s, c := Stamp(epoch), CivilOf(epoch);
            && |s| == 20
            && s[0] == 0x30 + c.year / 1000 && s[1] == 0x30 + c.year / 100 % 10
            && s[2] == 0x30 + c.year / 10 % 10 && s[3] == 0x30 + c.year % 10 && s[4] == '-' as int
            && s[5] == 0x30 + c.month / 10 && s[6] == 0x30 + c.month % 10 && s[7] == '-' as int
            && s[8] == 0x30 + c.day / 10 && s[9] == 0x30 + c.day % 10 && s[10] == 'T' as int
            && s[11] == 0x30 + c.hour / 10 && s[12] == 0x30 + c.hour % 10 && s[13] == ':' as int
            && s[14] == 0x30 + c.minute / 10 && s[15] == 0x30 + c.minute % 10 && s[16] == ':' as int
            && s[17] == 0x30 + c.second / 10 && s[18] == 0x30 + c.second % 10 && s[19] == 'Z' as int
  {
    hide CivilOf;
    var c := CivilOf(epoch);
    var y := c.year;
    YearDigits(y);
  }

  lemma YearDigits(y: int)
    requires 0 <= y
    ensures y / 100 / 10 == y / 1000 && y % 100 / 10 == y / 10 % 10 && y % 100 % 10 == y % 10
  {
    var a, r := y / 100, y % 100;
    var b, d := a / 10, a % 10;
    var e, f := r / 10, r % 10;
    QuotientOf(y, 1000, b, 100 * d + r);
    QuotientOf(y, 10, 10 * a + e, f);
    QuotientOf(10 * a + e, 10, a, e);
  }

  lemma QuotientOf(n: int, d: int, q: int, r: int)
    requires 0 < d && n == q * d + r && 0 <= r < d
    ensures n / d == q && n % d == r
  {
    var k := n / d - q;
    assert k > 0 ==> k * d >= d;
    assert k < 0 ==> k * d <= -d;
    assert k * d == r - n % d;
  }

  /** `+HH:MM` or `-HH:MM` */
  function OffsetText(minutes: int): Str
    requires -1440 < minutes < 1440
  {
    var m := if minutes < 0 then -minutes else minutes;
    [if minutes < 0 then HYPHEN else PLUS] + Pad2(m / 60) + [COLON] + Pad2(m % 60)
  }

  lemma OffsetParses(minutes: int)
    requires -1440 < minutes < 1440
    ensures |OffsetText(minutes)| == 6 && ParseOffset(OffsetText(minutes)) == Some(minutes)
  {
    hide Pad2, Parse2;
    var m, s := if minutes < 0 then -minutes else minutes, OffsetText(minutes);
    Pad2RoundTrip(m / 60, s, 1);
    Pad2RoundTrip(m % 60, s, 4);
  }

  /** Any server-side time: local date and time with an offset stands for that much earlier in UTC, and without one
      it is UTC. */
  lemma OffsetTimesParse(c: Civil, minutes: int)
    requires IsCivil(c) && -1440 < minutes < 1440
    ensures ParseIso(DateText(c) + ([UPPER_T] + (TimeText(c) + OffsetText(minutes)))) == Some(EpochOf(c) - minutes * 60)
    ensures ParseIso(DateText(c) + ([UPPER_T] + TimeText(c))) == Some(EpochOf(c))
  {
    hide ParseDate, ParseTime, DateText, TimeText, EpochOf, IsCivil, OffsetText, ParseOffset;
    OffsetParses(minutes);
    var tail := TimeText(c) + OffsetText(minutes);
    var s := DateText(c) + ([UPPER_T] + tail);
    DateRoundTrip(c, [UPPER_T] + tail);
    TimeRoundTrip(c, OffsetText(minutes));
    assert s[10] == UPPER_T && s[11..] == tail && s[19..] == OffsetText(minutes);
    var u := DateText(c) + ([UPPER_T] + TimeText(c));
    DateRoundTrip(c, [UPPER_T] + TimeText(c));
    TimeRoundTrip(c, []);
    assert TimeText(c) + [] == TimeText(c);
    assert u[10] == UPPER_T && u[11..] == TimeText(c);
  }
}
