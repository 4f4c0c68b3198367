/** The once-per-day throttle of rotation warnings (alerts/webhook_bearer.py).

    Its rows are also deleted by its own cleanup, so the spacing of warnings rests on expiry being checked first.
    Times are microseconds. A run lists the calls of all workers in the order of their database transactions, and `dbAt`
    stands for the time of the transaction. */
module BearerThrottle {
  import opened Prelude

  const SECOND := 1_000_000
  const DAY := 86_400 * SECOND

  type Fingerprint = string

  datatype Row = Row(lastWarn: int, expires: Option<int>, botKey: Option<string>)

  type Table = map<Fingerprint, Row>

  datatype Outcome = Emit | Suppress

  predicate Outdated(row: Row, now: int) {
    row.expires.Some? && row.expires.value < now - DAY
  }

  function Cleaned(t: Table, now: int): Table {
    map fp | fp in t && !Outdated(t[fp], now) :: t[fp]
  }

  /** One throttle transaction, as a function of the table it finds. */
  function Throttle(t: Table, fp: Fingerprint, now: int, expT: int, bot: Option<string>): (Table, Outcome) {
    var kept := Cleaned(t, now);
    if fp in kept then
      if now - kept[fp].lastWarn < DAY then (kept, Suppress)
      else (kept[fp := Row(now, Some(expT), if bot.Some? then bot else kept[fp].botKey)], Emit)
    else (kept[fp := Row(now, Some(expT), bot)], Emit)
  }

  /** Table `webhook_bearer_warn_state`. */
  class WarnTable {
    var rows: Table

    constructor ()
      ensures rows == map[]
    {
      rows := map[];
    }

    method DeleteExpired(cleanupBefore: int)
      modifies this
      ensures rows == Cleaned(old(rows), cleanupBefore + DAY)
    {
      rows := map fp | fp in rows && !(rows[fp].expires.Some? && rows[fp].expires.value < cleanupBefore) :: rows[fp];
    }

    method ShouldLog(fp: Fingerprint, now: int, expT: int, bot: Option<string>) returns (outcome: Outcome)
      modifies this
      ensures (rows, outcome) == Throttle(old(rows), fp, now, expT, bot)
    {
      DeleteExpired(now - DAY);
      if fp in rows {
        var row := rows[fp];
        if now - row.lastWarn < DAY {
          return Suppress;
        }
        row := row.(lastWarn := now, expires := Some(expT));
        if bot.Some? {
          row := row.(botKey := bot);
        }
        rows := rows[fp := row];
        return Emit;
      }
      rows := rows[fp := Row(now, Some(expT), bot)];
      return Emit;
    }
  }

  /** A call of `validate_webhook_bearer` whose token matched and has an expiry: the clock at the expiry test, at the
      window test and in the throttle transaction. `expT` is the expiry as the incoming token spells it. */
  datatype Call = Call(fp: Fingerprint, expT: int, warnDays: int, bot: Option<string>, checkedAt: int, windowAt: int,
      dbAt: int)

  /** The call passes the expiry test and lies in the warning window, so it consults the throttle. */
  predicate Consults(c: Call) {
    c.checkedAt <= c.expT && c.warnDays > 0 && c.windowAt >= c.expT - c.warnDays * DAY
  }

  function AfterCall(t: Table, c: Call): Table {
    if Consults(c) then Throttle(t, c.fp, c.dbAt, c.expT, c.bot).0 else t
  }

  function After(run: seq<Call>): Table {
    if run == [] then map[] else AfterCall(After(run[..|run| - 1]), run[|run| - 1])
  }

  predicate EmitsAt(run: seq<Call>, i: nat)
    requires i < |run|
  {
    Consults(run[i]) && Throttle(After(run[..i]), run[i].fp, run[i].dbAt, run[i].expT, run[i].bot).1 == Emit
  }

  /** Clocks are shared and monotone; no call takes longer than `stall` from its expiry test to its transaction;
      of the calls that reach the throttle, spellings of one token's expiry lie within a second. */
  ghost predicate Timely(run: seq<Call>, stall: int) {
    && (forall i | 0 <= i < |run| :: run[i].checkedAt <= run[i].windowAt <= run[i].dbAt <= run[i].checkedAt + stall)
    && (forall i, j | 0 <= i < j < |run| :: run[i].dbAt <= run[j].dbAt)
    && (forall i, j | 0 <= i < |run| && 0 <= j < |run| && Consults(run[i]) && Consults(run[j])
        && run[i].fp == run[j].fp ::
          run[i].expT - run[j].expT < SECOND)
  }

  /** Two warnings for one token are at least a day apart. */
  ghost predicate Spaced(run: seq<Call>) {
    forall i: nat, j: nat | i < j < |run| && EmitsAt(run, i) && EmitsAt(run, j) && run[i].fp == run[j].fp ::
      run[j].dbAt - run[i].dbAt >= 86_400_000_000
  }

  /** What is left of the warning given by call `i`: its row, or the fact that its token is long expired. */
  ghost predicate Remembers(run: seq<Call>, i: nat, k: nat)
    requires i < k <= |run|
  {
    var t, fp := After(run[..k]), run[i].fp;
    || (fp in t && t[fp].lastWarn == run[i].dbAt && t[fp].expires == Some(run[i].expT))
    || run[i].expT + DAY < run[k - 1].dbAt
  }

  lemma AfterExtends(run: seq<Call>, k: nat)
    requires k < |run|
    ensures After(run[..k + 1]) == AfterCall(After(run[..k]), run[k])
  {
    assert run[..k + 1][..k] == run[..k];
  }

  /** A call keeps a row unless it finds it long expired or warns about the same token itself. */
  lemma CallKeepsRow(t: Table, c: Call, fp: Fingerprint)
    requires fp in t && t[fp].expires.Some?
    requires Consults(c) && c.fp == fp ==> Throttle(t, fp, c.dbAt, c.expT, c.bot).1 != Emit
    ensures var after := AfterCall(t, c); (fp in after && after[fp] == t[fp]) || t[fp].expires.value + DAY < c.dbAt
  {
  }

  lemma EmissionIsRecorded(t: Table, c: Call)
    requires Consults(c) && Throttle(t, c.fp, c.dbAt, c.expT, c.bot).1 == Emit
    ensures var after := AfterCall(t, c);
            && c.fp in after && after[c.fp].lastWarn == c.dbAt && after[c.fp].expires == Some(c.expT)
            && (c.bot.Some? ==> after[c.fp].botKey == c.bot)
            && (c.bot.None? && c.fp in t && !Outdated(t[c.fp], c.dbAt) ==> after[c.fp].botKey == t[c.fp].botKey)
  {
  }

  lemma {:induction false} WarningIsRemembered(run: seq<Call>, stall: int, i: nat, k: nat)
    requires Timely(run, stall) && i < k <= |run| && EmitsAt(run, i)
    requires forall j: nat | i < j < k :: !(EmitsAt(run, j) && run[j].fp == run[i].fp)
    ensures Remembers(run, i, k)
    decreases k
  {
    hide AfterCall, Throttle, After, Consults;
    AfterExtends(run, k - 1);
    if i < k - 1 {
      WarningIsRemembered(run, stall, i, k - 1);
      assert run[k - 2].dbAt <= run[k - 1].dbAt;
      if run[i].fp in After(run[..k - 1]) && After(run[..k - 1])[run[i].fp].expires.Some? {
        assert !(EmitsAt(run, k - 1) && run[k - 1].fp == run[i].fp);
        CallKeepsRow(After(run[..k - 1]), run[k - 1], run[i].fp);
      }
    } else {
      EmissionIsRecorded(After(run[..i]), run[i]);
    }
  }

  lemma LastWarningBefore(run: seq<Call>, i: nat, j: nat) returns (last: nat)
    requires i < j < |run| && EmitsAt(run, i)
    ensures i <= last < j && EmitsAt(run, last) && run[last].fp == run[i].fp
    ensures forall k: nat | last < k < j :: !(EmitsAt(run, k) && run[k].fp == run[i].fp)
  {
    last := j - 1;
    while !(EmitsAt(run, last) && run[last].fp == run[i].fp)
      invariant i <= last < j
      invariant forall k: nat | last < k < j :: !(EmitsAt(run, k) && run[k].fp == run[i].fp)
      decreases last - i
    {
      last := last - 1;
    }
  }

  /** If no call stalls for a day less a second, the throttle works although cleanup deletes its memory. */
  lemma PromptCallsAreSpaced(run: seq<Call>, stall: int)
    requires Timely(run, stall) && stall <= 86_399_000_001
    ensures Spaced(run)
  {
    forall i: nat, j: nat | i < j < |run| && EmitsAt(run, i) && EmitsAt(run, j) && run[i].fp == run[j].fp
      ensures run[j].dbAt - run[i].dbAt >= DAY
    {
      var last := LastWarningBefore(run, i, j);
      WarningIsRemembered(run, stall, last, j);
      assert run[last].dbAt <= run[j].dbAt && run[j - 1].dbAt <= run[j].dbAt;
      assert run[last].expT - run[j].expT < SECOND && run[j].expT - run[last].expT < SECOND;
    }
  }

  lemma OneCallRecords(t: Table, c: Call, fp: Fingerprint)
    ensures fp in AfterCall(t, c) ==>
              || (Consults(c) && c.fp == fp && Throttle(t, fp, c.dbAt, c.expT, c.bot).1 == Emit
                  && AfterCall(t, c)[fp].lastWarn == c.dbAt)
              || (fp in t && AfterCall(t, c)[fp].lastWarn == t[fp].lastWarn)
  {
  }

  /** Every row stands for a warning that was given at the time it records. */
  lemma {:induction false} RowComesFromWarning(run: seq<Call>, k: nat, fp: Fingerprint)
    requires k <= |run|
    ensures fp in After(run[..k]) ==>
              exists i: nat :: i < k && EmitsAt(run, i) && run[i].fp == fp
                  && run[i].dbAt == After(run[..k])[fp].lastWarn
    decreases k
  {
    hide AfterCall, Throttle, Consults, After;
    if k == 0 {
      NothingRecorded(run);
    } else {
      AfterExtends(run, k - 1);
      RowComesFromWarning(run, k - 1, fp);
      OneCallRecords(After(run[..k - 1]), run[k - 1], fp);
      if fp in After(run[..k]) && EmitsAt(run, k - 1) && run[k - 1].fp == fp
          && run[k - 1].dbAt == After(run[..k])[fp].lastWarn {
        assert k - 1 < k;
      }
    }
  }

  lemma NothingRecorded(run: seq<Call>)
    ensures After(run[..0]) == map[]
  {
    assert run[..0] == [];
  }

  /** The call's token is unexpired and inside its pre-expiry window. */
  predicate IsDue(c: Call) {
    c.checkedAt <= c.expT && c.warnDays > 0 && c.windowAt >= c.expT - c.warnDays * 86_400_000_000
  }

  /** A warning for call `j`'s token was given less than a day before it. */
  ghost predicate WarnedWithinDay(run: seq<Call>, j: nat)
    requires j < |run|
  {
    exists i: nat :: i < j && EmitsAt(run, i) && run[i].fp == run[j].fp && run[j].dbAt - run[i].dbAt < 86_400_000_000
  }

  lemma ThrottleEmitsExactly(t: Table, c: Call)
    ensures Throttle(t, c.fp, c.dbAt, c.expT, c.bot).1 == Emit <==>
              c.fp !in t || Outdated(t[c.fp], c.dbAt) || c.dbAt - t[c.fp].lastWarn >= 86_400_000_000
  {
  }

  /** The exact throttle: in every run within the stall bound a call warns if and only if it is due and no warning
      for its token was given less than a day before. */
  lemma WarnsExactly(run: seq<Call>, stall: int, j: nat)
    requires Timely(run, stall) && stall <= 86_399_000_001 && j < |run|
    ensures EmitsAt(run, j) <==> IsDue(run[j]) && !WarnedWithinDay(run, j)
  {
    PromptCallsAreSpaced(run, stall);
    ThrottleEmitsExactly(After(run[..j]), run[j]);
    RowComesFromWarning(run, j, run[j].fp);
    assert Consults(run[j]) <==> IsDue(run[j]);
    hide Throttle, Consults, Timely, Outdated, After, IsDue;
  }

  /** Two calls held up after their expiry tests: the second finds the first one's row already deleted. */
  function StalledRun(): seq<Call> {
    var exp := 10 * DAY;
    var stall := DAY - SECOND + 2;
    [Call("fp", exp, 1, None, exp, exp, exp + stall),
     Call("fp", exp + SECOND - 1, 1, None, exp + SECOND - 1, exp + SECOND - 1, exp + SECOND - 1 + stall)]
  }

  lemma StalledRunRepeatsWarning(stall: int)
    requires stall > 86_399_000_001
    ensures Timely(StalledRun(), stall) && !Spaced(StalledRun())
  {
    var run := StalledRun();
    assert run[..0] == [];
    AfterExtends(run, 0);
    assert EmitsAt(run, 0);
    assert After(run[..1])["fp"].expires == Some(10 * DAY);
    assert EmitsAt(run, 1);
  }

  /** The exact bound: warnings for one token are a day apart in every run if and only if no call may stall
      longer than a day less a second between its expiry test and its throttle transaction. */
  lemma SpacingHoldsExactlyWhenPrompt(stall: int)
    ensures (forall run | Timely(run, stall) :: Spaced(run)) <==> stall <= 86_399_000_001
  {
    if stall <= 86_399_000_001 {
      forall run | Timely(run, stall) ensures Spaced(run) {
        PromptCallsAreSpaced(run, stall);
      }
    } else {
      StalledRunRepeatsWarning(stall);
    }
  }

  /** A warning is only ever given for a token that was unexpired and inside its pre-expiry window when tested,
      and at most the stall after its expiry. */
  lemma WarnsOnlyInWindow(run: seq<Call>, stall: int, i: nat)
    requires Timely(run, stall) && i < |run| && EmitsAt(run, i)
    ensures run[i].checkedAt <= run[i].expT && run[i].expT - run[i].warnDays * 86_400_000_000 <= run[i].windowAt
    ensures run[i].expT - run[i].warnDays * 86_400_000_000 <= run[i].dbAt <= run[i].expT + stall
  {
  }
}
