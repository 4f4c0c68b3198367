/** The leader-init status row and the follower's barrier wait (thaum/leader_init.py).

    `Releases` and `Raises` say, in terms of the rows a follower has read, when its wait ends;
    `BarrierWait.Wait` is the loop, proved to stop at the first poll for which one of them holds. */
module LeaderInit {
  import opened Prelude

  datatype InitState = Idle | Running | Done | Failed

  datatype Row = Row(ticket: int, state: InitState, error: Option<string>)

  const FAILED_GRACE_MS := 2000
  const MAX_ERROR_LENGTH := 1024
  const DEFAULT_ERROR := "leader init failed"

  function OrFresh(row: Option<Row>): Row {
    if row.Some? then row.value else Row(0, Idle, None)
  }

  function AfterRunning(row: Option<Row>): Row {
    Row(OrFresh(row).ticket + 1, Running, None)
  }

  function AfterDone(row: Option<Row>): Row {
    OrFresh(row).(state := Done, error := None)
  }

  /** The longest prefix that fits the column. */
  function Truncated(message: string): (t: string)
    ensures t <= message && |t| <= 1024 && (t != message ==> |t| == 1024)
  {
    if |message| <= MAX_ERROR_LENGTH then message else message[..MAX_ERROR_LENGTH]
  }

  function AfterFailed(row: Option<Row>, message: string): Row {
    OrFresh(row).(state := Failed, error := Some(Truncated(message)))
  }

  function ErrorText(row: Row): (text: string)
    ensures text != "" && (row.error == Some(text) || text == "leader init failed")
  {
    if row.error.Some? && row.error.value != "" then row.error.value else DEFAULT_ERROR
  }

  /** The singleton row of table `schema_leader_init_status`. */
  class StatusTable {
    var row: Option<Row>

    constructor ()
      ensures row == None
    {
      row := None;
    }

    method MarkRunning()
      modifies this
      ensures row.Some? && row.value.state == Running && row.value.error == None
      ensures row.value.ticket == (if old(row).Some? then old(row).value.ticket else 0) + 1
    {
      var r := OrFresh(row);
      row := Some(r.(ticket := r.ticket + 1, state := Running, error := None));
    }

    method MarkDone()
      modifies this
      ensures row.Some? && row.value.state == Done && row.value.error == None
      ensures row.value.ticket == if old(row).Some? then old(row).value.ticket else 0
    {
      row := Some(OrFresh(row).(state := Done, error := None));
    }

    method MarkFailed(message: string)
      modifies this
      ensures row.Some? && row.value.state == Failed
      ensures row.value.error == Some(Truncated(message))
      ensures row.value.ticket == if old(row).Some? then old(row).value.ticket else 0
    {
      row := Some(OrFresh(row).(state := Failed, error := Some(Truncated(message))));
    }
  }

  /* ---------- one poll of the follower ---------- */

  /** What a follower remembers between polls. */
  datatype View = View(baseline: Option<int>, sawRunning: bool, failedSeenAt: Option<int>)

  const INITIAL_VIEW := View(None, false, None)

  datatype Verdict = KeepWaiting | Released | Raised(message: string) | TimedOut

  /** The effect of reading `row` on a follower's memory, `clock` being the time of that read. */
  function PollRow(v: View, row: Option<Row>, clock: int): (View, Verdict) {
    if row.None? then (v, KeepWaiting)
    else
      var r := row.value;
      var baseline := if v.baseline.Some? then v.baseline.value else r.ticket;
      var known := v.(baseline := Some(baseline));
      match r.state
      case Idle => (known, KeepWaiting)
      case Running => (known.(sawRunning := true, failedSeenAt := None), KeepWaiting)
      case Done => (known, if r.ticket > baseline || v.sawRunning then Released else KeepWaiting)
      case Failed =>
        if r.ticket > baseline || v.sawRunning then (known, Raised(ErrorText(r)))
        else if v.failedSeenAt.None? then (known.(failedSeenAt := Some(clock)), KeepWaiting)
        else if clock - v.failedSeenAt.value >= FAILED_GRACE_MS then (known, Raised(ErrorText(r)))
        else (known, KeepWaiting)
  }

  /* ---------- what the wait means, in terms of the rows read ---------- */

  /** One turn of the loop: the clock at the deadline test, the row read, the clock in the FAILED branch. */
  datatype Poll = Poll(checkAt: int, row: Option<Row>, failedAt: int)

  type Polls = nat -> Poll

  predicate ReadsState(polls: Polls, k: nat, s: InitState) {
    polls(k).row.Some? && polls(k).row.value.state == s
  }

  ghost predicate FirstRead(polls: Polls, f: nat) {
    polls(f).row.Some? && forall j: nat | j < f :: polls(j).row.None?
  }

  ghost predicate SawRunning(polls: Polls, k: nat) {
    exists j: nat | j < k :: ReadsState(polls, j, Running)
  }

  /** Poll `k` shows a cycle that began after the first read, or one that was seen running. */
  ghost predicate NewCycle(polls: Polls, k: nat) {
    polls(k).row.Some? &&
    (|| (exists f: nat | f <= k :: FirstRead(polls, f) && polls(k).row.value.ticket > polls(f).row.value.ticket)
     || SawRunning(polls, k))
  }

  ghost predicate Releases(polls: Polls, k: nat) {
    ReadsState(polls, k, Done) && NewCycle(polls, k)
  }

  ghost predicate FailedTwice(polls: Polls, k: nat) {
    exists j: nat | j < k :: ReadsState(polls, j, Failed) && polls(k).failedAt - polls(j).failedAt >= 2000
  }

  ghost predicate Raises(polls: Polls, k: nat) {
    ReadsState(polls, k, Failed) && (NewCycle(polls, k) || FailedTwice(polls, k))
  }

  /** Each turn starts at least one poll interval after the previous one read its row. */
  ghost predicate Paced(polls: Polls, interval: int) {
    && (forall k: nat :: polls(k).checkAt <= polls(k).failedAt)
    && (forall j: nat, k: nat | k == j + 1 :: polls(j).failedAt + interval <= polls(k).checkAt)
  }

  ghost function RunView(polls: Polls, k: nat): View {
    if k == 0 then INITIAL_VIEW else PollRow(RunView(polls, k - 1), polls(k - 1).row, polls(k - 1).failedAt).0
  }

  ghost predicate BaselineMeaning(polls: Polls, k: nat) {
    var v := RunView(polls, k);
    && (v.baseline.None? ==> forall j: nat | j < k :: polls(j).row.None?)
    && (v.baseline.Some? ==> exists f: nat | f < k ::
        FirstRead(polls, f) && v.baseline.value == polls(f).row.value.ticket)
  }

  ghost predicate FailedMeaning(polls: Polls, k: nat) {
    var v := RunView(polls, k);
    && (v.failedSeenAt.None? ==> forall j: nat | j < k :: !ReadsState(polls, j, Failed))
    && (v.failedSeenAt.Some? ==>
          && (exists j: nat | j < k :: ReadsState(polls, j, Failed) && polls(j).failedAt == v.failedSeenAt.value)
          && (forall j: nat | j < k && ReadsState(polls, j, Failed) :: v.failedSeenAt.value <= polls(j).failedAt))
  }

  lemma ClockAdvances(polls: Polls, interval: int, j: nat, k: nat)
    requires Paced(polls, interval) && 0 < interval && j <= k
    ensures polls(j).failedAt <= polls(k).failedAt
    decreases k
  {
    if j < k {
      ClockAdvances(polls, interval, j, k - 1);
    }
  }

  lemma BaselineStep(polls: Polls, k: nat)
    requires BaselineMeaning(polls, k)
    ensures BaselineMeaning(polls, k + 1)
  {
    if polls(k).row.Some? && RunView(polls, k).baseline.None? {
      assert FirstRead(polls, k);
    }
  }

  lemma NewCycleMeaning(polls: Polls, k: nat)
    requires polls(k).row.Some? && BaselineMeaning(polls, k)
    requires RunView(polls, k).sawRunning == SawRunning(polls, k)
    ensures var v := RunView(polls, k);
            NewCycle(polls, k) <==> v.sawRunning || (v.baseline.Some? && polls(k).row.value.ticket > v.baseline.value)
  {
    var v := RunView(polls, k);
    var first: nat := k;
    if v.baseline.Some? {
      first :| first < k && FirstRead(polls, first) && v.baseline.value == polls(first).row.value.ticket;
    }
    assert FirstRead(polls, first);
    assert forall g: nat | FirstRead(polls, g) :: g == first;
  }

  lemma FailedTwiceMeaning(polls: Polls, k: nat)
    requires FailedMeaning(polls, k)
    ensures var seen := RunView(polls, k).failedSeenAt;
            FailedTwice(polls, k) <==> seen.Some? && polls(k).failedAt - seen.value >= 2000
  {
  }

  /** Given what the memory means, the verdict of poll `k` is the declared condition on the rows read. */
  lemma VerdictMeaning(polls: Polls, k: nat)
    requires BaselineMeaning(polls, k)
    requires RunView(polls, k).sawRunning == SawRunning(polls, k)
    requires !RunView(polls, k).sawRunning ==> FailedMeaning(polls, k)
    ensures var verdict := PollRow(RunView(polls, k), polls(k).row, polls(k).failedAt).1;
            && (verdict == Released <==> Releases(polls, k))
            && (verdict.Raised? <==> Raises(polls, k))
            && (verdict.Raised? ==> verdict.message == ErrorText(polls(k).row.value))
            && verdict != TimedOut
  {
    hide NewCycle, FailedTwice, BaselineMeaning, FailedMeaning, RunView;
    if polls(k).row.Some? {
      NewCycleMeaning(polls, k);
      if !RunView(polls, k).sawRunning {
        FailedTwiceMeaning(polls, k);
      }
    }
  }

  lemma FailedStep(polls: Polls, interval: int, k: nat)
    requires Paced(polls, interval) && 0 < interval
    requires BaselineMeaning(polls, k) && FailedMeaning(polls, k) && !SawRunning(polls, k)
    requires !RunView(polls, k).sawRunning && !Raises(polls, k) && !ReadsState(polls, k, Running)
    ensures FailedMeaning(polls, k + 1)
  {
    hide NewCycle, FailedTwice, BaselineMeaning, Paced;
    VerdictMeaning(polls, k);
    if ReadsState(polls, k, Failed) {
      forall j: nat | j < k ensures polls(j).failedAt <= polls(k).failedAt {
        ClockAdvances(polls, interval, j, k);
      }
    }
  }

  ghost predicate ViewMeans(polls: Polls, k: nat) {
    && BaselineMeaning(polls, k)
    && RunView(polls, k).sawRunning == SawRunning(polls, k)
    && (!RunView(polls, k).sawRunning ==> FailedMeaning(polls, k))
  }

  lemma ViewStep(polls: Polls, interval: int, k: nat)
    requires Paced(polls, interval) && 0 < interval
    requires ViewMeans(polls, k) && !Raises(polls, k)
    ensures ViewMeans(polls, k + 1)
  {
    hide RunView, BaselineMeaning, FailedMeaning, SawRunning, Paced, Raises;
    BaselineStep(polls, k);
    SawRunningStep(polls, k);
    if !RunView(polls, k + 1).sawRunning {
      FailedStep(polls, interval, k);
    }
  }

  /** The three remembered fields summarise every row read so far, as long as the wait did not end. */
  lemma {:induction false} ViewMeaning(polls: Polls, interval: int, k: nat)
    requires Paced(polls, interval) && 0 < interval
    requires forall j: nat | j < k :: !Raises(polls, j)
    ensures ViewMeans(polls, k)
  {
    hide Raises, Paced, ViewMeans;
    if k == 0 {
      NothingRead(polls);
    } else {
      ViewMeaning(polls, interval, k - 1);
      ViewStep(polls, interval, k - 1);
    }
  }

  lemma NothingRead(polls: Polls)
    ensures ViewMeans(polls, 0)
  {
  }

  lemma SawRunningStep(polls: Polls, k: nat)
    requires RunView(polls, k).sawRunning == SawRunning(polls, k)
    ensures RunView(polls, k + 1).sawRunning == SawRunning(polls, k + 1)
    ensures !RunView(polls, k + 1).sawRunning ==> !RunView(polls, k).sawRunning && !ReadsState(polls, k, Running)
  {
    assert SawRunning(polls, k + 1) <==> SawRunning(polls, k) || ReadsState(polls, k, Running);
  }

  lemma {:induction false} PollsArePaced(polls: Polls, interval: int, k: nat)
    requires Paced(polls, interval) && 0 < interval
    ensures polls(0).checkAt + k * interval <= polls(k).checkAt
  {
    if k > 0 {
      PollsArePaced(polls, interval, k - 1);
      assert k * interval == (k - 1) * interval + interval;
    }
  }

  /** Poll `k` is the last one of the wait: no earlier poll ended it or came after the deadline. */
  ghost predicate EndsAt(polls: Polls, deadline: int, k: nat) {
    && (forall j: nat | j < k :: polls(j).checkAt <= deadline && !Releases(polls, j) && !Raises(polls, j))
    && (polls(k).checkAt > deadline || Releases(polls, k) || Raises(polls, k))
  }

  /** A wait has one last poll. */
  lemma EndIsUnique(polls: Polls, deadline: int, j: nat, k: nat)
    requires EndsAt(polls, deadline, j) && EndsAt(polls, deadline, k)
    requires forall a: nat, b: nat | a < b && polls(b).checkAt <= deadline :: polls(a).checkAt <= deadline
    ensures j == k
  {
  }

  lemma MultipleMonotone(a: int, b: int, c: int)
    requires a <= b && 0 <= c
    ensures a * c <= b * c
  {
  }

  lemma QuotientBound(k: nat, interval: int, total: int)
    requires 0 < interval && k * interval <= total
    ensures k <= total / interval
  {
    if k > total / interval {
      MultipleMonotone(total / interval + 1, k, interval);
    }
  }

  /** A follower blocked in `wait_for_leader_init_barrier`. */
  class BarrierWait {
    var baseline: Option<int>
    var sawRunning: bool
    var failedSeenAt: Option<int>

    function Memory(): View
      reads this
    {
      View(baseline, sawRunning, failedSeenAt)
    }

    constructor ()
      ensures Memory() == INITIAL_VIEW
    {
      baseline, sawRunning, failedSeenAt := None, false, None;
    }

    method Read(row: Option<Row>, clock: int) returns (verdict: Verdict)
      modifies this
      ensures (Memory(), verdict) == PollRow(old(Memory()), row, clock)
    {
      verdict := KeepWaiting;
      if row.None? {
        return;
      }
      var r := row.value;
      if baseline.None? {
        baseline := Some(r.ticket);
      }
      if r.state == Running {
        sawRunning := true;
        failedSeenAt := None;
      }
      if r.state == Failed {
        if r.ticket > baseline.value || sawRunning {
          return Raised(ErrorText(r));
        }
        if failedSeenAt.None? {
          failedSeenAt := Some(clock);
        } else if clock - failedSeenAt.value >= FAILED_GRACE_MS {
          return Raised(ErrorText(r));
        }
      }
      if r.state == Done {
        if r.ticket > baseline.value {
          return Released;
        }
        if sawRunning {
          return Released;
        }
      }
    }

    /** The loop: `polled` counts the rows it read before it returned or raised. */
    method Wait(start: int, timeout: int, interval: int, polls: Polls) returns (verdict: Verdict, polled: nat)
      requires Memory() == INITIAL_VIEW
      requires 0 < interval && Paced(polls, interval) && start <= polls(0).checkAt
      modifies this
      ensures verdict != KeepWaiting
      ensures forall k: nat | k < polled :: polls(k).checkAt <= start + timeout
      ensures forall k: nat | k + 1 < polled :: !Releases(polls, k) && !Raises(polls, k)
      ensures verdict == Released <==> polled > 0 && Releases(polls, polled - 1)
      ensures verdict.Raised? <==> polled > 0 && Raises(polls, polled - 1)
      ensures verdict.Raised? ==> verdict.message == ErrorText(polls(polled - 1).row.value)
      ensures verdict == TimedOut ==> polls(polled).checkAt > start + timeout
      ensures polled > 0 ==> polled <= timeout / interval + 1
    {
      hide Releases, Raises, PollRow, BaselineMeaning, FailedMeaning, SawRunning;
      polled := 0;
      while true
        invariant Memory() == RunView(polls, polled)
        invariant forall k: nat | k < polled ::
            !Releases(polls, k) && !Raises(polls, k) && polls(k).checkAt <= start + timeout
        invariant polled > 0 ==> polled <= timeout / interval + 1
        decreases start + timeout - polls(polled).checkAt
      {
        if polls(polled).checkAt > start + timeout {
          return TimedOut, polled;
        }
        PollsArePaced(polls, interval, polled);
        QuotientBound(polled, interval, timeout);
        ViewMeaning(polls, interval, polled);
        VerdictMeaning(polls, polled);
        verdict := Read(polls(polled).row, polls(polled).failedAt);
        assert polls(polled).checkAt <= polls(polled).failedAt < polls(polled + 1).checkAt;
        polled := polled + 1;
        if verdict != KeepWaiting {
          return;
        }
      }
    }
  }
}
