/** The leader's maintenance scheduler (thaum/leader_service.py). Times are seconds of one process's monotonic clock. */
module LeaderTasks {
  import opened Prelude

  datatype Task = Task(name: string, interval: real)

  type LastRun = map<string, real>

  predicate Due(task: Task, last: LastRun, now: real) {
    now - (if task.name in last then last[task.name] else 0.0) >= task.interval
  }

  /** The dictionary after the first `k` tasks of a tick: a run is recorded whether or not the task raised. */
  function RecordedBy(tasks: seq<Task>, last: LastRun, now: real, k: nat): LastRun
    requires k <= |tasks|
  {
    if k == 0 then last
    else
      var so := RecordedBy(tasks, last, now, k - 1);
      if Due(tasks[k - 1], so, now) then so[tasks[k - 1].name := now] else so
  }

  predicate Attempts(tasks: seq<Task>, last: LastRun, now: real, i: nat)
    requires i < |tasks|
  {
    Due(tasks[i], RecordedBy(tasks, last, now, i), now)
  }

  /** The positions of the tasks attempted among the first `k`, in registration order. */
  function AttemptedBy(tasks: seq<Task>, last: LastRun, now: real, k: nat): seq<nat>
    requires k <= |tasks|
  {
    if k == 0 then []
    else AttemptedBy(tasks, last, now, k - 1) + if Attempts(tasks, last, now, k - 1) then [k - 1] else []
  }

  function Raising(attempted: seq<nat>, raises: nat -> bool): seq<nat> {
    if attempted == [] then []
    else
      var last := attempted[|attempted| - 1];
      Raising(attempted[..|attempted| - 1], raises) + if raises(last) then [last] else []
  }

  lemma {:induction false} RaisingMeaning(attempted: seq<nat>, raises: nat -> bool)
    ensures forall i: nat :: i in Raising(attempted, raises) <==> i in attempted && raises(i)
  {
    if attempted != [] {
      RaisingMeaning(attempted[..|attempted| - 1], raises);
      assert attempted == attempted[..|attempted| - 1] + [attempted[|attempted| - 1]];
    }
  }

  class LeaderLoop {
    var tasks: seq<Task>
    var lastRun: LastRun

    constructor ()
      ensures tasks == [] && lastRun == map[]
    {
      tasks, lastRun := [], map[];
    }

    ghost predicate Valid()
      reads this
    {
      forall i | 0 <= i < |tasks| :: tasks[i].interval > 0.0
    }

    method RegisterTask(task: Task) returns (result: Result<(), string>)
      requires Valid()
      modifies this`tasks
      ensures Valid()
      ensures result.Ok? <==> task.interval > 0.0
      ensures tasks == if result.Ok? then old(tasks) + [task] else old(tasks)
    {
      if task.interval <= 0.0 {
        return Err("interval_seconds must be positive");
      }
      tasks := tasks + [task];
      return Ok(());
    }

    /** One leader tick; `raises` says which tasks end in an exception, which is logged. */
    method RunDueTasks(now: real, raises: nat -> bool) returns (attempted: seq<nat>, logged: seq<nat>)
      modifies this`lastRun
      ensures attempted == AttemptedBy(tasks, old(lastRun), now, |tasks|)
      ensures lastRun == RecordedBy(tasks, old(lastRun), now, |tasks|)
      ensures logged == Raising(attempted, raises)
      ensures forall i: nat :: i in logged <==> i in attempted && raises(i)
    {
      attempted, logged := [], [];
      for i := 0 to |tasks|
        invariant attempted == AttemptedBy(tasks, old(lastRun), now, i)
        invariant lastRun == RecordedBy(tasks, old(lastRun), now, i)
        invariant logged == Raising(attempted, raises)
      {
        var prev := if tasks[i].name in lastRun then lastRun[tasks[i].name] else 0.0;
        if now - prev >= tasks[i].interval {
          ghost var before := attempted;
          attempted := attempted + [i];
          assert attempted[..|attempted| - 1] == before;
          if raises(i) {
            logged := logged + [i];
          }
          lastRun := lastRun[tasks[i].name := now];
        }
      }
      RaisingMeaning(attempted, raises);
    }
  }

  /* ---------- one tick ---------- */

  predicate DistinctNames(tasks: seq<Task>) {
    forall i, j | 0 <= i < j < |tasks| :: tasks[i].name != tasks[j].name
  }

  /** A tick records `now` under the names it attempted and keeps the rest. */
  lemma {:induction false} RecordedMeaning(tasks: seq<Task>, last: LastRun, now: real, k: nat, name: string)
    requires k <= |tasks|
    ensures var after := RecordedBy(tasks, last, now, k);
            if exists i: nat :: i < k && tasks[i].name == name && Attempts(tasks, last, now, i)
                then name in after && after[name] == now
            else (name in after <==> name in last) && (name in last ==> after[name] == last[name])
  {
    if k > 0 {
      RecordedMeaning(tasks, last, now, k - 1, name);
      if tasks[k - 1].name == name && Attempts(tasks, last, now, k - 1) {
        assert k - 1 < k;
      }
    }
  }

  lemma {:induction false} AttemptedMeaning(tasks: seq<Task>, last: LastRun, now: real, k: nat)
    requires k <= |tasks|
    ensures var attempted := AttemptedBy(tasks, last, now, k);
            && (forall i: nat :: i in attempted <==> i < k && Attempts(tasks, last, now, i))
            && (forall a, b | 0 <= a < b < |attempted| :: attempted[a] < attempted[b])
  {
    hide Attempts;
    if k > 0 {
      AttemptedMeaning(tasks, last, now, k - 1);
      var so := AttemptedBy(tasks, last, now, k - 1);
      assert forall a | 0 <= a < |so| :: so[a] in so;
    }
  }

  /** With positive intervals: a tick attempts, once each and in registration order, exactly the tasks that were due
      when it began and whose name no earlier task of the tick has taken; raising tasks stop none of the later ones. */
  lemma TickAttemptsExactly(tasks: seq<Task>, last: LastRun, now: real, i: nat)
    requires i < |tasks| && tasks[i].interval > 0.0
    ensures var previous := if tasks[i].name in last then last[tasks[i].name] else 0.0;
            Attempts(tasks, last, now, i) <==>
              now - previous >= tasks[i].interval && forall j: nat | j < i && tasks[j].name == tasks[i].name ::
                  !Attempts(tasks, last, now, j)
  {
    RecordedMeaning(tasks, last, now, i, tasks[i].name);
  }

  /** With distinct names every due task is attempted exactly once, in registration order, and nothing else is. */
  lemma EveryDueTaskRunsOnce(tasks: seq<Task>, last: LastRun, now: real)
    requires DistinctNames(tasks) && forall i | 0 <= i < |tasks| :: tasks[i].interval > 0.0
    ensures var attempted := AttemptedBy(tasks, last, now, |tasks|);
            && (forall i: nat :: i in attempted <==>
                  && i < |tasks|
                  && now - (if tasks[i].name in last then last[tasks[i].name] else 0.0) >= tasks[i].interval)
            && (forall a, b | 0 <= a < b < |attempted| :: attempted[a] < attempted[b])
  {
    hide RecordedBy, Attempts;
    AttemptedMeaning(tasks, last, now, |tasks|);
    forall i: nat | i < |tasks| ensures Attempts(tasks, last, now, i) <==> Due(tasks[i], last, now) {
      TickAttemptsExactly(tasks, last, now, i);
    }
  }

  /* ---------- the ticks of one process ---------- */

  /** `leads` says whether this process was found to be the leader, with no exception before that. The tick reads the
      clock once, as `now`, which is what it records for every task; task `i`, if attempted, really starts at
      `starts[i]`. */
  datatype Tick = Tick(now: real, leads: bool, starts: seq<real>)

  function LastAfter(tasks: seq<Task>, ticks: seq<Tick>): LastRun {
    if ticks == [] then map[]
    else
      var so, tick := LastAfter(tasks, ticks[..|ticks| - 1]), ticks[|ticks| - 1];
      if tick.leads then RecordedBy(tasks, so, tick.now, |tasks|) else so
  }

  predicate RunsAt(tasks: seq<Task>, ticks: seq<Tick>, k: nat, i: nat)
    requires k < |ticks| && i < |tasks|
  {
    ticks[k].leads && Attempts(tasks, LastAfter(tasks, ticks[..k]), ticks[k].now, i)
  }

  ghost predicate Monotonic(ticks: seq<Tick>) {
    forall j, k | 0 <= j < k < |ticks| :: ticks[j].now <= ticks[k].now
  }

  /** Once a task has run, its name stays recorded with that time or a later one. */
  lemma {:induction false} RunIsRemembered(tasks: seq<Task>, ticks: seq<Tick>, j: nat, k: nat, i: nat)
    requires j < k <= |ticks| && i < |tasks| && RunsAt(tasks, ticks, j, i) && Monotonic(ticks)
    ensures var last := LastAfter(tasks, ticks[..k]);
            tasks[i].name in last && ticks[j].now <= last[tasks[i].name]
    decreases k
  {
    hide Attempts, RecordedBy;
    var n := k - 1;
    assert ticks[..k][..n] == ticks[..n];
    RecordedMeaning(tasks, LastAfter(tasks, ticks[..n]), ticks[n].now, |tasks|, tasks[i].name);
    if j < n {
      RunIsRemembered(tasks, ticks, j, n, i);
    }
  }

  /** With distinct names a recorded time is that of a run of the task itself. */
  lemma {:induction false} RecordComesFromRun(tasks: seq<Task>, ticks: seq<Tick>, k: nat, i: nat) returns (j: nat)
    requires k <= |ticks| && i < |tasks| && DistinctNames(tasks)
    requires tasks[i].name in LastAfter(tasks, ticks[..k])
    ensures j < k && RunsAt(tasks, ticks, j, i) && LastAfter(tasks, ticks[..k])[tasks[i].name] == ticks[j].now
  {
    hide Attempts, RecordedBy;
    var n := k - 1;
    assert ticks[..k][..n] == ticks[..n];
    RecordedMeaning(tasks, LastAfter(tasks, ticks[..n]), ticks[n].now, |tasks|, tasks[i].name);
    if RunsAt(tasks, ticks, n, i) {
      j := n;
    } else {
      j := RecordComesFromRun(tasks, ticks, n, i);
    }
  }

  ghost predicate HasRun(tasks: seq<Task>, ticks: seq<Tick>, k: nat, i: nat)
    requires k <= |ticks| && i < |tasks|
  {
    exists j: nat :: j < k && RunsAt(tasks, ticks, j, i)
  }

  /** With distinct names a task runs in exactly those ticks of a leader that come an interval after every earlier run
      of it or, while there is none, that read at least the interval on the clock. So no task is ever passed over. */
  lemma RunsExactly(tasks: seq<Task>, ticks: seq<Tick>, k: nat, i: nat)
    requires k < |ticks| && i < |tasks| && DistinctNames(tasks) && Monotonic(ticks)
    requires forall h | 0 <= h < |tasks| :: tasks[h].interval > 0.0
    ensures RunsAt(tasks, ticks, k, i) <==>
              && ticks[k].leads
              && (forall j: nat | j < k && RunsAt(tasks, ticks, j, i) ::
                    ticks[k].now - ticks[j].now >= tasks[i].interval)
              && (!HasRun(tasks, ticks, k, i) ==> ticks[k].now >= tasks[i].interval)
  {
    hide Attempts, RecordedBy, LastAfter;
    var last := LastAfter(tasks, ticks[..k]);
    TickAttemptsExactly(tasks, last, ticks[k].now, i);
    assert forall j: nat | j < i :: tasks[j].name != tasks[i].name;
    forall j: nat | j < k && RunsAt(tasks, ticks, j, i)
      ensures tasks[i].name in last && ticks[j].now <= last[tasks[i].name]
    {
      RunIsRemembered(tasks, ticks, j, k, i);
    }
    if tasks[i].name in last {
      var j := RecordComesFromRun(tasks, ticks, k, i);
    }
  }

  /** The recorded times of two runs of a task are at least its interval apart, even if other tasks share its name. */
  lemma RunsAreApart(tasks: seq<Task>, ticks: seq<Tick>, j: nat, k: nat, i: nat)
    requires j < k < |ticks| && i < |tasks| && tasks[i].interval > 0.0 && Monotonic(ticks)
    requires RunsAt(tasks, ticks, j, i) && RunsAt(tasks, ticks, k, i)
    ensures ticks[k].now - ticks[j].now >= tasks[i].interval
  {
    hide RecordedBy, LastAfter;
    RunIsRemembered(tasks, ticks, j, k, i);
    TickAttemptsExactly(tasks, LastAfter(tasks, ticks[..k]), ticks[k].now, i);
  }

  /** How often task `i` is recorded in the first `k` ticks, at times from `start` to `end`. */
  function RunsWithin(tasks: seq<Task>, ticks: seq<Tick>, i: nat, start: real, end: real, k: nat): nat
    requires i < |tasks| && k <= |ticks|
  {
    if k == 0 then 0
    else
      RunsWithin(tasks, ticks, i, start, end, k - 1)
      + if RunsAt(tasks, ticks, k - 1, i) && start <= ticks[k - 1].now <= end then 1 else 0
  }

  /** The runs inside a window, but for the first, each take up an interval of it. */
  lemma {:induction false} RunsFillWindow(tasks: seq<Task>, ticks: seq<Tick>, i: nat, start: real, end: real, k: nat)
      returns (latest: nat)
    requires i < |tasks| && k <= |ticks| && tasks[i].interval > 0.0 && Monotonic(ticks)
    requires RunsWithin(tasks, ticks, i, start, end, k) > 0
    ensures latest < k && RunsAt(tasks, ticks, latest, i) && start <= ticks[latest].now <= end
    ensures (RunsWithin(tasks, ticks, i, start, end, k) - 1) as real * tasks[i].interval <= ticks[latest].now - start
  {
    hide RunsAt;
    var n := k - 1;
    if RunsAt(tasks, ticks, n, i) && start <= ticks[n].now <= end {
      latest := n;
      var before := RunsWithin(tasks, ticks, i, start, end, n);
      if before > 0 {
        var previous := RunsFillWindow(tasks, ticks, i, start, end, n);
        RunsAreApart(tasks, ticks, previous, n, i);
        assert before as real * tasks[i].interval == (before - 1) as real * tasks[i].interval + tasks[i].interval;
      }
    } else {
      latest := RunsFillWindow(tasks, ticks, i, start, end, n);
    }
  }

  lemma QuotientBounds(n: nat, interval: real, length: real)
    requires interval > 0.0 && n as real * interval <= length
    ensures n <= (length / interval).Floor
  {
    var q := length / interval;
    assert q * interval == length;
    assert n as real <= q;
  }

  /** In any window of length `length` a task is recorded at most floor(length / interval) + 1 times. */
  lemma RunsPerWindow(tasks: seq<Task>, ticks: seq<Tick>, i: nat, start: real, length: real)
    requires i < |tasks| && tasks[i].interval > 0.0 && length >= 0.0 && Monotonic(ticks)
    ensures RunsWithin(tasks, ticks, i, start, start + length, |ticks|) <= (length / tasks[i].interval).Floor + 1
  {
    hide RunsAt;
    var n := RunsWithin(tasks, ticks, i, start, start + length, |ticks|);
    if n > 0 {
      var latest := RunsFillWindow(tasks, ticks, i, start, start + length, |ticks|);
      QuotientBounds(n - 1, tasks[i].interval, length);
    } else {
      QuotientBounds(0, tasks[i].interval, length);
    }
  }

  /* ---------- when tasks really start ---------- */

  /** Tasks of a tick start one after the other, after its clock reading and before that of any later tick. */
  ghost predicate StartsFit(tasks: seq<Task>, ticks: seq<Tick>) {
    && Monotonic(ticks)
    && (forall k | 0 <= k < |ticks| :: |ticks[k].starts| == |tasks|)
    && (forall k, i | 0 <= k < |ticks| && 0 <= i < |tasks| :: ticks[k].now <= ticks[k].starts[i])
    && (forall k, h, i | 0 <= k < |ticks| && 0 <= h < i < |tasks| :: ticks[k].starts[h] <= ticks[k].starts[i])
    && (forall j, k, i | 0 <= j < k < |ticks| && 0 <= i < |tasks| :: ticks[j].starts[i] <= ticks[k].now)
  }

  /** Whenever task `i` runs, it starts at most `lag` after its tick's clock reading. */
  ghost predicate LagsAtMost(tasks: seq<Task>, ticks: seq<Tick>, i: nat, lag: real)
    requires i < |tasks| && StartsFit(tasks, ticks)
  {
    forall k: nat | k < |ticks| && RunsAt(tasks, ticks, k, i) :: ticks[k].starts[i] - ticks[k].now <= lag
  }

  ghost predicate StartsApart(tasks: seq<Task>, ticks: seq<Tick>, i: nat, gap: real)
    requires i < |tasks| && StartsFit(tasks, ticks)
  {
    forall j: nat, k: nat | j < k < |ticks| && RunsAt(tasks, ticks, j, i) && RunsAt(tasks, ticks, k, i) ::
      ticks[k].starts[i] - ticks[j].starts[i] >= gap
  }

  /** Two starts are at least the interval apart, less the delay of the first one behind its tick. */
  lemma StartsNearlyApart(tasks: seq<Task>, ticks: seq<Tick>, j: nat, k: nat, i: nat)
    requires j < k < |ticks| && i < |tasks| && tasks[i].interval > 0.0 && StartsFit(tasks, ticks)
    requires RunsAt(tasks, ticks, j, i) && RunsAt(tasks, ticks, k, i)
    ensures ticks[k].starts[i] - ticks[j].starts[i] >= tasks[i].interval - (ticks[j].starts[i] - ticks[j].now)
    ensures ticks[k].starts[i] >= ticks[j].starts[i]
  {
    hide RunsAt;
    RunsAreApart(tasks, ticks, j, k, i);
  }

  ghost predicate GapGuaranteed(interval: real, lag: real, gap: real) {
    forall tasks: seq<Task>, ticks: seq<Tick>, i: nat
      | i < |tasks| && tasks[i].interval == interval && StartsFit(tasks, ticks) && LagsAtMost(tasks, ticks, i, lag) ::
      StartsApart(tasks, ticks, i, gap)
  }

  /** Two tasks of one interval, the first delaying the second by `lag` in the first tick; the next tick comes as
      soon as the second is due again and has been started. */
  function DelayedTasks(interval: real): seq<Task> {
    [Task("slow", interval), Task("b", interval)]
  }

  function DelayedTicks(interval: real, lag: real): seq<Tick> {
    var again := interval + if interval < lag then lag else interval;
    [Tick(interval, true, [interval, interval + lag]), Tick(again, true, [again, again])]
  }

  lemma DelayedTasksRun(interval: real, lag: real)
    requires interval > 0.0 && lag >= 0.0
    ensures RunsAt(DelayedTasks(interval), DelayedTicks(interval, lag), 0, 1)
    ensures RunsAt(DelayedTasks(interval), DelayedTicks(interval, lag), 1, 1)
  {
    var tasks, ticks := DelayedTasks(interval), DelayedTicks(interval, lag);
    assert ticks[..0] == [] && ticks[..1][..0] == [];
    assert RecordedBy(tasks, map[], interval, 0) == map[];
    assert RecordedBy(tasks, map[], interval, 1) == map["slow" := interval];
    var last := RecordedBy(tasks, map[], interval, 2);
    assert last == map["slow" := interval, "b" := interval];
    assert LastAfter(tasks, ticks[..1]) == last;
    TickAttemptsExactly(tasks, last, ticks[1].now, 1);
  }

  /** The exact spacing of starts, for delays of at most `lag`: the interval less the lag, and never less than
      nothing. So starts keep the whole interval in every run only if no start is ever delayed. */
  lemma StartsApartExactly(interval: real, lag: real, gap: real)
    requires interval > 0.0 && lag >= 0.0
    ensures GapGuaranteed(interval, lag, gap) <==> gap <= interval - lag || gap <= 0.0
  {
    hide RunsAt;
    if gap <= interval - lag || gap <= 0.0 {
      forall tasks: seq<Task>, ticks: seq<Tick>, i: nat
        | i < |tasks| && tasks[i].interval == interval && StartsFit(tasks, ticks) && LagsAtMost(tasks, ticks, i, lag)
        ensures StartsApart(tasks, ticks, i, gap)
      {
        forall j: nat, k: nat | j < k < |ticks| && RunsAt(tasks, ticks, j, i) && RunsAt(tasks, ticks, k, i)
          ensures ticks[k].starts[i] - ticks[j].starts[i] >= gap
        {
          StartsNearlyApart(tasks, ticks, j, k, i);
        }
      }
    } else {
      var tasks, ticks := DelayedTasks(interval), DelayedTicks(interval, lag);
      DelayedTasksRun(interval, lag);
      assert StartsFit(tasks, ticks);
      assert LagsAtMost(tasks, ticks, 1, lag);
      assert !StartsApart(tasks, ticks, 1, gap);
    }
  }

  /** How often task `i` starts in the first `k` ticks, at times from `start` to `end`. */
  function StartsWithin(tasks: seq<Task>, ticks: seq<Tick>, i: nat, start: real, end: real, k: nat): nat
    requires i < |tasks| && k <= |ticks| && forall h | 0 <= h < |ticks| :: |ticks[h].starts| == |tasks|
  {
    if k == 0 then 0
    else
      StartsWithin(tasks, ticks, i, start, end, k - 1)
      + if RunsAt(tasks, ticks, k - 1, i) && start <= ticks[k - 1].starts[i] <= end then 1 else 0
  }

  lemma {:induction false} StartsAreRecorded(tasks: seq<Task>, ticks: seq<Tick>, i: nat, start: real, end: real,
      lag: real, k: nat)
    requires i < |tasks| && k <= |ticks| && StartsFit(tasks, ticks) && LagsAtMost(tasks, ticks, i, lag)
    ensures StartsWithin(tasks, ticks, i, start, end, k) <= RunsWithin(tasks, ticks, i, start - lag, end, k)
  {
    hide RunsAt;
    if k > 0 {
      StartsAreRecorded(tasks, ticks, i, start, end, lag, k - 1);
    }
  }

  /** In any window of length `length` a task delayed by at most `lag` starts at most floor((length + lag) /
      interval) + 1 times. */
  lemma StartsPerWindow(tasks: seq<Task>, ticks: seq<Tick>, i: nat, start: real, length: real, lag: real)
    requires i < |tasks| && tasks[i].interval > 0.0 && length >= 0.0 && lag >= 0.0
    requires StartsFit(tasks, ticks) && LagsAtMost(tasks, ticks, i, lag)
    ensures StartsWithin(tasks, ticks, i, start, start + length, |ticks|)
            <= ((length + lag) / tasks[i].interval).Floor + 1
  {
    hide RunsAt, StartsWithin, RunsWithin;
    StartsAreRecorded(tasks, ticks, i, start, start + length, lag, |ticks|);
    RunsPerWindow(tasks, ticks, i, start - lag, length + lag);
    assert start - lag + (length + lag) == start + length;
  }
}
