/** The leader-init barrier as a protocol between workers (thaum/leader_bootstrap.py, thaum/leader_init.py).

    A run is any list of (worker, action) pairs, so every interleaving of leaders, followers, crashes and
    clock steps is some run. `World.trace` is the history of committed writes and executed tasks. */
module LeaderProtocol {
  import opened Prelude
  import opened LeaderInit

  type Pid = nat

  datatype Event =
    | BeganRunning(pid: Pid)
    | TaskSucceeded(pid: Pid, task: nat)
    | TaskRaised(pid: Pid, task: nat, message: string)
    | CommittedDone(pid: Pid)
    | CommittedFailed(pid: Pid, message: string)

  /** One read of an existing row by a follower: the length of the trace and the clock at that moment, and the row
      read. */
  datatype Read = Read(at: nat, clock: int, row: Row)

  /** Where a worker is in `run_leader_bootstrap_phase`; `looks` is the history of its reads, which it does not
      itself keep. */
  datatype Role =
    | Starting
    | Leading(next: nat)
    | TaskBroke(message: string)
    | Led(ok: bool)
    | Following(view: View, deadline: int, looks: seq<Read>)
    | Settled(verdict: Verdict, looks: seq<Read>)
    | Crashed

  datatype World = World(row: Option<Row>, clock: int, roles: map<Pid, Role>, trace: seq<Event>)

  datatype Action =
    | Lead
    | Follow(timeout: int)
    | RunTask(error: Option<string>)
    | Commit
    | Look(lag: nat)
    | Crash
    | Elapse(time: nat)

  datatype Move = Move(who: Pid, action: Action)

  function RoleOf(w: World, p: Pid): Role {
    if p in w.roles then w.roles[p] else Starting
  }

  function With(w: World, p: Pid, role: Role, row: Option<Row>, events: seq<Event>): World {
    w.(row := row, roles := w.roles[p := role], trace := w.trace + events)
  }

  /** One atomic step; an action that is not enabled changes nothing. `tasks` is the number of registered tasks. */
  function Step(tasks: nat, w: World, m: Move): World {
    var p := m.who;
    match (RoleOf(w, p), m.action)
    case (_, Elapse(time)) => w.(clock := w.clock + time)
    case (Starting, Lead) => With(w, p, Leading(0), Some(AfterRunning(w.row)), [BeganRunning(p)])
    case (Starting, Follow(timeout)) => With(w, p, Following(INITIAL_VIEW, w.clock + timeout, []), w.row, [])
    case (Leading(next), RunTask(error)) =>
      if next == tasks then w
      else if error.None? then With(w, p, Leading(next + 1), w.row, [TaskSucceeded(p, next)])
      else With(w, p, TaskBroke(error.value), w.row, [TaskRaised(p, next, error.value)])
    case (Leading(next), Commit) =>
      if next < tasks then w
      else With(w, p, Led(true), Some(AfterDone(w.row)), [CommittedDone(p)])
    case (TaskBroke(message), Commit) =>
      With(w, p, Led(false), Some(AfterFailed(w.row, message)), [CommittedFailed(p, message)])
    case (Following(_, deadline, looks), Look(lag)) =>
      if w.clock > deadline then With(w, p, Settled(TimedOut, looks), w.row, [])
      else With(w, p, AfterLook(w, RoleOf(w, p), w.clock + lag), w.row, [])
    case (Leading(_), Crash) => With(w, p, Crashed, w.row, [])
    case (TaskBroke(_), Crash) => With(w, p, Crashed, w.row, [])
    case (Following(_, _, _), Crash) => With(w, p, Crashed, w.row, [])
    case _ => w
  }

  /** A follower's reads once it has looked at the current row at `clock`. */
  function ReadsAfter(w: World, looks: seq<Read>, clock: int): seq<Read> {
    if w.row.None? then looks else looks + [Read(|w.trace|, clock, w.row.value)]
  }

  function AfterLook(w: World, role: Role, clock: int): Role
    requires role.Following?
  {
    var (seen, verdict) := PollRow(role.view, w.row, clock);
    var looks := ReadsAfter(w, role.looks, clock);
    if verdict == KeepWaiting then Following(seen, role.deadline, looks) else Settled(verdict, looks)
  }

  const START := World(None, 0, map[], [])

  function Exec(tasks: nat, moves: seq<Move>): World {
    if moves == [] then START else Step(tasks, Exec(tasks, moves[..|moves| - 1]), moves[|moves| - 1])
  }

  /* ---------- what the row says about the trace ---------- */

  predicate IsCommit(e: Event) {
    e.CommittedDone? || e.CommittedFailed?
  }

  predicate IsWrite(e: Event) {
    e.BeganRunning? || IsCommit(e)
  }

  function ApplyWrite(row: Option<Row>, e: Event): Option<Row> {
    match e
    case BeganRunning(_) => Some(AfterRunning(row))
    case CommittedDone(_) => Some(AfterDone(row))
    case CommittedFailed(_, message) => Some(AfterFailed(row, message))
    case _ => row
  }

  function RowAfter(trace: seq<Event>): Option<Row> {
    if trace == [] then None else ApplyWrite(RowAfter(trace[..|trace| - 1]), trace[|trace| - 1])
  }

  function Cycles(trace: seq<Event>): nat {
    if trace == [] then 0
    else Cycles(trace[..|trace| - 1]) + if trace[|trace| - 1].BeganRunning? then 1 else 0
  }

  function StateWritten(e: Event): InitState
    requires IsWrite(e)
  {
    if e.BeganRunning? then Running else if e.CommittedDone? then Done else Failed
  }

  ghost predicate Quiet(trace: seq<Event>, from: nat, upto: nat) {
    forall k | from <= k < upto && k < |trace| :: !IsWrite(trace[k])
  }

  ghost predicate LastWriteAt(trace: seq<Event>, i: nat) {
    i < |trace| && IsWrite(trace[i]) && Quiet(trace, i + 1, |trace|)
  }

  /** The ticket counts the cycles begun, and the state is that of the last committed write. */
  lemma {:induction false} RowMeaning(trace: seq<Event>)
    ensures var row := RowAfter(trace);
            && (row.None? ==> Quiet(trace, 0, |trace|))
            && (row.Some? ==> row.value.ticket == Cycles(trace))
            && (row.Some? ==> exists i: nat :: LastWriteAt(trace, i) && row.value.state == StateWritten(trace[i]))
            && (row.None? ==> Cycles(trace) == 0)
  {
    if trace != [] {
      var n := |trace| - 1;
      RowMeaning(trace[..n]);
      if IsWrite(trace[n]) {
        assert LastWriteAt(trace, n);
      } else if RowAfter(trace).Some? {
        var i: nat :| LastWriteAt(trace[..n], i) && RowAfter(trace).value.state == StateWritten(trace[..n][i]);
        assert LastWriteAt(trace, i);
      }
    }
  }

  lemma {:induction false} QuietKeepsRow(trace: seq<Event>, from: nat, upto: nat)
    requires from <= upto <= |trace| && Quiet(trace, from, upto)
    ensures RowAfter(trace[..upto]) == RowAfter(trace[..from])
    decreases upto
  {
    if from < upto {
      QuietKeepsRow(trace, from, upto - 1);
      assert trace[..upto][..upto - 1] == trace[..upto - 1];
    }
  }

  lemma {:induction false} CyclesGrow(trace: seq<Event>, from: nat, upto: nat)
    requires from <= upto <= |trace|
    ensures Cycles(trace[..from]) <= Cycles(trace[..upto])
    ensures Cycles(trace[..from]) < Cycles(trace[..upto]) <==> exists k :: from <= k < upto && trace[k].BeganRunning?
    decreases upto
  {
    if from < upto {
      CyclesGrow(trace, from, upto - 1);
      assert trace[..upto][..upto - 1] == trace[..upto - 1];
    }
  }

  /* ---------- what each worker did ---------- */

  function History(trace: seq<Event>, p: Pid): seq<Event> {
    if trace == [] then []
    else
      var e := trace[|trace| - 1];
      History(trace[..|trace| - 1], p) + if e.pid == p then [e] else []
  }

  /** A leader's whole history up to and including its first `n` tasks. */
  function LeaderSoFar(p: Pid, n: nat): seq<Event> {
    if n == 0 then [BeganRunning(p)] else LeaderSoFar(p, n - 1) + [TaskSucceeded(p, n - 1)]
  }

  ghost predicate RoleMatchesHistory(tasks: nat, p: Pid, role: Role, past: seq<Event>) {
    match role
    case Leading(next) => next <= tasks && past == LeaderSoFar(p, next)
    case TaskBroke(message) => exists k: nat :: BrokeAt(tasks, p, k, message, past)
    case Led(_) => true
    case Crashed => true
    case _ => past == []
  }

  ghost predicate BrokeAt(tasks: nat, p: Pid, k: nat, message: string, past: seq<Event>) {
    k < tasks && past == LeaderSoFar(p, k) + [TaskRaised(p, k, message)]
  }

  /** Every commit was made by a leader whose history is exactly what that outcome calls for. */
  ghost predicate CommitsJustified(tasks: nat, trace: seq<Event>) {
    forall i | 0 <= i < |trace| && IsCommit(trace[i]) :: CommitJustified(tasks, trace, i)
  }

  ghost predicate CommitJustified(tasks: nat, trace: seq<Event>, i: nat)
    requires i < |trace|
  {
    var past := History(trace[..i], trace[i].pid);
    if trace[i].CommittedDone? then past == LeaderSoFar(trace[i].pid, tasks)
    else if trace[i].CommittedFailed? then exists k: nat :: BrokeAt(tasks, trace[i].pid, k, trace[i].message, past)
    else true
  }

  predicate ReadState(looks: seq<Read>, state: InitState) {
    exists i :: 0 <= i < |looks| && looks[i].row.state == state
  }

  /** When FAILED was first read. */
  function FirstFailedClock(looks: seq<Read>): Option<int> {
    if looks == [] then None
    else
      var so, last := FirstFailedClock(looks[..|looks| - 1]), looks[|looks| - 1];
      if so.Some? then so else if last.row.state == Failed then Some(last.clock) else None
  }

  /** The memory of a follower that made these reads. */
  function ViewOf(looks: seq<Read>): View {
    if looks == [] then INITIAL_VIEW
    else
      var last := looks[|looks| - 1];
      PollRow(ViewOf(looks[..|looks| - 1]), Some(last.row), last.clock).0
  }

  /** None of these reads ended the wait. */
  predicate Waited(looks: seq<Read>) {
    looks == [] ||
    var front, last := looks[..|looks| - 1], looks[|looks| - 1];
    Waited(front) && PollRow(ViewOf(front), Some(last.row), last.clock).1 == KeepWaiting
  }

  /** A follower that made these reads and is still waiting has this memory. */
  predicate Remembers(view: View, looks: seq<Read>) {
    view == ViewOf(looks) && Waited(looks)
  }

  /** What the memory amounts to: the first ticket read, whether RUNNING was ever read, and, if it was not, when
      FAILED was first read. */
  lemma {:induction false} ViewOfMeaning(looks: seq<Read>)
    requires Waited(looks)
    ensures var v := ViewOf(looks);
            && v.baseline == (if looks == [] then None else Some(looks[0].row.ticket))
            && (v.sawRunning <==> ReadState(looks, Running))
            && (!v.sawRunning ==> v.failedSeenAt == FirstFailedClock(looks))
  {
    if looks != [] {
      var n := |looks| - 1;
      ViewOfMeaning(looks[..n]);
      assert ReadState(looks, Running) <==> ReadState(looks[..n], Running) || looks[n].row.state == Running;
    }
  }

  /** Each read showed the row as it was then, and they come in order. */
  ghost predicate ReadsMatchTrace(trace: seq<Event>, looks: seq<Read>) {
    && (forall i | 0 <= i < |looks| :: ReadMatches(trace, looks[i]))
    && (forall i, j | 0 <= i < j < |looks| :: looks[i].at <= looks[j].at)
  }

  ghost predicate ReadMatches(trace: seq<Event>, r: Read) {
    r.at <= |trace| && RowAfter(trace[..r.at]) == Some(r.row)
  }

  ghost predicate FollowersMatchTrace(w: World) {
    forall p | p in w.roles && w.roles[p].Following? ::
      Remembers(w.roles[p].view, w.roles[p].looks) && ReadsMatchTrace(w.trace, w.roles[p].looks)
  }

  ghost predicate DoneSince(trace: seq<Event>, f: nat) {
    exists i :: f <= i < |trace| && trace[i].CommittedDone?
  }

  ghost predicate ReleasesJustified(w: World) {
    forall p | p in w.roles && w.roles[p].Settled? && w.roles[p].verdict == Released ::
      w.roles[p].looks != [] && DoneSince(w.trace, w.roles[p].looks[0].at)
  }

  ghost predicate Inv(tasks: nat, w: World) {
    && w.row == RowAfter(w.trace)
    && (forall p: Pid :: RoleMatchesHistory(tasks, p, RoleOf(w, p), History(w.trace, p)))
    && CommitsJustified(tasks, w.trace)
    && FollowersMatchTrace(w)
    && ReleasesJustified(w)
  }

  lemma {:induction false} HistoryExtend(trace: seq<Event>, e: Event, p: Pid)
    ensures History(trace + [e], p) == History(trace, p) + if e.pid == p then [e] else []
  {
    assert (trace + [e])[..|trace|] == trace;
  }

  lemma RowExtend(trace: seq<Event>, e: Event)
    ensures RowAfter(trace + [e]) == ApplyWrite(RowAfter(trace), e)
  {
    assert (trace + [e])[..|trace|] == trace;
  }

  lemma ReadsSurvive(trace: seq<Event>, e: Event, looks: seq<Read>)
    requires ReadsMatchTrace(trace, looks)
    ensures ReadsMatchTrace(trace + [e], looks)
  {
    forall i | 0 <= i < |looks| ensures ReadMatches(trace + [e], looks[i]) {
      assert ReadMatches(trace, looks[i]);
      assert (trace + [e])[..looks[i].at] == trace[..looks[i].at];
    }
  }

  /** Appending one event by `p`, whose new role fits it, keeps the invariant. */
  lemma EventKeepsInv(tasks: nat, w: World, p: Pid, role: Role, e: Event)
    requires Inv(tasks, w) && e.pid == p && !role.Following? && !role.Settled?
    requires RoleMatchesHistory(tasks, p, role, History(w.trace, p) + [e])
    requires IsCommit(e) ==> CommitJustified(tasks, w.trace + [e], |w.trace|)
    ensures Inv(tasks, With(w, p, role, ApplyWrite(w.row, e), [e]))
  {
    var v := With(w, p, role, ApplyWrite(w.row, e), [e]);
    RowExtend(w.trace, e);
    forall q: Pid ensures RoleMatchesHistory(tasks, q, RoleOf(v, q), History(v.trace, q)) {
      HistoryExtend(w.trace, e, q);
      if q != p {
        assert History(v.trace, q) == History(w.trace, q);
        assert RoleMatchesHistory(tasks, q, RoleOf(w, q), History(w.trace, q));
      }
    }
    forall i | 0 <= i < |v.trace| && IsCommit(v.trace[i]) ensures CommitJustified(tasks, v.trace, i) {
      if i < |w.trace| {
        assert v.trace[..i] == w.trace[..i];
        assert CommitJustified(tasks, w.trace, i);
      }
    }
    forall q | q in v.roles && v.roles[q].Following?
      ensures Remembers(v.roles[q].view, v.roles[q].looks) && ReadsMatchTrace(v.trace, v.roles[q].looks)
    {
      ReadsSurvive(w.trace, e, v.roles[q].looks);
    }
    forall q | q in v.roles && v.roles[q].Settled? && v.roles[q].verdict == Released
      ensures v.roles[q].looks != [] && DoneSince(v.trace, v.roles[q].looks[0].at)
    {
      var i :| v.roles[q].looks[0].at <= i < |w.trace| && w.trace[i].CommittedDone?;
      assert v.trace[i].CommittedDone?;
    }
  }

  /** A silent change of one worker's role keeps the invariant when the new role fits. */
  lemma SilentKeepsInv(tasks: nat, w: World, p: Pid, role: Role)
    requires Inv(tasks, w)
    requires RoleMatchesHistory(tasks, p, role, History(w.trace, p))
    requires role.Following? ==> Remembers(role.view, role.looks) && ReadsMatchTrace(w.trace, role.looks)
    requires role.Settled? && role.verdict == Released ==> role.looks != [] && DoneSince(w.trace, role.looks[0].at)
    ensures Inv(tasks, With(w, p, role, w.row, []))
  {
    assert w.trace + [] == w.trace;
    var v := With(w, p, role, w.row, []);
    forall q: Pid ensures RoleMatchesHistory(tasks, q, RoleOf(v, q), History(v.trace, q)) {
      assert RoleMatchesHistory(tasks, q, RoleOf(w, q), History(w.trace, q));
    }
  }

  lemma LookExtendsReads(w: World, looks: seq<Read>, clock: int)
    requires w.row == RowAfter(w.trace) && ReadsMatchTrace(w.trace, looks)
    ensures ReadsMatchTrace(w.trace, ReadsAfter(w, looks, clock))
    ensures PollRow(ViewOf(looks), w.row, clock).0 == ViewOf(ReadsAfter(w, looks, clock))
    ensures Waited(looks) && PollRow(ViewOf(looks), w.row, clock).1 == KeepWaiting ==>
        Waited(ReadsAfter(w, looks, clock))
  {
    assert w.trace[..|w.trace|] == w.trace;
    var after := ReadsAfter(w, looks, clock);
    if w.row.Some? {
      assert after[..|after| - 1] == looks;
      forall i | 0 <= i < |after| ensures ReadMatches(w.trace, after[i]) {
        assert i < |looks| ==> ReadMatches(w.trace, looks[i]);
      }
    }
  }

  /** Between a write and the next one, the row shows the state that was written. */
  lemma RowSinceWrite(trace: seq<Event>, i: nat, r: nat)
    requires i < r <= |trace| && IsWrite(trace[i]) && Quiet(trace, i + 1, r)
    ensures RowAfter(trace[..r]).Some? && RowAfter(trace[..r]).value.state == StateWritten(trace[i])
  {
    QuietKeepsRow(trace, i + 1, r);
    RowExtend(trace[..i], trace[i]);
    assert trace[..i + 1] == trace[..i] + [trace[i]];
  }

  /** A row read as RUNNING was read before the last write, when that write is an outcome. */
  lemma LastWriteAfterRunning(trace: seq<Event>, r: Read, i: nat)
    requires ReadMatches(trace, r) && r.row.state == Running && LastWriteAt(trace, i) && !trace[i].BeganRunning?
    ensures r.at <= i
  {
    if i < r.at {
      RowSinceWrite(trace, i, r.at);
    }
  }

  ghost predicate BeganSince(trace: seq<Event>, f: nat) {
    exists k :: f <= k < |trace| && trace[k].BeganRunning?
  }

  /** A cycle is new to a follower when it began after the follower's first read, or was read as RUNNING. */
  ghost predicate NewTo(trace: seq<Event>, looks: seq<Read>) {
    looks != [] && (BeganSince(trace, looks[0].at) || ReadState(looks, Running))
  }

  /** What the memory compares is whether the current cycle is new. */
  lemma MemoryTellsNew(w: World, looks: seq<Read>)
    requires w.row == RowAfter(w.trace) && w.row.Some? && ReadsMatchTrace(w.trace, looks) && looks != []
        && Waited(looks)
    ensures var v := ViewOf(looks);
            v.baseline.Some? && (NewTo(w.trace, looks) <==> w.row.value.ticket > v.baseline.value || v.sawRunning)
  {
    hide ReadState, ViewOf;
    ViewOfMeaning(looks);
    assert ReadMatches(w.trace, looks[0]);
    RowMeaning(w.trace);
    RowMeaning(w.trace[..looks[0].at]);
    assert w.trace[..|w.trace|] == w.trace;
    CyclesGrow(w.trace, looks[0].at, |w.trace|);
  }

  /** An outcome shown for a new cycle was committed after the first read. */
  lemma NewOutcomeIsLater(w: World, looks: seq<Read>)
    requires w.row == RowAfter(w.trace) && w.row.Some? && ReadsMatchTrace(w.trace, looks) && NewTo(w.trace, looks)
    requires w.row.value.state == Done || w.row.value.state == Failed
    ensures exists i: nat ::
        looks[0].at <= i && LastWriteAt(w.trace, i) && StateWritten(w.trace[i]) == w.row.value.state
  {
    hide RowAfter;
    RowMeaning(w.trace);
    var i: nat :| LastWriteAt(w.trace, i) && w.row.value.state == StateWritten(w.trace[i]);
    if ReadState(looks, Running) {
      var r :| 0 <= r < |looks| && looks[r].row.state == Running;
      assert ReadMatches(w.trace, looks[r]);
      LastWriteAfterRunning(w.trace, looks[r], i);
    } else {
      var k :| looks[0].at <= k < |w.trace| && w.trace[k].BeganRunning?;
      assert k <= i;
    }
  }

  /** The verdict of one look, in terms of the run: an outcome counts iff its cycle is new to the follower; a FAILED
      that is not new counts once FAILED was first read the grace period earlier. */
  lemma LookExactly(w: World, role: Role, clock: int)
    requires role.Following? && Remembers(role.view, role.looks)
    requires w.row == RowAfter(w.trace) && w.row.Some? && ReadsMatchTrace(w.trace, role.looks)
    ensures var looks, verdict := ReadsAfter(w, role.looks, clock), PollRow(role.view, w.row, clock).1;
            && verdict != TimedOut
            && (verdict == Released <==> w.row.value.state == Done && NewTo(w.trace, looks))
            && (verdict.Raised? <==>
                  && w.row.value.state == Failed
                  && var seen := FirstFailedClock(role.looks);
                     NewTo(w.trace, looks) || (seen.Some? && clock - seen.value >= 2000))
            && (verdict.Raised? ==> verdict.message == ErrorText(w.row.value))
  {
    hide RowAfter, BeganSince, ViewOf, FirstFailedClock, Waited;
    var looks, verdict := ReadsAfter(w, role.looks, clock), PollRow(role.view, w.row, clock).1;
    ViewOfMeaning(role.looks);
    NewAfterLook(w, role.looks, clock);
    if role.looks != [] {
      MemoryTellsNew(w, role.looks);
    } else {
      NothingSeenYet();
    }
  }

  lemma NothingSeenYet()
    ensures ViewOf([]) == INITIAL_VIEW && FirstFailedClock([]) == None
  {
  }

  /** Reading an outcome makes no cycle new. */
  lemma NewAfterLook(w: World, looks: seq<Read>, clock: int)
    requires w.row.Some?
    ensures w.row.value.state != Running ==> (NewTo(w.trace, ReadsAfter(w, looks, clock)) <==> NewTo(w.trace, looks))
  {
    var after := ReadsAfter(w, looks, clock);
    if w.row.value.state != Running {
      if ReadState(after, Running) {
        var i :| 0 <= i < |after| && after[i].row.state == Running;
        assert looks[i].row.state == Running;
      }
      if ReadState(looks, Running) {
        var i :| 0 <= i < |looks| && looks[i].row.state == Running;
        assert after[i].row.state == Running;
      }
    }
  }

  /** The only-if half of the barrier, with no assumption on how leaders overlap. */
  lemma ReleaseNeedsDone(w: World, role: Role, clock: int)
    requires role.Following? && Remembers(role.view, role.looks)
    requires w.row == RowAfter(w.trace) && ReadsMatchTrace(w.trace, role.looks)
    requires PollRow(role.view, w.row, clock).1 == Released
    ensures role.looks != [] && DoneSince(w.trace, role.looks[0].at)
  {
    hide RowAfter, ViewOf, BeganSince, FirstFailedClock, Waited;
    LookExactly(w, role, clock);
    NewAfterLook(w, role.looks, clock);
    NewOutcomeIsLater(w, role.looks);
    var i: nat :| role.looks[0].at <= i && LastWriteAt(w.trace, i) && StateWritten(w.trace[i]) == Done;
    LastWriteIsDone(w.trace, i);
  }

  lemma LastWriteIsDone(trace: seq<Event>, i: nat)
    requires LastWriteAt(trace, i) && StateWritten(trace[i]) == Done
    ensures trace[i].CommittedDone?
  {
  }

  lemma AfterLookFits(w: World, role: Role, clock: int)
    requires role.Following? && Remembers(role.view, role.looks)
    requires w.row == RowAfter(w.trace) && ReadsMatchTrace(w.trace, role.looks)
    ensures var next := AfterLook(w, role, clock);
            && (next.Following? || next.Settled?)
            && (next.Following? ==> Remembers(next.view, next.looks) && ReadsMatchTrace(w.trace, next.looks))
            && (next.Settled? && next.verdict == Released ==> next.looks != [] && DoneSince(w.trace, next.looks[0].at))
  {
    hide RowAfter, ViewOf, DoneSince, PollRow, ReadsMatchTrace;
    LookExtendsReads(w, role.looks, clock);
    if PollRow(role.view, w.row, clock).1 == Released {
      ReleaseNeedsDone(w, role, clock);
    }
  }

  lemma LookKeepsInv(tasks: nat, w: World, p: Pid, lag: nat)
    requires Inv(tasks, w) && RoleOf(w, p).Following?
    ensures Inv(tasks, Step(tasks, w, Move(p, Look(lag))))
  {
    hide AfterLook, ReadsMatchTrace, DoneSince, CommitsJustified, RowAfter, ViewOf;
    var role := RoleOf(w, p);
    assert RoleMatchesHistory(tasks, p, role, History(w.trace, p));
    if w.clock > role.deadline {
      SilentKeepsInv(tasks, w, p, Settled(TimedOut, role.looks));
    } else {
      AfterLookFits(w, role, w.clock + lag);
      SilentKeepsInv(tasks, w, p, AfterLook(w, role, w.clock + lag));
    }
  }

  lemma CommitKeepsInv(tasks: nat, w: World, p: Pid)
    requires Inv(tasks, w)
    ensures Inv(tasks, Step(tasks, w, Move(p, Commit)))
  {
    var role := RoleOf(w, p);
    assert RoleMatchesHistory(tasks, p, role, History(w.trace, p));
    if role.Leading? && role.next >= tasks {
      assert (w.trace + [CommittedDone(p)])[..|w.trace|] == w.trace;
      EventKeepsInv(tasks, w, p, Led(true), CommittedDone(p));
    } else if role.TaskBroke? {
      assert (w.trace + [CommittedFailed(p, role.message)])[..|w.trace|] == w.trace;
      EventKeepsInv(tasks, w, p, Led(false), CommittedFailed(p, role.message));
    }
  }

  lemma ElapseKeepsInv(tasks: nat, w: World, p: Pid, time: nat)
    requires Inv(tasks, w)
    ensures Inv(tasks, Step(tasks, w, Move(p, Elapse(time))))
  {
    hide RoleMatchesHistory, CommitsJustified, ReadsMatchTrace, DoneSince, RowAfter, History, ViewOf;
    var v := Step(tasks, w, Move(p, Elapse(time)));
    assert v == w.(clock := w.clock + time);
    assert forall q: Pid :: RoleOf(v, q) == RoleOf(w, q);
  }

  lemma StartKeepsInv(tasks: nat, w: World, p: Pid, action: Action)
    requires Inv(tasks, w) && (action.Lead? || action.Follow? || action.Crash?)
    ensures Inv(tasks, Step(tasks, w, Move(p, action)))
  {
    hide CommitsJustified, FollowersMatchTrace, ReleasesJustified;
    var role := RoleOf(w, p);
    assert RoleMatchesHistory(tasks, p, role, History(w.trace, p));
    if action.Lead? && role.Starting? {
      EventKeepsInv(tasks, w, p, Leading(0), BeganRunning(p));
    } else if action.Follow? && role.Starting? {
      SilentKeepsInv(tasks, w, p, Following(INITIAL_VIEW, w.clock + action.timeout, []));
    } else if action.Crash? && (role.Leading? || role.TaskBroke? || role.Following?) {
      SilentKeepsInv(tasks, w, p, Crashed);
    }
  }

  lemma RunTaskKeepsInv(tasks: nat, w: World, p: Pid, error: Option<string>)
    requires Inv(tasks, w)
    ensures Inv(tasks, Step(tasks, w, Move(p, RunTask(error))))
  {
    hide CommitsJustified, FollowersMatchTrace, ReleasesJustified, RowAfter, History;
    var role := RoleOf(w, p);
    assert RoleMatchesHistory(tasks, p, role, History(w.trace, p));
    if role.Leading? && role.next != tasks {
      if error.None? {
        EventKeepsInv(tasks, w, p, Leading(role.next + 1), TaskSucceeded(p, role.next));
      } else {
        var past := History(w.trace, p) + [TaskRaised(p, role.next, error.value)];
        assert BrokeAt(tasks, p, role.next, error.value, past);
        EventKeepsInv(tasks, w, p, TaskBroke(error.value), TaskRaised(p, role.next, error.value));
      }
    }
  }

  lemma LookMoveKeepsInv(tasks: nat, w: World, p: Pid, lag: nat)
    requires Inv(tasks, w)
    ensures Inv(tasks, Step(tasks, w, Move(p, Look(lag))))
  {
    hide Inv;
    if RoleOf(w, p).Following? {
      LookKeepsInv(tasks, w, p, lag);
    }
  }

  lemma StepKeepsInv(tasks: nat, w: World, m: Move)
    requires Inv(tasks, w)
    ensures Inv(tasks, Step(tasks, w, m))
  {
    hide Inv, Step;
    match m.action
    case Elapse(time) => ElapseKeepsInv(tasks, w, m.who, time);
    case RunTask(error) => RunTaskKeepsInv(tasks, w, m.who, error);
    case Commit => CommitKeepsInv(tasks, w, m.who);
    case Look(lag) => LookMoveKeepsInv(tasks, w, m.who, lag);
    case _ => StartKeepsInv(tasks, w, m.who, m.action);
  }

  lemma {:induction false} RunKeepsInv(tasks: nat, moves: seq<Move>)
    ensures Inv(tasks, Exec(tasks, moves))
  {
    hide Step;
    if moves != [] {
      RunKeepsInv(tasks, moves[..|moves| - 1]);
      StepKeepsInv(tasks, Exec(tasks, moves[..|moves| - 1]), moves[|moves| - 1]);
    }
  }

  /* ---------- main results ---------- */

  lemma ReleasedByFinishedLeader(tasks: nat, w: World, p: Pid) returns (i: nat)
    requires Inv(tasks, w) && RoleOf(w, p).Settled? && RoleOf(w, p).verdict == Released
    ensures RoleOf(w, p).looks != [] && RoleOf(w, p).looks[0].at <= i < |w.trace|
    ensures w.trace[i].CommittedDone?
    ensures History(w.trace[..i + 1], w.trace[i].pid)
        == LeaderSoFar(w.trace[i].pid, tasks) + [CommittedDone(w.trace[i].pid)]
  {
    hide RoleMatchesHistory, FollowersMatchTrace, RowAfter, ViewOf, LeaderSoFar, BrokeAt;
    i :| RoleOf(w, p).looks[0].at <= i < |w.trace| && w.trace[i].CommittedDone?;
    assert CommitJustified(tasks, w.trace, i);
    assert w.trace[..i + 1] == w.trace[..i] + [w.trace[i]];
    HistoryExtend(w.trace[..i], w.trace[i], w.trace[i].pid);
  }

  /** In every run, a released follower's release rests on a DONE committed after its first read, by a leader
      whose complete history is: RUNNING, every registered task once and in order, DONE. */
  lemma ReleasedMeansTasksFinished(tasks: nat, moves: seq<Move>, p: Pid)
    requires var role := RoleOf(Exec(tasks, moves), p); role.Settled? && role.verdict == Released
    ensures var w := Exec(tasks, moves);
            RoleOf(w, p).looks != [] &&
            exists i, q: Pid :: RoleOf(w, p).looks[0].at <= i < |w.trace| && w.trace[i] == CommittedDone(q) &&
              History(w.trace[..i + 1], q) == LeaderSoFar(q, tasks) + [CommittedDone(q)]
  {
    RunKeepsInv(tasks, moves);
    var w := Exec(tasks, moves);
    var i := ReleasedByFinishedLeader(tasks, w, p);
    assert w.trace[i] == CommittedDone(w.trace[i].pid);
  }

  /** No leader writes RUNNING between another leader's RUNNING and that leader's outcome. */
  ghost predicate NoOverlap(trace: seq<Event>) {
    forall b, c, k | 0 <= b < k < c < |trace| && trace[b].BeganRunning? && IsCommit(trace[c])
        && trace[c].pid == trace[b].pid ::
      !trace[k].BeganRunning?
  }

  lemma {:induction false} HistoryComesFromTrace(trace: seq<Event>, p: Pid, e: Event)
    requires e in History(trace, p)
    ensures exists k :: 0 <= k < |trace| && trace[k] == e
  {
    var n := |trace| - 1;
    if e in History(trace[..n], p) {
      HistoryComesFromTrace(trace[..n], p, e);
      var k :| 0 <= k < n && trace[..n][k] == e;
      assert trace[k] == e;
    } else {
      assert trace[n] == e;
    }
  }

  lemma {:induction false} TraceGoesToHistory(trace: seq<Event>, k: nat)
    requires k < |trace|
    ensures trace[k] in History(trace, trace[k].pid)
  {
    var n := |trace| - 1;
    if k < n {
      TraceGoesToHistory(trace[..n], k);
    }
  }

  lemma {:induction false} LeaderSoFarContents(p: Pid, n: nat)
    ensures BeganRunning(p) in LeaderSoFar(p, n)
    ensures forall e | e in LeaderSoFar(p, n) :: !IsCommit(e)
  {
    if n > 0 {
      LeaderSoFarContents(p, n - 1);
    }
  }

  lemma CommitHasBegin(tasks: nat, trace: seq<Event>, c: nat) returns (b: nat)
    requires CommitsJustified(tasks, trace) && c < |trace| && IsCommit(trace[c])
    ensures b < c && trace[b] == BeganRunning(trace[c].pid)
    ensures forall k | 0 <= k < c && IsCommit(trace[k]) :: trace[k].pid != trace[c].pid
  {
    var q := trace[c].pid;
    var past := History(trace[..c], q);
    assert CommitJustified(tasks, trace, c);
    var n: nat := tasks;
    if trace[c].CommittedFailed? {
      n :| BrokeAt(tasks, q, n, trace[c].message, past);
    }
    LeaderSoFarContents(q, n);
    HistoryComesFromTrace(trace[..c], q, BeganRunning(q));
    b :| 0 <= b < c && trace[..c][b] == BeganRunning(q);
    forall k | 0 <= k < c && IsCommit(trace[k]) ensures trace[k].pid != q {
      TraceGoesToHistory(trace[..c], k);
    }
  }

  /** Without overlap, the write before an outcome is the same leader's RUNNING. */
  lemma OutcomeFollowsOwnRunning(tasks: nat, trace: seq<Event>, c: nat) returns (b: nat)
    requires CommitsJustified(tasks, trace) && NoOverlap(trace) && c < |trace| && IsCommit(trace[c])
    ensures b < c && trace[b] == BeganRunning(trace[c].pid) && Quiet(trace, b + 1, c)
  {
    b := CommitHasBegin(tasks, trace, c);
    forall k | b + 1 <= k < c ensures !IsWrite(trace[k]) {
      if IsCommit(trace[k]) {
        var d := CommitHasBegin(tasks, trace, k);
        assert false;
      }
    }
  }

  /** The exact release condition, in every run and however leaders overlap: a follower that reads DONE in time is
      released if and only if some cycle began after its first read of the row, or one of its reads showed RUNNING;
      otherwise it goes on waiting. */
  lemma ReleasedExactly(tasks: nat, moves: seq<Move>, p: Pid, lag: nat)
    requires var w := Exec(tasks, moves);
             && RoleOf(w, p).Following? && w.clock <= RoleOf(w, p).deadline
             && w.row.Some? && w.row.value.state == Done
    ensures var w := Exec(tasks, moves);
            var after := RoleOf(Step(tasks, w, Move(p, Look(lag))), p);
            var looks := ReadsAfter(w, RoleOf(w, p).looks, w.clock + lag);
            && looks != [] && after.looks == looks
            && (after == Settled(Released, looks) <==> BeganSince(w.trace, looks[0].at) || ReadState(looks, Running))
            && (after.Settled? || after.Following?) && (after.Settled? ==> after.verdict == Released)
  {
    hide RowAfter, ViewOf, Exec, PollRow, FirstFailedClock, BeganSince, ReadState, CommitsJustified, RoleMatchesHistory;
    var w := Exec(tasks, moves);
    RunKeepsInv(tasks, moves);
    LookExactly(w, RoleOf(w, p), w.clock + lag);
  }

  /** The exact failure condition, in every run: a follower that reads FAILED in time raises its message if and only
      if some cycle began after its first read, or one of its reads showed RUNNING, or it first read FAILED at least
      the grace period earlier. */
  lemma RaisedExactly(tasks: nat, moves: seq<Move>, p: Pid, lag: nat)
    requires var w := Exec(tasks, moves);
             && RoleOf(w, p).Following? && w.clock <= RoleOf(w, p).deadline
             && w.row.Some? && w.row.value.state == Failed
    ensures var w := Exec(tasks, moves);
            var after := RoleOf(Step(tasks, w, Move(p, Look(lag))), p);
            var seen := FirstFailedClock(RoleOf(w, p).looks);
            var looks := ReadsAfter(w, RoleOf(w, p).looks, w.clock + lag);
            && looks != [] && after.looks == looks
            && (after == Settled(Raised(ErrorText(w.row.value)), looks) <==>
                  || BeganSince(w.trace, looks[0].at) || ReadState(looks, Running)
                  || (seen.Some? && w.clock + lag - seen.value >= 2000))
            && (after.Settled? || after.Following?) && (after.Settled? ==> after.verdict.Raised?)
  {
    hide RowAfter, ViewOf, Exec, PollRow, FirstFailedClock, BeganSince, ReadState, CommitsJustified, RoleMatchesHistory;
    var w := Exec(tasks, moves);
    RunKeepsInv(tasks, moves);
    LookExactly(w, RoleOf(w, p), w.clock + lag);
  }

  /** When leaders do not overlap, the cycle on show as DONE is new to a follower iff its DONE is. */
  lemma NewMeansDoneIsNew(tasks: nat, w: World, looks: seq<Read>)
    requires w.row == RowAfter(w.trace) && CommitsJustified(tasks, w.trace) && NoOverlap(w.trace)
    requires w.row.Some? && w.row.value.state == Done && ReadsMatchTrace(w.trace, looks) && looks != []
    ensures NewTo(w.trace, looks) <==> DoneSince(w.trace, looks[0].at)
  {
    hide CommitsJustified, NoOverlap, BeganSince, RowAfter, StateWritten;
    if NewTo(w.trace, looks) {
      NewOutcomeIsLater(w, looks);
      var i: nat :| looks[0].at <= i && LastWriteAt(w.trace, i) && StateWritten(w.trace[i]) == Done;
      LastWriteIsDone(w.trace, i);
    }
    if DoneSince(w.trace, looks[0].at) {
      NewDoneIsNew(tasks, w, looks);
    }
  }

  lemma NewDoneIsNew(tasks: nat, w: World, looks: seq<Read>)
    requires w.row == RowAfter(w.trace) && CommitsJustified(tasks, w.trace) && NoOverlap(w.trace)
    requires w.row.Some? && w.row.value.state == Done && ReadsMatchTrace(w.trace, looks) && looks != []
    requires DoneSince(w.trace, looks[0].at)
    ensures NewTo(w.trace, looks)
  {
    hide NoOverlap, CommitsJustified, History, RowAfter;
    var trace, f := w.trace, looks[0].at;
    RowMeaning(trace);
    var i: nat :| LastWriteAt(trace, i) && Done == StateWritten(trace[i]);
    assert f <= i;
    var b := OutcomeFollowsOwnRunning(tasks, trace, i);
    assert ReadMatches(trace, looks[0]);
    if f <= b {
      assert trace[b].BeganRunning?;
    } else {
      RowSinceWrite(trace, b, f);
    }
  }

  /** When leaders do not overlap, a follower that reads DONE in time is released if and only if a DONE was committed
      after its first read of the row. */
  lemma ReleasedExactlyWhenDoneIsNew(tasks: nat, moves: seq<Move>, p: Pid, lag: nat)
    requires var w := Exec(tasks, moves);
             && RoleOf(w, p).Following? && w.clock <= RoleOf(w, p).deadline
             && w.row.Some? && w.row.value.state == Done && NoOverlap(w.trace)
    ensures var w := Exec(tasks, moves);
            var after := RoleOf(Step(tasks, w, Move(p, Look(lag))), p);
            var looks := ReadsAfter(w, RoleOf(w, p).looks, w.clock + lag);
            && looks != []
            && (after == Settled(Released, looks) <==> DoneSince(w.trace, looks[0].at))
            && (!DoneSince(w.trace, looks[0].at) ==> after.Following?)
  {
    hide RowAfter, ViewOf, Exec, PollRow, BeganSince, ReadState, CommitsJustified, RoleMatchesHistory, NoOverlap,
         DoneSince, ReadsMatchTrace;
    var w := Exec(tasks, moves);
    RunKeepsInv(tasks, moves);
    ReleasedExactly(tasks, moves, p, lag);
    LookExtendsReads(w, RoleOf(w, p).looks, w.clock + lag);
    NewMeansDoneIsNew(tasks, w, ReadsAfter(w, RoleOf(w, p).looks, w.clock + lag));
  }

  ghost predicate FailedSince(trace: seq<Event>, f: nat) {
    exists i :: f <= i < |trace| && trace[i].CommittedFailed?
  }

  lemma {:induction false} FirstFailedWasRead(looks: seq<Read>)
    requires FirstFailedClock(looks).Some?
    ensures exists i ::
              0 <= i < |looks| && looks[i].row.state == Failed && Some(looks[i].clock) == FirstFailedClock(looks)
  {
    var n := |looks| - 1;
    if FirstFailedClock(looks[..n]).Some? {
      FirstFailedWasRead(looks[..n]);
      var i :| 0 <= i < n && looks[..n][i].row.state == Failed
          && Some(looks[..n][i].clock) == FirstFailedClock(looks[..n]);
      assert looks[i].row.state == Failed && Some(looks[i].clock) == FirstFailedClock(looks);
    } else {
      assert looks[n].row.state == Failed;
    }
  }

  /** FAILED was read at least the grace period before `clock`. */
  ghost predicate FailedLongAgo(trace: seq<Event>, looks: seq<Read>, clock: int) {
    exists i :: 0 <= i < |looks| && looks[i].row.state == Failed && ReadMatches(trace, looks[i])
                && clock - looks[i].clock >= 2000
  }

  lemma RaiseNeedsFailed(w: World, role: Role, clock: int)
    requires role.Following? && Remembers(role.view, role.looks)
    requires w.row == RowAfter(w.trace) && ReadsMatchTrace(w.trace, role.looks)
    requires PollRow(role.view, w.row, clock).1.Raised?
    ensures w.row.Some? && w.row.value.state == Failed && role.looks != []
    ensures || FailedSince(w.trace, role.looks[0].at)
            || (!ReadState(role.looks, Running) && FailedLongAgo(w.trace, role.looks, clock))
  {
    hide RowAfter, ViewOf, BeganSince, FirstFailedClock;
    if w.row.Some? {
      LookExactly(w, role, clock);
      NewAfterLook(w, role.looks, clock);
      if NewTo(w.trace, role.looks) {
        NewOutcomeIsLater(w, role.looks);
      } else {
        FirstFailedWasRead(role.looks);
      }
    }
  }

  /** A failure is reported only if FAILED was committed after the first read, or, without any read of RUNNING, the
      follower had read FAILED at least the grace period earlier. */
  lemma RaisedNeedsFailure(tasks: nat, moves: seq<Move>, p: Pid, lag: nat)
    requires var w := Exec(tasks, moves);
             RoleOf(w, p).Following? && PollRow(RoleOf(w, p).view, w.row, w.clock + lag).1.Raised?
    ensures var w := Exec(tasks, moves);
            var looks := RoleOf(w, p).looks;
            && looks != [] && w.row.Some? && w.row.value.state == Failed
            && (|| FailedSince(w.trace, looks[0].at)
                || (!ReadState(looks, Running) && FailedLongAgo(w.trace, looks, w.clock + lag)))
  {
    hide PollRow, FailedSince, FailedLongAgo, CommitsJustified, ReleasesJustified, RowAfter, Exec, RoleMatchesHistory,
        ViewOf;
    RunKeepsInv(tasks, moves);
    var w := Exec(tasks, moves);
    RaiseNeedsFailed(w, RoleOf(w, p), w.clock + lag);
  }

  lemma {:induction false} FailedRowCarriesMessage(trace: seq<Event>)
    ensures var row := RowAfter(trace);
            row.Some? && row.value.state == Failed ==>
              exists i: nat :: LastWriteAt(trace, i) && trace[i].CommittedFailed?
                               && row.value.error == Some(Truncated(trace[i].message))
  {
    if trace != [] {
      var n := |trace| - 1;
      FailedRowCarriesMessage(trace[..n]);
      if IsWrite(trace[n]) {
        assert LastWriteAt(trace, n);
      } else if RowAfter(trace).Some? && RowAfter(trace).value.state == Failed {
        var i: nat :| LastWriteAt(trace[..n], i) && trace[..n][i].CommittedFailed?
                      && RowAfter(trace).value.error == Some(Truncated(trace[..n][i].message));
        assert LastWriteAt(trace, i) && trace[i] == trace[..n][i];
      }
    }
  }

  /** Event `i` reports the failure of a task of its own leader, whose earlier tasks had all succeeded. */
  ghost predicate ReportsTask(tasks: nat, trace: seq<Event>, i: nat) {
    i < |trace| && trace[i].CommittedFailed?
    && exists k: nat :: BrokeAt(tasks, trace[i].pid, k, trace[i].message, History(trace[..i], trace[i].pid))
  }

  /** In every run, the text a follower raises is the first 1024 characters of the message with which some leader's task
      failed, after that leader's earlier tasks had succeeded; or the standard text when that message was empty. */
  lemma RaisedReportsTask(tasks: nat, moves: seq<Move>, p: Pid, lag: nat)
    requires var w := Exec(tasks, moves);
             RoleOf(w, p).Following? && PollRow(RoleOf(w, p).view, w.row, w.clock + lag).1.Raised?
    ensures var w := Exec(tasks, moves);
            var text := PollRow(RoleOf(w, p).view, w.row, w.clock + lag).1.message;
            exists i: nat :: ReportsTask(tasks, w.trace, i)
              && (if w.trace[i].message == "" then text == "leader init failed"
                  else text == Truncated(w.trace[i].message))
  {
    hide ReadsMatchTrace, RoleMatchesHistory, Exec, ViewOf, RowAfter, History, Truncated, Quiet;
    RunKeepsInv(tasks, moves);
    var w := Exec(tasks, moves);
    FailedRowCarriesMessage(w.trace);
    var i: nat :| LastWriteAt(w.trace, i) && w.trace[i].CommittedFailed?
                  && w.row.value.error == Some(Truncated(w.trace[i].message));
    assert CommitJustified(tasks, w.trace, i);
    TruncatedEmpty(w.trace[i].message);
    assert ReportsTask(tasks, w.trace, i);
  }

  lemma TruncatedEmpty(message: string)
    ensures Truncated(message) == "" <==> message == ""
  {
  }

  /* ---------- two overlapping leaders ---------- */

  lemma LastStep(tasks: nat, moves: seq<Move>, m: Move)
    ensures Exec(tasks, moves + [m]) == Step(tasks, Exec(tasks, moves), m)
  {
    assert (moves + [m])[..|moves|] == moves;
  }

  const BOTH_BEGAN := World(Some(Row(2, Running, None)), 0, map[1 := Leading(0), 2 := Leading(0)],
      [BeganRunning(1), BeganRunning(2)])

  lemma BothBegin()
    ensures Exec(0, [Move(1, Lead)] + [Move(2, Lead)]) == BOTH_BEGAN
  {
    LastStep(0, [], Move(1, Lead));
    assert [] + [Move(1, Lead)] == [Move(1, Lead)];
    LastStep(0, [Move(1, Lead)], Move(2, Lead));
  }

  const FOLLOWED :=
    World(Some(Row(2, Done, None)), 0,
          map[1 := Led(true), 2 := Leading(0),
              3 := Following(View(Some(2), false, None), 1000, [Read(3, 0, Row(2, Done, None))])],
          [BeganRunning(1), BeganRunning(2), CommittedDone(1)])

  lemma FirstLeaderFinishes()
    ensures var w := Step(0, Step(0, BOTH_BEGAN, Move(1, Commit)), Move(3, Follow(1000)));
            Step(0, w, Move(3, Look(0))) == FOLLOWED
  {
    var w := Step(0, BOTH_BEGAN, Move(1, Commit));
    assert w.roles == map[1 := Led(true), 2 := Leading(0)];
    assert w.trace == [BeganRunning(1), BeganRunning(2), CommittedDone(1)];
    var v := Step(0, w, Move(3, Follow(1000)));
    assert v.trace == w.trace;
    assert RoleOf(v, 3) == Following(INITIAL_VIEW, 1000, []);
    assert AfterLook(v, RoleOf(v, 3), 0) == RoleOf(FOLLOWED, 3);
    var u := Step(0, v, Move(3, Look(0)));
    assert forall q :: q in u.roles <==> q in FOLLOWED.roles;
    assert u.roles == FOLLOWED.roles;
  }

  lemma SecondLeaderFinishes()
    ensures var w := Step(0, FOLLOWED, Move(2, Commit));
            && RoleOf(w, 3) == RoleOf(FOLLOWED, 3) && w.clock == 0 && w.row == FOLLOWED.row
            && w.trace == FOLLOWED.trace + [CommittedDone(2)] && RoleOf(Step(0, w, Move(3, Look(0))), 3).Following?
  {
  }

  /** The two conditions differ: with two overlapping leaders, follower 3 reads DONE both before and after the second
      DONE is committed, and goes on waiting. */
  lemma OverlapCanStrandAFollower()
    ensures exists moves: seq<Move> ::
              var w := Exec(0, moves);
              && RoleOf(w, 3).Following? && RoleOf(w, 3).looks != [] && w.clock <= RoleOf(w, 3).deadline
              && w.row.Some? && w.row.value.state == Done && DoneSince(w.trace, RoleOf(w, 3).looks[0].at)
              && RoleOf(Step(0, w, Move(3, Look(0))), 3).Following?
  {
    hide Step, Exec;
    BothBegin();
    FirstLeaderFinishes();
    SecondLeaderFinishes();
    var m := [Move(1, Lead)] + [Move(2, Lead)];
    LastStep(0, m, Move(1, Commit));
    LastStep(0, m + [Move(1, Commit)], Move(3, Follow(1000)));
    LastStep(0, m + [Move(1, Commit)] + [Move(3, Follow(1000))], Move(3, Look(0)));
    LastStep(0, m + [Move(1, Commit)] + [Move(3, Follow(1000))] + [Move(3, Look(0))], Move(2, Commit));
    var w := Exec(0, m + [Move(1, Commit)] + [Move(3, Follow(1000))] + [Move(3, Look(0))] + [Move(2, Commit)]);
    assert w.trace[3] == CommittedDone(2);
  }
}
