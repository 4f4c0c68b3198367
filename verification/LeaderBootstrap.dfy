/** The bootstrap phase of one worker, and what it promises to the crypto wiring that follows
    (thaum/leader_bootstrap.py, thaum/leader_init.py, thaum/database_crypto.py). */
module LeaderBootstrap {
  import opened Prelude
  import opened LeaderInit
  import P = LeaderProtocol
  import V = Vault

  /** The error of the first registered task that raises, if any: `outcome(i)` is what task `i` raises. */
  function FirstFailure(outcome: nat -> Option<string>, n: nat): Option<nat> {
    if n == 0 then None
    else if FirstFailure(outcome, n - 1).Some? then FirstFailure(outcome, n - 1)
    else if outcome(n - 1).Some? then Some(n - 1) else None
  }

  lemma {:induction false} FirstFailureMeaning(outcome: nat -> Option<string>, n: nat)
    ensures match FirstFailure(outcome, n)
            case None => forall i: nat | i < n :: outcome(i).None?
            case Some(k) => k < n && outcome(k).Some? && forall i: nat | i < k :: outcome(i).None?
  {
    if n > 0 {
      FirstFailureMeaning(outcome, n - 1);
    }
  }

  /** The registry of leader-only bootstrap tasks. */
  class InitTasks {
    var names: seq<string>

    constructor ()
      ensures names == []
    {
      names := [];
    }

    method Register(name: string)
      modifies this
      ensures names == old(names) + [name]
    {
      names := names + [name];
    }

    /** Runs the tasks in order; `ran` lists the tasks started, and the first failure stops the loop. */
    method RunAll(outcome: nat -> Option<string>) returns (error: Option<string>, ran: seq<nat>)
      ensures FirstFailure(outcome, |names|).None? ==> error == None && ran == seq(|names|, i => i)
      ensures FirstFailure(outcome, |names|).Some? ==>
                var k := FirstFailure(outcome, |names|).value;
                error == outcome(k) && error.Some? && ran == seq(k + 1, i => i)
    {
      ran := [];
      FirstFailureMeaning(outcome, |names|);
      for i := 0 to |names|
        invariant ran == seq(i, j => j)
        invariant forall j: nat | j < i :: outcome(j).None?
      {
        ran := ran + [i];
        if outcome(i).Some? {
          return outcome(i), ran;
        }
      }
      return None, ran;
    }
  }

  /** What a follower gets whose last poll is `k`: success if that poll came in time and releases, the row's stored
      text if it came in time and raises, the timeout error if the deadline had passed. */
  ghost predicate FollowerGets(polls: Polls, deadline: int, k: nat, result: Result<(), string>) {
    && EndsAt(polls, deadline, k)
    && (polls(k).checkAt > deadline ==> result == Err("Leader init barrier wait timed out"))
    && (polls(k).checkAt <= deadline && Releases(polls, k) ==> result == Ok(()))
    && (polls(k).checkAt <= deadline && Raises(polls, k) ==> result == Err(ErrorText(polls(k).row.value)))
  }

  /** Poll `k` releases in time, and no earlier poll ends the wait. */
  ghost predicate ReleasedAt(polls: Polls, deadline: int, k: nat) {
    Releases(polls, k) && polls(k).checkAt <= deadline
        && forall j: nat | j < k :: !Releases(polls, j) && !Raises(polls, j)
  }

  ghost predicate FollowerEnds(polls: Polls, deadline: int, result: Result<(), string>) {
    exists k: nat :: FollowerGets(polls, deadline, k, result)
  }

  ghost predicate ReleasedInTime(polls: Polls, deadline: int) {
    exists k: nat :: ReleasedAt(polls, deadline, k)
  }

  /** A follower succeeds iff some poll releases before the deadline and before any other poll ends the wait. */
  lemma FollowerSucceedsExactly(polls: Polls, deadline: int, interval: int, k: nat, result: Result<(), string>)
    requires 0 < interval && Paced(polls, interval) && FollowerGets(polls, deadline, k, result)
    ensures result.Ok? <==> ReleasedInTime(polls, deadline)
  {
    hide Releases, Raises;
    if result.Ok? {
      assert ReleasedAt(polls, deadline, k);
    }
    if j: nat :| ReleasedAt(polls, deadline, j) {
      ReleaseIsNoRaise(polls, j);
      if k < j {
        ChecksAdvance(polls, interval, k, j);
      }
      assert k == j;
    }
  }

  lemma ReleaseIsNoRaise(polls: Polls, k: nat)
    ensures !(Releases(polls, k) && Raises(polls, k))
  {
  }

  lemma {:induction false} ChecksAdvance(polls: Polls, interval: int, j: nat, k: nat)
    requires Paced(polls, interval) && 0 < interval && j <= k
    ensures polls(j).checkAt <= polls(k).checkAt
    decreases k
  {
    if j < k {
      ChecksAdvance(polls, interval, j, k - 1);
    }
  }

  /** `run_leader_bootstrap_phase`, after election: the leader writes RUNNING, runs the tasks and writes the outcome;
      any other worker waits at the barrier and does not touch the row. */
  method RunLeaderBootstrapPhase(table: StatusTable, tasks: InitTasks, isLeader: bool, outcome: nat -> Option<string>,
                                 start: int, timeout: int, interval: int, polls: Polls)
    returns (result: Result<(), string>)
    requires 0 < interval && Paced(polls, interval) && start <= polls(0).checkAt
    modifies table
    ensures isLeader ==>
              var ticket := (if old(table.row).Some? then old(table.row).value.ticket else 0) + 1;
              match FirstFailure(outcome, |tasks.names|)
              case None => result == Ok(()) && table.row == Some(Row(ticket, Done, None))
              case Some(k) =>
                && outcome(k).Some? && result == Err(outcome(k).value)
                && table.row == Some(Row(ticket, Failed, Some(Truncated(outcome(k).value))))
    ensures !isLeader ==> table.row == old(table.row)
    ensures !isLeader ==>
              FollowerEnds(polls, start + timeout, result) && (result.Ok? <==> ReleasedInTime(polls, start + timeout))
  {
    if isLeader {
      table.MarkRunning();
      var error, _ := tasks.RunAll(outcome);
      if error.Some? {
        table.MarkFailed(error.value);
        return Err(error.value);
      }
      table.MarkDone();
      return Ok(());
    }
    var barrier := new BarrierWait();
    var verdict, polled := barrier.Wait(start, timeout, interval, polls);
    match verdict {
      case Released => result := Ok(());
      case Raised(message) => result := Err(message);
      case _ => result := Err("Leader init barrier wait timed out");
    }
    ghost var last := if verdict == TimedOut then polled else polled - 1;
    if verdict != TimedOut {
      ReleaseIsNoRaise(polls, last);
    }
    hide Releases, Raises;
    assert FollowerGets(polls, start + timeout, last, result);
    FollowerSucceedsExactly(polls, start + timeout, interval, last, result);
  }

  /* ---------- barrier and vault together ---------- */

  /** The status row with its workers, the key tables, and the leaders whose vault transaction has committed. */
  datatype Site = Site(barrier: P.World, keys: V.Keys, committed: set<P.Pid>)

  const NEW_SITE := Site(P.START, V.NO_KEYS, {})

  datatype SiteMove =
    | Bootstrap(move: P.Move)
    | CommitVaultRows(who: P.Pid, minted: V.FreshKeys, now: int)
    | Rotate(pass: string, days: int, now: int, freshId: V.KeyId, freshDek: V.Dek)

  predicate InVaultTask(s: Site, vaultTask: nat, p: P.Pid) {
    P.RoleOf(s.barrier, p) == P.Leading(vaultTask)
  }

  /** The vault task claims success: it returns without an error. */
  predicate VaultReturns(s: Site, vaultTask: nat, move: P.Move) {
    InVaultTask(s, vaultTask, move.who) && move.action.RunTask? && move.action.error.None?
  }

  /** A leader in the vault task first commits the rows and later checks them and returns; in between it may crash,
      others may act, and the task may also fail at any point. It returns only after its commit, and only if the
      checks pass. */
  function SiteStep(tasks: nat, vaultTask: nat, pass: string, s: Site, m: SiteMove): Site {
    match m
    case Rotate(other, days, now, freshId, freshDek) =>
      if other == "" || freshId in s.keys.deks then s
      else (match V.Rotate(s.keys, other, days, now, freshId, freshDek)
            case Ok(Rotated(after, _)) => s.(keys := after)
            case _ => s)
    case CommitVaultRows(p, minted, now) =>
      if !InVaultTask(s, vaultTask, p) || minted.dekId in s.keys.deks then s
      else s.(keys := V.AfterEnsure(s.keys, pass, minted, now), committed := s.committed + {p})
    case Bootstrap(move) =>
      if VaultReturns(s, vaultTask, move) && (move.who !in s.committed || V.EnsureChecks(s.keys).Err?) then s
      else s.(barrier := P.Step(tasks, s.barrier, move))
  }

  function SiteExec(tasks: nat, vaultTask: nat, pass: string, moves: seq<SiteMove>): Site {
    if moves == [] then NEW_SITE
    else SiteStep(tasks, vaultTask, pass, SiteExec(tasks, vaultTask, pass, moves[..|moves| - 1]), moves[|moves| - 1])
  }

  ghost predicate VaultTaskDone(trace: seq<P.Event>, vaultTask: nat) {
    exists i :: 0 <= i < |trace| && trace[i].TaskSucceeded? && trace[i].task == vaultTask
  }

  ghost predicate SiteInv(tasks: nat, vaultTask: nat, pass: string, s: Site) {
    && P.Inv(tasks, s.barrier)
    && (s.keys == V.NO_KEYS || V.Provisioned(s.keys, pass))
    && (s.committed != {} ==> V.Provisioned(s.keys, pass))
    && (VaultTaskDone(s.barrier.trace, vaultTask) ==> V.Provisioned(s.keys, pass))
  }

  lemma StepAddsNoVaultTask(tasks: nat, vaultTask: nat, s: Site, move: P.Move)
    requires vaultTask < tasks && !VaultReturns(s, vaultTask, move)
    ensures VaultTaskDone(P.Step(tasks, s.barrier, move).trace, vaultTask) ==> VaultTaskDone(s.barrier.trace, vaultTask)
  {
    var after := P.Step(tasks, s.barrier, move).trace;
    if VaultTaskDone(after, vaultTask) {
      var i :| 0 <= i < |after| && after[i].TaskSucceeded? && after[i].task == vaultTask;
      assert s.barrier.trace[i] == after[i];
    }
  }

  lemma SiteStepKeepsInv(tasks: nat, vaultTask: nat, pass: string, s: Site, m: SiteMove)
    requires pass != "" && vaultTask < tasks && SiteInv(tasks, vaultTask, pass, s)
    ensures SiteInv(tasks, vaultTask, pass, SiteStep(tasks, vaultTask, pass, s, m))
  {
    hide P.Inv, P.Step, V.Provisioned, V.Rotate, V.AfterEnsure, V.EnsureChecks, VaultTaskDone;
    match m
    case Rotate(other, days, now, freshId, freshDek) =>
      if s.keys != V.NO_KEYS && other != "" && freshId !in s.keys.deks {
        V.RotationKeepsVault(s.keys, pass, other, days, now, freshId, freshDek);
      } else if s.keys == V.NO_KEYS {
        V.EmptyVaultNeverRotates(other, days, now, freshId, freshDek);
      }
    case CommitVaultRows(p, minted, now) =>
      V.EnsureProvisions(s.keys, pass, pass, minted, now);
    case Bootstrap(move) =>
      P.StepKeepsInv(tasks, s.barrier, move);
      if !VaultReturns(s, vaultTask, move) {
        StepAddsNoVaultTask(tasks, vaultTask, s, move);
      }
  }

  lemma {:induction false} SiteRunKeepsInv(tasks: nat, vaultTask: nat, pass: string, moves: seq<SiteMove>)
    requires pass != "" && vaultTask < tasks
    ensures SiteInv(tasks, vaultTask, pass, SiteExec(tasks, vaultTask, pass, moves))
  {
    if moves != [] {
      var before := SiteExec(tasks, vaultTask, pass, moves[..|moves| - 1]);
      SiteRunKeepsInv(tasks, vaultTask, pass, moves[..|moves| - 1]);
      SiteStepKeepsInv(tasks, vaultTask, pass, before, moves[|moves| - 1]);
    }
  }

  lemma {:induction false} LeaderRanTask(p: P.Pid, n: nat, k: nat)
    requires k < n
    ensures P.TaskSucceeded(p, k) in P.LeaderSoFar(p, n)
  {
    if k < n - 1 {
      LeaderRanTask(p, n - 1, k);
    }
  }

  /** With the vault task registered and an initially empty database, in every run with failing tasks, crashes (also
      between the vault rows and the task's return), overlapping leaders and rotations: once a follower is released,
      wiring finds one KEK slot whose canary opens with the configured passphrase and exactly one active DEK, and
      yields that DEK. */
  lemma ReleasedFollowerCanWire(tasks: nat, vaultTask: nat, pass: string, moves: seq<SiteMove>, p: P.Pid)
    requires pass != "" && vaultTask < tasks
    requires var role := P.RoleOf(SiteExec(tasks, vaultTask, pass, moves).barrier, p);
             role.Settled? && role.verdict == Released
    ensures var keys := SiteExec(tasks, vaultTask, pass, moves).keys;
            && V.Provisioned(keys, pass)
            && V.WireKey(keys, pass).Ok?
            && V.ActiveIds(keys) == {V.WireKey(keys, pass).value.keyId}
  {
    SiteRunKeepsInv(tasks, vaultTask, pass, moves);
    var s := SiteExec(tasks, vaultTask, pass, moves);
    var i := P.ReleasedByFinishedLeader(tasks, s.barrier, p);
    var q, past := s.barrier.trace[i].pid, s.barrier.trace[..i + 1];
    LeaderRanTask(q, tasks, vaultTask);
    P.HistoryComesFromTrace(past, q, P.TaskSucceeded(q, vaultTask));
    var k :| 0 <= k < |past| && past[k] == P.TaskSucceeded(q, vaultTask);
    assert s.barrier.trace[k] == past[k];
    V.WireSucceedsExactlyForOwner(s.keys, pass, pass);
  }
}
