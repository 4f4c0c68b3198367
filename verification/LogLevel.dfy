/** The runtime log level: one authoritative row, and in every worker a root level with the signature of the row it was
    last taken from (log_setup.py, thaum/admin_log_level.py). */
module LogLevel {
  import opened Prelude
  import opened Text
  import opened AdminRequest

  type Pid = nat

  /** Table `admin_log_level_state`; stamps are microseconds. */
  datatype Row = Row(level: Option<Str>, updatedAt: int)

  /** `_last_db_log_state` */
  datatype Sig = Sig(level: Option<Str>, updatedAt: int)

  const ABSENT := Sig(None, -1_000_000)

  /** Three more names that the logging module knows. */
  const WARN: Str := [0x57, 0x41, 0x52, 0x4E]
  const FATAL: Str := [0x46, 0x41, 0x54, 0x41, 0x4C]
  const NOTSET: Str := [0x4E, 0x4F, 0x54, 0x53, 0x45, 0x54]

  function LevelValue(key: Str): Option<int> {
    if key == SPAM then Some(5)
    else if key == DEBUG then Some(10)
    else if key == VERBOSE then Some(15)
    else if key == INFO then Some(20)
    else if key == NOTICE then Some(25)
    else if key == WARNING || key == WARN then Some(30)
    else if key == ERROR then Some(40)
    else if key == CRITICAL || key == FATAL then Some(50)
    else if key == NOTSET then Some(0)
    else None
  }

  function ParseLevelName(upper: Upper, name: Str): Option<int> {
    var key := upper(Strip(name));
    if key == [] || key == DEFAULT then None else LevelValue(key)
  }

  /** The root level that a stored level stands for in a worker configured with `configured`. */
  function Denoted(upper: Upper, configured: int, level: Option<Str>): int {
    if level.None? || Strip(level.value) == [] then configured
    else match ParseLevelName(upper, level.value)
      case None => configured
      case Some(n) => n
  }

  function RowSig(row: Option<Row>): Sig {
    if row.None? then ABSENT else Sig(row.value.level, row.value.updatedAt)
  }

  function RowLevel(row: Option<Row>): Option<Str> {
    if row.None? then None else row.value.level
  }

  /** A worker's state: configured and current root level, and the signature last applied. */
  datatype State = State(configured: int, root: int, last: Option<Sig>)

  function AfterPoll(upper: Upper, w: State, row: Option<Row>): State {
    if w.last == Some(RowSig(row)) then w
    else w.(root := Denoted(upper, w.configured, RowLevel(row)), last := Some(RowSig(row)))
  }

  function AfterPost(upper: Upper, w: State, level: Option<Str>, updatedAt: int): State {
    w.(root := Denoted(upper, w.configured, level), last := Some(Sig(level, updatedAt)))
  }

  class WorkerLog {
    const configured: int
    var root: int
    var last: Option<Sig>

    function Current(): State
      reads this
    {
      State(configured, root, last)
    }

    constructor (configured: int)
      ensures Current() == State(configured, configured, None)
    {
      this.configured := configured;
      root, last := configured, None;
    }

    method SetRuntimeRootLevel(level: Option<int>)
      modifies this`root
      ensures root == if level.None? then configured else level.value
    {
      root := if level.None? then configured else level.value;
    }

    /** `apply_runtime_log_level_from_db`, given the row it managed to read. */
    method ApplyFromDb(upper: Upper, row: Option<Row>)
      modifies this
      ensures Current() == AfterPoll(upper, old(Current()), row)
    {
      if row.None? {
        if last == Some(ABSENT) {
          return;
        }
        last := Some(ABSENT);
        SetRuntimeRootLevel(None);
        return;
      }
      var key := Sig(row.value.level, row.value.updatedAt);
      if last == Some(key) {
        return;
      }
      last := Some(key);
      if row.value.level.None? || Strip(row.value.level.value) == [] {
        SetRuntimeRootLevel(None);
        return;
      }
      var parsed := ParseLevelName(upper, row.value.level.value);
      SetRuntimeRootLevel(parsed);
    }

    /** The end of an accepted POST: apply the level, then remember the row just written. */
    method ApplyPosted(upper: Upper, level: Option<Str>, updatedAt: int)
      requires level.Some? ==> Strip(level.value) != []
      modifies this
      ensures Current() == AfterPost(upper, old(Current()), level, updatedAt)
    {
      if level.None? {
        SetRuntimeRootLevel(None);
      } else {
        var parsed := ParseLevelName(upper, level.value);
        SetRuntimeRootLevel(parsed);
      }
      last := Some(Sig(level, updatedAt));
    }
  }

  /* ---------- the names a request may carry ---------- */

  /** The law of `str.upper` used here: a name already in capitals stays as it is. */
  ghost predicate KeepsCapitals(upper: Upper) {
    upper([]) == [] && forall name | name in LevelNames() :: upper(name) == name
  }

  /** What an accepted request can put in the row: no level (for DEFAULT), or one of the known names. */
  predicate Acceptable(level: Option<Str>) {
    level.None? || level.value in LevelNames()
  }

  lemma LevelNameShapes(name: Str)
    requires name in LevelNames()
    ensures name != [] && 0x41 <= name[0] <= 0x5A && 0x41 <= name[|name| - 1] <= 0x5A
    ensures name != DEFAULT && LevelValue(name).Some?
  {
    assert |name| == 7 ==> name[0] != DEFAULT[0];
  }

  /** The numbers of the names, as the logging module and the application define them. */
  predicate HasNumber(name: Str, n: int) {
    || (name == Lit("SPAM") && n == 5) || (name == Lit("DEBUG") && n == 10) || (name == Lit("VERBOSE") && n == 15)
    || (name == Lit("INFO") && n == 20) || (name == Lit("NOTICE") && n == 25) || (name == Lit("WARNING") && n == 30)
    || (name == Lit("ERROR") && n == 40) || (name == Lit("CRITICAL") && n == 50)
  }

  /** Exactly the names of a request have a number, and it is the one they stand for; the older aliases and NOTSET
      have the logging module's. */
  lemma LevelNumbers(name: Str, n: int)
    ensures name in LevelNames() ==> (HasNumber(name, n) <==> LevelValue(name) == Some(n))
    ensures HasNumber(name, n) ==> name in LevelNames()
    ensures LevelValue(Lit("WARN")) == Some(30) && LevelValue(Lit("FATAL")) == Some(50)
        && LevelValue(Lit("NOTSET")) == Some(0)
  {
    hide Lit;
    Spellings();
    NameSpellings();
    NamesDiffer();
  }

  lemma NameSpellings()
    ensures SPAM == Lit("SPAM") && DEBUG == Lit("DEBUG") && VERBOSE == Lit("VERBOSE") && INFO == Lit("INFO")
    ensures NOTICE == Lit("NOTICE") && WARNING == Lit("WARNING") && ERROR == Lit("ERROR") && CRITICAL == Lit("CRITICAL")
    ensures WARN == Lit("WARN") && FATAL == Lit("FATAL") && NOTSET == Lit("NOTSET")
  {
  }

  lemma NamesDiffer()
    ensures forall a, b | a in LevelNames() && b in LevelNames() && |a| == |b| && a[0] == b[0] :: a == b
    ensures WARN !in LevelNames() && FATAL !in LevelNames() && NOTSET !in LevelNames()
  {
    assert WARN[0] != SPAM[0] && WARN[0] != INFO[0] && NOTSET[5] != NOTICE[5] && FATAL[0] != DEBUG[0]
        && FATAL[0] != ERROR[0];
  }

  /** Every accepted name denotes a level, the same one in every worker. */
  lemma AcceptedNamesDenote(upper: Upper, name: Str)
    requires KeepsCapitals(upper) && name in LevelNames()
    ensures Strip(name) == name != []
    ensures ParseLevelName(upper, name) == LevelValue(name) && LevelValue(name).Some?
    ensures forall configured :: Denoted(upper, configured, Some(name)) == LevelValue(name).value
  {
    hide LevelValue;
    LevelNameShapes(name);
    StripKeeps(name);
  }

  /* ---------- all workers ---------- */

  /** `pending` holds what each worker has committed by POST but not yet applied to itself. */
  datatype World = World(row: Option<Row>, workers: map<Pid, State>, pending: map<Pid, seq<Row>>)

  datatype Action =
    | Spawn(configured: int)
    | CommitPost(row: Row)
    | ApplyPost(k: nat)
    | Poll

  datatype Move = Move(who: Pid, action: Action)

  const START := World(None, map[], map[])

  function PendingOf(w: World, p: Pid): seq<Row> {
    if p in w.pending then w.pending[p] else []
  }

  /** One atomic step; a worker that was never spawned does nothing, and a request with any other level is refused. */
  function Step(upper: Upper, w: World, m: Move): World {
    var p := m.who;
    match m.action
    case Spawn(configured) => w.(workers := w.workers[p := State(configured, configured, None)],
        pending := w.pending[p := []])
    case CommitPost(row) =>
      if p in w.workers && Acceptable(row.level)
          then w.(row := Some(row), pending := w.pending[p := PendingOf(w, p) + [row]]) else w
    case ApplyPost(k) =>
      if p in w.workers && k < |PendingOf(w, p)| then
        var row := PendingOf(w, p)[k];
        w.(workers := w.workers[p := AfterPost(upper, w.workers[p], row.level, row.updatedAt)],
           pending := w.pending[p := PendingOf(w, p)[..k] + PendingOf(w, p)[k + 1..]])
      else w
    case Poll => if p in w.workers then w.(workers := w.workers[p := AfterPoll(upper, w.workers[p], w.row)]) else w
  }

  function Exec(upper: Upper, w: World, moves: seq<Move>): World {
    if moves == [] then w else Step(upper, Exec(upper, w, moves[..|moves| - 1]), moves[|moves| - 1])
  }

  /** A remembered signature implies the root level it stands for. */
  ghost predicate Coherent(upper: Upper, w: State) {
    w.root == Denoted(upper, w.configured, if w.last.None? then None else w.last.value.level)
  }

  ghost predicate Inv(upper: Upper, w: World) {
    && (forall p | p in w.workers :: Coherent(upper, w.workers[p]))
    && Acceptable(RowLevel(w.row))
  }

  ghost predicate AgreesWithRow(upper: Upper, w: World, p: Pid) {
    p in w.workers ==> w.workers[p].root == Denoted(upper, w.workers[p].configured, RowLevel(w.row))
  }

  /** Whatever a worker's state was, applying a post leaves it coherent, and a poll keeps a coherent one so. */
  lemma ApplyingKeepsCoherent(upper: Upper, w: State, row: Option<Row>)
    ensures row.Some? ==> Coherent(upper, AfterPost(upper, w, row.value.level, row.value.updatedAt))
    ensures Coherent(upper, w) ==>
      var after := AfterPoll(upper, w, row);
      && Coherent(upper, after) && after.root == Denoted(upper, w.configured, RowLevel(row))
          && after.configured == w.configured
    ensures Coherent(upper, State(w.configured, w.configured, None))
  {
  }

  lemma StepKeepsInv(upper: Upper, w: World, m: Move)
    requires Inv(upper, w)
    ensures Inv(upper, Step(upper, w, m))
  {
    hide Denoted, Coherent, AfterPost, AfterPoll;
    var p := m.who;
    match m.action
    case Spawn(configured) =>
      ApplyingKeepsCoherent(upper, State(configured, configured, None), None);
    case CommitPost(row) =>
    case ApplyPost(k) =>
      if p in w.workers && k < |PendingOf(w, p)| {
        ApplyingKeepsCoherent(upper, w.workers[p], Some(PendingOf(w, p)[k]));
      }
    case Poll =>
      if p in w.workers {
        ApplyingKeepsCoherent(upper, w.workers[p], w.row);
      }
  }

  lemma {:induction false} RunKeepsInv(upper: Upper, moves: seq<Move>)
    ensures Inv(upper, Exec(upper, START, moves))
  {
    hide Denoted, Step;
    if moves != [] {
      RunKeepsInv(upper, moves[..|moves| - 1]);
      StepKeepsInv(upper, Exec(upper, START, moves[..|moves| - 1]), moves[|moves| - 1]);
    }
  }

  /** In every run of posts and polls on all workers, whatever the stamps, a poll brings the worker to the level of
      the row. */
  lemma PollConverges(upper: Upper, moves: seq<Move>, p: Pid)
    ensures AgreesWithRow(upper, Exec(upper, START, moves + [Move(p, Poll)]), p)
  {
    hide Denoted;
    RunKeepsInv(upper, moves);
    assert (moves + [Move(p, Poll)])[..|moves|] == moves;
  }

  /** Nothing that can make `p` differ from the row happens: no post commits, and `p` applies no post of its own. */
  ghost predicate Settled(moves: seq<Move>, p: Pid) {
    forall i | 0 <= i < |moves| ::
      !moves[i].action.CommitPost? && (moves[i].who == p ==> moves[i].action.Poll?)
  }

  /** Once posts have stopped and `p` has applied its own, one poll is enough for good. */
  lemma {:induction false} ConvergedForGood(upper: Upper, w: World, more: seq<Move>, p: Pid)
    requires AgreesWithRow(upper, w, p) && Inv(upper, w) && Settled(more, p)
    ensures AgreesWithRow(upper, Exec(upper, w, more), p) && Inv(upper, Exec(upper, w, more))
    ensures Exec(upper, w, more).row == w.row
  {
    hide Denoted;
    if more != [] {
      var n := |more| - 1;
      ConvergedForGood(upper, w, more[..n], p);
      StepKeepsInv(upper, Exec(upper, w, more[..n]), more[n]);
    }
  }

  /** In every run, two workers whose last poll is the latest thing that happened stand at one common level when the row
      names one, and each at its own configured level when it names none. */
  lemma PolledWorkersAgree(upper: Upper, moves: seq<Move>, p: Pid, q: Pid)
    requires KeepsCapitals(upper)
    requires var w := Exec(upper, START, moves); p in w.workers && q in w.workers
    ensures var w := Exec(upper, START, moves + [Move(p, Poll)] + [Move(q, Poll)]);
            && p in w.workers && q in w.workers
            && match RowLevel(w.row) {
                 case Some(name) => LevelValue(name).Some?
                     && w.workers[p].root == w.workers[q].root == LevelValue(name).value
                 case None => w.workers[p].root == w.workers[p].configured
                     && w.workers[q].root == w.workers[q].configured
               }
  {
    hide Denoted, LevelValue;
    var first := moves + [Move(p, Poll)];
    PollConverges(upper, moves, p);
    PollConverges(upper, first, q);
    RunKeepsInv(upper, first);
    assert (moves + [Move(p, Poll)])[..|moves|] == moves;
    assert (first + [Move(q, Poll)])[..|first|] == first;
    var w := Exec(upper, START, first);
    if RowLevel(w.row).Some? {
      AcceptedNamesDenote(upper, RowLevel(w.row).value);
    } else {
      AbsentDenotesConfigured(upper, w.workers[p].configured);
      AbsentDenotesConfigured(upper, w.workers[q].configured);
    }
  }

  lemma AbsentDenotesConfigured(upper: Upper, configured: int)
    ensures Denoted(upper, configured, None) == configured
  {
  }
}
