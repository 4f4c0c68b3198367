/** Agreement on the shared HMAC secrets between workers, through racing inserts, key rotation, catch-up
    re-encryption and stale write keys (thaum/bot_webhook_state.py, thaum/database_crypto.py,
    bots/plugins/webex_bot.py). A run is any list of (worker, action) pairs. */
module SecretsProtocol {
  import opened Prelude
  import opened Vault
  import opened WebhookSecrets

  type Pid = nat

  /** Where a worker is between its transactions. */
  datatype Pc =
    | Ready
    | Looking(bot: BotKey, attempt: nat)
    | Inserting(bot: BotKey, attempt: nat, candidate: string)
    | Installing(rotated: WriteKey)
    | Failed

  datatype Proc = Proc(key: Option<WriteKey>, pc: Pc, cache: map<BotKey, string>)

  datatype Answer = Answer(pid: Pid, bot: BotKey, secret: string)

  /** `first` and `answers` are history: the plaintext first inserted for a bot, and everything returned so far. */
  datatype World = World(keys: Keys, rows: Rows, procs: map<Pid, Proc>, first: map<BotKey, string>,
      answers: seq<Answer>)

  const IDLE := Proc(None, Ready, map[])
  const START := World(NO_KEYS, map[], map[], map[], [])

  datatype Action =
    | EnsureKeys(pass: string, minted: FreshKeys, now: int)
    | Wire(pass: string)
    | Ask(bot: BotKey)
    | AskCached(bot: BotKey)
    | Look(candidate: string)
    | Insert
    | RotateKeys(pass: string, days: int, now: int, freshId: KeyId, freshDek: Dek)
    | Install
    | CatchUp(window: set<BotKey>)
    | Restart

  datatype Move = Move(who: Pid, action: Action)

  function ProcOf(w: World, p: Pid): Proc {
    if p in w.procs then w.procs[p] else IDLE
  }

  function WithProc(w: World, p: Pid, proc: Proc): World {
    w.(procs := w.procs[p := proc])
  }

  /** The worker returns `secret` to its caller and caches it. */
  function Return(w: World, p: Pid, bot: BotKey, secret: string): World {
    var proc := ProcOf(w, p);
    WithProc(w, p, proc.(pc := Ready, cache := proc.cache[bot := secret]))
      .(answers := w.answers + [Answer(p, bot, secret)])
  }

  /** One atomic step; an action that is not enabled changes nothing. Minted key ids are assumed unused. */
  function Step(w: World, m: Move): World {
    var p, proc := m.who, ProcOf(w, m.who);
    match m.action
    case EnsureKeys(pass, minted, now) =>
      if pass == "" || minted.dekId in w.keys.deks then w else w.(keys := AfterEnsure(w.keys, pass, minted, now))
    case Wire(pass) =>
      if pass == "" || proc.key.Some? || !proc.pc.Ready? then w
      else (match WireKey(w.keys, pass)
            case Ok(key) => WithProc(w, p, proc.(key := Some(key)))
            case Err(_) => w)
    case Ask(bot) =>
      if IsBlank(bot) || proc.key.None? || !proc.pc.Ready? then w else WithProc(w, p, proc.(pc := Looking(bot, 0)))
    case AskCached(bot) =>
      if !proc.pc.Ready? || bot !in proc.cache then w else Return(w, p, bot, proc.cache[bot])
    case Look(candidate) => if proc.pc.Looking? then LookStep(w, p, proc.pc.bot, proc.pc.attempt, candidate) else w
    case Insert =>
      if proc.key.Some? && proc.pc.Inserting?
          then InsertStep(w, p, proc.pc.bot, proc.pc.attempt, proc.pc.candidate)
          else w
    case RotateKeys(pass, days, now, freshId, freshDek) =>
      if proc.key.None? || !proc.pc.Ready? || freshId in w.keys.deks then w
      else (match Rotate(w.keys, pass, days, now, freshId, freshDek)
            case Ok(Rotated(after, key)) => WithProc(w, p, proc.(pc := Installing(key))).(keys := after)
            case _ => w)
    case Install =>
      if proc.pc.Installing? then WithProc(w, p, proc.(key := Some(proc.pc.rotated), pc := Ready)) else w
    case CatchUp(window) =>
      if proc.key.None? || !proc.pc.Ready? || ActiveDek(w.keys).Err? || ActiveDek(w.keys).value.None? then w
      else w.(rows := ReEncrypted(w.keys, w.rows, window, ActiveDek(w.keys).value.value, proc.key.value))
    case Restart => WithProc(w, p, IDLE)
  }

  /** Read the row; when it is absent, mint a candidate, or give up after the last attempt. */
  function LookStep(w: World, p: Pid, bot: BotKey, attempt: nat, candidate: string): World {
    if bot in w.rows then
      match Open(w.keys, w.rows[bot])
      case Some(plain) => Return(w, p, bot, plain)
      case None => WithProc(w, p, ProcOf(w, p).(pc := Failed))
    else if attempt == LAST_ATTEMPT then WithProc(w, p, ProcOf(w, p).(pc := Failed))
    else WithProc(w, p, ProcOf(w, p).(pc := Inserting(bot, attempt, candidate)))
  }

  /** Insert under the process's own write key; a duplicate key sends the worker back to reading. */
  function InsertStep(w: World, p: Pid, bot: BotKey, attempt: nat, candidate: string): World
    requires ProcOf(w, p).key.Some?
  {
    if bot in w.rows then WithProc(w, p, ProcOf(w, p).(pc := Looking(bot, attempt + 1)))
    else
      Return(w.(rows := w.rows[bot := Seal(ProcOf(w, p).key.value, candidate)], first := w.first[bot := candidate]),
             p, bot, candidate)
  }

  function Exec(moves: seq<Move>): World {
    if moves == [] then START else Step(Exec(moves[..|moves| - 1]), moves[|moves| - 1])
  }

  /* ---------- invariant ---------- */

  ghost predicate KeysFine(keys: Keys) {
    keys == NO_KEYS || exists owner :: Provisioned(keys, owner)
  }

  ghost predicate CellFine(keys: Keys, cell: Cell, plain: string) {
    Open(keys, cell) == Some(plain)
  }

  ghost predicate ProcFine(keys: Keys, rows: Rows, first: map<BotKey, string>, proc: Proc) {
    && (proc.key.Some? ==> KnownKey(keys, proc.key.value))
    && (proc.pc.Looking? ==> proc.key.Some? && proc.pc.attempt <= 1 && (proc.pc.attempt == 1 ==> proc.pc.bot in rows))
    && (proc.pc.Inserting? ==> proc.pc.attempt == 0 && proc.key.Some?)
    && (proc.pc.Installing? ==> KnownKey(keys, proc.pc.rotated))
    && !proc.pc.Failed?
    && (forall b | b in proc.cache :: b in first && proc.cache[b] == first[b])
  }

  ghost predicate AnswerFine(first: map<BotKey, string>, a: Answer) {
    a.bot in first && a.secret == first[a.bot]
  }

  ghost predicate Inv(w: World) {
    && KeysFine(w.keys)
    && w.rows.Keys == w.first.Keys
    && (forall b | b in w.rows :: CellFine(w.keys, w.rows[b], w.first[b]))
    && (forall p | p in w.procs :: ProcFine(w.keys, w.rows, w.first, w.procs[p]))
    && (forall i | 0 <= i < |w.answers| :: AnswerFine(w.first, w.answers[i]))
  }

  lemma ProcOfFine(w: World, p: Pid)
    requires Inv(w)
    ensures ProcFine(w.keys, w.rows, w.first, ProcOf(w, p))
  {
  }

  /** Tables that only grow: every key stays known, every row stays present, every first plaintext stays first. */
  ghost predicate Grows(w: World, v: World) {
    && KeepsDeks(w.keys, v.keys)
    && w.rows.Keys <= v.rows.Keys
    && (forall b | b in w.first :: b in v.first && v.first[b] == w.first[b])
  }

  /** Growing the tables keeps every worker except `p`, and every old answer, in order. */
  lemma GrowthKeepsInv(w: World, v: World, p: Pid, proc: Proc)
    requires Inv(w) && Grows(w, v)
    requires KeysFine(v.keys) && v.rows.Keys == v.first.Keys
    requires forall b | b in v.rows :: CellFine(v.keys, v.rows[b], v.first[b])
    requires v.procs == w.procs[p := proc] && ProcFine(v.keys, v.rows, v.first, proc)
    requires v.answers == w.answers
        || (v.answers != [] && v.answers[..|v.answers| - 1] == w.answers
        && AnswerFine(v.first, v.answers[|v.answers| - 1]))
    ensures Inv(v)
  {
    forall q | q in v.procs ensures ProcFine(v.keys, v.rows, v.first, v.procs[q]) {
      if q != p {
        assert ProcFine(w.keys, w.rows, w.first, w.procs[q]);
      }
    }
    forall i | 0 <= i < |v.answers| ensures AnswerFine(v.first, v.answers[i]) {
      if i < |w.answers| {
        assert v.answers[i] == w.answers[i];
        assert AnswerFine(w.first, w.answers[i]);
      }
    }
  }

  lemma CellsSurviveKeyGrowth(w: World, keys: Keys)
    requires Inv(w) && KeepsDeks(w.keys, keys)
    ensures forall b | b in w.rows :: CellFine(keys, w.rows[b], w.first[b])
  {
    forall b | b in w.rows ensures CellFine(keys, w.rows[b], w.first[b]) {
      assert CellFine(w.keys, w.rows[b], w.first[b]);
    }
  }

  /** Replacing the key tables by larger ones, for a worker whose state changes at most in `pc`. */
  lemma KeyGrowthKeepsInv(w: World, keys: Keys, p: Pid, proc: Proc)
    requires Inv(w) && KeysFine(keys) && KeepsDeks(w.keys, keys)
    requires ProcFine(keys, w.rows, w.first, proc)
    ensures Inv(WithProc(w, p, proc).(keys := keys))
  {
    CellsSurviveKeyGrowth(w, keys);
    GrowthKeepsInv(w, WithProc(w, p, proc).(keys := keys), p, proc);
  }

  lemma EnsureKeepsInv(w: World, m: Move)
    requires Inv(w) && m.action.EnsureKeys?
    ensures Inv(Step(w, m))
  {
    var a := m.action;
    if a.pass != "" && a.minted.dekId !in w.keys.deks {
      var after := AfterEnsure(w.keys, a.pass, a.minted, a.now);
      var owner: string := "";
      if w.keys != NO_KEYS {
        owner :| Provisioned(w.keys, owner);
      }
      EnsureProvisions(w.keys, a.pass, owner, a.minted, a.now);
      CellsSurviveKeyGrowth(w, after);
      forall q | q in w.procs ensures ProcFine(after, w.rows, w.first, w.procs[q]) {
        assert ProcFine(w.keys, w.rows, w.first, w.procs[q]);
      }
    }
  }

  lemma RotateKeepsInv(w: World, m: Move)
    requires Inv(w) && m.action.RotateKeys?
    ensures Inv(Step(w, m))
  {
    hide Provisioned, Rotate, WireKey, AfterEnsure, ReEncrypted, ActiveDek, Open, IsBlank, CellFine;
    var a, proc := m.action, ProcOf(w, m.who);
    ProcOfFine(w, m.who);
    if a.pass == "" {
      BlankPassphraseNeverRotates(w.keys, a.days, a.now, a.freshId, a.freshDek);
    } else if proc.key.Some? && proc.pc.Ready? && a.freshId !in w.keys.deks {
      assert w.keys != NO_KEYS;
      var owner :| Provisioned(w.keys, owner);
      RotationKeepsVault(w.keys, owner, a.pass, a.days, a.now, a.freshId, a.freshDek);
      var outcome := Rotate(w.keys, a.pass, a.days, a.now, a.freshId, a.freshDek);
      if outcome.Ok? && outcome.value.Rotated? {
        var after, key := outcome.value.keys, outcome.value.writeKey;
        WireSucceedsExactlyForOwner(after, owner, owner);
        KeyGrowthKeepsInv(w, after, m.who, proc.(pc := Installing(key)));
      }
    }
  }

  lemma LookKeepsInv(w: World, p: Pid, candidate: string)
    requires Inv(w) && ProcOf(w, p).pc.Looking?
    ensures Inv(LookStep(w, p, ProcOf(w, p).pc.bot, ProcOf(w, p).pc.attempt, candidate))
  {
    ProcOfFine(w, p);
    var proc := ProcOf(w, p);
    var bot, attempt := proc.pc.bot, proc.pc.attempt;
    var v := LookStep(w, p, bot, attempt, candidate);
    if bot in w.rows {
      assert CellFine(w.keys, w.rows[bot], w.first[bot]);
      assert v.answers[..|w.answers|] == w.answers;
    }
    GrowthKeepsInv(w, v, p, ProcOf(v, p));
  }

  lemma InsertKeepsInv(w: World, p: Pid)
    requires Inv(w) && ProcOf(w, p).pc.Inserting? && ProcOf(w, p).key.Some?
    ensures Inv(InsertStep(w, p, ProcOf(w, p).pc.bot, ProcOf(w, p).pc.attempt, ProcOf(w, p).pc.candidate))
  {
    ProcOfFine(w, p);
    var proc := ProcOf(w, p);
    var v := InsertStep(w, p, proc.pc.bot, proc.pc.attempt, proc.pc.candidate);
    if proc.pc.bot !in w.rows {
      assert v.answers[..|w.answers|] == w.answers;
      forall b | b in v.rows ensures CellFine(v.keys, v.rows[b], v.first[b]) {
        if b != proc.pc.bot {
          assert CellFine(w.keys, w.rows[b], w.first[b]);
        }
      }
    }
    GrowthKeepsInv(w, v, p, ProcOf(v, p));
  }

  lemma CatchUpKeepsInv(w: World, p: Pid, window: set<BotKey>)
    requires Inv(w)
    ensures Inv(Step(w, Move(p, CatchUp(window))))
  {
    ProcOfFine(w, p);
    var v := Step(w, Move(p, CatchUp(window)));
    if v.rows != w.rows {
      CatchUpPreservesPlaintext(w.keys, w.rows, window, ActiveDek(w.keys).value.value, ProcOf(w, p).key.value);
      forall b | b in v.rows ensures CellFine(v.keys, v.rows[b], v.first[b]) {
        assert CellFine(w.keys, w.rows[b], w.first[b]);
      }
    }
  }

  lemma WireKeepsInv(w: World, m: Move)
    requires Inv(w) && m.action.Wire?
    ensures Inv(Step(w, m))
  {
    ProcOfFine(w, m.who);
    var v := Step(w, m);
    if v != w {
      assert w.keys != NO_KEYS;
      var owner :| Provisioned(w.keys, owner);
      WireSucceedsExactlyForOwner(w.keys, owner, m.action.pass);
      hide WireKey, Provisioned, Open, IsBlank;
      GrowthKeepsInv(w, v, m.who, ProcOf(v, m.who));
    }
  }

  lemma LocalKeepsInv(w: World, m: Move)
    requires Inv(w) && (m.action.Ask? || m.action.AskCached? || m.action.Install? || m.action.Restart?)
    ensures Inv(Step(w, m))
  {
    hide KeysFine, CellFine, IsBlank, WireKey, Rotate, AfterEnsure;
    ProcOfFine(w, m.who);
    var v := Step(w, m);
    if m.action.AskCached? && v != w {
      assert v.answers[..|w.answers|] == w.answers;
    }
    if v != w {
      GrowthKeepsInv(w, v, m.who, ProcOf(v, m.who));
    }
  }

  lemma StepKeepsInv(w: World, m: Move)
    requires Inv(w)
    ensures Inv(Step(w, m))
  {
    hide AfterEnsure, Rotate, WireKey, ActiveDek, ReEncrypted, KeysFine, Open;
    ProcOfFine(w, m.who);
    match m.action
    case EnsureKeys(_, _, _) => EnsureKeepsInv(w, m);
    case RotateKeys(_, _, _, _, _) => RotateKeepsInv(w, m);
    case CatchUp(window) => CatchUpKeepsInv(w, m.who, window);
    case Look(candidate) =>
      if ProcOf(w, m.who).pc.Looking? {
        LookKeepsInv(w, m.who, candidate);
      }
    case Insert =>
      if ProcOf(w, m.who).pc.Inserting? {
        InsertKeepsInv(w, m.who);
      }
    case Wire(_) => WireKeepsInv(w, m);
    case _ => LocalKeepsInv(w, m);
  }

  lemma {:induction false} RunKeepsInv(moves: seq<Move>)
    ensures Inv(Exec(moves))
  {
    hide Step;
    if moves != [] {
      RunKeepsInv(moves[..|moves| - 1]);
      StepKeepsInv(Exec(moves[..|moves| - 1]), moves[|moves| - 1]);
    }
  }

  /* ---------- main results ---------- */

  /** In every run, every answer for one bot, in any worker, from the table or from a cache, is one secret. */
  lemma AllWorkersAgree(moves: seq<Move>, i: nat, j: nat)
    requires var w := Exec(moves);
             i < |w.answers| && j < |w.answers| && w.answers[i].bot == w.answers[j].bot
    ensures var w := Exec(moves);
            w.answers[i].secret == w.answers[j].secret
  {
    RunKeepsInv(moves);
    assert AnswerFine(Exec(moves).first, Exec(moves).answers[i]);
  }

  /** In every run, every stored ciphertext names a committed key and decrypts to the plaintext first inserted,
      and every worker's cache and every answer is that plaintext. */
  lemma SecretsStayReadable(moves: seq<Move>)
    ensures var w := Exec(moves);
            && w.rows.Keys == w.first.Keys
            && (forall b | b in w.rows ::
                w.rows[b].Enc? && w.rows[b].keyId in w.keys.deks && Open(w.keys, w.rows[b]) == Some(w.first[b]))
            && (forall p, b | p in w.procs && b in w.procs[p].cache ::
                b in w.first && w.procs[p].cache[b] == w.first[b])
            && (forall i | 0 <= i < |w.answers| ::
                w.answers[i].bot in w.first && w.answers[i].secret == w.first[w.answers[i].bot])
  {
    RunKeepsInv(moves);
    var w := Exec(moves);
    forall b | b in w.rows
      ensures w.rows[b].Enc? && w.rows[b].keyId in w.keys.deks && Open(w.keys, w.rows[b]) == Some(w.first[b])
    {
      assert CellFine(w.keys, w.rows[b], w.first[b]);
    }
    forall p, b | p in w.procs && b in w.procs[p].cache ensures b in w.first && w.procs[p].cache[b] == w.first[b] {
      assert ProcFine(w.keys, w.rows, w.first, w.procs[p]);
    }
    forall i | 0 <= i < |w.answers|
        ensures w.answers[i].bot in w.first && w.answers[i].secret == w.first[w.answers[i].bot] {
      assert AnswerFine(w.first, w.answers[i]);
    }
  }

  /** The closing RuntimeError is unreachable, and one retry is always enough. */
  lemma EnsureNeverGivesUp(moves: seq<Move>, p: Pid)
    ensures var pc := ProcOf(Exec(moves), p).pc;
            && !pc.Failed?
            && (pc.Looking? ==> pc.attempt <= 1)
            && (pc.Inserting? ==> pc.attempt == 0)
  {
    RunKeepsInv(moves);
    ProcOfFine(Exec(moves), p);
  }

  lemma FirstSurvivesStep(w: World, m: Move, bot: BotKey)
    requires Inv(w) && bot in w.first
    ensures bot in Step(w, m).first && Step(w, m).first[bot] == w.first[bot]
  {
    hide AfterEnsure, Rotate, WireKey, ActiveDek, ReEncrypted, KeysFine, CellFine, ProcFine, AnswerFine, Open;
  }

  /** Once a bot has a secret, no further moves change it. */
  lemma {:induction false} FirstSecretIsForever(moves: seq<Move>, more: seq<Move>, bot: BotKey)
    requires bot in Exec(moves).first
    ensures bot in Exec(moves + more).first && Exec(moves + more).first[bot] == Exec(moves).first[bot]
    decreases |more|
  {
    hide Step;
    if more == [] {
      assert moves + more == moves;
    } else {
      var n := |more| - 1;
      FirstSecretIsForever(moves, more[..n], bot);
      assert (moves + more)[..|moves + more| - 1] == moves + more[..n];
      RunKeepsInv(moves + more[..n]);
      FirstSurvivesStep(Exec(moves + more[..n]), more[n], bot);
    }
  }

  /* ---------- where secrets come from ---------- */

  ghost predicate Minted(moves: seq<Move>, secret: string) {
    exists i :: 0 <= i < |moves| && moves[i].action == Look(secret)
  }

  ghost predicate AllMinted(w: World, moves: seq<Move>) {
    && (forall b | b in w.first :: Minted(moves, w.first[b]))
    && (forall p | p in w.procs && w.procs[p].pc.Inserting? :: Minted(moves, w.procs[p].pc.candidate))
  }

  lemma MintedStays(moves: seq<Move>, m: Move, secret: string)
    requires Minted(moves, secret)
    ensures Minted(moves + [m], secret)
  {
    var i :| 0 <= i < |moves| && moves[i].action == Look(secret);
    assert (moves + [m])[i].action == Look(secret);
  }

  /** A worker comes to insert only what it has just minted. */
  lemma CandidateComesFromLook(w: World, m: Move, p: Pid)
    ensures var before, after := ProcOf(w, p).pc, ProcOf(Step(w, m), p).pc;
            after.Inserting? ==> before == after || m.action == Look(after.candidate)
  {
    hide AfterEnsure, Rotate, WireKey, ActiveDek, ReEncrypted, Open, IsBlank;
  }

  /** A first secret is what its worker came to insert. */
  lemma FirstComesFromCandidate(w: World, m: Move, b: BotKey)
    ensures var v := Step(w, m);
            b in v.first ==>
              || (b in w.first && v.first[b] == w.first[b])
              || (ProcOf(w, m.who).pc.Inserting? && m.who in w.procs && v.first[b] == ProcOf(w, m.who).pc.candidate)
  {
    hide AfterEnsure, Rotate, WireKey, ActiveDek, ReEncrypted, Open, IsBlank;
  }

  lemma StepKeepsMinted(w: World, moves: seq<Move>, m: Move)
    requires AllMinted(w, moves)
    ensures AllMinted(Step(w, m), moves + [m])
  {
    hide Step, Minted;
    var v := Step(w, m);
    forall secret | Minted(moves, secret) ensures Minted(moves + [m], secret) {
      MintedStays(moves, m, secret);
    }
    if m.action.Look? {
      LookIsMinted(moves, m);
    }
    forall p | p in v.procs && v.procs[p].pc.Inserting? ensures Minted(moves + [m], v.procs[p].pc.candidate) {
      CandidateComesFromLook(w, m, p);
    }
    forall b | b in v.first ensures Minted(moves + [m], v.first[b]) {
      FirstComesFromCandidate(w, m, b);
    }
  }

  lemma LookIsMinted(moves: seq<Move>, m: Move)
    requires m.action.Look?
    ensures Minted(moves + [m], m.action.candidate)
  {
    assert (moves + [m])[|moves|].action == Look(m.action.candidate);
  }

  lemma {:induction false} RunKeepsMinted(moves: seq<Move>)
    ensures AllMinted(Exec(moves), moves)
  {
    hide Step, Minted;
    if moves != [] {
      var n := |moves| - 1;
      RunKeepsMinted(moves[..n]);
      StepKeepsMinted(Exec(moves[..n]), moves[..n], moves[n]);
      assert moves[..n] + [moves[n]] == moves;
    }
  }

  /** In every run, every secret answered by any worker is a random candidate that some worker minted, never anything
      else. */
  lemma SecretsWereMinted(moves: seq<Move>, i: nat)
    requires i < |Exec(moves).answers|
    ensures Minted(moves, Exec(moves).answers[i].secret)
  {
    RunKeepsMinted(moves);
    RunKeepsInv(moves);
    assert AnswerFine(Exec(moves).first, Exec(moves).answers[i]);
  }

  /* ---------- a leader with an old write key ---------- */

  const KEK := Kek("p", 0)
  const SLOTS := [Slot(0, 0, Some(KEK))]
  const OLD_KEYS := Keys(SLOTS, map[1 := DekRow(0, KEK, 7, true, 0)])
  const NEW_KEYS := Keys(SLOTS, map[1 := DekRow(0, KEK, 7, false, 0), 2 := DekRow(0, KEK, 8, true, SECONDS_PER_DAY)])
  const OLD_WRITE := WriteKey(1, 7)
  const NEW_WRITE := WriteKey(2, 8)

  lemma KeysOfTheRun()
    ensures AfterEnsure(NO_KEYS, "p", FreshKeys(0, 0, 1, 7), 0) == OLD_KEYS
    ensures WireKey(OLD_KEYS, "p") == Ok(OLD_WRITE)
    ensures Rotate(OLD_KEYS, "p", 1, SECONDS_PER_DAY, 2, 8) == Ok(Rotated(NEW_KEYS, NEW_WRITE))
    ensures ActiveDek(NEW_KEYS) == Ok(Some(2))
  {
    assert ActiveIds(OLD_KEYS) == {1} && ActiveIds(NEW_KEYS) == {2};
    assert PutActive(OLD_KEYS.deks, 2, DekRow(0, KEK, 8, true, SECONDS_PER_DAY)) == NEW_KEYS.deks;
  }

  lemma LastStep(moves: seq<Move>, m: Move)
    ensures Exec(moves + [m]) == Step(Exec(moves), m)
  {
    assert (moves + [m])[..|moves|] == moves;
  }

  const BOT: BotKey := "b"
  const SEALED := Enc(1, 7, "s")

  /** Two workers wired with one key, and one stored secret. */
  const STORED :=
    World(OLD_KEYS, map[BOT := SEALED],
        map[1 := Proc(Some(OLD_WRITE), Ready, map[]), 2 := Proc(Some(OLD_WRITE), Ready, map[BOT := "s"])],
          map[BOT := "s"], [Answer(2, BOT, "s")])

  /** Worker 1 has rotated since; worker 2 still writes with the old key. */
  const ROTATED :=
    World(NEW_KEYS, map[BOT := SEALED],
        map[1 := Proc(Some(NEW_WRITE), Ready, map[]), 2 := Proc(Some(OLD_WRITE), Ready, map[BOT := "s"])],
          map[BOT := "s"], [Answer(2, BOT, "s")])

  lemma BotIsNotBlank()
    ensures !IsBlank(BOT)
  {
    assert BOT[0] == 'b';
  }

  lemma StoreSecret(w: World)
    requires w == World(OLD_KEYS, map[],
        map[1 := Proc(Some(OLD_WRITE), Ready, map[]), 2 := Proc(Some(OLD_WRITE), Ready, map[])], map[], [])
    ensures Step(Step(Step(w, Move(2, Ask(BOT))), Move(2, Look("s"))), Move(2, Insert)) == STORED
  {
    hide IsBlank;
    BotIsNotBlank();
    var w1 := Step(w, Move(2, Ask(BOT)));
    assert ProcOf(w1, 2) == Proc(Some(OLD_WRITE), Looking(BOT, 0), map[]);
    var w2 := Step(w1, Move(2, Look("s")));
    assert ProcOf(w2, 2) == Proc(Some(OLD_WRITE), Inserting(BOT, 0, "s"), map[]);
    var w3 := Step(w2, Move(2, Insert));
    assert w3.procs == STORED.procs;
  }

  lemma RotateInWorkerOne()
    ensures Step(Step(STORED, Move(1, RotateKeys("p", 1, SECONDS_PER_DAY, 2, 8))), Move(1, Install)) == ROTATED
  {
    KeysOfTheRun();
    hide Rotate, AfterEnsure, WireKey, IsBlank, ActiveDek;
    var w := Step(STORED, Move(1, RotateKeys("p", 1, SECONDS_PER_DAY, 2, 8)));
    assert ProcOf(w, 1) == Proc(Some(OLD_WRITE), Installing(NEW_WRITE), map[]);
    assert Step(w, Move(1, Install)).procs == ROTATED.procs;
  }

  function CatchUps(n: nat): seq<Move> {
    if n == 0 then [] else CatchUps(n - 1) + [Move(2, CatchUp({BOT}))]
  }

  lemma CatchUpByOldKey()
    ensures Step(ROTATED, Move(2, CatchUp({BOT}))) == ROTATED
    ensures StaleIn(NEW_KEYS, ROTATED.rows, {BOT}, 2) == {BOT}
  {
    KeysOfTheRun();
    hide ActiveDek, Rotate, AfterEnsure, WireKey, IsBlank;
    assert Open(NEW_KEYS, SEALED) == Some("s");
    assert ReEncrypted(NEW_KEYS, ROTATED.rows, {BOT}, 2, OLD_WRITE) == ROTATED.rows;
  }

  lemma {:induction false} OldKeyLeaderNeverUpgrades(moves: seq<Move>, n: nat)
    requires Exec(moves) == ROTATED
    ensures Exec(moves + CatchUps(n)) == ROTATED
  {
    hide Step;
    if n == 0 {
      assert moves + CatchUps(0) == moves;
    } else {
      OldKeyLeaderNeverUpgrades(moves, n - 1);
      LastStep(moves + CatchUps(n - 1), Move(2, CatchUp({BOT})));
      assert moves + CatchUps(n) == moves + CatchUps(n - 1) + [Move(2, CatchUp({BOT}))];
      CatchUpByOldKey();
    }
  }

  lemma WireBoth(w: World)
    requires w == World(OLD_KEYS, map[], map[], map[], [])
    ensures Step(Step(w, Move(1, Wire("p"))), Move(2, Wire("p")))
            == World(OLD_KEYS, map[],
                map[1 := Proc(Some(OLD_WRITE), Ready, map[]), 2 := Proc(Some(OLD_WRITE), Ready, map[])], map[], [])
  {
    KeysOfTheRun();
    hide WireKey;
  }

  lemma EnsureFirst()
    ensures Exec([] + [Move(1, EnsureKeys("p", FreshKeys(0, 0, 1, 7), 0))]) == World(OLD_KEYS, map[], map[], map[], [])
  {
    LastStep([], Move(1, EnsureKeys("p", FreshKeys(0, 0, 1, 7), 0)));
    KeysOfTheRun();
    hide AfterEnsure;
  }

  lemma RotatedIsReached() returns (moves: seq<Move>)
    ensures Exec(moves) == ROTATED
  {
    hide Step, Exec;
    EnsureFirst();
    var m := [] + [Move(1, EnsureKeys("p", FreshKeys(0, 0, 1, 7), 0))];
    WireBoth(Exec(m));
    LastStep(m, Move(1, Wire("p")));
    LastStep(m + [Move(1, Wire("p"))], Move(2, Wire("p")));
    m := m + [Move(1, Wire("p"))] + [Move(2, Wire("p"))];
    StoreSecret(Exec(m));
    LastStep(m, Move(2, Ask(BOT)));
    LastStep(m + [Move(2, Ask(BOT))], Move(2, Look("s")));
    LastStep(m + [Move(2, Ask(BOT))] + [Move(2, Look("s"))], Move(2, Insert));
    m := m + [Move(2, Ask(BOT))] + [Move(2, Look("s"))] + [Move(2, Insert)];
    RotateInWorkerOne();
    LastStep(m, Move(1, RotateKeys("p", 1, SECONDS_PER_DAY, 2, 8)));
    LastStep(m + [Move(1, RotateKeys("p", 1, SECONDS_PER_DAY, 2, 8))], Move(1, Install));
    moves := m + [Move(1, RotateKeys("p", 1, SECONDS_PER_DAY, 2, 8))] + [Move(1, Install)];
  }

  /** Catch-up can run for ever without effect: once another worker has rotated, a leader still writing with the old key
      rewrites the same stale row on every tick. */
  lemma OldKeyLeaderRunsForever(n: nat)
    ensures exists moves: seq<Move> ::
              var w := Exec(moves + CatchUps(n));
              ActiveDek(w.keys) == Ok(Some(2)) && StaleIn(w.keys, w.rows, w.rows.Keys, 2) == {BOT} == w.rows.Keys
  {
    hide Exec, ActiveDek, StaleIn;
    var moves := RotatedIsReached();
    OldKeyLeaderNeverUpgrades(moves, n);
    KeysOfTheRun();
    CatchUpByOldKey();
    assert ROTATED.rows.Keys == {BOT};
  }
}
