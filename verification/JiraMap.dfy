/** Correlation of Jira alerts with chat rooms (alerts/plugins/jira/mapping_store.py,
    alerts/plugins/jira/status_webhook.py). Pending rows, Create webhooks and status webhooks arrive in any order and
    from any worker; each database transaction is one step. */
module JiraMap {
  import opened Prelude
  import opened Text

  datatype Key = Key(bot: Str, alias: Str)
  datatype Row = Row(shortId: Str, room: Str, sender: Str, alertId: Option<Str>)

  /** Table `jira_alert_map`. */
  type Table = map<Key, Row>

  /** Someone */
  const SOMEONE: Str := [0x53, 0x6F, 0x6D, 0x65, 0x6F, 0x6E, 0x65]
  /** THAUM- */
  const ALIAS_PREFIX: Str := [0x54, 0x48, 0x41, 0x55, 0x4D, 0x2D]
  const HYPHEN: CodePoint := 0x2D

  function OrSomeone(sender: Str): Str {
    if Strip(sender) == [] then SOMEONE else Strip(sender)
  }

  function KeyOf(bot: Str, alias: Str): Key {
    Key(Strip(bot), Strip(alias))
  }

  predicate IsShortIdChar(c: CodePoint) {
    0x41 <= c <= 0x5A || 0x32 <= c <= 0x39
  }

  /** The short id at the end of an alias of the form THAUM-<8 digits>-<4 characters>, else empty. */
  function ParseShortId(alias: Str): Str {
    var s := Strip(alias);
    if |s| == 19 && s[..6] == ALIAS_PREFIX && (forall i | 6 <= i < 14 :: IsDigit(s[i])) && s[14] == HYPHEN
       && (forall i | 15 <= i < 19 :: IsShortIdChar(s[i]))
    then s[15..] else []
  }

  /* ---------- the four database operations ---------- */

  datatype Pending = Pending(bot: Str, alias: Str, shortId: Str, room: Str, sender: Str)

  predicate Complete(p: Pending) {
    Strip(p.bot) != [] && Strip(p.alias) != [] && Strip(p.shortId) != [] && Strip(p.room) != []
  }

  function AfterPending(t: Table, p: Pending): Table {
    var key := KeyOf(p.bot, p.alias);
    if !Complete(p) then t
    else t[key := Row(Strip(p.shortId), Strip(p.room), OrSomeone(p.sender), if key in t then t[key].alertId else None)]
  }

  /** The UNIQUE constraint on `jira_alert_id`, over the rows of all bots. */
  ghost predicate UniqueIds(t: Table) {
    forall j, k | j in t && k in t && t[j].alertId.Some? && t[j].alertId == t[k].alertId :: j == k
  }

  predicate IdTaken(t: Table, key: Key, id: Str) {
    exists k :: k in t && k != key && t[k].alertId == Some(id)
  }

  datatype Create = Create(alertId: Str, bot: Str, alias: Str, shortId: Str, room: Str, sender: Str)
  datatype Outcome = Skipped | Inserted | Linked | Conflict

  function AfterCreate(t: Table, c: Create): (Table, Outcome) {
    var id, key := Strip(c.alertId), KeyOf(c.bot, c.alias);
    if id == [] || key.bot == [] || key.alias == [] then (t, Skipped)
    else if key !in t then
      var short := if Strip(c.shortId) != [] then Strip(c.shortId) else ParseShortId(key.alias);
      if Strip(c.room) == [] || short == [] then (t, Skipped)
      else if IdTaken(t, key, id) then (t, Conflict)
      else (t[key := Row(short, Strip(c.room), OrSomeone(c.sender), Some(id))], Inserted)
    else if IdTaken(t, key, id) then (t, Conflict)
    else (t[key := t[key].(alertId := Some(id))], Linked)
  }

  predicate Links(t: Table, alertId: Str, bot: Str, k: Key) {
    Strip(alertId) != [] && Strip(bot) != [] && k in t && k.bot == Strip(bot) && t[k].alertId == Some(Strip(alertId))
  }

  /** The row a query by alert id and bot finds. */
  ghost function ByAlert(t: Table, alertId: Str, bot: Str): (r: Option<Key>)
    ensures r.Some? ==> Links(t, alertId, bot, r.value)
    ensures r.None? ==> forall k :: !Links(t, alertId, bot, k)
  {
    if k :| Links(t, alertId, bot, k) then Some(k) else None
  }

  function ByAlias(t: Table, alias: Str, bot: Str): Option<Row> {
    var key := KeyOf(bot, alias);
    if key.alias == [] || key.bot == [] || key !in t then None else Some(t[key])
  }

  /** What the Create handler passes on: the alias's own row, read in an earlier transaction, supplies the fallbacks. */
  function CreateFrom(t: Table, alertId: Str, bot: Str, alias: Str): Create {
    var own := ByAlias(t, alias, bot);
    Create(Strip(alertId), bot, Strip(alias), ParseShortId(alias),
           if own.Some? then Strip(own.value.room) else [], if own.Some? then Strip(own.value.sender) else [])
  }

  /** Rows once written stay; only their contents change. */
  ghost predicate KeepsRows(before: Table, after: Table) {
    before.Keys <= after.Keys && UniqueIds(after)
  }

  class MapStore {
    var rows: Table

    constructor ()
      ensures rows == map[]
    {
      rows := map[];
    }

    method UpsertPendingRow(p: Pending)
      requires UniqueIds(rows)
      modifies this
      ensures rows == AfterPending(old(rows), p) && UniqueIds(rows)
    {
      var key := KeyOf(p.bot, p.alias);
      var short, room, sender := Strip(p.shortId), Strip(p.room), OrSomeone(p.sender);
      if key.bot == [] || key.alias == [] || short == [] || room == [] {
        return;
      }
      if key !in rows {
        rows := rows[key := Row(short, room, sender, None)];
      } else {
        rows := rows[key := rows[key].(shortId := short, room := room, sender := sender)];
      }
    }

    method MappingForJiraAlertId(alertId: Str, bot: Str) returns (row: Option<Row>)
      requires UniqueIds(rows)
      ensures var found := ByAlert(rows, alertId, bot); row == if found.Some? then Some(rows[found.value]) else None
    {
      if Strip(alertId) == [] || Strip(bot) == [] || !(exists k :: k in rows && Links(rows, alertId, bot, k)) {
        return None;
      }
      var k :| k in rows && Links(rows, alertId, bot, k);
      return Some(rows[k]);
    }

    /** `apply_create_webhook`; a refused commit changes nothing. */
    method ApplyCreateWebhook(c: Create) returns (outcome: Outcome)
      requires UniqueIds(rows)
      modifies this
      ensures (rows, outcome) == AfterCreate(old(rows), c) && UniqueIds(rows)
    {
      var id, key := Strip(c.alertId), KeyOf(c.bot, c.alias);
      if id == [] || key.bot == [] || key.alias == [] {
        return Skipped;
      }
      if key !in rows {
        var room := Strip(c.room);
        if room == [] {
          return Skipped;
        }
        var short := Strip(c.shortId);
        if short == [] {
          short := ParseShortId(key.alias);
        }
        if short == [] {
          return Skipped;
        }
        if IdTaken(rows, key, id) {
          return Conflict;
        }
        rows := rows[key := Row(short, room, OrSomeone(c.sender), Some(id))];
        return Inserted;
      }
      if IdTaken(rows, key, id) {
        return Conflict;
      }
      rows := rows[key := rows[key].(alertId := Some(id))];
      return Linked;
    }

    /** The Create branch of the webhook handler. `others` is what other workers do between its two transactions. The
        row is linked iff the second transaction finds it and no other row has the alert id; it is inserted again, from
        what the first transaction read, iff it has been removed in between; otherwise nothing changes. So, as long as
        rows stay, this handler makes no row and moves none. */
    method HandleCreate(bot: Str, alertId: Str, alias: Str, others: Table -> Table) returns (outcome: Outcome)
      requires UniqueIds(rows) && UniqueIds(others(rows))
      modifies this
      ensures UniqueIds(rows)
      ensures var now, key, id := others(old(rows)), KeyOf(bot, alias), Strip(alertId);
              var room := if key in old(rows) then Strip(old(rows)[key].room) else [];
              var short := ParseShortId(key.alias);
              var complete := id != [] && key.bot != [] && key.alias != [];
              var taken := exists k :: k in now && k != key && now[k].alertId == Some(id);
              && (outcome == Linked <==> complete && key in now && !taken)
              && (outcome == Inserted <==> complete && key !in now && room != [] && short != [] && !taken)
              && (outcome == Conflict <==> complete && taken && (key in now || (room != [] && short != [])))
              && (outcome == Linked ==> rows == now[key := now[key].(alertId := Some(id))])
              && (outcome == Inserted ==>
                    && key in old(rows)
                    && rows == now[key := Row(short, room, OrSomeone(old(rows)[key].sender), Some(id))])
              && (outcome == Skipped || outcome == Conflict ==> rows == now)
      ensures KeepsRows(old(rows), others(old(rows))) ==>
                && outcome != Inserted && rows.Keys == others(old(rows)).Keys
                && forall k | k in rows :: rows[k].(alertId := None) == others(old(rows))[k].(alertId := None)
    {
      if bot == [] {
        rows := others(rows);
        assert Strip(bot) == [];
        return Skipped;
      }
      hide Strip, ParseShortId, OrSomeone, CreateFrom, AfterCreate;
      var c := CreateFrom(rows, alertId, bot, alias);
      CreateFromMeaning(rows, alertId, bot, alias);
      rows := others(rows);
      CreatesExactly(rows, c);
      outcome := ApplyCreateWebhook(c);
    }

    /** The other branches, up to the room: by alert id first, then by alias. */
    method ResolveRoom(bot: Str, alertId: Str, alias: Str, others: Table -> Table)
        returns (room: Option<Str>, sender: Str)
      requires UniqueIds(rows) && KeepsRows(rows, others(rows))
      modifies this
      ensures room.Some? ==> room.value != []
      ensures rows == others(old(rows)) || rows == old(rows)
      ensures var found := ByAlert(old(rows), alertId, bot);
              var first := if found.Some? then Strip(old(rows)[found.value].room) else [];
              if first != [] then room == Some(first) && sender == OrSomeone(old(rows)[found.value].sender)
              else
                var second := ByAlias(rows, Strip(alias), bot);
                && rows == others(old(rows))
                && (room.Some? <==> second.Some? && Strip(second.value.room) != [])
                && (room.Some? ==> room.value == Strip(second.value.room) && sender == OrSomeone(second.value.sender))
    {
      sender := SOMEONE;
      var byAlert := MappingForJiraAlertId(alertId, bot);
      if byAlert.Some? {
        sender := OrSomeone(byAlert.value.sender);
        if Strip(byAlert.value.room) != [] {
          return Some(Strip(byAlert.value.room)), sender;
        }
      }
      rows := others(rows);
      var al := Strip(alias);
      StripIsIdempotent(alias);
      if al != [] && bot != [] {
        var byAlias := ByAlias(rows, al, bot);
        if byAlias.Some? && Strip(byAlias.value.room) != [] {
          return Some(Strip(byAlias.value.room)), OrSomeone(byAlias.value.sender);
        }
      }
      return None, sender;
    }
  }

  /* ---------- all workers ---------- */

  type Pid = nat

  /** Where a webhook request is between its two transactions; `started` counts the pending rows written before its
      first. */
  datatype Pc = Idle | Creating(create: Create) | Resolving(bot: Str, alertId: Str, alias: Str, started: nat)

  /** One resolved status event: the row its first read found under its alert id and bot, if any, and the room it
      goes to, if any, as of the moment `at`. */
  datatype Delivery =
    Delivery(bot: Str, alertId: Str, alias: Str, linked: Option<Key>, room: Option<Str>, started: nat, at: nat)

  /** `writes` lists the complete pending rows in the order they were written. */
  datatype World = World(table: Table, pcs: map<Pid, Pc>, writes: seq<Pending>, deliveries: seq<Delivery>)

  datatype Action =
    | WritePending(pending: Pending)
    | ReadForCreate(bot: Str, alertId: Str, alias: Str)
    | Apply
    | ReadByAlert(bot: Str, alertId: Str, alias: Str)
    | ReadByAlias
    | Crash

  datatype Move = Move(who: Pid, action: Action)

  const START := World(map[], map[], [], [])

  function PcOf(w: World, p: Pid): Pc {
    if p in w.pcs then w.pcs[p] else Idle
  }

  function At(w: World, p: Pid, pc: Pc): World {
    w.(pcs := w.pcs[p := pc])
  }

  function Nonblank(room: Str): Option<Str> {
    if Strip(room) == [] then None else Some(Strip(room))
  }

  /** One atomic step; an action that is not enabled changes nothing. */
  ghost function Step(w: World, m: Move): World {
    var p, pc := m.who, PcOf(w, m.who);
    match m.action
    case WritePending(pending) =>
      if Complete(pending) then w.(table := AfterPending(w.table, pending), writes := w.writes + [pending]) else w
    case ReadForCreate(bot, alertId, alias) =>
      if pc.Idle? && bot != [] then At(w, p, Creating(CreateFrom(w.table, alertId, bot, alias))) else w
    case Apply => if pc.Creating? then At(w, p, Idle).(table := AfterCreate(w.table, pc.create).0) else w
    case ReadByAlert(bot, alertId, alias) =>
      if !pc.Idle? || Strip(alertId) == [] then w else FirstRead(w, p, bot, alertId, alias)
    case ReadByAlias => if pc.Resolving? then SecondRead(w, p, pc.bot, pc.alertId, pc.alias, pc.started) else w
    case Crash => At(w, p, Idle)
  }

  ghost function FirstRead(w: World, p: Pid, bot: Str, alertId: Str, alias: Str): World {
    var n, found := |w.writes|, ByAlert(w.table, alertId, bot);
    if found.Some? && Nonblank(w.table[found.value].room).Some? then
      w.(deliveries := w.deliveries + [Delivery(bot, alertId, alias, found, Nonblank(w.table[found.value].room), n, n)])
    else At(w, p, Resolving(bot, alertId, alias, n))
  }

  function SecondRead(w: World, p: Pid, bot: Str, alertId: Str, alias: Str, started: nat): World {
    var own := ByAlias(w.table, alias, bot);
    At(w, p, Idle).(deliveries := w.deliveries
                      + [Delivery(bot, alertId, alias, None, if own.Some? then Nonblank(own.value.room) else None,
                                  started, |w.writes|)])
  }

  ghost function Exec(moves: seq<Move>): World {
    if moves == [] then START else Step(Exec(moves[..|moves| - 1]), moves[|moves| - 1])
  }

  /** The last pending row written under `key`. */
  function Recorded(writes: seq<Pending>, key: Key): Option<Pending> {
    if writes == [] then None
    else
      var last := writes[|writes| - 1];
      if KeyOf(last.bot, last.alias) == key then Some(last) else Recorded(writes[..|writes| - 1], key)
  }

  function RoomRecorded(writes: seq<Pending>, key: Key): Option<Str> {
    var p := Recorded(writes, key);
    if p.None? then None else Some(Strip(p.value.room))
  }

  lemma RecordedExtends(writes: seq<Pending>, p: Pending, key: Key)
    ensures Recorded(writes + [p], key) == if KeyOf(p.bot, p.alias) == key then Some(p) else Recorded(writes, key)
  {
    assert (writes + [p])[..|writes|] == writes;
  }

  lemma {:induction false} RecordedIsComplete(writes: seq<Pending>, key: Key)
    requires (forall i | 0 <= i < |writes| :: Complete(writes[i])) && Recorded(writes, key).Some?
    ensures Complete(Recorded(writes, key).value)
        && KeyOf(Recorded(writes, key).value.bot, Recorded(writes, key).value.alias) == key
  {
    var n := |writes| - 1;
    if KeyOf(writes[n].bot, writes[n].alias) != key {
      RecordedIsComplete(writes[..n], key);
    }
  }

  /* ---------- every row comes from its own pending row ---------- */

  ghost predicate RowMatches(row: Row, p: Pending) {
    row.shortId == Strip(p.shortId) && row.room == Strip(p.room) && row.sender == OrSomeone(p.sender)
  }

  /** The table holds exactly the keys that were written, with what the last pending row under the key said. */
  ghost predicate TableMatches(t: Table, writes: seq<Pending>) {
    && (forall k :: k in t <==> Recorded(writes, k).Some?)
    && (forall k | k in t :: RowMatches(t[k], Recorded(writes, k).value))
    && (forall i | 0 <= i < |writes| :: Complete(writes[i]))
  }

  /** A Create in flight that brings a room has a row to go to. */
  ghost predicate CreatesHaveRows(w: World) {
    forall p | p in w.pcs && w.pcs[p].Creating? && Strip(w.pcs[p].create.room) != [] ::
      KeyOf(w.pcs[p].create.bot, w.pcs[p].create.alias) in w.table
  }

  ghost predicate RowsInv(w: World) {
    TableMatches(w.table, w.writes) && UniqueIds(w.table) && CreatesHaveRows(w)
  }

  lemma PendingKeepsTable(t: Table, writes: seq<Pending>, p: Pending)
    requires TableMatches(t, writes) && UniqueIds(t) && Complete(p)
    ensures TableMatches(AfterPending(t, p), writes + [p]) && UniqueIds(AfterPending(t, p))
    ensures forall k | k in AfterPending(t, p) :: AfterPending(t, p)[k].alertId == if k in t then t[k].alertId else None
  {
    hide Strip, OrSomeone, Recorded;
    forall k
      ensures k in AfterPending(t, p) <==> Recorded(writes + [p], k).Some?
      ensures k in AfterPending(t, p) ==> RowMatches(AfterPending(t, p)[k], Recorded(writes + [p], k).value)
    {
      RecordedExtends(writes, p, k);
    }
  }

  /** Whoever else wrote meanwhile, a Create only ever sets the alert id of a row that is there. */
  lemma CreateOnlyLinks(t: Table, c: Create)
    requires Strip(c.room) != [] ==> KeyOf(c.bot, c.alias) in t
    requires UniqueIds(t)
    ensures var (after, outcome) := AfterCreate(t, c);
            && outcome != Inserted && after.Keys == t.Keys && UniqueIds(after)
            && (forall k | k in t :: after[k].(alertId := None) == t[k].(alertId := None))
            && (forall k | k in t && after[k] != t[k] ::
                k == KeyOf(c.bot, c.alias) && after[k].alertId == Some(Strip(c.alertId)))
  {
    hide Strip, ParseShortId, OrSomeone;
  }

  lemma CreateFromHasRow(t: Table, alertId: Str, bot: Str, alias: Str)
    ensures var c := CreateFrom(t, alertId, bot, alias);
            && KeyOf(c.bot, c.alias) == KeyOf(bot, alias) && Strip(c.alertId) == Strip(alertId)
            && (Strip(c.room) != [] ==> KeyOf(bot, alias) in t)
  {
    StripIsIdempotent(alertId);
    StripIsIdempotent(alias);
  }

  lemma ShortIdIsStripped(alias: Str)
    ensures var short := ParseShortId(alias); Strip(short) == short && ParseShortId(Strip(alias)) == short
  {
    StripIsIdempotent(alias);
    var short := ParseShortId(alias);
    if short != [] {
      assert IsShortIdChar(short[0]) && IsShortIdChar(short[|short| - 1]);
      StripKeeps(short);
    }
  }

  /** The fallbacks of a Create are the room and sender of its own row, as read, and the short id its alias spells. */
  lemma CreateFromMeaning(t: Table, alertId: Str, bot: Str, alias: Str)
    ensures var c, key := CreateFrom(t, alertId, bot, alias), KeyOf(bot, alias);
            && KeyOf(c.bot, c.alias) == key && Strip(c.alertId) == Strip(alertId)
            && (key.bot != [] && key.alias != [] ==>
                  && Strip(c.room) == (if key in t then Strip(t[key].room) else [])
                  && (key in t ==> OrSomeone(c.sender) == OrSomeone(t[key].sender))
                  && ParseShortId(key.alias) == (if Strip(c.shortId) != [] then Strip(c.shortId) else []))
  {
    assert Strip([]) == [];
    hide ParseShortId, Strip;
    StripIsIdempotent(alertId);
    StripIsIdempotent(alias);
    ShortIdIsStripped(alias);
    if KeyOf(bot, alias) in t {
      StripIsIdempotent(t[KeyOf(bot, alias)].room);
      StripIsIdempotent(t[KeyOf(bot, alias)].sender);
    }
  }

  lemma StepKeepsRows(w: World, m: Move)
    requires RowsInv(w)
    ensures RowsInv(Step(w, m))
  {
    hide Strip, Recorded, ParseShortId, OrSomeone, RowMatches, Complete, AfterCreate, CreateFrom, ByAlert, ByAlias,
        Nonblank, UniqueIds, Links;
    match m.action
    case WritePending(p) =>
      if Complete(p) {
        PendingKeepsTable(w.table, w.writes, p);
        assert w.table.Keys <= AfterPending(w.table, p).Keys;
      }
    case ReadForCreate(bot, alertId, alias) => CreateFromHasRow(w.table, alertId, bot, alias);
    case Apply =>
      var pc := PcOf(w, m.who);
      if pc.Creating? {
        CreateOnlyLinks(w.table, pc.create);
        LinkKeepsTable(w.table, AfterCreate(w.table, pc.create).0, w.writes);
      }
    case _ =>
  }

  lemma LinkKeepsTable(t: Table, after: Table, writes: seq<Pending>)
    requires TableMatches(t, writes) && after.Keys == t.Keys
    requires forall k | k in t :: after[k].(alertId := None) == t[k].(alertId := None)
    ensures TableMatches(after, writes)
  {
    hide Strip, Recorded, OrSomeone, Complete;
    forall k | k in after ensures RowMatches(after[k], Recorded(writes, k).value) {
      assert RowMatches(t[k], Recorded(writes, k).value);
      assert after[k].(alertId := None) == t[k].(alertId := None);
    }
  }

  lemma {:induction false} RunKeepsRows(moves: seq<Move>)
    ensures RowsInv(Exec(moves))
  {
    hide Step, RowsInv;
    if moves == [] {
      assert RowsInv(START) by { StartHasRows(); }
    } else {
      RunKeepsRows(moves[..|moves| - 1]);
      StepKeepsRows(Exec(moves[..|moves| - 1]), moves[|moves| - 1]);
    }
  }

  lemma StartHasRows()
    ensures RowsInv(START)
  {
  }

  /** In every run, whatever ids the events carry: Create invents no row, and every row says what the last pending row
      under its own (bot, alias) said. */
  lemma CreateNeverInventsARow(moves: seq<Move>, k: Key)
    ensures var w := Exec(moves);
            && (k in w.table <==> Recorded(w.writes, k).Some?)
            && (k in w.table ==> RowMatches(w.table[k], Recorded(w.writes, k).value))
  {
    RunKeepsRows(moves);
  }

  /* ---------- what each operation writes ---------- */

  /** A complete pending row is stored stripped, "Someone" standing for a blank sender; it keeps an alert id linked
      before, and touches no other row. An incomplete one changes nothing. */
  lemma PendingWritesExactly(t: Table, p: Pending)
    ensures var after, key := AfterPending(t, p), KeyOf(p.bot, p.alias);
            if Strip(p.bot) == [] || Strip(p.alias) == [] || Strip(p.shortId) == [] || Strip(p.room) == []
                then after == t
            else
              && key in after && after[key].shortId == Strip(p.shortId) && after[key].room == Strip(p.room)
              && after[key].sender == (if Strip(p.sender) == [] then Lit("Someone") else Strip(p.sender))
              && after[key].alertId == (if key in t then t[key].alertId else None)
              && after.Keys == t.Keys + {key} && forall k | k in t && k != key :: after[k] == t[k]
  {
    hide Strip;
    assert SOMEONE == Lit("Someone");
  }

  /** A Create links its row iff the row is there and no other row has the id; it inserts one iff there is none, a
      room is brought and a short id is brought or to be read from the alias; it is refused iff another row has the
      id; otherwise it is skipped. Only a link or an insertion changes the table, and only that row. */
  lemma CreatesExactly(t: Table, c: Create)
    ensures var (after, outcome) := AfterCreate(t, c);
            var id, key := Strip(c.alertId), KeyOf(c.bot, c.alias);
            var complete := id != [] && key.bot != [] && key.alias != [];
            var short := if Strip(c.shortId) != [] then Strip(c.shortId) else ParseShortId(key.alias);
            var taken := exists k :: k in t && k != key && t[k].alertId == Some(id);
            && (outcome == Linked <==> complete && key in t && !taken)
            && (outcome == Inserted <==> complete && key !in t && Strip(c.room) != [] && short != [] && !taken)
            && (outcome == Conflict <==> complete && taken && (key in t || (Strip(c.room) != [] && short != [])))
            && (outcome == Linked ==> after == t[key := t[key].(alertId := Some(id))])
            && (outcome == Inserted ==>
                  var sender := if Strip(c.sender) == [] then Lit("Someone") else Strip(c.sender);
                  after == t[key := Row(short, Strip(c.room), sender, Some(id))])
            && (outcome == Skipped || outcome == Conflict ==> after == t)
  {
    hide Strip, ParseShortId;
    assert SOMEONE == Lit("Someone");
  }

  predicate IsDate(date: Str) {
    |date| == 8 && forall i | 0 <= i < 8 :: '0' as int <= date[i] <= '9' as int
  }

  predicate IsShort(short: Str) {
    |short| == 4 && forall i | 0 <= i < 4 ::
      'A' as int <= short[i] <= 'Z' as int || '2' as int <= short[i] <= '9' as int
  }

  lemma ShortIdOf(s: Str, date: Str, short: Str)
    requires s == Lit("THAUM-") + date + Lit("-") + short && IsDate(date) && IsShort(short)
    ensures Strip(s) == s && ParseShortId(s) == short
  {
    assert s[0] == 'T' as int && s[18] == short[3];
    StripKeeps(s);
    hide Strip;
    assert |s| == 19 && s[..6] == ALIAS_PREFIX && s[14] == HYPHEN && s[15..] == short;
    assert forall i | 6 <= i < 14 :: s[i] == date[i - 6];
    assert forall i | 15 <= i < 19 :: s[i] == short[i - 15];
  }

  /** The short id of an alias THAUM-<8 digits>-<4 characters> is those four characters, capitals or digits from 2
      on; any other alias has none. */
  lemma ShortIdsExactly(alias: Str, short: Str)
    ensures ParseShortId(alias) == short && short != [] <==>
              IsShort(short) && exists date :: IsDate(date) && Strip(alias) == Lit("THAUM-") + date + Lit("-") + short
  {
    if ParseShortId(alias) == short && short != [] {
      hide Strip;
      var s := Strip(alias);
      var date := s[6..14];
      assert s[..6] == Lit("THAUM-") && [s[14]] == Lit("-");
      assert s == s[..6] + date + [s[14]] + s[15..];
      assert IsDate(date);
    }
    if date :| IsDate(date) && IsShort(short) && Strip(alias) == Lit("THAUM-") + date + Lit("-") + short {
      ShortIdOf(Strip(alias), date, short);
    }
  }

  /** Once a Create has linked its row, a status event with that alert id reaches the row's room without any alias. */
  lemma LinkedRowReceives(w: World, c: Create, p: Pid, alias: Str)
    requires RowsInv(w) && AfterCreate(w.table, c).1 == Linked
    ensures var v := w.(table := AfterCreate(w.table, c).0);
            var key := KeyOf(c.bot, c.alias);
            && ByAlert(v.table, c.alertId, c.bot) == Some(key)
            && FirstRead(v, p, c.bot, c.alertId, alias).deliveries
               == w.deliveries
                  + [Delivery(c.bot, c.alertId, alias, Some(key), RoomRecorded(w.writes, key), |w.writes|, |w.writes|)]
  {
    hide Strip, ParseShortId, OrSomeone, Recorded, RoomRecorded, Nonblank, Complete;
    var after, key := AfterCreate(w.table, c).0, KeyOf(c.bot, c.alias);
    CreateOnlyLinks(w.table, c);
    LinkKeepsTable(w.table, after, w.writes);
    assert Links(after, c.alertId, c.bot, key);
    RowRoomIsRecorded(after, w.writes, key);
  }

  /* ---------- where status events go ---------- */

  /** The row that decides where an event goes: the one linked to its alert id, else its alias's own. */
  function Deciding(d: Delivery): Key {
    if d.linked.Some? then d.linked.value else KeyOf(d.bot, d.alias)
  }

  /** The event goes where the last pending row under the deciding key says, as of its resolving read; that row is of
      the event's own bot. */
  ghost predicate RoutedBy(writes: seq<Pending>, d: Delivery) {
    && d.started <= d.at <= |writes|
    && Deciding(d).bot == Strip(d.bot)
    && d.room == RoomRecorded(writes[..d.at], Deciding(d))
  }

  ghost predicate DeliveriesInv(w: World) {
    && (forall p | p in w.pcs && w.pcs[p].Resolving? :: w.pcs[p].started <= |w.writes|)
    && (forall i | 0 <= i < |w.deliveries| :: RoutedBy(w.writes, w.deliveries[i]))
  }

  /** The alert id of an event that has an alias determines that alias; several bots may receive the same event. */
  ghost predicate Consistent(aliasOf: Str -> Str, alertId: Str, bot: Str, alias: Str) {
    Strip(alertId) != [] && Strip(bot) != [] && Strip(alias) != [] ==> aliasOf(Strip(alertId)) == Strip(alias)
  }

  ghost predicate ConsistentMove(aliasOf: Str -> Str, m: Move) {
    match m.action
    case ReadForCreate(bot, alertId, alias) => Consistent(aliasOf, alertId, bot, alias)
    case ReadByAlert(bot, alertId, alias) => Consistent(aliasOf, alertId, bot, alias)
    case _ => true
  }

  ghost predicate LinksFollow(aliasOf: Str -> Str, t: Table) {
    forall k | k in t && t[k].alertId.Some? :: aliasOf(t[k].alertId.value) == k.alias
  }

  ghost predicate CreateFollows(aliasOf: Str -> Str, pc: Pc) {
    pc.Creating? ==> Consistent(aliasOf, pc.create.alertId, pc.create.bot, pc.create.alias)
  }

  /** The linked row, if any, is the alias's own. */
  ghost predicate LinkedToOwn(d: Delivery) {
    Strip(d.alias) != [] ==> Deciding(d) == KeyOf(d.bot, d.alias)
  }

  ghost predicate PairingInv(aliasOf: Str -> Str, w: World) {
    && LinksFollow(aliasOf, w.table)
    && (forall p | p in w.pcs :: CreateFollows(aliasOf, w.pcs[p]))
    && (forall i | 0 <= i < |w.deliveries| :: LinkedToOwn(w.deliveries[i]))
  }

  /** A row's room is the recorded one, and it is never blank. */
  lemma RowRoomIsRecorded(t: Table, writes: seq<Pending>, k: Key)
    requires TableMatches(t, writes) && k in t
    ensures Nonblank(t[k].room) == RoomRecorded(writes, k) && RoomRecorded(writes, k).Some?
    ensures k.bot != [] && k.alias != []
  {
    hide Strip, OrSomeone, Recorded;
    RecordedIsComplete(writes, k);
    StripIsIdempotent(Recorded(writes, k).value.room);
  }

  lemma AliasRoomIsRecorded(t: Table, writes: seq<Pending>, alias: Str, bot: Str)
    requires TableMatches(t, writes)
    ensures var own := ByAlias(t, alias, bot);
            (if own.Some? then Nonblank(own.value.room) else None) == RoomRecorded(writes, KeyOf(bot, alias))
  {
    hide Strip, OrSomeone, Recorded, Nonblank;
    var key := KeyOf(bot, alias);
    if key in t {
      RowRoomIsRecorded(t, writes, key);
    }
  }

  /** Both reads of a status event resolve to what the deciding row's last pending row says. */
  lemma ReadsAreRouted(w: World, p: Pid, bot: Str, alertId: Str, alias: Str, started: nat)
    requires RowsInv(w) && DeliveriesInv(w) && started <= |w.writes|
    ensures DeliveriesInv(FirstRead(w, p, bot, alertId, alias))
    ensures DeliveriesInv(SecondRead(w, p, bot, alertId, alias, started))
  {
    hide Strip, OrSomeone, Recorded, Nonblank, RowMatches, RoomRecorded, UniqueIds, CreatesHaveRows;
    assert w.writes[..|w.writes|] == w.writes;
    var found := ByAlert(w.table, alertId, bot);
    if found.Some? {
      RowRoomIsRecorded(w.table, w.writes, found.value);
    }
    AliasRoomIsRecorded(w.table, w.writes, alias, bot);
  }

  lemma WritesKeepDelivery(writes: seq<Pending>, p: Pending, d: Delivery)
    requires RoutedBy(writes, d)
    ensures RoutedBy(writes + [p], d)
  {
    hide Strip, Recorded;
    assert (writes + [p])[..d.at] == writes[..d.at];
  }

  lemma StepKeepsDeliveries(w: World, m: Move)
    requires RowsInv(w) && DeliveriesInv(w)
    ensures DeliveriesInv(Step(w, m))
  {
    hide RowsInv, RoutedBy, FirstRead, SecondRead, AfterPending, AfterCreate, CreateFrom, Strip, Complete;
    match m.action
    case WritePending(p) =>
      forall i | 0 <= i < |w.deliveries| ensures RoutedBy(w.writes + [p], w.deliveries[i]) {
        WritesKeepDelivery(w.writes, p, w.deliveries[i]);
      }
    case ReadByAlert(bot, alertId, alias) => ReadsAreRouted(w, m.who, bot, alertId, alias, 0);
    case ReadByAlias =>
      var pc := PcOf(w, m.who);
      if pc.Resolving? {
        ReadsAreRouted(w, m.who, pc.bot, pc.alertId, pc.alias, pc.started);
      }
    case _ =>
  }

  /** With consistent ids, the row found by alert id and bot is the alias's own. */
  lemma ReadsFindOwnRow(aliasOf: Str -> Str, w: World, p: Pid, bot: Str, alertId: Str, alias: Str, started: nat)
    requires RowsInv(w) && PairingInv(aliasOf, w)
    ensures Consistent(aliasOf, alertId, bot, alias) ==> PairingInv(aliasOf, FirstRead(w, p, bot, alertId, alias))
    ensures PairingInv(aliasOf, SecondRead(w, p, bot, alertId, alias, started))
  {
    hide Strip, OrSomeone, Recorded, Nonblank, RowMatches, RoomRecorded, UniqueIds, CreatesHaveRows;
    var found := ByAlert(w.table, alertId, bot);
    if found.Some? {
      RowRoomIsRecorded(w.table, w.writes, found.value);
      assert aliasOf(Strip(alertId)) == found.value.alias;
    }
  }

  lemma CreateKeepsLinks(aliasOf: Str -> Str, t: Table, c: Create)
    requires LinksFollow(aliasOf, t) && Consistent(aliasOf, c.alertId, c.bot, c.alias)
    ensures LinksFollow(aliasOf, AfterCreate(t, c).0)
  {
    hide Strip, OrSomeone, ParseShortId;
  }

  lemma CreateFromIsConsistent(aliasOf: Str -> Str, t: Table, alertId: Str, bot: Str, alias: Str)
    requires Consistent(aliasOf, alertId, bot, alias)
    ensures var c := CreateFrom(t, alertId, bot, alias); Consistent(aliasOf, c.alertId, c.bot, c.alias)
  {
    hide Strip, ParseShortId, OrSomeone;
    StripIsIdempotent(alertId);
    StripIsIdempotent(alias);
  }

  lemma StepKeepsPairing(aliasOf: Str -> Str, w: World, m: Move)
    requires RowsInv(w) && PairingInv(aliasOf, w) && ConsistentMove(aliasOf, m)
    ensures PairingInv(aliasOf, Step(w, m))
  {
    hide RowsInv, LinkedToOwn, FirstRead, SecondRead, AfterPending, AfterCreate, CreateFrom, Strip, Complete,
        Consistent;
    var pc := PcOf(w, m.who);
    match m.action
    case WritePending(p) =>
      if Complete(p) {
        PendingKeepsLinks(aliasOf, w, p);
      }
    case ReadForCreate(bot, alertId, alias) => CreateFromIsConsistent(aliasOf, w.table, alertId, bot, alias);
    case Apply =>
      if pc.Creating? {
        CreateKeepsLinks(aliasOf, w.table, pc.create);
      }
    case ReadByAlert(bot, alertId, alias) => ReadsFindOwnRow(aliasOf, w, m.who, bot, alertId, alias, 0);
    case ReadByAlias =>
      if pc.Resolving? {
        ReadsFindOwnRow(aliasOf, w, m.who, pc.bot, pc.alertId, pc.alias, pc.started);
      }
    case Crash =>
  }

  lemma PendingKeepsLinks(aliasOf: Str -> Str, w: World, p: Pending)
    requires RowsInv(w) && LinksFollow(aliasOf, w.table) && Complete(p)
    ensures LinksFollow(aliasOf, AfterPending(w.table, p))
  {
    hide Strip, Recorded, OrSomeone, CreatesHaveRows;
    PendingKeepsTable(w.table, w.writes, p);
  }

  lemma {:induction false} RunKeepsDeliveries(moves: seq<Move>)
    ensures RowsInv(Exec(moves)) && DeliveriesInv(Exec(moves))
  {
    hide Step, RowsInv, RoutedBy;
    RunKeepsRows(moves);
    if moves != [] {
      RunKeepsDeliveries(moves[..|moves| - 1]);
      StepKeepsDeliveries(Exec(moves[..|moves| - 1]), moves[|moves| - 1]);
    }
  }

  lemma {:induction false} RunKeepsPairing(aliasOf: Str -> Str, moves: seq<Move>)
    requires forall i | 0 <= i < |moves| :: ConsistentMove(aliasOf, moves[i])
    ensures PairingInv(aliasOf, Exec(moves))
  {
    hide Step, RowsInv, LinkedToOwn, ConsistentMove, CreateFollows;
    if moves != [] {
      var n := |moves| - 1;
      RunKeepsPairing(aliasOf, moves[..n]);
      RunKeepsRows(moves[..n]);
      StepKeepsPairing(aliasOf, Exec(moves[..n]), moves[n]);
    }
  }

  /* ---------- main results ---------- */

  /** In every run, with any events at all, no event reaches another bot's room. */
  lemma NoEventReachesAnotherBot(moves: seq<Move>, i: nat)
    requires i < |Exec(moves).deliveries|
    ensures var w := Exec(moves);
            var d := w.deliveries[i];
            d.room.Some? ==>
              exists j :: 0 <= j < d.at <= |w.writes| && Strip(w.writes[j].bot) == Strip(d.bot)
                          && Some(Strip(w.writes[j].room)) == d.room
  {
    hide Strip, Step;
    RunKeepsDeliveries(moves);
    var w := Exec(moves);
    var d := w.deliveries[i];
    assert RoutedBy(w.writes, d);
    if d.room.Some? {
      var j := RecordedIsWritten(w.writes[..d.at], Deciding(d));
      assert w.writes[..d.at][j] == w.writes[j];
    }
  }

  /** The exact routing condition, in every run with any events: an event goes where its own pending row says, as of its
      resolving read, if and only if its first read found no row linked to its alert id and bot, or the linked row
      records that same room. */
  lemma OwnRoomExactly(moves: seq<Move>, i: nat)
    requires i < |Exec(moves).deliveries|
    ensures var w := Exec(moves);
            var d := w.deliveries[i];
            && d.started <= d.at <= |w.writes|
            && var own := RoomRecorded(w.writes[..d.at], KeyOf(d.bot, d.alias));
               d.room == own <==> d.linked.None? || RoomRecorded(w.writes[..d.at], d.linked.value) == own
  {
    hide Strip, Step, RoomRecorded;
    RunKeepsDeliveries(moves);
    assert RoutedBy(Exec(moves).writes, Exec(moves).deliveries[i]);
  }

  lemma {:induction false} RecordedIsWritten(writes: seq<Pending>, key: Key) returns (j: nat)
    requires Recorded(writes, key).Some?
    ensures j < |writes| && writes[j] == Recorded(writes, key).value && KeyOf(writes[j].bot, writes[j].alias) == key
  {
    var n := |writes| - 1;
    if KeyOf(writes[n].bot, writes[n].alias) == key {
      j := n;
    } else {
      j := RecordedIsWritten(writes[..n], key);
    }
  }

  /** In every run with consistent ids, a status event that carries its alias goes to the room that the alias's own
      last pending row recorded, at a moment between its arrival and its delivery; to none exactly if there was no
      such row. */
  lemma StatusReachesOwnRoom(aliasOf: Str -> Str, moves: seq<Move>, i: nat)
    requires forall k | 0 <= k < |moves| :: ConsistentMove(aliasOf, moves[k])
    requires i < |Exec(moves).deliveries| && Strip(Exec(moves).deliveries[i].alias) != []
    ensures var w := Exec(moves);
            var d := w.deliveries[i];
            d.started <= d.at <= |w.writes| && d.room == RoomRecorded(w.writes[..d.at], KeyOf(d.bot, d.alias))
  {
    hide Strip, Step, ConsistentMove;
    RunKeepsPairing(aliasOf, moves);
    RunKeepsDeliveries(moves);
    var d := Exec(moves).deliveries[i];
    assert RoutedBy(Exec(moves).writes, d) && LinkedToOwn(d);
  }

  lemma {:induction false} OneWriteRecords(writes: seq<Pending>, key: Key, j: nat, at: nat)
    requires j < |writes| && KeyOf(writes[j].bot, writes[j].alias) == key && at <= |writes|
    requires forall k | 0 <= k < |writes| && k != j :: KeyOf(writes[k].bot, writes[k].alias) != key
    ensures Recorded(writes[..at], key) == if j < at then Some(writes[j]) else None
    decreases at
  {
    hide Strip;
    if at > 0 {
      OneWriteRecords(writes, key, j, at - 1);
      assert writes[..at][..at - 1] == writes[..at - 1];
    }
  }

  /** With distinct aliases: an event that arrives after its pending row always goes to that row's room, whether Create
      came before, between or never; one that is resolved before the row is written goes nowhere. */
  lemma DistinctAliasRouting(aliasOf: Str -> Str, moves: seq<Move>, i: nat, j: nat)
    requires forall k | 0 <= k < |moves| :: ConsistentMove(aliasOf, moves[k])
    requires var w := Exec(moves);
             && i < |w.deliveries| && j < |w.writes| && Strip(w.deliveries[i].alias) != []
             && KeyOf(w.writes[j].bot, w.writes[j].alias) == KeyOf(w.deliveries[i].bot, w.deliveries[i].alias)
             && forall k | 0 <= k < |w.writes| && k != j ::
                  KeyOf(w.writes[k].bot, w.writes[k].alias) != KeyOf(w.writes[j].bot, w.writes[j].alias)
    ensures var w := Exec(moves);
            var d := w.deliveries[i];
            && (j < d.started ==> d.room == Some(Strip(w.writes[j].room)))
            && (d.at <= j ==> d.room == None)
            && (d.room.Some? ==> d.room.value == Strip(w.writes[j].room))
  {
    hide Strip, Step, ConsistentMove;
    StatusReachesOwnRoom(aliasOf, moves, i);
    var w := Exec(moves);
    OneWriteRecords(w.writes, KeyOf(w.writes[j].bot, w.writes[j].alias), j, w.deliveries[i].at);
  }

  /* ---------- the unique alert id ---------- */

  /** The alert id of a Create determines both the bot and the alias. */
  ghost predicate NamesKey(keyOf: Str -> Key, alertId: Str, bot: Str, alias: Str) {
    Strip(alertId) != [] && Strip(bot) != [] && Strip(alias) != [] ==> keyOf(Strip(alertId)) == KeyOf(bot, alias)
  }

  ghost predicate CreateNamesKey(keyOf: Str -> Key, m: Move) {
    m.action.ReadForCreate? ==> NamesKey(keyOf, m.action.alertId, m.action.bot, m.action.alias)
  }

  ghost predicate KeysInv(keyOf: Str -> Key, w: World) {
    && (forall k | k in w.table && w.table[k].alertId.Some? :: keyOf(w.table[k].alertId.value) == k)
    && (forall p | p in w.pcs && w.pcs[p].Creating? ::
          NamesKey(keyOf, w.pcs[p].create.alertId, w.pcs[p].create.bot, w.pcs[p].create.alias))
  }

  lemma StepKeepsKeys(keyOf: Str -> Key, w: World, m: Move)
    requires RowsInv(w) && KeysInv(keyOf, w) && CreateNamesKey(keyOf, m)
    ensures KeysInv(keyOf, Step(w, m))
  {
    hide RowsInv, Strip, ParseShortId, OrSomeone, Complete, ByAlert, Nonblank, ByAlias;
    match m.action
    case ReadForCreate(bot, alertId, alias) =>
      CreateFromHasRow(w.table, alertId, bot, alias);
      StripIsIdempotent(alias);
    case WritePending(p) =>
      if Complete(p) {
        hide AfterPending;
        PendingKeepsIds(w, p);
      }
    case _ =>
  }

  lemma PendingKeepsIds(w: World, p: Pending)
    requires RowsInv(w) && Complete(p)
    ensures var after := AfterPending(w.table, p);
            forall k | k in after && after[k].alertId.Some? :: k in w.table && w.table[k].alertId == after[k].alertId
  {
    hide Strip, Recorded, OrSomeone, CreatesHaveRows;
    PendingKeepsTable(w.table, w.writes, p);
  }

  lemma {:induction false} RunKeepsKeys(keyOf: Str -> Key, moves: seq<Move>)
    requires forall i | 0 <= i < |moves| :: CreateNamesKey(keyOf, moves[i])
    ensures KeysInv(keyOf, Exec(moves))
  {
    hide Step, RowsInv, CreateNamesKey, NamesKey;
    if moves != [] {
      var n := |moves| - 1;
      RunKeepsKeys(keyOf, moves[..n]);
      RunKeepsRows(moves[..n]);
      StepKeepsKeys(keyOf, Exec(moves[..n]), moves[n]);
    }
  }

  /** In every run whose Create ids determine bot and alias, no Create is ever refused by the unique constraint. */
  lemma CreateNeverConflicts(keyOf: Str -> Key, moves: seq<Move>, p: Pid)
    requires forall i | 0 <= i < |moves| :: CreateNamesKey(keyOf, moves[i])
    ensures var w := Exec(moves);
            PcOf(w, p).Creating? ==> AfterCreate(w.table, PcOf(w, p).create).1 != Conflict
  {
    hide Step, Strip, ParseShortId, OrSomeone, CreateNamesKey;
    RunKeepsKeys(keyOf, moves);
  }

  /* ---------- a mispaired id ---------- */

  const BOT: Str := [0x62]
  const ALIAS1: Str := [0x41]
  const ALIAS2: Str := [0x42]
  const ROOM1: Str := [0x31]
  const ROOM2: Str := [0x32]
  const ID: Str := [0x69]

  lemma PlainStrips(c: CodePoint)
    requires 0x31 <= c <= 0x7A
    ensures Strip([c]) == [c]
  {
    StripKeeps([c]);
  }

  lemma SamplesStrip()
    ensures Strip(BOT) == BOT && Strip(ALIAS1) == ALIAS1 && Strip(ALIAS2) == ALIAS2
    ensures Strip(ROOM1) == ROOM1 && Strip(ROOM2) == ROOM2 && Strip(ID) == ID
  {
    hide Strip;
    PlainStrips(0x62);
    PlainStrips(0x41);
    PlainStrips(0x42);
    PlainStrips(0x31);
    PlainStrips(0x32);
    PlainStrips(0x69);
  }

  const FIRST := Pending(BOT, ALIAS1, ID, ROOM1, ID)
  const SECOND := Pending(BOT, ALIAS2, ID, ROOM2, ID)
  const KEY1 := Key(BOT, ALIAS1)
  const KEY2 := Key(BOT, ALIAS2)

  /** Two pending rows of one bot, the first linked to `id` or not yet. */
  function SampleTable(id: Option<Str>): Table {
    map[KEY1 := Row(ID, ROOM1, ID, id), KEY2 := Row(ID, ROOM2, ID, None)]
  }

  lemma LastStep(moves: seq<Move>, m: Move)
    ensures Exec(moves + [m]) == Step(Exec(moves), m)
  {
    assert (moves + [m])[..|moves|] == moves;
  }

  lemma SampleWrites()
    ensures Exec([Move(0, WritePending(FIRST))] + [Move(0, WritePending(SECOND))])
        == World(SampleTable(None), map[], [FIRST, SECOND], [])
  {
    hide Strip, ParseShortId;
    SamplesStrip();
    LastStep([], Move(0, WritePending(FIRST)));
    assert [] + [Move(0, WritePending(FIRST))] == [Move(0, WritePending(FIRST))];
    assert Exec([Move(0, WritePending(FIRST))]).table == map[KEY1 := Row(ID, ROOM1, ID, None)];
    LastStep([Move(0, WritePending(FIRST))], Move(0, WritePending(SECOND)));
  }

  lemma SampleCreate(w: World)
    requires w == World(SampleTable(None), map[], [FIRST, SECOND], [])
    ensures var v := Step(Step(w, Move(0, ReadForCreate(BOT, ID, ALIAS1))), Move(0, Apply));
            v.table == SampleTable(Some(ID)) && v.writes == w.writes && v.deliveries == [] && PcOf(v, 0) == Idle
  {
    hide Strip, ParseShortId, OrSomeone;
    SamplesStrip();
    var c := CreateFrom(w.table, ID, BOT, ALIAS1);
    assert KeyOf(c.bot, c.alias) == KEY1 && Strip(c.alertId) == ID;
    assert !IdTaken(w.table, KEY1, ID);
    assert AfterCreate(w.table, c).0 == SampleTable(Some(ID));
  }

  /** Without the pairing the promise fails: an alert id linked to one alias, then reported under another,
      goes to the first alias's room. */
  lemma MispairedIdGoesAstray()
    ensures exists moves: seq<Move> ::
              var w := Exec(moves);
              && |w.deliveries| == 1 && Strip(w.deliveries[0].alias) != []
              && w.deliveries[0].room.Some?
              && w.deliveries[0].room != RoomRecorded(w.writes, KeyOf(w.deliveries[0].bot, w.deliveries[0].alias))
  {
    hide Strip, ParseShortId, Exec, AfterCreate, CreateFrom, AfterPending;
    SamplesStrip();
    SampleWrites();
    var m1 := [Move(0, WritePending(FIRST))] + [Move(0, WritePending(SECOND))];
    var m2 := m1 + [Move(0, ReadForCreate(BOT, ID, ALIAS1))];
    var m3 := m2 + [Move(0, Apply)];
    LastStep(m1, Move(0, ReadForCreate(BOT, ID, ALIAS1)));
    LastStep(m2, Move(0, Apply));
    SampleCreate(Exec(m1));
    var w := Exec(m3);
    assert Links(w.table, ID, BOT, KEY1);
    LastStep(m3, Move(0, ReadByAlert(BOT, ID, ALIAS2)));
    assert Recorded(w.writes, KEY2) == Some(SECOND);
    assert Exec(m3 + [Move(0, ReadByAlert(BOT, ID, ALIAS2))]).deliveries
        == [Delivery(BOT, ID, ALIAS2, Some(KEY1), Some(ROOM1), 2, 2)];
  }
}
