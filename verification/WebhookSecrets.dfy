/** The shared per-bot HMAC secret and its catch-up re-encryption (thaum/bot_webhook_state.py). */
module WebhookSecrets {
  import opened Prelude
  import Text
  import opened Vault

  type BotKey = string

  /** A stored `secret_enc`: blank, text that does not parse as an encrypted field, or a ciphertext
      naming its key id; symbolically it also records the data key and the plaintext it was made from. */
  datatype Cell = Blank | Garbled(text: string) | Enc(keyId: KeyId, dek: Dek, plain: string)

  type Rows = map<BotKey, Cell>

  const LAST_ATTEMPT := 3

  /** Nothing is left of the bot key after `strip`. */
  predicate IsBlank(bot: BotKey) {
    forall i | 0 <= i < |bot| :: Text.IsSpace(bot[i] as int)
  }

  function Seal(key: WriteKey, plain: string): Cell {
    Enc(key.keyId, key.dek, plain)
  }

  /** Decryption with the key record the ciphertext names. */
  function Open(keys: Keys, cell: Cell): Option<string> {
    if cell.Enc? && cell.keyId in keys.deks && keys.deks[cell.keyId].dek == cell.dek then Some(cell.plain) else None
  }

  /** Ciphertext that names another key than the active one and can be decrypted. */
  predicate Stale(keys: Keys, cell: Cell, active: KeyId) {
    cell.Enc? && cell.keyId != active && Open(keys, cell).Some?
  }

  function StaleIn(keys: Keys, rows: Rows, window: set<BotKey>, active: KeyId): set<BotKey> {
    set b | b in window && b in rows && Stale(keys, rows[b], active)
  }

  /** The table after one catch-up tick over `window` in a process that writes with `key`. */
  function ReEncrypted(keys: Keys, rows: Rows, window: set<BotKey>, active: KeyId, key: WriteKey): Rows {
    map b | b in rows :: if b in window && Stale(keys, rows[b], active)
        then Seal(key, Open(keys, rows[b]).value)
        else rows[b]
  }

  ghost predicate KnownKey(keys: Keys, key: WriteKey) {
    key.keyId in keys.deks && keys.deks[key.keyId].dek == key.dek
  }

  /** Catch-up never changes a plaintext, and touches nothing but the stale rows of its window. */
  lemma CatchUpPreservesPlaintext(keys: Keys, rows: Rows, window: set<BotKey>, active: KeyId, key: WriteKey)
    requires KnownKey(keys, key)
    ensures var after := ReEncrypted(keys, rows, window, active, key);
            && after.Keys == rows.Keys
            && (forall b | b in rows :: Open(keys, after[b]) == Open(keys, rows[b]))
            && (forall b | b in rows && b !in StaleIn(keys, rows, window, active) :: after[b] == rows[b])
  {
  }

  /** Writing with the active key, one tick leaves no stale row in its window, stale rows elsewhere stay stale,
      and a second tick over the same window changes nothing. */
  lemma CatchUpConverges(keys: Keys, rows: Rows, window: set<BotKey>, key: WriteKey)
    requires KnownKey(keys, key)
    ensures var after := ReEncrypted(keys, rows, window, key.keyId, key);
            && StaleIn(keys, after, window, key.keyId) == {}
            && StaleIn(keys, after, rows.Keys, key.keyId) == StaleIn(keys, rows, rows.Keys, key.keyId) - window
            && ReEncrypted(keys, after, window, key.keyId, key) == after
            && (forall b | b in window && b in rows && Open(keys, rows[b]).Some? ::
                  after[b] == Enc(key.keyId, key.dek, rows[b].plain))
  {
  }

  predicate NoDuplicates(window: seq<BotKey>) {
    forall i, j | 0 <= i < j < |window| :: window[i] != window[j]
  }

  function Elements(window: seq<BotKey>): set<BotKey> {
    set b | b in window
  }

  /** What one worker may rely on about the others between two of its own transactions. */
  ghost predicate OthersRespect(keys: Keys, before: Rows, after: Rows) {
    && before.Keys <= after.Keys
    && (forall b | b in before :: Open(keys, after[b]) == Open(keys, before[b]))
    && ((forall b | b in before :: Open(keys, before[b]).Some?) ==> forall b | b in after :: Open(keys, after[b]).Some?)
  }

  type Interference = (nat, Rows) -> Rows

  /** The table a worker finds in its n-th transaction when it has written nothing itself. */
  function Seen(others: Interference, rows: Rows, n: nat): Rows {
    others(n, if n == 0 then rows else Seen(others, rows, n - 1))
  }

  /** The (bot, plaintext) pairs the batch collects from its window before it rewrites any row. */
  function PendingIn(keys: Keys, rows: Rows, window: seq<BotKey>, active: KeyId): seq<(BotKey, string)>
    requires forall b | b in window :: b in rows
  {
    if window == [] then []
    else
      var bot := window[|window| - 1];
      PendingIn(keys, rows, window[..|window| - 1], active)
      + if Stale(keys, rows[bot], active) then [(bot, Open(keys, rows[bot]).value)] else []
  }

  function Rewritten(rows: Rows, pending: seq<(BotKey, string)>, key: WriteKey): Rows {
    if pending == [] then rows
    else
      var last := pending[|pending| - 1];
      Rewritten(rows, pending[..|pending| - 1], key)[last.0 := Seal(key, last.1)]
  }

  lemma OneMoreRow(keys: Keys, rows: Rows, window: set<BotKey>, bot: BotKey, active: KeyId, key: WriteKey)
    requires bot in rows && bot !in window
    ensures var without := ReEncrypted(keys, rows, window, active, key);
            ReEncrypted(keys, rows, window + {bot}, active, key)
            == if Stale(keys, rows[bot], active)
                then without[bot := Seal(key, Open(keys, rows[bot]).value)]
                else without
    ensures |StaleIn(keys, rows, window + {bot}, active)|
            == |StaleIn(keys, rows, window, active)| + if Stale(keys, rows[bot], active) then 1 else 0
  {
    var stale := StaleIn(keys, rows, window, active);
    assert StaleIn(keys, rows, window + {bot}, active) == stale + if Stale(keys, rows[bot], active) then {bot} else {};
  }

  lemma {:induction false} BatchMeaning(keys: Keys, rows: Rows, window: seq<BotKey>, active: KeyId, key: WriteKey)
    requires NoDuplicates(window) && forall b | b in window :: b in rows
    ensures var pending := PendingIn(keys, rows, window, active);
            && Rewritten(rows, pending, key) == ReEncrypted(keys, rows, Elements(window), active, key)
            && |pending| == |StaleIn(keys, rows, Elements(window), active)|
  {
    if window != [] {
      var shorter, bot := window[..|window| - 1], window[|window| - 1];
      BatchMeaning(keys, rows, shorter, active, key);
      OneMoreRow(keys, rows, Elements(shorter), bot, active, key);
      assert Elements(window) == Elements(shorter) + {bot};
      var before, pending := PendingIn(keys, rows, shorter, active), PendingIn(keys, rows, window, active);
      if Stale(keys, rows[bot], active) {
        assert pending[..|pending| - 1] == before;
      } else {
        assert pending == before;
      }
    } else {
      assert StaleIn(keys, rows, Elements(window), active) == {};
    }
  }

  /** Table `bot_webhook_hmac`. */
  class SecretTable {
    var rows: Rows

    constructor ()
      ensures rows == map[]
    {
      rows := map[];
    }

    /** `re_encrypt_stale_bot_webhook_hmac_batch`; `window` is the row order the LIMIT query happened to return. */
    method ReEncryptStale(keys: Keys, active: KeyId, key: WriteKey, batchLimit: int, window: seq<BotKey>)
        returns (updated: nat)
      requires NoDuplicates(window) && forall b | b in window :: b in rows
      requires |window| == if batchLimit <= 0 then 0 else if batchLimit < |rows| then batchLimit else |rows|
      modifies this
      ensures rows == ReEncrypted(keys, old(rows), Elements(window), active, key)
      ensures updated == |StaleIn(keys, old(rows), Elements(window), active)|
    {
      updated := 0;
      if batchLimit <= 0 {
        return;
      }
      var pending: seq<(BotKey, string)> := [];
      for i := 0 to |window|
        invariant pending == PendingIn(keys, rows, window[..i], active)
      {
        assert window[..i + 1][..i] == window[..i];
        var cell := rows[window[i]];
        if cell.Enc? && cell.keyId != active {
          var plain := Open(keys, cell);
          if plain.Some? {
            pending := pending + [(window[i], plain.value)];
          }
        }
      }
      assert window[..|window|] == window;
      for i := 0 to |pending|
        invariant updated == i && rows == Rewritten(old(rows), pending[..i], key)
      {
        assert pending[..i + 1][..i] == pending[..i];
        rows := rows[pending[i].0 := Seal(key, pending[i].1)];
        updated := updated + 1;
      }
      assert pending[..|pending|] == pending;
      BatchMeaning(keys, old(rows), window, active, key);
    }

    /** `ensure_bot_webhook_hmac_secret`. `others(n, t)` is the table other workers leave after acting on `t` before
        this worker's n-th transaction; they add rows and re-encrypt them, but never remove one or change its
        plaintext. A row found answers with its plaintext; if none is found, not even when the first candidate is to be
        inserted, that candidate is stored and returned; if one has appeared in between, its plaintext is returned. */
    method EnsureSecret(keys: Keys, bot: BotKey, key: WriteKey, candidates: nat -> string, others: Interference)
      returns (secret: Result<string, string>)
      requires KnownKey(keys, key) && forall b | b in rows :: Open(keys, rows[b]).Some?
      requires forall n: nat, t: Rows :: OthersRespect(keys, t, others(n, t))
      modifies this
      ensures IsBlank(bot) ==> secret.Err? && rows == old(rows)
      ensures !IsBlank(bot) ==> secret.Ok? && bot in rows && Open(keys, rows[bot]) == Some(secret.value)
      ensures OthersRespect(keys, old(rows), rows)
      ensures !IsBlank(bot) && bot in Seen(others, old(rows), 0) ==>
                && rows == Seen(others, old(rows), 0)
                && (bot in old(rows) ==> Open(keys, old(rows)[bot]) == Some(secret.value))
      ensures !IsBlank(bot) && bot !in Seen(others, old(rows), 1) ==>
                && secret == Ok(candidates(0))
                && rows == Seen(others, old(rows), 1)[bot := Enc(key.keyId, key.dek, candidates(0))]
      ensures !IsBlank(bot) && bot in Seen(others, old(rows), 1) ==>
                Open(keys, Seen(others, old(rows), 1)[bot]) == Some(secret.value)
    {
      if IsBlank(bot) {
        return Err("bot_key must be non-empty so HMAC secrets are not shared across bots");
      }
      assert OthersRespect(keys, old(rows), Seen(others, old(rows), 0));
      assert OthersRespect(keys, Seen(others, old(rows), 0), Seen(others, old(rows), 1));
      var turn := 0;
      var attempt := 0;
      while attempt < LAST_ATTEMPT
        invariant 0 <= attempt <= LAST_ATTEMPT
        invariant attempt == 0 ==> turn == 0 && rows == old(rows)
        invariant attempt > 0 ==>
                    && bot in rows && bot !in Seen(others, old(rows), 0) && bot in Seen(others, old(rows), 1)
                    && Open(keys, rows[bot]) == Open(keys, Seen(others, old(rows), 1)[bot])
        invariant forall b | b in rows :: Open(keys, rows[b]).Some?
        invariant OthersRespect(keys, old(rows), rows)
      {
        rows := others(turn, rows);
        if bot in rows {
          return Ok(Open(keys, rows[bot]).value);
        }
        rows := others(turn + 1, rows);
        if bot !in rows {
          rows := rows[bot := Seal(key, candidates(attempt))];
          return Ok(candidates(attempt));
        }
        turn, attempt := turn + 2, attempt + 1;
      }
      rows := others(turn, rows);
      if bot !in rows {
        return Err("failed to ensure BotWebhookHmac");
      }
      return Ok(Open(keys, rows[bot]).value);
    }
  }

  const CATCHUP_BATCH := 50

  /** One tick of the leader's catch-up task, wiring the process first when needed; counts the rows it rewrote. */
  method ProgressiveReEncrypt(crypto: ProcessCrypto, tables: KeyTables, secrets: SecretTable, pass: string,
      window: seq<BotKey>)
    returns (result: Result<nat, KeyError>)
    requires crypto.Valid()
    requires NoDuplicates(window) && forall b | b in window :: b in secrets.rows
    requires |window| == if 50 < |secrets.rows| then 50 else |secrets.rows|
    modifies crypto, secrets
    ensures crypto.Valid()
    ensures old(crypto.ready) ==> crypto.ready && crypto.writeKey == old(crypto.writeKey)
    ensures !old(crypto.ready) && pass != "" ==>
              if WireKey(tables.keys, pass).Err? then result == Err(WireKey(tables.keys, pass).error)
              else crypto.writeKey == Some(WireKey(tables.keys, pass).value)
    ensures pass == "" ==> result == Ok(0)
    ensures pass != "" && (old(crypto.ready) || WireKey(tables.keys, pass).Ok?) ==>
              (result.Ok? <==> |ActiveIds(tables.keys)| <= 1) && (result.Err? ==> result.error == ManyActiveDeks)
    ensures result.Err? || pass == "" ==> secrets.rows == old(secrets.rows)
    ensures result.Ok? && pass != "" && ActiveIds(tables.keys) == {} ==>
        result == Ok(0) && secrets.rows == old(secrets.rows)
    ensures result.Ok? && pass != "" && ActiveIds(tables.keys) != {} ==>
              && crypto.ready && ActiveDek(tables.keys).Ok? && ActiveDek(tables.keys).value.Some?
              && var active := ActiveDek(tables.keys).value.value;
                 && result.value == |StaleIn(tables.keys, old(secrets.rows), Elements(window), active)|
                 && secrets.rows == ReEncrypted(tables.keys, old(secrets.rows), Elements(window), active,
                     crypto.writeKey.value)
  {
    hide WireKey, ReEncrypted, StaleIn, NoDuplicates;
    if !crypto.ready {
      var wired := crypto.WireDatabaseCrypto(tables, pass);
      if wired.Err? {
        return Err(wired.error);
      }
      if !crypto.ready {
        return Ok(0);
      }
    }
    if pass == "" {
      return Ok(0);
    }
    var active := ActiveDek(tables.keys);
    if active.Err? {
      return Err(active.error);
    }
    if active.value.None? {
      return Ok(0);
    }
    var n := secrets.ReEncryptStale(tables.keys, active.value.value, crypto.writeKey.value, CATCHUP_BATCH, window);
    return Ok(n);
  }

  /* ---------- ticks after ticks ---------- */

  /** What one tick does to staleness, with whichever known key the process writes: with the active one it clears its
      window, with any other it clears nothing and will rewrite the same rows again. */
  lemma TickStaleness(keys: Keys, rows: Rows, window: set<BotKey>, active: KeyId, key: WriteKey)
    requires KnownKey(keys, key)
    ensures var after := ReEncrypted(keys, rows, window, active, key);
            StaleIn(keys, after, rows.Keys, active)
            == if key.keyId == active
                then StaleIn(keys, rows, rows.Keys, active) - window
                else StaleIn(keys, rows, rows.Keys, active)
    ensures key.keyId != active ==>
              StaleIn(keys, ReEncrypted(keys, rows, window, active, key), window, active)
                  == StaleIn(keys, rows, window, active)
  {
    hide KnownKey;
    forall b | b in rows
      ensures var after := ReEncrypted(keys, rows, window, active, key);
              Stale(keys, after[b], active) <==> Stale(keys, rows[b], active) && !(key.keyId == active && b in window)
    {
      if Stale(keys, rows[b], active) {
        CellStaleness(keys, rows[b], active, key);
      }
    }
  }

  lemma CellStaleness(keys: Keys, cell: Cell, active: KeyId, key: WriteKey)
    requires KnownKey(keys, key) && Stale(keys, cell, active)
    ensures Stale(keys, Seal(key, Open(keys, cell).value), active) <==> key.keyId != active
  {
  }

  /** With at most a batch of rows, the tick after a tick by a process that writes with the active key returns 0. */
  lemma SecondTickIsIdle(keys: Keys, rows: Rows, window: set<BotKey>, again: set<BotKey>, key: WriteKey)
    requires KnownKey(keys, key) && window == rows.Keys
    ensures StaleIn(keys, ReEncrypted(keys, rows, window, key.keyId, key), again, key.keyId) == {}
  {
    CatchUpConverges(keys, rows, window, key);
  }

  /** The table after a list of ticks, each over its own window. */
  function AfterTicks(keys: Keys, rows: Rows, windows: seq<set<BotKey>>, active: KeyId, key: WriteKey): (after: Rows)
    ensures after.Keys == rows.Keys
  {
    if windows == [] then rows
    else ReEncrypted(keys, AfterTicks(keys, rows, windows[..|windows| - 1], active, key), windows[|windows| - 1],
        active, key)
  }

  function Covered(windows: seq<set<BotKey>>): set<BotKey> {
    if windows == [] then {} else Covered(windows[..|windows| - 1]) + windows[|windows| - 1]
  }

  /** After any list of ticks the stale rows are the initial ones outside all windows, or, when the process does not
      write with the active key, all the initial ones. */
  lemma {:induction false} StaleAfterTicks(keys: Keys, rows: Rows, windows: seq<set<BotKey>>, active: KeyId,
      key: WriteKey)
    requires KnownKey(keys, key)
    ensures StaleIn(keys, AfterTicks(keys, rows, windows, active, key), rows.Keys, active)
            == if key.keyId == active then StaleIn(keys, rows, rows.Keys, active) - Covered(windows)
               else StaleIn(keys, rows, rows.Keys, active)
  {
    hide ReEncrypted, StaleIn, KnownKey;
    if windows != [] {
      var front := windows[..|windows| - 1];
      StaleAfterTicks(keys, rows, front, active, key);
      TickStaleness(keys, AfterTicks(keys, rows, front, active, key), windows[|windows| - 1], active, key);
    }
  }

  /** A list of ticks, at least one, as the LIMIT query allows: each window is any batch of rows, or all of them when
      there are fewer. */
  predicate AreBatches(windows: seq<set<BotKey>>, rows: Rows) {
    windows != [] &&
    forall i | 0 <= i < |windows| ::
      windows[i] <= rows.Keys && |windows[i]| == if 50 < |rows| then 50 else |rows|
  }

  ghost predicate AlwaysUpgraded(keys: Keys, rows: Rows, active: KeyId, key: WriteKey) {
    forall windows | AreBatches(windows, rows) ::
      StaleIn(keys, AfterTicks(keys, rows, windows, active, key), rows.Keys, active) == {}
  }

  lemma SameSizeIsSame(s: set<BotKey>, t: set<BotKey>)
    requires s <= t && |s| == |t|
    ensures s == t
  {
    assert |t - s| == |t| - |s|;
  }

  lemma {:induction false} SubsetOfSize(s: set<BotKey>, n: nat) returns (t: set<BotKey>)
    requires n <= |s|
    ensures t <= s && |t| == n
    decreases |s|
  {
    if n == |s| {
      t := s;
    } else {
      var b :| b in s;
      t := SubsetOfSize(s - {b}, n);
    }
  }

  /** One row that every one of `n` ticks passes over. */
  lemma {:induction false} BatchesMissing(rows: Rows, b: BotKey, n: nat) returns (windows: seq<set<BotKey>>)
    requires b in rows && |rows| > CATCHUP_BATCH && n > 0
    ensures |windows| == n && AreBatches(windows, rows) && b !in Covered(windows)
  {
    assert |rows.Keys - {b}| == |rows| - 1;
    var window := SubsetOfSize(rows.Keys - {b}, CATCHUP_BATCH);
    if n == 1 {
      windows := [window];
      assert Covered([]) == {} && windows[..0] == [];
    } else {
      var front := BatchesMissing(rows, b, n - 1);
      windows := front + [window];
      assert windows[..|windows| - 1] == front;
    }
  }

  lemma FirstWindowCovers(windows: seq<set<BotKey>>)
    requires windows != []
    ensures windows[|windows| - 1] <= Covered(windows)
  {
  }

  /** The exact promise of catch-up: whichever rows its queries return, stale ciphertext is upgraded if and only if
      there is none, or the process writes with the active key and the table fits one batch. */
  lemma UpgradedExactly(keys: Keys, rows: Rows, active: KeyId, key: WriteKey)
    requires KnownKey(keys, key)
    ensures AlwaysUpgraded(keys, rows, active, key) <==>
              StaleIn(keys, rows, rows.Keys, active) == {} || (key.keyId == active && |rows| <= 50)
  {
    hide StaleIn, KnownKey, AfterTicks, Covered;
    var stale := StaleIn(keys, rows, rows.Keys, active);
    forall windows | AreBatches(windows, rows)
      ensures StaleIn(keys, AfterTicks(keys, rows, windows, active, key), rows.Keys, active)
              == if key.keyId == active then stale - Covered(windows) else stale
      ensures |rows| <= CATCHUP_BATCH ==> rows.Keys <= Covered(windows)
    {
      StaleAfterTicks(keys, rows, windows, active, key);
      FirstWindowCovers(windows);
      if |rows| <= CATCHUP_BATCH {
        SameSizeIsSame(windows[|windows| - 1], rows.Keys);
      }
    }
    StaleAreRows(keys, rows, active);
    if stale != {} && !(key.keyId == active && |rows| <= CATCHUP_BATCH) {
      var b :| b in stale;
      var windows: seq<set<BotKey>>;
      if |rows| > CATCHUP_BATCH {
        windows := BatchesMissing(rows, b, 1);
      } else {
        windows := [rows.Keys];
      }
      assert AreBatches(windows, rows);
      assert b in StaleIn(keys, AfterTicks(keys, rows, windows, active, key), rows.Keys, active);
    }
  }

  lemma StaleAreRows(keys: Keys, rows: Rows, active: KeyId)
    ensures StaleIn(keys, rows, rows.Keys, active) <= rows.Keys
  {
  }

  /** In every table of more than a batch of rows, any one stale row can be passed over by any number of ticks. */
  lemma RowCanBePassedOver(keys: Keys, rows: Rows, active: KeyId, key: WriteKey, b: BotKey, n: nat)
    requires KnownKey(keys, key) && |rows| > CATCHUP_BATCH && n > 0
    requires b in StaleIn(keys, rows, rows.Keys, active)
    ensures exists windows :: |windows| == n && AreBatches(windows, rows)
                              && b in StaleIn(keys, AfterTicks(keys, rows, windows, active, key), rows.Keys, active)
  {
    hide KnownKey, AfterTicks, Covered;
    var windows := BatchesMissing(rows, b, n);
    StaleAfterTicks(keys, rows, windows, active, key);
  }

  /** `n` rows, all made with data key 0 under key id 0. */
  function StaleRows(n: nat): (rows: Rows)
    ensures |rows| == n
    ensures forall b | b in rows :: |b| < n && rows[b] == Enc(0, 0, "s")
  {
    if n == 0 then map[]
    else
      var b: BotKey := seq(n - 1, _ => 'b');
      var front := StaleRows(n - 1);
      assert front[b := Enc(0, 0, "s")].Keys == front.Keys + {b};
      front[b := Enc(0, 0, "s")]
  }

  /** Fifty-one rows under an old key, in a process that writes with the active one: after any number of ticks a row
      may still be under the old key. */
  lemma FiftyOneRowsMayStayStale(n: nat)
    requires n > 0
    ensures var kek := Kek("pass", 0);
            var keys := Keys([Slot(0, 0, Some(kek))],
                map[0 := DekRow(0, kek, 0, false, 0), 1 := DekRow(0, kek, 1, true, 1)]);
            var rows := StaleRows(51);
            exists windows :: |windows| == n && AreBatches(windows, rows)
                              && StaleIn(keys, AfterTicks(keys, rows, windows, 1, WriteKey(1, 1)), rows.Keys, 1) != {}
  {
    hide AfterTicks, StaleRows;
    var kek := Kek("pass", 0);
    var keys := Keys([Slot(0, 0, Some(kek))], map[0 := DekRow(0, kek, 0, false, 0), 1 := DekRow(0, kek, 1, true, 1)]);
    var rows := StaleRows(51);
    assert |rows| > 0 && rows.Keys != {};
    var b :| b in rows;
    assert Stale(keys, rows[b], 1);
    RowCanBePassedOver(keys, rows, 1, WriteKey(1, 1), b, n);
  }

  /** The Webex driver's copy of the secret in `shared_db` mode, reloaded when it is `refresh` seconds old. */
  class SecretCache {
    var plain: Option<string>
    var readAt: int

    constructor ()
      ensures plain == None
    {
      plain, readAt := None, 0;
    }

    /** A copy agrees with the table when it is the plaintext stored for the bot. */
    ghost predicate Agrees(keys: Keys, table: SecretTable, bot: BotKey)
      reads this, table
    {
      plain.Some? ==> bot in table.rows && Open(keys, table.rows[bot]) == plain
    }

    /** `_effective_hmac_secret`; reloaded or not, what it returns is what the table holds. */
    method EffectiveSecret(table: SecretTable, keys: Keys, bot: BotKey, key: WriteKey, candidates: nat -> string,
                           others: Interference, now: int, refresh: int)
      returns (secret: Result<string, string>)
      requires KnownKey(keys, key) && forall b | b in table.rows :: Open(keys, table.rows[b]).Some?
      requires forall n: nat, t: Rows :: OthersRespect(keys, t, others(n, t))
      requires Agrees(keys, table, bot)
      modifies this, table
      ensures Agrees(keys, table, bot) && OthersRespect(keys, old(table.rows), table.rows)
      ensures secret.Ok? ==> bot in table.rows && Open(keys, table.rows[bot]) == Some(secret.value) == plain
      ensures secret.Err? <==> IsBlank(bot) && (old(plain).None? || now - old(readAt) >= refresh)
      ensures old(plain).Some? && now - old(readAt) < refresh ==> table.rows == old(table.rows) && readAt == old(readAt)
      ensures secret.Ok? && (old(plain).None? || now - old(readAt) >= refresh) ==> readAt == now
      ensures secret.Ok? && (old(plain).None? || now - old(readAt) >= refresh) ==>
                (bot !in Seen(others, old(table.rows), 1) ==> secret == Ok(candidates(0)))
    {
      if plain.None? || now - readAt >= refresh {
        secret := table.EnsureSecret(keys, bot, key, candidates, others);
        if secret.Err? {
          return;
        }
        plain, readAt := Some(secret.value), now;
      }
      return Ok(plain.value);
    }
  }
}
