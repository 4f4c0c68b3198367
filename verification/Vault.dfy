/** Vault key rows and data-key rotation (thaum/database_crypto.py).

    Cryptography is symbolic: a KEK is the free term derived from a passphrase and KDF parameters, and a canary
    or a wrapped data key records the KEK it was made with, so that only the same KEK opens it. */
module Vault {
  import opened Prelude

  type KeyId = nat
  type Dek = nat

  datatype Kek = Kek(passphrase: string, params: nat)

  datatype Slot = Slot(keyId: KeyId, params: nat, canary: Option<Kek>)

  datatype DekRow = DekRow(wrapId: KeyId, kek: Kek, dek: Dek, active: bool, createdAt: int)

  /** Tables `gemstone_key_kdf` and `gemstone_key_record`. */
  datatype Keys = Keys(slots: seq<Slot>, deks: map<KeyId, DekRow>)

  const NO_KEYS := Keys([], map[])
  const SECONDS_PER_DAY := 86400

  datatype WriteKey = WriteKey(keyId: KeyId, dek: Dek)

  datatype KeyError =
    | NoSlot | ManySlots | NoCanary | WrongPassphrase
    | NoActiveDek | ManyActiveDeks | UnwrapFailed | RaceLost

  datatype FreshKeys = FreshKeys(wrapId: KeyId, params: nat, dekId: KeyId, dek: Dek)

  function ActiveIds(keys: Keys): set<KeyId> {
    set id | id in keys.deks && keys.deks[id].active
  }

  function SingleSlot(keys: Keys): Result<Slot, KeyError> {
    if |keys.slots| == 0 then Err(NoSlot)
    else if |keys.slots| > 1 then Err(ManySlots)
    else Ok(keys.slots[0])
  }

  function TheElement(s: set<KeyId>): (id: KeyId)
    requires |s| == 1
    ensures s == {id}
  {
    SingletonHasElement(s);
    var id :| id in s && s == {id};
    id
  }

  lemma SingletonHasElement(s: set<KeyId>)
    requires |s| == 1
    ensures exists id :: id in s && s == {id}
    ensures forall x, y | x in s && y in s :: x == y
  {
    var id :| id in s;
    assert |s - {id}| == 0;
    assert s == {id};
  }

  function ActiveDek(keys: Keys): Result<Option<KeyId>, KeyError> {
    if |ActiveIds(keys)| > 1 then Err(ManyActiveDeks)
    else if |ActiveIds(keys)| == 0 then Ok(None)
    else Ok(Some(TheElement(ActiveIds(keys))))
  }

  /** `put_keyrecord(is_active=True)`: the new record is active and demotes the others. */
  function PutActive(deks: map<KeyId, DekRow>, id: KeyId, row: DekRow): map<KeyId, DekRow> {
    map k | k in deks.Keys + {id} :: if k == id then row.(active := true) else deks[k].(active := false)
  }

  function InsertInitial(keys: Keys, pass: string, minted: FreshKeys, now: int): Keys {
    var kek := Kek(pass, minted.params);
    Keys(keys.slots + [Slot(minted.wrapId, minted.params, Some(kek))],
         PutActive(keys.deks, minted.dekId, DekRow(minted.wrapId, kek, minted.dek, true, now)))
  }

  /** The rows after one attempt commits, before the checks that follow the commit. */
  function AfterEnsure(keys: Keys, pass: string, minted: FreshKeys, now: int): Keys {
    if keys.slots == [] then InsertInitial(keys, pass, minted, now) else keys
  }

  function EnsureChecks(keys: Keys): Result<(), KeyError> {
    if SingleSlot(keys).Err? then Err(SingleSlot(keys).error)
    else match ActiveDek(keys)
      case Err(e) => Err(e)
      case Ok(None) => Err(NoActiveDek)
      case Ok(Some(_)) => Ok(())
  }

  function UnlockKek(slot: Slot, pass: string): Result<Kek, KeyError> {
    if slot.canary.None? then Err(NoCanary)
    else if slot.canary.value != Kek(pass, slot.params) then Err(WrongPassphrase)
    else Ok(slot.canary.value)
  }

  /** `wire_database_crypto`: the write key a process obtains with a non-blank passphrase. */
  function WireKey(keys: Keys, pass: string): Result<WriteKey, KeyError> {
    match SingleSlot(keys)
    case Err(e) => Err(e)
    case Ok(slot) =>
      match UnlockKek(slot, pass)
      case Err(e) => Err(e)
      case Ok(kek) =>
        match ActiveDek(keys)
        case Err(e) => Err(e)
        case Ok(None) => Err(NoActiveDek)
        case Ok(Some(id)) =>
          assert id in ActiveIds(keys);
          if keys.deks[id].kek != kek then Err(UnwrapFailed) else Ok(WriteKey(id, keys.deks[id].dek))
  }

  datatype Rotation = NotDue | Rotated(keys: Keys, writeKey: WriteKey)

  /** `rotate_data_encryption_key_if_due` in a process whose crypto is wired. */
  function Rotate(keys: Keys, pass: string, days: int, now: int, freshId: KeyId, freshDek: Dek)
    : Result<Rotation, KeyError>
  {
    if days <= 0 || pass == "" then Ok(NotDue)
    else match ActiveDek(keys)
      case Err(e) => Err(e)
      case Ok(None) => Ok(NotDue)
      case Ok(Some(id)) =>
        assert id in ActiveIds(keys);
        if now - keys.deks[id].createdAt < days * SECONDS_PER_DAY then Ok(NotDue)
        else match SingleSlot(keys)
          case Err(e) => Err(e)
          case Ok(slot) =>
            match UnlockKek(slot, pass)
            case Err(NoCanary) => Ok(NotDue)
            case Err(e) => Err(e)
            case Ok(kek) =>
              Ok(Rotated(keys.(deks := PutActive(keys.deks, freshId, DekRow(slot.keyId, kek, freshDek, true, now))),
                         WriteKey(freshId, freshDek)))
  }

  /* ---------- what the key tables promise ---------- */

  /** Exactly one KEK slot, with a canary that `pass` opens; exactly one active DEK; every DEK opens under that KEK. */
  ghost predicate Provisioned(keys: Keys, pass: string) {
    && |keys.slots| == 1
    && keys.slots[0].canary == Some(Kek(pass, keys.slots[0].params))
    && |ActiveIds(keys)| == 1
    && forall id | id in keys.deks ::
        keys.deks[id].kek == Kek(pass, keys.slots[0].params) && keys.deks[id].wrapId == keys.slots[0].keyId
  }

  /** Records are never removed and never change the data key they wrap. */
  ghost predicate KeepsDeks(before: Keys, after: Keys) {
    forall id | id in before.deks :: id in after.deks && after.deks[id].dek == before.deks[id].dek
  }

  lemma PutActiveMakesItTheOnlyOne(deks: map<KeyId, DekRow>, id: KeyId, row: DekRow)
    ensures ActiveIds(Keys([], PutActive(deks, id, row))) == {id}
  {
  }

  lemma ActiveIdsIgnoreSlots(keys: Keys)
    ensures ActiveIds(keys) == ActiveIds(Keys([], keys.deks))
  {
  }

  /** When the active key was made. */
  function CreatedAt(keys: Keys): int
    requires |ActiveIds(keys)| == 1
  {
    var id := TheElement(ActiveIds(keys));
    assert id in ActiveIds(keys);
    keys.deks[id].createdAt
  }

  /** First run: the leader's task turns an empty vault into a provisioned one, with the minted key as its only key,
      created now, and passes its own checks; a provisioned vault is left as it is. */
  lemma EnsureProvisions(keys: Keys, pass: string, owner: string, minted: FreshKeys, now: int)
    requires keys == NO_KEYS || Provisioned(keys, owner)
    ensures var after := AfterEnsure(keys, pass, minted, now);
            && EnsureChecks(after).Ok?
            && (keys == NO_KEYS ==>
                  && Provisioned(after, pass) && ActiveIds(after) == {minted.dekId} == after.deks.Keys
                  && WireKey(after, pass) == Ok(WriteKey(minted.dekId, minted.dek))
                  && CreatedAt(after) == now
                  && after.slots == [Slot(minted.wrapId, minted.params, Some(Kek(pass, minted.params)))])
            && (keys != NO_KEYS ==> after == keys)
  {
    var after := AfterEnsure(keys, pass, minted, now);
    if keys == NO_KEYS {
      PutActiveMakesItTheOnlyOne(keys.deks, minted.dekId,
          DekRow(minted.wrapId, Kek(pass, minted.params), minted.dek, true, now));
      ActiveIdsIgnoreSlots(after);
    }
  }

  /** On a provisioned vault, wiring succeeds exactly with the owning passphrase, and yields the active DEK. */
  lemma WireSucceedsExactlyForOwner(keys: Keys, owner: string, pass: string)
    requires Provisioned(keys, owner)
    ensures WireKey(keys, pass).Ok? <==> pass == owner
    ensures pass != owner ==> WireKey(keys, pass) == Err(WrongPassphrase)
    ensures pass == owner ==>
              var key := WireKey(keys, pass).value;
              ActiveIds(keys) == {key.keyId} && key.keyId in keys.deks && keys.deks[key.keyId].dek == key.dek
  {
    var id := TheElement(ActiveIds(keys));
    assert id in ActiveIds(keys);
  }

  /** Rotation happens exactly when it is enabled, due and the passphrase is the owner's; it keeps the vault
      provisioned, keeps every older DEK readable, and makes the new key the only active one. */
  lemma RotationKeepsVault(keys: Keys, owner: string, pass: string, days: int, now: int, freshId: KeyId, freshDek: Dek)
    requires Provisioned(keys, owner) && freshId !in keys.deks && pass != ""
    ensures var due := days > 0 && now - CreatedAt(keys) >= days * 86400;
            match Rotate(keys, pass, days, now, freshId, freshDek)
            case Ok(Rotated(after, key)) =>
              && due && pass == owner
              && Provisioned(after, owner) && KeepsDeks(keys, after)
              && ActiveIds(after) == {freshId} && CreatedAt(after) == now && key == WriteKey(freshId, freshDek)
              && WireKey(after, owner) == Ok(key)
              && after.slots == keys.slots && after.deks.Keys == keys.deks.Keys + {freshId}
            case Ok(NotDue) => !due
            case Err(e) => due && pass != owner && e == WrongPassphrase
  {
    var id := TheElement(ActiveIds(keys));
    assert id in ActiveIds(keys);
    if days > 0 && now - keys.deks[id].createdAt >= days * SECONDS_PER_DAY && pass == owner {
      var row := DekRow(keys.slots[0].keyId, Kek(pass, keys.slots[0].params), freshDek, true, now);
      var after := keys.(deks := PutActive(keys.deks, freshId, row));
      assert Rotate(keys, pass, days, now, freshId, freshDek) == Ok(Rotated(after, WriteKey(freshId, freshDek)));
      PutActiveMakesItTheOnlyOne(keys.deks, freshId, row);
      ActiveIdsIgnoreSlots(after);
      WireSucceedsExactlyForOwner(after, owner, owner);
    }
  }

  /* ---------- rotation over time ---------- */

  /** One tick of the rotation task. */
  datatype Tick = Tick(days: int, now: int, freshId: KeyId, freshDek: Dek)

  function AfterTick(keys: Keys, pass: string, t: Tick): Keys {
    match Rotate(keys, pass, t.days, t.now, t.freshId, t.freshDek)
    case Ok(Rotated(after, _)) => after
    case _ => keys
  }

  function AfterTicks(keys: Keys, pass: string, ticks: seq<Tick>): Keys {
    if ticks == [] then keys else AfterTick(AfterTicks(keys, pass, ticks[..|ticks| - 1]), pass, ticks[|ticks| - 1])
  }

  predicate RotatesAt(keys: Keys, pass: string, ticks: seq<Tick>, i: nat)
    requires i < |ticks|
  {
    var t := ticks[i];
    var outcome := Rotate(AfterTicks(keys, pass, ticks[..i]), pass, t.days, t.now, t.freshId, t.freshDek);
    outcome.Ok? && outcome.value.Rotated?
  }

  /** The minted ids of a list of ticks are new. */
  ghost predicate MintsNewIds(keys: Keys, pass: string, ticks: seq<Tick>) {
    forall i | 0 <= i < |ticks| :: ticks[i].freshId !in AfterTicks(keys, pass, ticks[..i]).deks
  }

  /** One tick rotates iff rotation is enabled and the active key is at least `days` old, and then the active key is
      as young as the tick. */
  lemma TickRotatesExactly(keys: Keys, pass: string, t: Tick)
    requires Provisioned(keys, pass) && pass != "" && t.freshId !in keys.deks
    ensures Provisioned(AfterTick(keys, pass, t), pass)
    ensures RotatesAt(keys, pass, [t], 0) <==> t.days > 0 && t.now - CreatedAt(keys) >= t.days * 86400
    ensures CreatedAt(AfterTick(keys, pass, t)) == if RotatesAt(keys, pass, [t], 0) then t.now else CreatedAt(keys)
  {
    hide Rotate, Provisioned;
    assert [t][..0] == [];
    RotationKeepsVault(keys, pass, pass, t.days, t.now, t.freshId, t.freshDek);
  }

  lemma {:induction false} TicksKeepVault(keys: Keys, pass: string, ticks: seq<Tick>)
    requires Provisioned(keys, pass) && pass != "" && MintsNewIds(keys, pass, ticks)
    ensures Provisioned(AfterTicks(keys, pass, ticks), pass)
  {
    hide Provisioned, AfterTick;
    if ticks != [] {
      var front, last := ticks[..|ticks| - 1], ticks[|ticks| - 1];
      PrefixMintsNewIds(keys, pass, ticks, |ticks| - 1);
      TicksKeepVault(keys, pass, front);
      assert last.freshId !in AfterTicks(keys, pass, ticks[..|ticks| - 1]).deks;
      TickRotatesExactly(AfterTicks(keys, pass, front), pass, last);
    }
  }

  lemma PrefixMintsNewIds(keys: Keys, pass: string, ticks: seq<Tick>, k: nat)
    requires MintsNewIds(keys, pass, ticks) && k <= |ticks|
    ensures MintsNewIds(keys, pass, ticks[..k])
  {
    forall i | 0 <= i < k ensures ticks[..k][i].freshId !in AfterTicks(keys, pass, ticks[..k][..i]).deks {
      assert ticks[..k][..i] == ticks[..i];
    }
  }

  /** What the tick at position `k` of a run sees. */
  lemma TickInRun(keys: Keys, pass: string, ticks: seq<Tick>, k: nat)
    requires Provisioned(keys, pass) && pass != "" && MintsNewIds(keys, pass, ticks) && k < |ticks|
    ensures var before, after := AfterTicks(keys, pass, ticks[..k]), AfterTicks(keys, pass, ticks[..k + 1]);
            && Provisioned(before, pass) && Provisioned(after, pass)
            && (RotatesAt(keys, pass, ticks, k)
                <==> ticks[k].days > 0 && ticks[k].now - CreatedAt(before) >= ticks[k].days * 86400)
            && CreatedAt(after) == if RotatesAt(keys, pass, ticks, k) then ticks[k].now else CreatedAt(before)
  {
    hide Provisioned, Rotate, MintsNewIds;
    var before := AfterTicks(keys, pass, ticks[..k]);
    PrefixMintsNewIds(keys, pass, ticks, k);
    TicksKeepVault(keys, pass, ticks[..k]);
    assert ticks[..k + 1][..k] == ticks[..k];
    assert ticks[k].freshId !in before.deks by { MintedIsNew(keys, pass, ticks, k); }
    TickRotatesExactly(before, pass, ticks[k]);
    assert [ticks[k]][..0] == [];
  }

  lemma MintedIsNew(keys: Keys, pass: string, ticks: seq<Tick>, k: nat)
    requires MintsNewIds(keys, pass, ticks) && k < |ticks|
    ensures ticks[k].freshId !in AfterTicks(keys, pass, ticks[..k]).deks
  {
  }

  /** The age of the active key: since the last tick that rotated, or since it was first made. */
  lemma {:induction false} KeyDatesFromLastRotation(keys: Keys, pass: string, ticks: seq<Tick>, i: nat, k: nat)
    requires Provisioned(keys, pass) && pass != "" && MintsNewIds(keys, pass, ticks) && i < k <= |ticks|
    requires RotatesAt(keys, pass, ticks, i) && forall j: nat | i < j < k :: !RotatesAt(keys, pass, ticks, j)
    ensures |ActiveIds(AfterTicks(keys, pass, ticks[..k]))| == 1
        && CreatedAt(AfterTicks(keys, pass, ticks[..k])) == ticks[i].now
    decreases k
  {
    hide MintsNewIds, AfterTicks, RotatesAt;
    TickInRun(keys, pass, ticks, k - 1);
    if i < k - 1 {
      KeyDatesFromLastRotation(keys, pass, ticks, i, k - 1);
      assert !RotatesAt(keys, pass, ticks, k - 1);
    }
  }

  /** In every run of ticks a tick rotates iff rotation is enabled and the last rotation before it is at least its
      `days` back; so nothing happens in the days after a rotation, and two rotations lie at least `days` apart. */
  lemma RotatesAgainExactly(keys: Keys, pass: string, ticks: seq<Tick>, i: nat, k: nat)
    requires Provisioned(keys, pass) && pass != "" && MintsNewIds(keys, pass, ticks) && i < k < |ticks|
    requires RotatesAt(keys, pass, ticks, i) && forall j: nat | i < j < k :: !RotatesAt(keys, pass, ticks, j)
    ensures RotatesAt(keys, pass, ticks, k)
        <==> ticks[k].days > 0 && ticks[k].now - ticks[i].now >= ticks[k].days * 86400
  {
    hide MintsNewIds, AfterTicks, RotatesAt;
    KeyDatesFromLastRotation(keys, pass, ticks, i, k);
    TickInRun(keys, pass, ticks, k);
  }

  lemma LastRotationBefore(keys: Keys, pass: string, ticks: seq<Tick>, i: nat, k: nat) returns (last: nat)
    requires i < k < |ticks| && RotatesAt(keys, pass, ticks, i)
    ensures i <= last < k && RotatesAt(keys, pass, ticks, last)
    ensures forall j: nat | last < j < k :: !RotatesAt(keys, pass, ticks, j)
  {
    hide RotatesAt;
    last := k - 1;
    while !RotatesAt(keys, pass, ticks, last)
      invariant i <= last < k
      invariant forall j: nat | last < j < k :: !RotatesAt(keys, pass, ticks, j)
      decreases last - i
    {
      last := last - 1;
    }
  }

  /** In every run of ticks, whatever the clocks do, any two rotations lie at least the later one's `days` apart. */
  lemma {:induction false} RotationsAreApart(keys: Keys, pass: string, ticks: seq<Tick>, i: nat, k: nat)
    requires Provisioned(keys, pass) && pass != "" && MintsNewIds(keys, pass, ticks) && i < k < |ticks|
    ensures RotatesAt(keys, pass, ticks, i) && RotatesAt(keys, pass, ticks, k) ==>
              ticks[k].days > 0 && ticks[k].now - ticks[i].now >= ticks[k].days * 86400
    decreases k
  {
    hide MintsNewIds, AfterTicks, RotatesAt;
    if RotatesAt(keys, pass, ticks, i) && RotatesAt(keys, pass, ticks, k) {
      var last := LastRotationBefore(keys, pass, ticks, i, k);
      RotatesAgainExactly(keys, pass, ticks, last, k);
      if i < last {
        RotationsAreApart(keys, pass, ticks, i, last);
      }
    }
  }

  /** The first key too: made when the leader's task fills an empty vault, it is rotated by no tick of the days
      after. */
  lemma FirstKeyRestsItsDays(pass: string, minted: FreshKeys, now: int, t: Tick)
    requires pass != "" && t.freshId != minted.dekId
    ensures var keys := AfterEnsure(NO_KEYS, pass, minted, now);
            RotatesAt(keys, pass, [t], 0) <==> t.days > 0 && t.now - now >= t.days * 86400
  {
    hide Rotate, Provisioned, AfterEnsure;
    EnsureProvisions(NO_KEYS, pass, pass, minted, now);
    TickRotatesExactly(AfterEnsure(NO_KEYS, pass, minted, now), pass, t);
  }

  /** The checks that end the leader's task pass iff there is one slot and one active key. */
  lemma ChecksPassExactly(keys: Keys)
    ensures EnsureChecks(keys).Ok? <==> |keys.slots| == 1 && |ActiveIds(keys)| == 1
  {
  }

  /** Wiring with any tables: it succeeds iff there is one slot, its canary opens with the passphrase, and there is
      one active key, wrapped under that slot's KEK; the first of these to fail is what it reports. */
  lemma WiresExactly(keys: Keys, pass: string)
    ensures var n := |ActiveIds(keys)|;
            match WireKey(keys, pass)
            case Err(NoSlot) => keys.slots == []
            case Err(ManySlots) => |keys.slots| > 1
            case Err(NoCanary) => |keys.slots| == 1 && keys.slots[0].canary.None?
            case Err(WrongPassphrase) =>
              |keys.slots| == 1 && keys.slots[0].canary.Some?
                  && keys.slots[0].canary != Some(Kek(pass, keys.slots[0].params))
            case Err(NoActiveDek) =>
              |keys.slots| == 1 && keys.slots[0].canary == Some(Kek(pass, keys.slots[0].params)) && n == 0
            case Err(ManyActiveDeks) =>
              |keys.slots| == 1 && keys.slots[0].canary == Some(Kek(pass, keys.slots[0].params)) && n > 1
            case Err(UnwrapFailed) =>
              && |keys.slots| == 1 && keys.slots[0].canary == Some(Kek(pass, keys.slots[0].params))
              && exists id :: ActiveIds(keys) == {id} && id in keys.deks
                  && keys.deks[id].kek != Kek(pass, keys.slots[0].params)
            case Err(RaceLost) => false
            case Ok(key) =>
              && |keys.slots| == 1 && keys.slots[0].canary == Some(Kek(pass, keys.slots[0].params))
              && ActiveIds(keys) == {key.keyId} && key.keyId in keys.deks
              && keys.deks[key.keyId].kek == Kek(pass, keys.slots[0].params) && keys.deks[key.keyId].dek == key.dek
  {
    if |ActiveIds(keys)| == 1 {
      var id := TheElement(ActiveIds(keys));
      assert id in ActiveIds(keys);
    }
  }

  lemma BlankPassphraseNeverRotates(keys: Keys, days: int, now: int, freshId: KeyId, freshDek: Dek)
    ensures Rotate(keys, "", days, now, freshId, freshDek) == Ok(NotDue)
  {
  }

  lemma EmptyVaultNeverRotates(pass: string, days: int, now: int, freshId: KeyId, freshDek: Dek)
    ensures var outcome := Rotate(NO_KEYS, pass, days, now, freshId, freshDek); outcome == Ok(NotDue)
  {
    assert ActiveIds(NO_KEYS) == {};
  }

  /* ---------- the code over its tables ---------- */

  /** The number of attempts refused before the first one that commits. */
  function RacesLost(rivals: seq<Option<Keys>>): (n: nat)
    ensures n <= |rivals| && (n < |rivals| ==> rivals[n].None?)
    ensures forall j | 0 <= j < n :: rivals[j].Some?
  {
    if rivals == [] || rivals[0].None? then 0 else 1 + RacesLost(rivals[1..])
  }

  class KeyTables {
    var keys: Keys

    constructor ()
      ensures keys == NO_KEYS
    {
      keys := NO_KEYS;
    }

    /** The leader's init task. `rivals[i] == Some(k)` says that attempt `i` loses a race: its commit is refused
        and rolled back, and the tables then hold `k`. */
    method EnsureVaultKeyRows(pass: string, minted: FreshKeys, now: int, rivals: seq<Option<Keys>>)
        returns (result: Result<(), KeyError>)
      requires |rivals| == 4
      modifies this
      ensures pass == "" ==> result == Ok(()) && keys == old(keys)
      ensures pass != "" && RacesLost(rivals) == 4 ==> result == Err(RaceLost) && Some(keys) == rivals[3]
      ensures pass != "" && RacesLost(rivals) < 4 ==>
                var lost := RacesLost(rivals);
                var seen := if lost == 0 then old(keys) else rivals[lost - 1].value;
                keys == AfterEnsure(seen, pass, minted, now) && result == EnsureChecks(keys)
    {
      if pass == "" {
        return Ok(());
      }
      var attempt := 0;
      while attempt < 4
        invariant 0 <= attempt <= 4
        invariant forall j | 0 <= j < attempt :: rivals[j].Some?
        invariant RacesLost(rivals) == attempt + RacesLost(rivals[attempt..])
        invariant keys == if attempt == 0 then old(keys) else rivals[attempt - 1].value
      {
        if rivals[attempt].None? {
          if keys.slots == [] {
            keys := InsertInitial(keys, pass, minted, now);
          }
          result := EnsureChecks(keys);
          return;
        }
        keys := rivals[attempt].value;
        attempt := attempt + 1;
      }
      return Err(RaceLost);
    }
  }

  /** The module state `_crypto_ready` and the process-wide write key of `EncryptedString`. Passphrases are stripped,
      so a blank one is the empty one. */
  class ProcessCrypto {
    var ready: bool
    var writeKey: Option<WriteKey>

    /** A process that is ready has a write key. */
    ghost predicate Valid()
      reads this
    {
      ready ==> writeKey.Some?
    }

    constructor ()
      ensures Valid() && !ready && writeKey == None
    {
      ready, writeKey := false, None;
    }

    method WireDatabaseCrypto(tables: KeyTables, pass: string) returns (result: Result<(), KeyError>)
      requires Valid()
      modifies this
      ensures Valid()
      ensures pass == "" ==> result == Ok(()) && !ready && writeKey == old(writeKey)
      ensures pass != "" && old(ready) ==> result == Ok(()) && ready && writeKey == old(writeKey)
      ensures pass != "" && !old(ready) ==>
                match WireKey(tables.keys, pass)
                case Ok(key) => result == Ok(()) && ready && writeKey == Some(key)
                case Err(e) => result == Err(e) && !ready && writeKey == old(writeKey)
    {
      if pass == "" {
        ready := false;
        return Ok(());
      }
      if ready {
        return Ok(());
      }
      var key := WireKey(tables.keys, pass);
      if key.Err? {
        return Err(key.error);
      }
      writeKey := Some(key.value);
      ready := true;
      return Ok(());
    }

    /** A process that is not wired yet is wired first; when that fails, so does the task. */
    method RotateIfDue(tables: KeyTables, pass: string, days: int, now: int, freshId: KeyId, freshDek: Dek)
      returns (result: Result<(), KeyError>)
      requires Valid() && freshId !in tables.keys.deks
      modifies this, tables
      ensures Valid()
      ensures days <= 0 || pass == "" ==>
          result == Ok(()) && ready == old(ready) && writeKey == old(writeKey) && tables.keys == old(tables.keys)
      ensures days > 0 && pass != "" && !old(ready) && WireKey(old(tables.keys), pass).Err? ==>
                result == Err(WireKey(old(tables.keys), pass).error) && !ready && writeKey == old(writeKey)
                    && tables.keys == old(tables.keys)
      ensures days > 0 && pass != "" && (old(ready) || WireKey(old(tables.keys), pass).Ok?) ==>
                var before := if old(ready) then old(writeKey) else Some(WireKey(old(tables.keys), pass).value);
                ready &&
                match Rotate(old(tables.keys), pass, days, now, freshId, freshDek)
                case Ok(Rotated(after, key)) => result == Ok(()) && tables.keys == after && writeKey == Some(key)
                case Ok(NotDue) => result == Ok(()) && tables.keys == old(tables.keys) && writeKey == before
                case Err(e) => result == Err(e) && tables.keys == old(tables.keys) && writeKey == before
    {
      hide WireKey;
      if days <= 0 || pass == "" {
        return Ok(());
      }
      if !ready {
        result := WireDatabaseCrypto(tables, pass);
        if result.Err? {
          return;
        }
      }
      var outcome := Rotate(tables.keys, pass, days, now, freshId, freshDek);
      match outcome
      case Err(e) => return Err(e);
      case Ok(NotDue) => return Ok(());
      case Ok(Rotated(after, key)) =>
        tables.keys := after;
        writeKey := Some(key);
        return Ok(());
    }
  }
}
