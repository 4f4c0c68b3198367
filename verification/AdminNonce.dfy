/** Single-use nonces of the signed admin request, under two independent purges
    (thaum/admin_log_level.py, thaum/builtin_leader_tasks.py).

    Times are non-negative microseconds; a run lists the events of all workers in the order of their transactions, and
    `dbAt` stands for the time of the transaction. */
module AdminNonce {
  import opened IsoTime
  import Text

  const SECOND := 1_000_000
  const RETENTION_MARGIN := 120

  type Nonce = Text.Str

  /** Table `admin_log_nonce`: each nonce with its expiry. */
  type Nonces = map<Nonce, int>

  function Purged(t: Nonces, now: int): Nonces {
    map n | n in t && t[n] >= now :: t[n]
  }

  /** The nonce part of the handler's transaction: purge, then insert unless the nonce is still there. */
  function Spend(t: Nonces, nonce: Nonce, now: int, expires: int): (Nonces, bool) {
    var kept := Purged(t, now);
    if nonce in kept then (kept, false) else (kept[nonce := expires], true)
  }

  /** A nonce is accepted iff it is not stored, or its retention is over; it is then stored until its own. */
  lemma SpendsExactly(t: Nonces, nonce: Nonce, now: int, expires: int)
    ensures var (after, accepted) := Spend(t, nonce, now, expires);
            && (accepted <==> nonce !in t || t[nonce] < now)
            && (accepted ==> nonce in after && after[nonce] == expires)
            && (forall n :: n in after <==> (n in t && now <= t[n]) || (accepted && n == nonce))
            && (forall n | n in after && !(accepted && n == nonce) :: after[n] == t[n])
  {
  }

  class NonceTable {
    var rows: Nonces

    constructor ()
      ensures rows == map[]
    {
      rows := map[];
    }

    /** The leader's hourly task, also the first statement of the handler's transaction. */
    method PurgeAdminNonces(now: int)
      modifies this
      ensures forall n :: n in rows <==> n in old(rows) && now <= old(rows)[n]
      ensures forall n | n in rows :: rows[n] == old(rows)[n]
    {
      rows := map n | n in rows && !(rows[n] < now) :: rows[n];
    }

    method SpendNonce(nonce: Nonce, now: int, expires: int) returns (accepted: bool)
      modifies this
      ensures (rows, accepted) == Spend(old(rows), nonce, now, expires)
    {
      PurgeAdminNonces(now);
      assert rows == Purged(old(rows), now);
      if nonce in rows {
        return false;
      }
      rows := rows[nonce := expires];
      return true;
    }
  }

  /** A post carries a correctly signed request, so only its time and nonce decide; the handler reads the clock for the
      skew test, then for the expiry, then for its transaction. A request refused before that leaves the table alone. */
  datatype Event =
    | Post(nonce: Nonce, epoch: int, testedAt: int, expiryAt: int, dbAt: int)
    | Purge(dbAt: int)
    | Refused(dbAt: int)

  function WholeSeconds(t: int): int {
    t / SECOND
  }

  predicate InSkew(e: Event, skew: int)
    requires e.Post?
  {
    WithinSkew(WholeSeconds(e.testedAt), e.epoch, skew)
  }

  function RetainUntil(expiryAt: int, skew: int): int {
    expiryAt + (skew + RETENTION_MARGIN) * SECOND
  }

  function ExpiryOf(e: Event, skew: int): int
    requires e.Post?
  {
    RetainUntil(e.expiryAt, skew)
  }

  function AfterEvent(t: Nonces, e: Event, skew: int): Nonces {
    match e
    case Purge(now) => Purged(t, now)
    case Refused(_) => t
    case Post(nonce, _, _, _, dbAt) => if InSkew(e, skew) then Spend(t, nonce, dbAt, ExpiryOf(e, skew)).0 else t
  }

  function After(run: seq<Event>, skew: int): Nonces {
    if run == [] then map[] else AfterEvent(After(run[..|run| - 1], skew), run[|run| - 1], skew)
  }

  predicate AcceptedAt(run: seq<Event>, skew: int, i: nat)
    requires i < |run|
  {
    run[i].Post? && InSkew(run[i], skew)
        && Spend(After(run[..i], skew), run[i].nonce, run[i].dbAt, ExpiryOf(run[i], skew)).1
  }

  /** A shared monotone clock, and at most `latency` between a handler's skew test and its transaction. */
  ghost predicate Timely(run: seq<Event>, latency: int) {
    && (forall i | 0 <= i < |run| :: run[i].dbAt >= 0)
    && (forall i, j | 0 <= i < j < |run| :: run[i].dbAt <= run[j].dbAt)
    && (forall i | 0 <= i < |run| && run[i].Post? ::
          0 <= run[i].testedAt <= run[i].expiryAt <= run[i].dbAt <= run[i].testedAt + latency)
  }

  predicate SameRequest(a: Event, b: Event) {
    a.Post? && b.Post? && a.nonce == b.nonce && a.epoch == b.epoch
  }

  /** How far ahead of the server the request's timestamp is, in whole seconds. */
  function Lead(e: Event): int
    requires e.Post?
  {
    e.epoch - WholeSeconds(e.testedAt)
  }

  lemma AfterExtends(run: seq<Event>, skew: int, k: nat)
    requires k < |run|
    ensures After(run[..k + 1], skew) == AfterEvent(After(run[..k], skew), run[k], skew)
  {
    assert run[..k + 1][..k] == run[..k];
  }

  lemma StepKeepsNonce(t: Nonces, e: Event, skew: int, n: Nonce)
    requires n in t
    requires e.Post? && InSkew(e, skew) && e.nonce == n ==> !Spend(t, n, e.dbAt, ExpiryOf(e, skew)).1
    ensures var after := AfterEvent(t, e, skew); (n in after && after[n] == t[n]) || t[n] < e.dbAt
  {
  }

  lemma AcceptedIsStored(t: Nonces, e: Event, skew: int)
    requires e.Post? && InSkew(e, skew) && Spend(t, e.nonce, e.dbAt, ExpiryOf(e, skew)).1
    ensures var after := AfterEvent(t, e, skew); e.nonce in after && after[e.nonce] == ExpiryOf(e, skew)
  {
  }

  /** A spent nonce stays in the table until some transaction runs after its expiry. */
  lemma {:induction false} SpentNonceStays(run: seq<Event>, skew: int, latency: int, i: nat, k: nat)
    requires Timely(run, latency) && i < k <= |run| && AcceptedAt(run, skew, i)
    requires forall j: nat | i < j < k :: !(AcceptedAt(run, skew, j) && run[j].nonce == run[i].nonce)
    ensures var t, n := After(run[..k], skew), run[i].nonce;
            (n in t && t[n] == ExpiryOf(run[i], skew)) || ExpiryOf(run[i], skew) < run[k - 1].dbAt
    decreases k
  {
    hide AfterEvent, Spend, After, ExpiryOf, InSkew;
    AfterExtends(run, skew, k - 1);
    if i < k - 1 {
      SpentNonceStays(run, skew, latency, i, k - 1);
      assert run[k - 2].dbAt <= run[k - 1].dbAt;
      if run[i].nonce in After(run[..k - 1], skew) {
        assert !(AcceptedAt(run, skew, k - 1) && run[k - 1].nonce == run[i].nonce);
        StepKeepsNonce(After(run[..k - 1], skew), run[k - 1], skew, run[i].nonce);
      }
    } else {
      AcceptedIsStored(After(run[..i], skew), run[i], skew);
    }
  }

  /** A request can come within skew of the server only until its own timestamp plus the skew. */
  lemma LatestAcceptance(e: Event, skew: int)
    requires e.Post? && InSkew(e, skew) && 0 <= e.testedAt
    ensures e.testedAt < (e.epoch + skew + 1) * SECOND
    ensures e.testedAt >= WholeSeconds(e.testedAt) * SECOND
  {
  }

  /** If the first acceptance was not too far ahead, the nonce outlives every later chance to use it. */
  lemma FirstUseIsOnlyUse(run: seq<Event>, skew: int, latency: int, i: nat, j: nat)
    requires Timely(run, latency) && i < j < |run| && SameRequest(run[i], run[j])
    requires AcceptedAt(run, skew, i) && LeadIsSafe(Lead(run[i]), latency)
    requires forall k: nat | i < k < j :: !(AcceptedAt(run, skew, k) && run[k].nonce == run[i].nonce)
    ensures !AcceptedAt(run, skew, j)
  {
    assert run[j - 1].dbAt <= run[j].dbAt;
    SpentNonceStays(run, skew, latency, i, j);
    LatestAcceptance(run[i], skew);
    if InSkew(run[j], skew) {
      LatestAcceptance(run[j], skew);
    }
  }

  /** The nonce is used by one signed request only, as nonces are minted at random. */
  ghost predicate NonceBelongsTo(run: seq<Event>, e: Event)
    requires e.Post?
  {
    forall k | 0 <= k < |run| && run[k].Post? && run[k].nonce == e.nonce :: run[k].epoch == e.epoch
  }

  lemma NextAcceptance(run: seq<Event>, skew: int, i: nat, j: nat) returns (next: nat)
    requires i < j < |run| && run[i].Post? && AcceptedAt(run, skew, j) && run[j].nonce == run[i].nonce
    ensures i < next <= j && AcceptedAt(run, skew, next) && run[next].nonce == run[i].nonce
    ensures forall k: nat | i < k < next :: !(AcceptedAt(run, skew, k) && run[k].nonce == run[i].nonce)
  {
    next := i + 1;
    while !(AcceptedAt(run, skew, next) && run[next].nonce == run[i].nonce)
      invariant i < next <= j
      invariant forall k: nat | i < k < next :: !(AcceptedAt(run, skew, k) && run[k].nonce == run[i].nonce)
      decreases j - next
    {
      next := next + 1;
    }
  }

  /** How far ahead a request may be, when the handler takes up to `latency`, to be remembered long enough. */
  predicate LeadIsSafe(lead: int, latency: int) {
    lead * 1_000_000 + latency <= 119_000_001
  }

  /** With any skew, the default included: a request that was not too far ahead when it was accepted is not accepted
      again, however many other handlers and purges run in between. */
  lemma RequestAcceptedOnce(run: seq<Event>, skew: int, latency: int, i: nat, j: nat)
    requires Timely(run, latency) && i < j < |run| && SameRequest(run[i], run[j]) && NonceBelongsTo(run, run[i])
    requires AcceptedAt(run, skew, i) && LeadIsSafe(Lead(run[i]), latency)
    ensures !AcceptedAt(run, skew, j)
  {
    hide AcceptedAt, Timely, Lead;
    if AcceptedAt(run, skew, j) {
      var next := NextAcceptance(run, skew, i, j);
      AcceptedIsPost(run, skew, next);
      FirstUseIsOnlyUse(run, skew, latency, i, next);
    }
  }

  lemma AcceptedIsPost(run: seq<Event>, skew: int, i: nat)
    requires i < |run| && AcceptedAt(run, skew, i)
    ensures run[i].Post? && InSkew(run[i], skew)
  {
  }

  /** In this run no request that was `lead` seconds ahead when accepted is accepted again. */
  ghost predicate OnceFor(run: seq<Event>, skew: int, lead: int) {
    forall i: nat, j: nat | i < j < |run| && SameRequest(run[i], run[j]) && NonceBelongsTo(run, run[i]) ::
      AcceptedAt(run, skew, i) && Lead(run[i]) == lead ==> !AcceptedAt(run, skew, j)
  }

  const SAMPLE: Nonce := [0x30]

  /** A request stamped `lead` seconds ahead is accepted at once and again at its last chance, the purge of that
      second transaction having just removed the nonce. */
  function LateRun(lead: int, skew: int, latency: int): seq<Event>
    requires -skew <= lead && 0 <= latency
  {
    var last := (lead + skew + 1) * SECOND - 1;
    [Post(SAMPLE, lead, 0, 0, 0), Post(SAMPLE, lead, last, last, last + latency)]
  }

  lemma LateRunReplays(lead: int, skew: int, latency: int)
    requires -skew <= lead <= skew && 0 <= latency && !LeadIsSafe(lead, latency)
    ensures Timely(LateRun(lead, skew, latency), latency) && !OnceFor(LateRun(lead, skew, latency), skew, lead)
  {
    var run := LateRun(lead, skew, latency);
    assert run[..0] == [];
    AfterExtends(run, skew, 0);
    assert AcceptedAt(run, skew, 0);
    assert WholeSeconds(run[1].testedAt) == lead + skew;
    assert After(run[..1], skew) == map[SAMPLE := ExpiryOf(run[0], skew)];
    assert AcceptedAt(run, skew, 1);
    assert SameRequest(run[0], run[1]) && NonceBelongsTo(run, run[0]) && Lead(run[0]) == lead;
  }

  /** The exact condition for one request: accepted `lead` seconds ahead, it is never accepted again, in any run, if and
      only if its lead plus the handler's latency stays within the retention margin of 120 seconds. */
  lemma RequestAcceptedOnceExactly(lead: int, skew: int, latency: int)
    requires -skew <= lead <= skew && 0 <= latency
    ensures (forall run | Timely(run, latency) :: OnceFor(run, skew, lead)) <==> LeadIsSafe(lead, latency)
  {
    hide AcceptedAt, NonceBelongsTo, Lead;
    if LeadIsSafe(lead, latency) {
      forall run | Timely(run, latency) ensures OnceFor(run, skew, lead) {
        forall i: nat, j: nat | i < j < |run| && SameRequest(run[i], run[j]) && NonceBelongsTo(run, run[i])
                                && AcceptedAt(run, skew, i) && Lead(run[i]) == lead
          ensures !AcceptedAt(run, skew, j)
        {
          RequestAcceptedOnce(run, skew, latency, i, j);
        }
      }
    } else {
      LateRunReplays(lead, skew, latency);
    }
  }

  /** No request at all is accepted twice. */
  ghost predicate NoReplay(run: seq<Event>, skew: int) {
    forall lead | -skew <= lead <= skew :: OnceFor(run, skew, lead)
  }

  lemma AcceptedLeadIsInSkew(run: seq<Event>, skew: int, i: nat)
    requires i < |run| && AcceptedAt(run, skew, i)
    ensures -skew <= Lead(run[i]) <= skew
  {
  }

  lemma SmallSkewNeverReplays(run: seq<Event>, skew: int, latency: int)
    requires Timely(run, latency) && LeadIsSafe(skew, latency)
    ensures NoReplay(run, skew)
    ensures forall i: nat, j: nat | i < j < |run| && SameRequest(run[i], run[j]) && NonceBelongsTo(run, run[i]) ::
              !(AcceptedAt(run, skew, i) && AcceptedAt(run, skew, j))
  {
    hide AcceptedAt, NonceBelongsTo, Lead, Timely;
    forall i: nat, j: nat | i < j < |run| && SameRequest(run[i], run[j]) && NonceBelongsTo(run, run[i])
        && AcceptedAt(run, skew, i)
      ensures !AcceptedAt(run, skew, j)
    {
      AcceptedLeadIsInSkew(run, skew, i);
      RequestAcceptedOnce(run, skew, latency, i, j);
    }
  }

  /** The exact condition on the configuration: no signed request is ever accepted twice if and only if the allowed skew
      plus the handler's latency stays within the retention margin of 120 seconds. */
  lemma ReplayFreeExactly(skew: int, latency: int)
    requires 0 <= skew && 0 <= latency
    ensures (forall run | Timely(run, latency) :: NoReplay(run, skew)) <==> LeadIsSafe(skew, latency)
  {
    hide OnceFor, Timely;
    if LeadIsSafe(skew, latency) {
      forall run | Timely(run, latency) ensures NoReplay(run, skew) {
        SmallSkewNeverReplays(run, skew, latency);
      }
    } else {
      LateRunReplays(skew, skew, latency);
    }
  }

  /* ---------- the leader's purge ---------- */

  /** The same run without the leader's task. */
  function WithoutPurges(run: seq<Event>): seq<Event> {
    if run == [] then []
    else WithoutPurges(run[..|run| - 1]) + if run[|run| - 1].Purge? then [] else [run[|run| - 1]]
  }

  lemma PurgedTwice(t: Nonces, earlier: int, now: int)
    requires earlier <= now
    ensures Purged(Purged(t, earlier), now) == Purged(t, now)
  {
  }

  lemma SameRestSamePurge(s: Nonces, t: Nonces, e: Event, skew: int, now: int)
    requires e.dbAt <= now && Purged(s, e.dbAt) == Purged(t, e.dbAt)
    ensures Purged(AfterEvent(s, e, skew), now) == Purged(AfterEvent(t, e, skew), now)
    ensures Purged(AfterEvent(s, e, skew), now) == Purged(t, now) || !e.Purge?
  {
    hide Purged;
    PurgedTwice(s, e.dbAt, now);
    PurgedTwice(t, e.dbAt, now);
  }

  /** The leader's purges change no verdict: whatever they delete, every handler from then on finds the same live
      nonces as if the task had never run, and so accepts and refuses the same requests. */
  lemma {:induction false} PurgesChangeNoVerdict(run: seq<Event>, skew: int, now: int)
    requires forall i, j | 0 <= i < j < |run| :: run[i].dbAt <= run[j].dbAt
    requires forall i | 0 <= i < |run| :: run[i].dbAt <= now
    ensures Purged(After(run, skew), now) == Purged(After(WithoutPurges(run), skew), now)
    ensures forall n, expires ::
              Spend(After(run, skew), n, now, expires).1 == Spend(After(WithoutPurges(run), skew), n, now, expires).1
  {
    hide Purged, AfterEvent;
    if run != [] {
      var front, e := run[..|run| - 1], run[|run| - 1];
      PurgesChangeNoVerdict(front, skew, e.dbAt);
      SameRestSamePurge(After(front, skew), After(WithoutPurges(front), skew), e, skew, now);
      if e.Purge? {
        assert WithoutPurges(run) == WithoutPurges(front);
      } else {
        assert WithoutPurges(run) == WithoutPurges(front) + [e];
        assert WithoutPurges(run)[..|WithoutPurges(run)| - 1] == WithoutPurges(front);
      }
    }
  }
}
