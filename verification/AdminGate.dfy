/** The handler of the signed log-level POST as a whole: authenticity, single use, the stored row and the worker that
    served it (thaum/admin_log_level.py). */
module AdminGate {
  import opened Prelude
  import opened Text
  import R = AdminRequest
  import I = IsoTime
  import N = AdminNonce
  import L = LogLevel

  datatype Response = Accepted | NotFound | Refused(refusal: R.Refusal)

  /** Table `admin_log_level_state`. */
  class StateTable {
    var row: Option<L.Row>

    constructor ()
      ensures row == None
    {
      row := None;
    }
  }

  /** DEFAULT is stored as no level. */
  function StoredLevel(level: Str): Option<Str> {
    if level == R.DEFAULT then None else Some(level)
  }

  /** What a server is configured with: its key (empty when there is none), its stripped route id and the allowed
      skew. */
  datatype Config = Config(mac: R.Mac, upper: R.Upper, key: Bytes, route: Str, skew: int)

  /** One request, with the clock as read for the skew test, for the nonce's expiry and for the transaction, and whether
      the database fails. */
  datatype Post = Post(request: R.Request, testedAt: int, expiryAt: int, dbAt: int, dbFails: bool)

  predicate Enabled(c: Config) {
    c.key != [] && c.route != []
  }

  function Checked(c: Config, p: Post): Result<R.Authentic, R.Refusal> {
    R.Authenticate(c.mac, c.upper, c.key, c.route, c.skew, N.WholeSeconds(p.testedAt), p.request)
  }

  /** The nonce table and the response after one request. */
  function Handled(c: Config, t: N.Nonces, p: Post): (N.Nonces, Response) {
    if !Enabled(c) then (t, NotFound)
    else match Checked(c, p)
      case Err(e) => (t, Refused(e))
      case Ok(a) =>
        if p.dbFails then (t, Refused(R.InternalError))
        else
          var (after, unused) := N.Spend(t, a.nonce, p.dbAt, N.RetainUntil(p.expiryAt, c.skew));
          (after, if unused then Accepted else Refused(R.Unauthorized))
  }

  /** The row and a worker's root level after a request for `level`: DEFAULT stores no level and restores the
      configured one; any other name is stored as it is and brings the worker to its number. */
  ghost predicate Applied(level: Str, at: int, row: Option<L.Row>, root: int, configured: int) {
    if level == Lit("DEFAULT") then row == Some(L.Row(None, at)) && root == configured
    else row == Some(L.Row(Some(level), at)) && L.HasNumber(level, root)
  }

  lemma AcceptedLevelIsApplied(c: Config, p: Post, w: L.State)
    requires L.KeepsCapitals(c.upper)
    ensures Checked(c, p).Ok? ==>
              var level := Checked(c, p).value.level;
              var stored := StoredLevel(level);
              Applied(level, p.dbAt, Some(L.Row(stored, p.dbAt)), L.AfterPost(c.upper, w, stored, p.dbAt).root,
                  w.configured)
  {
    hide Lit, L.Denoted, L.HasNumber, L.LevelValue;
    if Checked(c, p).Ok? {
      R.AuthenticMeansSigned(c.mac, c.upper, c.key, c.route, c.skew, N.WholeSeconds(p.testedAt), p.request);
      R.Spellings();
      var level := Checked(c, p).value.level;
      hide R.Authenticate;
      if level == R.DEFAULT {
        L.AbsentDenotesConfigured(c.upper, w.configured);
      } else {
        L.AcceptedNamesDenote(c.upper, level);
        L.LevelNumbers(level, L.LevelValue(level).value);
      }
    }
  }

  /** A request is accepted iff it is authentic, the database works and its nonce is unused; only then do the stored row
      and the serving worker change, both to the request's own level. */
  method HandleAdminLogLevelPost(nonces: N.NonceTable, state: StateTable, worker: L.WorkerLog, c: Config, p: Post)
    returns (response: Response)
    modifies nonces, state, worker
    ensures (nonces.rows, response) == Handled(c, old(nonces.rows), p)
    ensures response != Accepted ==> state.row == old(state.row) && worker.Current() == old(worker.Current())
    ensures response == Accepted ==>
              && Checked(c, p).Ok?
              && var level := StoredLevel(Checked(c, p).value.level);
                 && state.row == Some(L.Row(level, p.dbAt))
                 && worker.Current() == L.AfterPost(c.upper, old(worker.Current()), level, p.dbAt)
    ensures response == Accepted && L.KeepsCapitals(c.upper) ==>
              Applied(Checked(c, p).value.level, p.dbAt, state.row, worker.root, worker.configured)
  {
    hide R.Authenticate, L.Denoted, L.ParseLevelName, N.Spend, L.KeepsCapitals, L.HasNumber, Lit;
    if c.key == [] || c.route == [] {
      return NotFound;
    }
    var checked := R.Authenticate(c.mac, c.upper, c.key, c.route, c.skew, N.WholeSeconds(p.testedAt), p.request);
    if checked.Err? {
      return Refused(checked.error);
    }
    if p.dbFails {
      return Refused(R.InternalError);
    }
    var unused := nonces.SpendNonce(checked.value.nonce, p.dbAt, N.RetainUntil(p.expiryAt, c.skew));
    if !unused {
      return Refused(R.Unauthorized);
    }
    var level := StoredLevel(checked.value.level);
    state.row := Some(L.Row(level, p.dbAt));
    AcceptedLevelIsKnown(c, p);
    if L.KeepsCapitals(c.upper) {
      AcceptedLevelIsApplied(c, p, worker.Current());
    }
    worker.ApplyPosted(c.upper, level, p.dbAt);
    return Accepted;
  }

  /** What authenticity lets through is DEFAULT or a known name, so the stored level is never blank. */
  lemma AcceptedLevelIsKnown(c: Config, p: Post)
    ensures Checked(c, p).Ok? ==>
              var level := StoredLevel(Checked(c, p).value.level);
              L.Acceptable(level) && (level.Some? ==> Strip(level.value) != [])
  {
    if Checked(c, p).Ok? {
      R.AuthenticMeansSigned(c.mac, c.upper, c.key, c.route, c.skew, N.WholeSeconds(p.testedAt), p.request);
      var level := Checked(c, p).value.level;
      hide R.Authenticate;
      if level != R.DEFAULT {
        L.LevelNameShapes(level);
        StripKeeps(level);
      }
    }
  }

  /** End to end: a request the client builds for level text `raw`, sent to a server with the same key and route
      whose clock is within skew, is accepted iff its nonce is unused (and the database works), and asks for `raw`
      stripped and in capitals; any other name than DEFAULT and the known ones is a bad request. */
  lemma ClientLevelArrives(c: Config, t: N.Nonces, p: Post, epoch: int, nonce: Str, raw: Str)
    requires I.InRange(epoch) && R.IsNonce(nonce) && Enabled(c) && forall message :: c.mac(c.key, message) != []
    requires -c.skew <= N.WholeSeconds(p.testedAt) - epoch <= c.skew
    ensures var name := c.upper(Strip(raw));
            R.BuildRequest(c.mac, c.upper, c.key, c.route, epoch, nonce, raw) == Some(p.request) ==>
              if name != Lit("DEFAULT") && name !in R.LevelNames() then Handled(c, t, p) == (t, Refused(R.BadRequest))
              else
                && Checked(c, p) == Ok(R.Authentic(epoch, nonce, name))
                && (Handled(c, t, p).1 == Accepted <==> !p.dbFails && (nonce !in t || t[nonce] < p.dbAt))
  {
    hide R.Authenticate, R.BuildRequest, R.LevelNames, Lit, R.IsNonce, I.InRange;
    R.Spellings();
    if R.BuildRequest(c.mac, c.upper, c.key, c.route, epoch, nonce, raw) == Some(p.request) {
      R.ClientRequestIsAuthentic(c.mac, c.upper, c.key, c.route, c.skew, epoch, nonce, raw, N.WholeSeconds(p.testedAt));
    }
  }

  /* ---------- runs of the handler ---------- */

  datatype Move = Serve(post: Post) | PurgeNonces(at: int)

  function AfterMove(c: Config, t: N.Nonces, m: Move): N.Nonces {
    match m
    case Serve(p) => Handled(c, t, p).0
    case PurgeNonces(at) => N.Purged(t, at)
  }

  function TableAfter(c: Config, run: seq<Move>): N.Nonces {
    if run == [] then map[] else AfterMove(c, TableAfter(c, run[..|run| - 1]), run[|run| - 1])
  }

  predicate AcceptsAt(c: Config, run: seq<Move>, i: nat)
    requires i < |run|
  {
    run[i].Serve? && Handled(c, TableAfter(c, run[..i]), run[i].post).1 == Accepted
  }

  /** What a move is to the nonce table. */
  function EventOf(c: Config, m: Move): N.Event {
    match m
    case PurgeNonces(at) => N.Purge(at)
    case Serve(p) =>
      if !Enabled(c) || Checked(c, p).Err? || p.dbFails then N.Refused(p.dbAt)
      else N.Post(Checked(c, p).value.nonce, Checked(c, p).value.epoch, p.testedAt, p.expiryAt, p.dbAt)
  }

  function EventsOf(c: Config, run: seq<Move>): (events: seq<N.Event>)
    ensures |events| == |run|
    ensures forall i | 0 <= i < |run| :: events[i] == EventOf(c, run[i])
  {
    seq(|run|, i requires 0 <= i < |run| => EventOf(c, run[i]))
  }

  lemma AuthenticIsInSkew(c: Config, m: Move)
    ensures EventOf(c, m).Post? ==> N.InSkew(EventOf(c, m), c.skew)
  {
    if m.Serve? && Checked(c, m.post).Ok? {
      var p := m.post;
      R.AuthenticMeansSigned(c.mac, c.upper, c.key, c.route, c.skew, N.WholeSeconds(p.testedAt), p.request);
    }
  }

  lemma MoveIsEvent(c: Config, t: N.Nonces, m: Move)
    ensures AfterMove(c, t, m) == N.AfterEvent(t, EventOf(c, m), c.skew)
    ensures m.Serve? ==>
              var e := EventOf(c, m);
              Handled(c, t, m.post).1 == Accepted
              <==> e.Post? && N.Spend(t, e.nonce, e.dbAt, N.ExpiryOf(e, c.skew)).1
  {
    hide Checked, N.Spend, N.InSkew;
    AuthenticIsInSkew(c, m);
  }

  /** The handler's runs are runs of the nonce table: same tables, same verdicts. */
  lemma {:induction false} RunIsEvents(c: Config, run: seq<Move>)
    ensures TableAfter(c, run) == N.After(EventsOf(c, run), c.skew)
  {
    hide AfterMove, N.AfterEvent, EventOf;
    if run != [] {
      var n := |run| - 1;
      RunIsEvents(c, run[..n]);
      MoveIsEvent(c, TableAfter(c, run[..n]), run[n]);
      assert EventsOf(c, run)[..n] == EventsOf(c, run[..n]);
    }
  }

  lemma AcceptanceIsEvent(c: Config, run: seq<Move>, i: nat)
    requires i < |run|
    ensures AcceptsAt(c, run, i) <==> N.AcceptedAt(EventsOf(c, run), c.skew, i)
  {
    hide EventOf, N.Spend, Handled, N.InSkew, N.ExpiryOf;
    RunIsEvents(c, run[..i]);
    assert EventsOf(c, run)[..i] == EventsOf(c, run[..i]);
    MoveIsEvent(c, TableAfter(c, run[..i]), run[i]);
    AuthenticIsInSkew(c, run[i]);
    PurgeIsNoPost(c, run[i]);
  }

  lemma PurgeIsNoPost(c: Config, m: Move)
    ensures m.PurgeNonces? ==> !EventOf(c, m).Post?
  {
  }

  /** The nonce of a request was minted for that request alone. */
  ghost predicate MintedAlone(c: Config, run: seq<Move>, i: nat)
    requires i < |run|
  {
    EventOf(c, run[i]).Post? ==> N.NonceBelongsTo(EventsOf(c, run), EventOf(c, run[i]))
  }

  /** The server's skew is safe, or else the request was not too far ahead. */
  predicate IsInTime(c: Config, m: Move, latency: int) {
    N.LeadIsSafe(c.skew, latency) || (EventOf(c, m).Post? ==> N.LeadIsSafe(N.Lead(EventOf(c, m)), latency))
  }

  /** Two requests stand for one signed message's nonce and time, however they spell them: a nonce in capitals or
      with spaces around it is the same nonce, and a time with another offset may be the same time. */
  predicate SameSigned(r: R.Request, s: R.Request) {
    R.LowerAll(Strip(r.nonce)) == R.LowerAll(Strip(s.nonce))
        && I.ParseHeaderTime(r.timestamp) == I.ParseHeaderTime(s.timestamp)
  }

  lemma SameSignedSameEvent(c: Config, m: Move, n: Move)
    requires m.Serve? && n.Serve? && SameSigned(m.post.request, n.post.request)
    ensures EventOf(c, m).Post? && EventOf(c, n).Post? ==> N.SameRequest(EventOf(c, m), EventOf(c, n))
  {
    hide R.Authenticate, I.ParseHeaderTime, R.LowerAll, Strip;
    var p, q := m.post, n.post;
    if Checked(c, p).Ok? {
      R.AuthenticMeansSigned(c.mac, c.upper, c.key, c.route, c.skew, N.WholeSeconds(p.testedAt), p.request);
    }
    if Checked(c, q).Ok? {
      R.AuthenticMeansSigned(c.mac, c.upper, c.key, c.route, c.skew, N.WholeSeconds(q.testedAt), q.request);
    }
  }

  /** One signed request gets at most one `Accepted`, from all workers together and in any run, when the server's
      skew is safe or else when the request was not too far ahead as it was first accepted. */
  lemma SignedRequestAcceptedOnce(c: Config, run: seq<Move>, latency: int, i: nat, j: nat)
    requires i < j < |run| && run[i].Serve? && run[j].Serve?
    ensures SameSigned(run[i].post.request, run[j].post.request)
            && N.Timely(EventsOf(c, run), latency) && MintedAlone(c, run, i) && IsInTime(c, run[i], latency) ==>
              !(AcceptsAt(c, run, i) && AcceptsAt(c, run, j))
  {
    hide N.AcceptedAt, AcceptsAt, N.Timely, N.NonceBelongsTo, EventOf, N.SameRequest, N.Lead, N.InSkew, SameSigned;
    var events := EventsOf(c, run);
    AcceptanceIsEvent(c, run, i);
    AcceptanceIsEvent(c, run, j);
    if SameSigned(run[i].post.request, run[j].post.request)
        && N.AcceptedAt(events, c.skew, i) && N.AcceptedAt(events, c.skew, j) {
      N.AcceptedIsPost(events, c.skew, i);
      N.AcceptedLeadIsInSkew(events, c.skew, i);
      N.AcceptedIsPost(events, c.skew, j);
      SameSignedSameEvent(c, run[i], run[j]);
      if N.Timely(events, latency) && MintedAlone(c, run, i) && IsInTime(c, run[i], latency) {
        N.RequestAcceptedOnce(events, c.skew, latency, i, j);
      }
    }
  }
}
