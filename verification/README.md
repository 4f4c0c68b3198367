# Thaum: coordination between workers, and its wire formats

A verification model, in Dafny 4.11, of the parts of Thaum in which several workers share one database, and of the
formats that client and server must agree on. `dafny verify dfyconfig.toml` checks everything.

The operations that change state are classes whose methods follow the code, and each is proved equal to a specification
function of the old state. What the system promises is then proved about those functions, mostly over *runs*: a run is any
list of (worker, action) pairs, so it covers every interleaving, every crash point and every order of events. One database
transaction is one step.

| module | what it models |
|---|---|
| `LeaderInit`, `LeaderProtocol`, `LeaderBootstrap` | the leader-init status row, the follower's barrier wait, the bootstrap phase, and barrier and vault together |
| `Vault` | key slots and data keys, first-run insertion with races, wiring, rotation |
| `WebhookSecrets`, `SecretsProtocol` | the shared per-bot HMAC secret, catch-up re-encryption, the Webex cache, agreement of all workers |
| `Text`, `Json`, `Base64Url` | code points and UTF-8, JSON writing and reading (RFC 8259), base64url (section 5 of RFC 4648) |
| `WebhookBearer`, `WebhookSpelling` | the bearer record and its token forms; the texts, numbers and escapes that spell one |
| `BearerThrottle`, `WebhookGate` | the warning throttle, validation of a call |
| `IsoTime`, `AdminRequest`, `AdminNonce`, `AdminGate`, `LogLevel` | the signed log-level request, its single-use nonces, the handler, and the level of every worker |
| `JiraMap` | correlation of Jira alerts with rooms under out-of-order events |
| `IdentityCache` | people, platform ids and teams under merges |
| `LeaderTasks`, `Dispatch` | the leader's maintenance ticks, and command routing by priority |

## Reading the model

* Cryptography is symbolic: a KEK is a term over passphrase and parameters, a ciphertext records its key and plaintext, a
  MAC is any function with a non-empty result, and `str.upper` is any function. `put_keyrecord(is_active=True)` is assumed
  to demote the previous active key; that library is not part of this model.
* Clocks, random values, table row order and whatever other workers do in between are parameters. Where a parameter stands
  for other workers (`others`, `rivals`), only what they can do to the table is required of it.
* In the nonce store and the throttle `dbAt` stands for the time of the transaction, and runs are listed in its order. The
  code reads that clock just before it opens the session, so the model takes that reading and the transaction as one moment.
* Minted ids are taken to be unused. Times are integers, in microseconds unless said otherwise; milliseconds in
  `LeaderInit`, seconds as reals in `IdentityCache` and `LeaderTasks`.

## Where the code differs from what it says

* A secret that is not JSON is described as a literal that must match exactly. It never matches anything
  (`WebhookBearer.LiteralSecretNeverMatches`).
* The rotation warning is documented as at most daily. Cleanup can delete its memory; the exact bound on stalls under which
  the promise holds is `BearerThrottle.SpacingHoldsExactlyWhenPrompt`.
* With the default clock skew of 300 seconds a request stamped far ahead can be accepted twice; the exact conditions are
  `AdminNonce.RequestAcceptedOnceExactly` for one request and `AdminNonce.ReplayFreeExactly` for a configuration.
* A follower whose first read comes after DONE is not released by that DONE, and with overlapping leaders even a DONE after
  its first read may not release it (`LeaderProtocol.OverlapCanStrandAFollower`); what does release it, in every run, is
  `LeaderProtocol.ReleasedExactly`.
* Catch-up is said to upgrade stale ciphertext. A leader whose write key is not the active one rewrites the same rows for ever
  (`SecretsProtocol.OldKeyLeaderRunsForever`), and the unordered batch of 50 may pass a row over for ever in a larger table
  (`WebhookSecrets.FiftyOneRowsMayStayStale`); the exact promise is `WebhookSecrets.UpgradedExactly`.
* Two runs of a maintenance task are recorded an interval apart, but a task delayed by earlier ones of its tick starts again
  sooner (`LeaderTasks.StartsApartExactly`).
* Keys that split a surrogate pair share their canonical bytes with another key (`WebhookBearer.SplitPairCollides`).

## Model

| member | source | states |
|---|---|---|
| `LeaderInit.BarrierWait.Wait` | thaum/leader_init.py:116-155 | The wait ends, after at most floor(timeout/interval)+1 polls, at the first poll that `Releases` or `Raises`; it returns exactly in the first case, raises the stored text exactly in the second, and times out only past the deadline |
| `LeaderInit.BarrierWait.Read` | thaum/leader_init.py:130-154 | One poll moves the three remembered fields and gives the verdict of `PollRow`, whose meaning over all rows read is `VerdictMeaning` |
| `LeaderInit.VerdictMeaning` | thaum/leader_init.py:139-154 | A poll releases iff it reads DONE in a cycle begun after the first read or seen running, and raises iff it reads FAILED in such a cycle or read FAILED at least two seconds before |
| `LeaderInit.ViewMeaning` | thaum/leader_init.py:117-138 | Over any number of polls, baseline, saw-running and failed-seen-at are exactly: first ticket read, whether RUNNING was ever read, and the time of the first FAILED read |
| `LeaderProtocol.RowMeaning` | thaum/leader_init.py:46-81 | In every history the ticket counts the cycles begun and the state is that of the last committed write |
| `LeaderProtocol.ReleasedExactly` | thaum/leader_init.py:133-154 | In every run of leaders, followers and crashes, however leaders overlap: a follower reading DONE in time is released iff some cycle began after its first read of the row or one of its reads showed RUNNING, and goes on waiting otherwise |
| `LeaderProtocol.RaisedExactly` | thaum/leader_init.py:133-149 | In every run: a follower reading FAILED in time raises the stored message iff some cycle began after its first read, or one of its reads showed RUNNING, or it first read FAILED at least two seconds earlier; it goes on waiting otherwise |
| `LeaderProtocol.ViewOfMeaning` | thaum/leader_init.py:130-149 | After any reads that did not end the wait, the three remembered fields are the first ticket read, whether RUNNING was read, and, if not, when FAILED was first read |
| `LeaderProtocol.ReleasedExactlyWhenDoneIsNew` | thaum/leader_init.py:116-155 | In every run whose leaders' RUNNING-to-outcome spans do not overlap, a follower reading DONE in time is released iff a DONE was committed after its first read of the row |
| `LeaderProtocol.ReleaseNeedsDone` | thaum/leader_init.py:150-154 | The only-if half in terms of DONE holds however leaders overlap: a release needs a DONE committed after the follower's first read |
| `LeaderProtocol.OverlapCanStrandAFollower` | thaum/leader_bootstrap.py:51-66 | With two overlapping leaders there is a run in which DONE is committed after a follower's first read, the follower reads it, and goes on waiting |
| `LeaderProtocol.RaisedNeedsFailure` | thaum/leader_init.py:139-149 | In every run, a failure is raised only if FAILED was committed after the first read, or the follower read no RUNNING and had read a FAILED row at least the grace period earlier |
| `LeaderProtocol.RaisedReportsTask` | thaum/leader_init.py:71-101 | In every run the text a follower raises is the first 1024 characters of the message of some leader's failed task, all earlier tasks of that leader having succeeded, or the standard text if the message was empty |
| `LeaderProtocol.ReleasedMeansTasksFinished` | thaum/leader_bootstrap.py:51-71 | In every run a release rests on a DONE committed after that follower's first read by a leader whose whole history is RUNNING, every registered task once and in order, DONE |
| `LeaderProtocol.RunKeepsInv` | thaum/leader_bootstrap.py:51-71 | Every interleaving keeps: the row equals the replayed history, every outcome is justified by its leader's own history, every follower's memory matches what it read, every release is justified |
| `LeaderBootstrap.RunLeaderBootstrapPhase` | thaum/leader_bootstrap.py:51-71 | A leader leaves DONE, or FAILED with the first failing task's message, cut to 1024 characters, and raises that message; any other worker leaves the row alone, succeeds iff some poll within the deadline releases and no earlier one ends the wait, raises the row's text iff the first ending poll raises, and times out iff the deadline passes first |
| `LeaderBootstrap.FollowerSucceedsExactly` | thaum/leader_init.py:116-155 | A follower succeeds iff some poll in time releases and none before it ended the wait, whatever its polls read |
| `LeaderBootstrap.InitTasks.RunAll` | thaum/leader_init.py:84-101 | Tasks start in registration order; the first that raises stops the loop and its error is what comes out |
| `LeaderBootstrap.FirstFailureMeaning` | thaum/leader_init.py:84-101 | The failure reported is the least task that raises; none is reported exactly when no task raises |
| `LeaderBootstrap.ReleasedFollowerCanWire` | thaum/leader_bootstrap.py:51-71 | On an initially empty database with the vault task registered, in every run with failing tasks, crashes (also between the vault rows' commit and the task's return), overlapping leaders and rotations: once any follower is released, wiring succeeds and yields the one active data key under the one key slot |
| `LeaderBootstrap.SiteRunKeepsInv` | thaum/database_crypto.py:132-160 | Barrier and vault together: in every run the vault is empty or provisioned, and provisioned once any leader has committed its rows or finished the vault task |
| `Vault.KeyTables.EnsureVaultKeyRows` | thaum/database_crypto.py:132-160 | Whatever races are lost, the rows after the first attempt that commits are those of `AfterEnsure` on what that attempt found, checked as the code checks them; four lost races raise |
| `Vault.EnsureProvisions` | thaum/database_crypto.py:103-160 | An empty vault becomes one slot with a matching canary and one active data key, the minted one, created now, and passes the task's own checks; a provisioned one is not touched |
| `Vault.ProcessCrypto.WireDatabaseCrypto` | thaum/database_crypto.py:163-217 | Blank passphrase unwires, a wired process stays as it is, otherwise the process writes with the key `WireKey` finds or reports why there is none |
| `Vault.WireSucceedsExactlyForOwner` | thaum/database_crypto.py:163-217 | On a provisioned vault wiring succeeds iff the passphrase is the owner's, yields the single active key, and fails with the wrong-passphrase error otherwise |
| `Vault.ProcessCrypto.RotateIfDue` | thaum/database_crypto.py:225-280 | Wires first when needed; rotates tables and the process's own write key together, or leaves both |
| `Vault.RotationKeepsVault` | thaum/database_crypto.py:225-280 | Rotation happens iff enabled, the active key is at least `days` old and the passphrase is the owner's; the new key is dated now and is the only active one, older keys stay readable, the vault stays provisioned and wiring yields the new key |
| `Vault.TickRotatesExactly` | thaum/database_crypto.py:225-280 | One tick rotates iff the active key is at least `days` old, and leaves an active key as young as the tick |
| `Vault.RotatesAgainExactly` | thaum/database_crypto.py:245-249 | In every run of ticks a tick rotates iff rotation is enabled and the last rotation before it is at least `days` back |
| `Vault.RotationsAreApart` | thaum/database_crypto.py:245-249 | In every run of ticks, whatever the clocks do, two rotations lie at least the later one's `days` apart |
| `Vault.FirstKeyRestsItsDays` | thaum/database_crypto.py:103-130 | The key made for an empty vault is rotated by no tick of the `days` after, and by the first due one |
| `Vault.WiresExactly` | thaum/database_crypto.py:163-217 | For any tables: wiring succeeds iff there is one slot, its canary opens and there is one active key wrapped under it; each error names the first of these to fail |
| `WebhookSecrets.SecretTable.EnsureSecret` | thaum/bot_webhook_state.py:46-80 | Whatever other workers do between its transactions: a row found answers with its plaintext; with none found, not even when the first candidate is inserted, that candidate is stored under the write key and returned; a row that appeared in between answers with its plaintext; never the closing error, and a blank bot key is refused without touching the table |
| `WebhookSecrets.SecretTable.ReEncryptStale` | thaum/bot_webhook_state.py:98-149 | Rewrites exactly the stale decryptable rows of the window under the process's write key and returns how many there were |
| `WebhookSecrets.BatchMeaning` | thaum/bot_webhook_state.py:117-149 | Collecting first and rewriting afterwards has the effect of re-encrypting the window at once |
| `WebhookSecrets.CatchUpPreservesPlaintext` | thaum/bot_webhook_state.py:98-149 | No row appears, disappears or changes its plaintext, and only stale rows of the window are rewritten, whichever known key is used |
| `WebhookSecrets.CatchUpConverges` | thaum/bot_webhook_state.py:98-149 | With the active key as write key: every readable row of the window is then the same plaintext under that key, staleness elsewhere is unchanged, and a second tick over the window changes nothing |
| `WebhookSecrets.ProgressiveReEncrypt` | thaum/database_crypto.py:283-313 | One leader tick wires when needed, fails iff wiring does or there are several active keys, does nothing without a passphrase or an active key, and otherwise returns the number of stale rows among the first 50 and rewrites them |
| `WebhookSecrets.SecondTickIsIdle` | thaum/database_crypto.py:283-313 | When the window holds every row, no later window holds a stale one |
| `WebhookSecrets.TickStaleness` | thaum/bot_webhook_state.py:98-149 | One tick with the active key clears exactly its window; with any other known key it clears nothing and leaves its window to be rewritten again |
| `WebhookSecrets.StaleAfterTicks` | thaum/database_crypto.py:283-313 | After any list of ticks the stale rows are the initial ones minus the union of the windows, or all the initial ones when the write key is not the active one |
| `WebhookSecrets.UpgradedExactly` | thaum/database_crypto.py:225-230 | Whichever rows the unordered LIMIT queries return, stale ciphertext is always upgraded iff there is none, or the process writes with the active key and the table has at most 50 rows |
| `WebhookSecrets.RowCanBePassedOver` | thaum/bot_webhook_state.py:114-116 | In every table of more than 50 rows, any one stale row can be missed by any number of ticks |
| `WebhookSecrets.FiftyOneRowsMayStayStale` | thaum/bot_webhook_state.py:114-116 | Concrete table of 51 rows in which a row may stay under the old key after any number of ticks |
| `WebhookSecrets.SecretCache.EffectiveSecret` | bots/plugins/webex_bot.py:140-155 | Reloaded or cached, the secret returned is the plaintext in the table; it reloads exactly when empty or older than the refresh time, and a bot without a row then gets the first candidate |
| `SecretsProtocol.AllWorkersAgree` | thaum/bot_webhook_state.py:46-80 | In every run of racing inserts, rotations, catch-up ticks, restarts and stale write keys, any two answers for one bot in any workers are equal |
| `SecretsProtocol.SecretsWereMinted` | thaum/bot_webhook_state.py:60-73 | In every run every secret answered is a random candidate that some worker minted |
| `SecretsProtocol.SecretsStayReadable` | thaum/bot_webhook_state.py:46-149 | In every run every stored ciphertext names a committed key and decrypts to the plaintext first inserted, and every cache and answer is that plaintext |
| `SecretsProtocol.EnsureNeverGivesUp` | thaum/bot_webhook_state.py:76-80 | The closing RuntimeError is unreachable and one retry always suffices |
| `SecretsProtocol.FirstSecretIsForever` | thaum/bot_webhook_state.py:46-80 | Once a bot has a secret no further step of any worker changes it |
| `SecretsProtocol.RunKeepsInv` | thaum/bot_webhook_state.py:46-149 | Every step of every interleaving keeps keys, rows, write keys, caches and answers consistent |
| `SecretsProtocol.OldKeyLeaderRunsForever` | thaum/database_crypto.py:283-313 | Concrete run in which, after another worker has rotated, a leader with the old write key rewrites the same stale row on any number of ticks |
| `WebhookBearer.CanonicalTextLoads` | alerts/webhook_bearer.py:64-69 | The JSON reader takes canonical text apart into exactly the four members written, for every record |
| `WebhookBearer.CanonicalReadsBack` | alerts/webhook_bearer.py:44-69 | Reading canonical text and coercing it gives the record back, its key's surrogate pairs joined |
| `WebhookBearer.RecanonicalizingIsIdentity` | alerts/webhook_bearer.py:44-69 | Canonicalizing what was read back gives the same bytes, for every record |
| `WebhookBearer.RecordRoundTripExactly` | alerts/webhook_bearer.py:44-69 | The record itself survives iff its key does not split a surrogate pair |
| `WebhookBearer.SplitPairCollides` | alerts/webhook_bearer.py:44-69 | Concrete pair of different records with the same canonical bytes (a key with a split surrogate pair) |
| `WebhookBearer.CanonicalInjective` | alerts/webhook_bearer.py:44-69 | Canonical bytes are equal iff the records are, up to joining surrogate pairs in the key |
| `WebhookBearer.CanonicalIsNotBase64` | alerts/webhook_bearer.py:89-97 | Raw canonical text always fails the base64url-then-JSON attempt, so it is read as the JSON it is |
| `WebhookBearer.BearerRoundTrip` | alerts/webhook_bearer.py:72-114 | The bearer line, the bare base64url and the raw JSON of any record all parse to that record and to the same canonical bytes |
| `WebhookBearer.ReadKeysAreJoined` | alerts/webhook_bearer.py:61-69 | A key read from Unicode text is never one that loses its identity when written |
| `WebhookBearer.LiteralSecretNeverMatches` | alerts/webhook_bearer.py:117-130 | A configured secret that is not JSON equals no token's canonical bytes, though the docstring offers it as a literal |
| `WebhookBearer.MatchesExactly` | alerts/webhook_bearer.py:117-135 | For Unicode header and secret the comparison succeeds iff both stand for the same coerced record |
| `WebhookSpelling.SpacedTextLoads` | alerts/webhook_bearer.py:126-129 | A record's text with any white space of section 2 of RFC 8259 after brace, colons and commas reads as the same four members |
| `WebhookSpelling.SpacedSecretIsItsRecord` | alerts/webhook_bearer.py:117-135 | A secret configured with such spacing compares equal to every token form of its record |
| `WebhookSpelling.NumberForms` | alerts/webhook_bearer.py:52-60 | An integer counts the same as an integer, a float or text; `true` and `false` count as 1 and 0 |
| `WebhookSpelling.PointZeroIsWhole` | alerts/webhook_bearer.py:44-48 | A number written with `.0` reads as a float and coerces to the same integer as without |
| `WebhookSpelling.FractionsAreDropped` | alerts/webhook_bearer.py:52-60 | A float counts as its integer part, towards zero |
| `WebhookSpelling.KeyForms` | alerts/webhook_bearer.py:61-63 | A key counts the same as an integer and as its text; true, false and null count as their Python names |
| `WebhookSpelling.CoercesExactly` | alerts/webhook_bearer.py:48-63 | A payload is coerced iff all four members are there, three are numbers (`exp` may be null) and the key is not empty; each field comes from its own member |
| `WebhookSpelling.CanonicalShape` | alerts/webhook_bearer.py:64-69 | The canonical text, literally: the four fields in alphabetical order without spaces |
| `WebhookSpelling.EscapesExactly` | alerts/webhook_bearer.py:64-69 | Each code point's escape, literally: the seven short forms, printable ASCII as itself, the rest in lower-case hexadecimal, beyond 16 bits as a surrogate pair |
| `WebhookSpelling.GroupsAreBits` | scripts/python/generate_webhook_bearer_token.py:34-35 | Four symbols are the 24 bits of three bytes, most significant first; short groups are prefixes of padded ones (section 4 of RFC 4648) |
| `WebhookSpelling.Alphabet` | scripts/python/generate_webhook_bearer_token.py:34-35 | The 64 symbols are those of the URL-safe alphabet (table 2 of RFC 4648) |
| `WebhookSpelling.BearerInAnyCase` | alerts/webhook_bearer.py:72-76 | The scheme word may be in any case and followed by more spaces |
| `Json.ReadEscaped` | alerts/webhook_bearer.py:64-69 | Every string, control characters and lone surrogates included, is read back from its escaped form (section 7 of RFC 8259), adjacent surrogate pairs joined |
| `Json.EscapeForgetsJoin` | alerts/webhook_bearer.py:64-69 | Escaping gives the same text before and after joining surrogate pairs |
| `Json.JoinIsIdentityExactly` | alerts/webhook_bearer.py:64-69 | Joining changes a string iff it splits a surrogate pair |
| `Json.ControlAfterBraceFails` | alerts/webhook_bearer.py:94-97 | Text starting with an opening brace and the control character 0x1A is never JSON |
| `Base64Url.Base64RoundTrip` | scripts/python/generate_webhook_bearer_token.py:34-35 | The lenient padded decoder inverts the unpadded encoder on all byte strings (section 5 of RFC 4648) |
| `WebhookGate.ValidateWebhookBearer` | alerts/webhook_bearer.py:263-319 | Accepts iff the comparison succeeds, the expiry has not passed and no number overflows; raises iff an authentic token's expiry or warning period exceeds a float, or a warning is due beyond year 9999; logs the advisory and changes the throttle table only as the throttle says for an accepted call in its window |
| `WebhookGate.GeneratedTokenAdmits` | scripts/python/generate_webhook_bearer_token.py:66-72 | The secret the generator prints admits the bearer line it prints, and the raw JSON, exactly until the expiry, for numbers that fit floats and the calendar |
| `WebhookGate.SpellingsAgree` | alerts/webhook_bearer.py:300-303 | Tokens of one record, however they spell the expiry, expire within one second of each other, or within two when the record's expiry is 0 |
| `WebhookGate.ExpiryWithinItsSecond` | alerts/webhook_bearer.py:52-56 | The expiry a token spells lies in the second its canonical record names, on the far side of zero; on either side for 0 |
| `WebhookGate.WarningsAreSpaced` | alerts/webhook_bearer.py:143-319 | In every run of calls with any headers and secrets on any workers, two warnings given under one secret are at least a day apart however the tokens are spelled, if no call stalls for a day less a second |
| `WebhookGate.GeneratedTokenWarns` | alerts/webhook_bearer.py:300-317 | A call with a printed token consults the throttle exactly in the record's last `warn` days, up to its expiry |
| `WebhookGate.WarnsExactly` | alerts/webhook_bearer.py:143-319 | In every run of calls with any headers and secrets within the stall bound: a call is logged about iff it passes, its token is in its last `warn` days, and no warning under its secret was given less than a day before |
| `BearerThrottle.WarnTable.ShouldLog` | alerts/webhook_bearer.py:171-219 | Deletes long-expired rows, then suppresses within a day of the row's last warning, else records and emits |
| `BearerThrottle.WarnsExactly` | alerts/webhook_bearer.py:143-228 | In every run within the stall bound a call emits iff it is due and no call of its fingerprint emitted less than a day of 86400 seconds before |
| `BearerThrottle.RowComesFromWarning` | alerts/webhook_bearer.py:184-219 | In every run each row in the table is that of the last warning for its token |
| `BearerThrottle.PromptCallsAreSpaced` | alerts/webhook_bearer.py:143-228 | In every run of any workers with calls that stall less than a day less a second, warnings for one token are at least a day apart although cleanup deletes their memory |
| `BearerThrottle.StalledRunRepeatsWarning` | alerts/webhook_bearer.py:171-182 | Concrete run with longer stalls in which the second warning comes too early because the row is gone |
| `BearerThrottle.SpacingHoldsExactlyWhenPrompt` | alerts/webhook_bearer.py:143-228 | The spacing holds in all runs iff the stall is bounded by a day less a second |
| `BearerThrottle.WarningIsRemembered` | alerts/webhook_bearer.py:171-219 | After a warning its row stays until some call runs a day after the token's expiry |
| `BearerThrottle.WarnsOnlyInWindow` | alerts/webhook_bearer.py:300-317 | A warning is given only for a token unexpired and inside its pre-expiry window when tested |
| `AdminNonce.NonceTable.SpendNonce` | thaum/admin_log_level.py:173-187 | Purges, then accepts iff the nonce is not in the table, and stores it with its expiry |
| `AdminNonce.SpendsExactly` | thaum/admin_log_level.py:173-187 | A nonce is accepted iff it is not stored or its expiry has passed; the table then holds it and the unexpired others, unchanged |
| `AdminNonce.SpentNonceStays` | thaum/admin_log_level.py:173-187 | A spent nonce stays in the table until some transaction runs after its expiry |
| `AdminNonce.RequestAcceptedOnce` | thaum/admin_log_level.py:139-187 | With any skew and any time between the handler's three clock readings up to `latency`: a request that was not too far ahead when accepted is never accepted again, whatever handlers and purges run in between |
| `AdminNonce.RequestAcceptedOnceExactly` | thaum/admin_log_level.py:139-187 | For a request accepted `lead` seconds ahead: no run accepts it again iff lead plus latency stays within the retention margin of 120 seconds |
| `AdminNonce.LateRunReplays` | thaum/admin_log_level.py:139-187 | Concrete run, for every larger lead the skew allows, in which one request is accepted twice |
| `AdminNonce.PurgesChangeNoVerdict` | thaum/builtin_leader_tasks.py:27-31 | The leader's purges change no verdict: from any moment on every handler accepts the same nonces as in the run without them |
| `AdminNonce.SmallSkewNeverReplays` | thaum/admin_log_level.py:139-187 | With skew plus latency below the margin, no signed request is accepted twice in any run, whatever the two purges do |
| `AdminNonce.ReplayFreeExactly` | thaum/admin_log_level.py:139-187 | No run accepts a request twice iff skew and handler latency together stay within the retention margin |
| `AdminRequest.MessageInjective` | thaum/admin_log_level.py:76-93 | The signed message determines its route, epoch, nonce and level |
| `AdminRequest.ClientRequestIsAuthentic` | scripts/python/thaum_log_override.py:113-135 | For every epoch, nonce, route and level spelling, the server rebuilds the client's message byte for byte and accepts it, unless the clock or the level name rules it out |
| `AdminRequest.BodyLevelExactly` | thaum/admin_log_level.py:155-166 | A body names a level iff it is an object whose `v` equals 1 and whose `loglevel` is that string |
| `AdminRequest.Spellings` | thaum/admin_log_level.py:30-115 | The literal spelling of scheme, method, path, prefixes and level names |
| `Text.StripMeaning` | thaum/admin_log_level.py:71-72 | Stripping drops white space at both ends, nothing else, and leaves none there |
| `AdminRequest.AuthenticMeansSigned` | thaum/admin_log_level.py:118-168 | What is authentic carries the MAC of exactly the message for the server's route and the epoch, nonce and level it goes on with |
| `AdminRequest.SignatureVerifies` | thaum/admin_log_level.py:96-108 | A signature header made by the client verifies, for every key and message |
| `IsoTime.StampRoundTrip` | thaum/admin_log_level.py:62-69 | For every epoch from 1970 to the end of year 9999 the server reads the client's timestamp back to the same epoch |
| `IsoTime.OffsetTimesParse` | thaum/admin_log_level.py:62-69 | A local date and time with an offset is read as that much earlier in UTC, one without an offset as UTC |
| `IsoTime.EpochCountsSeconds` | thaum/admin_log_level.py:62-69 | Epoch 0 is the start of 1970, a day has 86400 seconds, and the day after any day comes 86400 seconds later |
| `IsoTime.MonthLengths` | thaum/admin_log_level.py:62-69 | The calendar: the days of each month, 29 in February of leap years, every fourth year but for centuries not divisible by 400 |
| `IsoTime.StampShape` | scripts/python/thaum_log_override.py:122-124 | The client's stamp, character by character |
| `AdminGate.HandleAdminLogLevelPost` | thaum/admin_log_level.py:118-211 | Accepted iff enabled, authentic, the database works and the nonce is unused; only then do the stored row and the serving worker change: a named level is stored as it is and the root takes its number, DEFAULT stores none and restores the configured level; each refusal leaves the nonce table as stated |
| `AdminGate.ClientLevelArrives` | scripts/python/thaum_log_override.py:113-135 | End to end: what the client builds for a level text, sent in time to a server with its key and route, is accepted iff its nonce is unused, for that text stripped and in capitals; names other than DEFAULT and the eight known ones are bad requests |
| `AdminGate.AcceptedLevelIsKnown` | thaum/admin_log_level.py:111-115 | What passes is DEFAULT or a known level name, so the stored level always denotes one |
| `AdminGate.AcceptedLevelIsApplied` | thaum/admin_log_level.py:190-211 | The accepted level n becomes the row's level and the worker's root its number (SPAM 5 to CRITICAL 50); DEFAULT becomes no level and the configured root |
| `AdminGate.RunIsEvents` | thaum/admin_log_level.py:169-187 | Any run of handlers and purges leaves the nonce table that its abstract events leave |
| `AdminGate.SignedRequestAcceptedOnce` | thaum/admin_log_level.py:118-211 | Of one signed request, however its nonce and time are spelled, at most one handling in any run on any workers answers Accepted, if the skew is safe or the request was not too far ahead when accepted |
| `LogLevel.WorkerLog.ApplyFromDb` | log_setup.py:95-132 | Skips exactly when the row's signature is the remembered one, else takes the row's level (or the configured one) and remembers the signature |
| `LogLevel.WorkerLog.ApplyPosted` | thaum/admin_log_level.py:204-210 | Takes the posted level and remembers the row just written |
| `LogLevel.LevelNumbers` | thaum/types.py:123-132 | The known names are those with a number, and the numbers are 5, 10, 15, 20, 25, 30, 40 and 50; the aliases WARN, FATAL and NOTSET have the logging module's |
| `LogLevel.RunKeepsInv` | log_setup.py:89-132 | In every run of posts and polls on all workers, a remembered signature implies the root level it denotes |
| `LogLevel.PollConverges` | log_setup.py:95-132 | In every run, whatever the stamps do (ties, steps back), a poll brings the worker to the level of the row |
| `LogLevel.ConvergedForGood` | log_setup.py:95-132 | Once posts have stopped and the worker has applied its own, it stays at the row's level for ever |
| `LogLevel.PolledWorkersAgree` | thaum/admin_log_level.py:190-211 | Two workers that have polled stand at one common known level when the row names one, else each at its configured level |
| `JiraMap.MapStore.UpsertPendingRow` | alerts/plugins/jira/mapping_store.py:38-72 | Skips incomplete input; otherwise the row has the stripped values and keeps a linked alert id |
| `JiraMap.MapStore.MappingForJiraAlertId` | alerts/plugins/jira/mapping_store.py:76-91 | Finds the row of that alert id and that bot, or nothing |
| `JiraMap.MapStore.ApplyCreateWebhook` | alerts/plugins/jira/mapping_store.py:133-177 | All branches: skipped, inserted, linked, or refused by the unique alert id with nothing changed |
| `JiraMap.PendingWritesExactly` | alerts/plugins/jira/mapping_store.py:38-72 | A complete pending row is stored stripped, with Someone for a blank sender, keeping a linked id; an incomplete one changes nothing |
| `JiraMap.CreatesExactly` | alerts/plugins/jira/mapping_store.py:133-177 | The exact condition of each of the four outcomes and the table it leaves, in terms of stripped values |
| `JiraMap.ShortIdsExactly` | alerts/plugins/jira/mapping_store.py:25-34 | An alias has a short id iff it is THAUM-<8 digits>-<4 characters of A-Z, 2-9>, and then it is those four |
| `JiraMap.MapStore.HandleCreate` | alerts/plugins/jira/status_webhook.py:142-162 | For whatever happens between its two transactions: the row is linked iff it is then there and no other row has the id, inserted from what was first read iff it was removed meanwhile, refused iff the id is taken, else skipped; so as long as rows stay no row is inserted and no routing field changes |
| `JiraMap.MapStore.ResolveRoom` | alerts/plugins/jira/status_webhook.py:164-185 | The room comes from the row of the alert id when there is one, else from the alias's row at the second read, else there is none |
| `JiraMap.CreateNeverInventsARow` | alerts/plugins/jira/mapping_store.py:133-177 | In every run with any events: the table holds exactly the written keys, each with what its own last pending row said |
| `JiraMap.NoEventReachesAnotherBot` | alerts/plugins/jira/status_webhook.py:173-185 | In every run with any events, a delivered room was recorded by a pending row of the event's own bot |
| `JiraMap.OwnRoomExactly` | alerts/plugins/jira/status_webhook.py:164-185 | In every run with any events: an event goes where its own pending row says, as of its resolving read, iff its first read found no row linked to its alert id and bot or the linked row records that same room |
| `JiraMap.StatusReachesOwnRoom` | alerts/plugins/jira/status_webhook.py:164-185 | When an alert id determines its alias (several bots may receive the same event), an event carrying its alias goes to the room its own last pending row recorded, at a moment of its handling, and nowhere iff there was no such row |
| `JiraMap.LinkedRowReceives` | alerts/plugins/jira/status_webhook.py:164-185 | Once a Create has linked its row, an event with that id is delivered to the room that row recorded, whatever alias it carries |
| `JiraMap.DistinctAliasRouting` | alerts/plugins/jira/status_webhook.py:164-185 | With distinct aliases, an event after its pending row always reaches that row's room, whether Create came before, between or never; one resolved before it reaches none |
| `JiraMap.CreateNeverConflicts` | alerts/plugins/jira/mapping_store.py:133-177 | In every run whose Create ids determine both bot and alias, no Create is refused by the unique alert id |
| `JiraMap.MispairedIdGoesAstray` | alerts/plugins/jira/status_webhook.py:173-176 | Concrete run showing the pairing is needed: an alert id reported under another alias goes to the first alias's room |
| `IdentityCache.Store.MergePerson` | lookup/base.py:172-228 | One merge leaves the tables of `AfterMerge` and returns what the tables then say about the email |
| `IdentityCache.Store.GetPersonById` | lookup/base.py:105-146 | Finds a person exactly when the id is mapped to a known email, and returns that person with ids that all map back to it |
| `IdentityCache.Store.CacheTeam` | lookup/base.py:414-478 | Replaces the snapshot whole or, on a duplicate or unknown member, changes nothing |
| `IdentityCache.Store.MergeTeam` | lookup/base.py:480-515 | Merges every member in order, going on past failures, then stores the snapshot; a refused snapshot keeps the merges |
| `IdentityCache.Store.GetTeamByName` | lookup/base.py:323-387 | Returns each known member of the exact team once, and nobody else |
| `IdentityCache.WithIdsMeaning` | lookup/base.py:208-224 | New platform ids go to the merged email and known ones keep theirs |
| `IdentityCache.FirstListingOwns` | lookup/base.py:208-224 | Over any run a platform id belongs for ever to the email of the first merge that listed it, and to nobody if none did |
| `IdentityCache.RunKeepsReferences` | lookup/base.py:172-228 | Over any run every platform id points at an existing person, every member row and team id at an existing team |
| `IdentityCache.NamesNeverEmptied` | lookup/base.py:188-207 | Over any run people are never removed and a non-empty display name never becomes empty |
| `IdentityCache.SuccessiveRenames` | lookup/base.py:188-197 | Whatever the clocks, of two successive name writes the second is more than a week later unless it fills a blank |
| `IdentityCache.RenamesExactly` | lookup/base.py:188-197 | In every run a merge after a write writes the name iff it brings a non-empty one and the last write left it blank or lies more than 604800 seconds back |
| `IdentityCache.FirstMergeWrites` | lookup/base.py:172-187 | The first merge of an email always writes its row |
| `IdentityCache.RenamesAreAWeekApart` | lookup/base.py:188-197 | Under one clock, a write that replaces a non-blank name comes more than a week after every earlier write of that name |
| `IdentityCache.SnapshotMeaning` | lookup/base.py:440-462 | A snapshot is refused iff it repeats an email or a checked foreign key fails; otherwise its team holds exactly its emails, its time and lifetime, a new usable team id is kept, and no other team, person or id changes |
| `IdentityCache.TeamRoundTrip` | lookup/base.py:480-515 | Whatever other workers do, once distinct members are merged the snapshot is accepted and a lookup finds exactly them until that team's next snapshot |
| `IdentityCache.MergeTeamRoundTrip` | lookup/base.py:480-515 | `merge_team` without failures is refused iff an email repeats; else the known members are exactly the emails given, other teams are unchanged and nobody is lost |
| `IdentityCache.FailedMergesLeaveNothing` | lookup/base.py:495-508 | An email none of whose merges succeeds keeps its row, or stays unknown |
| `IdentityCache.DroppedMembersStayPeople` | lookup/base.py:440-462 | A dropped member leaves the team, not the people table, and other teams keep their known members |
| `LeaderTasks.LeaderLoop.RegisterTask` | thaum/leader_service.py:41-59 | Refuses exactly the non-positive intervals, else appends |
| `LeaderTasks.LeaderLoop.RunDueTasks` | thaum/leader_service.py:102-124 | Attempts and records the due tasks in order whether or not they raise, and logs exactly those that raise |
| `LeaderTasks.TickAttemptsExactly` | thaum/leader_service.py:111-124 | A task is attempted iff it was due when the tick began and no earlier task of its name was attempted in the tick |
| `LeaderTasks.EveryDueTaskRunsOnce` | thaum/leader_service.py:111-124 | With distinct names every due task is attempted exactly once, in registration order, and no other |
| `LeaderTasks.RunsExactly` | thaum/leader_service.py:102-142 | Over all ticks of a process, with distinct names: a task runs in a tick iff the process leads and the tick comes an interval or more after every earlier run, or reads at least the interval when there is none |
| `LeaderTasks.RunsAreApart` | thaum/leader_service.py:102-142 | Over all ticks of a process the recorded times of two runs of a task are at least its interval apart |
| `LeaderTasks.RunsPerWindow` | thaum/leader_service.py:127-142 | In any window a task is recorded at most floor(length/interval)+1 times |
| `LeaderTasks.StartsNearlyApart` | thaum/leader_service.py:111-124 | Two actual starts of a task are at least its interval apart, less the delay of the first one behind its tick |
| `LeaderTasks.StartsApartExactly` | thaum/leader_service.py:111-124 | With delays up to `lag`, starts are `gap` apart in every run iff gap is at most interval minus lag (or not positive); a two-task schedule attains the bound |
| `LeaderTasks.StartsPerWindow` | thaum/leader_service.py:127-142 | In any window a task delayed by at most `lag` starts at most floor((length+lag)/interval)+1 times |
| `Dispatch.Bot.Hears` | bots/base.py:254-268 | Append-then-sort keeps the list equal to the stable sort of all registrations |
| `Dispatch.Bot.HandleMessage` | bots/plugins/webex_bot.py:491-495 | Runs the one matching registration least by priority and then by order of registration, or none exactly when nothing matches |
| `Dispatch.DispatchIsBest` | bots/plugins/webex_bot.py:491-495 | For any registrations the first match of the sorted list is that least matching registration |
| `Dispatch.AppendThenSort` | bots/base.py:265-266 | Sorting after every registration gives what sorting all of them once would |
| `Dispatch.StableSortIsUnique` | bots/base.py:266-266 | A list has only one stable sort |
| `Dispatch.StablySortedIsStableSort` | bots/base.py:266-266 | The modelled sort is ascending and keeps each priority's routes in order |

## Left out

- Leader election, candidate registration and heartbeats: who leads is an input, and overlap of leaders is a hypothesis.
- Isolation inside one transaction and threads of one worker: a transaction is one atomic step, so the throttle's inner duplicate-key branch does not occur.
- BearerThrottle.WarnTable.ShouldLog: the branch that gives up when the database fails is not modelled; it emits nothing.
- WebhookBearer.ParseHeader: keys given as JSON floats, arrays or objects are treated as refused, because the text Python gives them is not modelled; likewise NaN, Infinity, floats that overflow, integers of more than 4300 digits and non-ASCII digits in `int(str)`.
- Json.Loads: models the reader of the standard library on text without a byte-order mark.
- IsoTime.StampRoundTrip: of the ISO 8601 forms that `fromisoformat` accepts, the model reads the extended date-time forms with seconds and an optional offset, which include the one the client writes.
- AdminGate.HandleAdminLogLevelPost: decoding of the configured key is not modelled; a server without a usable key has the empty one.
- WebhookGate.ValidateWebhookBearer: clocks and expiries given as text beyond the range of a float are compared as integers.
- SecretsProtocol.EnsureNeverGivesUp: exceptions of the key resolver and of decryption are not modelled; every key in the tables can be unwrapped by its owner.
- `updated_at` columns other than the one of the log-level row, which nothing reads.
- `re_encrypt_bot_webhook_hmac_secrets`: it replaces plaintexts on purpose and nothing calls it.
- The pinned and disabled HMAC modes, webhook registration and probing.
- Startup runs of maintenance tasks: the same loop as the init tasks.
- JiraMap.ParseShortId: digits other than ASCII ones in the date part of an alias are not accepted, unlike Python's `\d`.
- Text of status messages, mentions, the recency test of Close, and lookup by short id.
- IdentityCache.Store.GetTeamByName: fuzzy matching of team names and the team's alert and lookup ids are not modelled.
- Responder references, directory clients, and database errors in the middle of a merge.
- Compilation of `hears` patterns: a pattern is the test it performs.
- HTTP routing, SDK clients, configuration models, log handlers, templates and cards.
