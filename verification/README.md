# Verified model of the DNS platform's data plane

A Dafny 4.11 model of the parts of the platform where an order of events, a byte format or an
arithmetic detail decides correctness: the query-log writer, single flight, hot reload, session
tokens, upstream health and failover, the audit hash chain, unframed DNS messages, the qqwry.dat
reader, prefix tables and dual-stack mapping, the sharded cache, TTL arithmetic, cache keys and
the ECS stage of query processing.

`dafny verify dfyconfig.toml` checks everything.

How the pieces are modelled:

* **Protocols** are small-step machines (`State`, `Action`, `Enabled`, `Apply`, `Run`). A run is any
  list of enabled actions, so a statement about `Run(Init(..), acts) == Some(s)` covers every
  interleaving of any number of participants. Where one goroutine's code is also modelled, a class
  (`QueryLogWriter`, `KeyStore`) has methods whose contracts equate their effect with a run of the
  machine.
* **Code that changes state in place** is a class or a method over an array: `AuditTable`, `Reader`,
  `L1Cache`, `Group`, `BindingTable`, `AnswerCache`, `DropSubnets`, `AdjustTtls`.
* **Formats** have an encoder that does not share code with the reader (`Encode`, `Image`, `Embed`,
  `OnePass`); round trips are proved in both directions where both hold.
* **The outside world is input**: clock, randomness, replies, parser results and the actions of other
  goroutines are parameters. Hashes, message parser and case folding are arbitrary functions, so
  every theorem holds for all of them. The digest of the audit chain is only assumed to return 64
  lower-case hexadecimal digits; conclusions read "the contents agree, or these two texts collide".

## Where code and comments differ

The model follows the code.

* `Safe` is documented to keep different inputs apart. It does so on the inputs that
  `SafeKeepsApartIff` describes and on no larger alphabet; `LongerEscapeCollides`, `TruncationForgets`
  and `EmptyCollides` show, family by family, what each condition excludes.
* `clampScope` is documented to protect the upstreams from fine subnets. It changes the key only: the
  client's option is forwarded as received (`ClientOptionIsForwarded`, `ForwardedIsKeyedIff`).
* Negative answers are documented to use the SOA minimum. A name error without answers has TTL 0 and
  is not cached (`BareNameErrorIsNotCached`).
* `adjustTTLs` also overwrites the authority section, whose records may then outlive their own TTL
  (`AuthorityKeptIff`, `AuthorityTtlGrows`).
* A tenant without ECS is documented not to pass client subnets on. Only the last OPT record is looked
  at, so a subnet in an earlier one goes out (`HiddenSubnetIsSent`, `KeyedSubnetIsCarried`).
* `ExchangeWithFailover` is documented to try upstreams until one succeeds. With the failover strategy
  and no interference it tries one (`FailoverTriesOne`): a failed exchange changes no health flag, so
  every iteration selects the same entry.
* A length prefix is documented to be assumed only if the payload unpacks cleanly, with the raw reading
  as the alternative; a raw message with such an identifier is then cut (`RawIsDetectedIff`).
* The unframed path wraps its reader in a second buffered reader for one message and drops it, with
  all it has read ahead (`RestIsIntactIff`, `SecondMessageIsLost`).
* The audit chain is documented to show tampering. The verifier trusts the first previous hash, so a
  table without its oldest rows passes (`TailIsAccepted`); what is left is still committed to (`TailsCommit`).
  The `prev_hash` column of all later rows is not looked at (`LaterPrevHashIsIgnored`).
* `unpackL1` reads the clock again and converts to an unsigned number, so an entry that has just run
  out is served with a TTL near 2^32 (`UnpackedInTimeIff`, `LateUnpackWraps`).
* Redirect modes 1 and 2 of qqwry.dat are read alike: the three octets name the country text, and the
  area follows the redirect.
* Cache keys end in the query type's name, which is empty for every type the library does not know
  (`TypesShareKeyIff`).
* The raw framing is attributed to RFC 7858; section 3.3 of that standard prescribes a two-octet length.
  The model treats unframed messages as this program's own convention.
* A failed query for the bindings does not fail the reload and is not retried
  (`FailedBindingsAreNotRetried`); the other tables are.
* Drop counters are an upper bound once `Write` calls interleave with the consumer
  (`OverCountReachable`); `NoRowVanishes` gives the exact condition for equality.
* An audit row written after an unhashed row that follows hashed ones breaks the chain
  (`WriteKeepsChain` gives the exact condition).

## Model

| member | source | states |
|---|---|---|
| `QueryLog.NoRowVanishes` | internal/store/querylog.go:34-147 | over every interleaving of any number of writers with the consumer: rows handed in never exceed rows located plus dropped, with equality exactly when no eviction found the channel drained and none is owed; the channel stays within 8192; stored, in-flight, batched and queued rows are a subsequence of the enqueue order |
| `QueryLog.BatchStaysSmall` | internal/store/querylog.go:76-99 | over every interleaving, for a batch size of at least 1: a batch never exceeds it, a waiting consumer holds less, and rows are taken to be stored exactly when the batch has that size, or on a tick |
| `QueryLog.StepKeepsInv` | internal/store/querylog.go:46-147 | each single step of a writer or of the consumer keeps the books, the bound and the order |
| `QueryLog.WholeWriteResult` | internal/store/querylog.go:46-67 | the small steps of one undisturbed `Write` add up to: enqueue, or evict the oldest, count one drop and enqueue |
| `QueryLog.UndisturbedCallsBalance` | internal/store/querylog.go:46-147 | when `Write` calls do not overlap anything, handed in equals queued plus batched plus in flight plus flushed plus dropped |
| `QueryLog.OverCountReachable` | internal/store/querylog.go:46-67 | exhibits a run whose drop counter exceeds the rows lost, so the inequality can be strict |
| `QueryLog.QueryLogWriter.constructor` | internal/store/querylog.go:34-44 | a new writer is the initial state of the machine |
| `QueryLog.QueryLogWriter.Write` | internal/store/querylog.go:46-67 | the code's effect is a run of the machine's actions for one whole call, invariant kept: the row, dated now when it had no time, goes behind the queue, whose oldest row is evicted and counted as dropped when it already holds 8192 |
| `QueryLog.QueryLogWriter.Flush` | internal/store/querylog.go:101-147 | flushing takes the whole batch, stores it and counts it as flushed, or counts it as dropped, as the machine does; an empty batch changes nothing |
| `QueryLog.QueryLogWriter.ConsumeOne` | internal/store/querylog.go:86-92 | receiving a row appends it to the batch; the batch is empty afterwards exactly when it has reached the batch size, and its rows are then stored and counted, or counted as dropped when the transaction fails; a run of the machine |
| `SingleFlight.OneFlightPerKey` | internal/dnsx/cache.go:105-130 | over every interleaving: at most one `fn` runs per key, every finished caller holds the message and meta that `fn` returned for its own flight, an empty meta where that was nil; `done` is closed exactly once and after the result, the in-flight map is empty when no leader is active |
| `SingleFlight.ArrivalJoinsOrLeads` | internal/dnsx/cache.go:105-130 | in every reachable state an arriving caller joins exactly the flight in progress for its key, and leads a new one when there is none |
| `SingleFlight.AnswersTheKeyAsked` | internal/dnsx/cache.go:105-130 | over every interleaving: a finished caller and the leader of its flight both asked for the flight's key, the value comes from a call of `fn` by that leader, and only a caller whose context ended leaves without one |
| `SingleFlight.FollowersAreServed` | internal/dnsx/cache.go:105-130 | a waiting follower can wake or its leader can take a step: nobody is stranded |
| `SingleFlight.WaitingCanFinish` | internal/dnsx/cache.go:105-130 | from every reachable state a waiting follower can finish with a result by steps of its leader and its own wake-up alone, and can leave when its context ends, which changes nothing for anybody else |
| `SingleFlight.ReturnedIsStable` | internal/dnsx/cache.go:105-130 | the result of a flight never changes in any later run |
| `SingleFlight.JoinersKeepTheirFlight` | internal/dnsx/cache.go:105-130 | a caller leaves with the flight it joined, in every later run |
| `SingleFlight.StepKeepsInv` | internal/dnsx/cache.go:105-130 | each lock section, `fn` return, close and wake-up keeps the protocol invariant |
| `HotReload.AnnouncedIsInForce` | cmd/dnsd/main.go:128-148 | over every interleaving of API writers and polling daemons: a write announced by a bump number up to a daemon's `last` is in force there, also in the middle of a reload; for the bindings table exactly when the latest bindings query succeeded |
| `HotReload.PollStartsReloadIff` | cmd/dnsd/main.go:128-148 | in every reachable state a poll starts a reload to the current version exactly when there is a version and it is not the one last finished, and otherwise changes nothing |
| `HotReload.ReloadReachesVersion` | cmd/dnsd/main.go:128-148 | a daemon that polls a new version and whose five table queries and bindings query succeed ends at that version with every write announced up to the poll in force, whatever handlers and other daemons do in between |
| `HotReload.ReloadIsPossible` | cmd/dnsd/main.go:128-148 | from every reachable state in which a daemon may poll a new version these eleven steps can be taken, and lead there |
| `HotReload.ReloadAloneReadsAll` | internal/dnsx/handler.go:128-164 | a reload that nobody disturbs, by a poll or by hand, leaves the daemon with all six tables of the database as it is; a reload by hand keeps the version |
| `HotReload.FailedReloadIsRetried` | internal/dnsx/handler.go:128-164 | a reload that fails on a query, whatever happens meanwhile: from its poll to its end groups, upstreams, tenants, rules and `last` are unchanged, and in every later state before the daemon finishes another reload a poll starts over with the version of that moment |
| `HotReload.FailedBindingsAreNotRetried` | internal/dnsx/handler.go:128-164 | after a failed bindings query the reload counts as done, and in every later run without a bump or a manual reload the daemon keeps its configuration without bindings |
| `HotReload.QuiescentDaemonIsCurrent` | internal/api/handlers_ops.go:179-191 | with no write waiting for its bump and none lost, a daemon at the current version runs the whole database |
| `HotReload.StepKeepsInv` | cmd/dnsd/main.go:128-148 | each write, bump, poll, query and installation step keeps the relation between bumps, versions and applied tables |
| `Sessions.LiveIdsAreIndexed` | internal/api/auth.go:215-266 | in every reachable state a live refresh id is in its user's live index |
| `Sessions.RedeemedAtMostOnce` | internal/api/auth.go:146-195 | once a refresh id was redeemed, whatever the outcome, no token with that id is redeemable in any later state |
| `Sessions.RevocationIsFinal` | internal/store/repos.go:162-174 | after revoking a user's sessions, in every later state none of the earlier refresh tokens is redeemable and no access token of an earlier second is accepted |
| `Sessions.LogoutIsFinal` | internal/api/auth.go:197-213 | the token used for logout is never accepted again |
| `Sessions.RevocationIsExact` | internal/store/repos.go:162-174 | in every reachable state a revocation bars exactly the user's accepted tokens of earlier seconds and nobody else's |
| `Sessions.SameSecondTokenSurvives` | internal/api/auth.go:319-358 | an accepted token issued at any moment of the second of the revocation survives it |
| `Sessions.StepKeepsInv` | internal/api/auth.go:146-358 | login, refresh, revocation, logout and the passing of time keep the index and lifetime invariants |
| `Sessions.KeyStore.IssueTokens` | internal/api/auth.go:215-266 | the key commands of issuing a pair have the machine's effect, and the two tokens have the configured lifetimes in whole seconds |
| `Sessions.KeyStore.RefreshTokens` | internal/api/auth.go:146-195 | the refresh handler's commands have the machine's effect and succeed in the same cases |
| `Sessions.KeyStore.RevokeAllSessions` | internal/store/repos.go:162-174 | the loop over index members plus the two final commands equal the machine's revocation: the mark names the current second and lives for 30 days |
| `Sessions.KeyStore.Authorize` | internal/api/auth.go:319-358 | the middleware accepts exactly the machine's authorised tokens: never an unissued, expired or refresh token, never a restricted one except to change the password, and any other when nothing is stored against token and user |
| `Sessions.KeyStore.LogoutUser` | internal/api/auth.go:197-213 | logout bars the token until it expires and revokes the user's sessions |
| `SessionLifetimes.AccessLasts` | internal/api/auth.go:319-358 | the access token of a login or a successful refresh is accepted, at every endpoint, in a later state of any run exactly if it has not expired and no action of the run logged it out or revoked its user in a later second |
| `SessionLifetimes.RestrictedLasts` | internal/api/auth.go:319-358 | the token of a login that demands a new password is accepted by the password change exactly as long, for at most 15 minutes, and by no other endpoint in any later state |
| `SessionLifetimes.RefreshLasts` | internal/api/auth.go:146-195 | the refresh token of a login or a successful refresh is redeemable in a later state of any run exactly if it has not expired, was not presented and its user was not revoked; no token with its identifier is ever accepted as an access token |
| `SessionLifetimes.OnlyGrantedTokens` | internal/api/auth.go:215-266 | whatever is accepted or redeemed in a run was handed out by a login or a refresh of that run, to that user and for that use |
| `SessionLifetimes.StepKeepsStrong` | internal/api/auth.go:146-358 | every action keeps bars, marks and stored identifiers alive as long as the tokens they are about, and the index free of other users' identifiers |
| `Upstream.DrawsEqualWeight` | internal/dnsx/upstream.go:250-266 | for non-negative weights the number of draws below the total that select position i is exactly weight i |
| `Upstream.EveryDrawPicksOne` | internal/dnsx/upstream.go:250-266 | every draw below a positive total, for weights of any sign, selects exactly one position |
| `Upstream.WeightedPick` | internal/dnsx/upstream.go:250-266 | returns the position at which the draw is used up, or a uniform one for a total of zero or less; the fallback after the loop is unreachable |
| `Upstream.StableSortMeaning` | internal/dnsx/upstream.go:241-244 | the sort is a permutation, descending in weight, and keeps entries of one weight in order |
| `Upstream.SortedHead` | internal/dnsx/upstream.go:241-244 | its first element is the earliest of the heaviest entries |
| `Upstream.DownMeaning` | internal/dnsx/upstream.go:166-204 | an entry is down exactly when some failed probe since its last success was at least the required number of failures into the run |
| `Upstream.DownHasFailed` | internal/dnsx/upstream.go:166-204 | so being down implies at least that many failures since the last success, one of them a probe |
| `Upstream.Entry.Note` | internal/dnsx/upstream.go:183-198 | counter and flag after a probe or exchange are those that follow from the extended history |
| `Upstream.Group.constructor` | internal/dnsx/upstream.go:86-133 | reload builds fresh entries, in order, from the enabled upstreams of the group, healthy exactly when a client was built, and carries known cursors over |
| `Upstream.RowsOfMeaning` | internal/dnsx/upstream.go:86-133 | a reload takes exactly the enabled upstreams of the group, in their order |
| `Upstream.Group.Attempt` | internal/dnsx/upstream.go:278-299 | one iteration of the loop: repeated id, missing client, error or reply, with exactly the event it records |
| `Upstream.Group.Record` | internal/dnsx/upstream.go:166-204 | recording an event keeps every entry's fields equal to what its history tells |
| `Upstream.Group.UnhealthyHasFailed` | internal/dnsx/upstream.go:166-204 | in every valid group the counter equals the failures since the last success or reload, and an unhealthy entry with a client has at least the required number |
| `Upstream.Group.ProbeAll` | internal/dnsx/upstream.go:166-204 | a round of probes adds one event, success or failed probe, to the history of each entry with a client and none to the others |
| `Upstream.Group.Select` | internal/dnsx/upstream.go:222-248 | picks by strategy from the usable entries or, when there are none, from all; an entry without client only in the latter case; what it leaves behind is exactly an advanced cursor, or the failover strategy's sort of the whole group |
| `Upstream.UsableInMeaning` | internal/dnsx/upstream.go:222-234 | the pool of usable entries is exactly these, in the group's order |
| `Undisturbed.WeightedIsFair` | internal/dnsx/upstream.go:222-266 | of the draws below the total of a pool with non-negative weights, exactly as many make the weighted strategy choose an entry as its weight says |
| `Upstream.Group.ExchangeWithFailover` | internal/dnsx/upstream.go:271-310 | under arbitrary interference between iterations: the first pick of each id is contacted and no id twice, every contact before the end failed and is recorded once, the answer is the reply to the last pick (what TCP brought exactly when the first reply was truncated, came over UDP, the query was no OPT query and TCP brought one) and leaves its entry healthy, a failure comes after exactly as many picks as entries with the last error, "no available upstream" exactly for an empty group, a missing client only when nothing is usable, and the group's multiset of entries is preserved; without interference each pick is the one its strategy makes of what the picks before it left |
| `Undisturbed.ExchangeUndisturbed` | internal/dnsx/upstream.go:271-310 | the following theorems, about a call on any group with distinct ids that nobody disturbs, with the first heaviest entry of the pool as the one the failover strategy contacts |
| `Undisturbed.FailoverTriesOne` | internal/dnsx/upstream.go:271-310 | the failover strategy, left alone, contacts the first of the heaviest entries of its pool and nobody else: it is answered exactly when that one answers at once and panics exactly when that one has no client |
| `Undisturbed.RoundRobinReachesAllIff` | internal/dnsx/upstream.go:271-310 | round robin, left alone and unanswered, contacts its whole pool if and only if the wrap-around of the 32-bit cursor does not break the order too early |
| `RoundRobin.VisitsAllIff` | internal/dnsx/upstream.go:238-240 | exactly when n turns of a wrapping cursor visit all k positions |
| `RoundRobin.SmoothRound` | internal/dnsx/upstream.go:238-240 | that condition when the whole group is usable: no wrap before the last turn, a wrap before the first, or a group size that divides 2^32 |
| `Undisturbed.UsableNeverPanics` | internal/dnsx/upstream.go:271-310 | a call that finds a usable entry and is left alone never meets a missing client, whatever the strategy |
| `Undisturbed.UnbuildableGroupPanics` | internal/dnsx/upstream.go:287 | a group for whose upstreams no client can be built panics on every call, also under interference |
| `AuditChain.VerifyAuditChain` | internal/store/querylog.go:359-397 | accepts exactly the tables in which every scanned row with a hash holds the hash of the previous one and its eight columns, written out with bars between them; otherwise reports the first row that does not |
| `AuditChain.ScanReaches` | internal/store/querylog.go:359-367 | a verification looks at the first rows, as many as a limit of 1 to 100000 says and 10000 for any other |
| `AuditChain.HashedRowsMeaning` | internal/store/querylog.go:371-380 | what it verifies is exactly the rows with a hash, each as often as it occurs, in their order |
| `AuditChain.OverwrittenColumnIsSeen` | internal/store/querylog.go:359-397 | overwriting any one of the eight hashed columns of a hashed row in an accepted table, bars or not, makes the verifier refuse it, or a collision is returned |
| `AuditChain.OverwrittenHashIsSeen` | internal/store/querylog.go:359-397 | overwriting a stored hash with another one makes the verifier refuse the table |
| `AuditChain.LaterPrevHashIsIgnored` | internal/store/querylog.go:381-394 | the stored previous hash of any row behind the first hashed one has no influence on the verdict |
| `AuditChain.LastHashCommits` | internal/store/querylog.go:154-158 | two accepted chains from an empty start with the same last hash consist of the same texts, or a collision is returned |
| `AuditChain.EqualTextsEqualFields` | internal/store/querylog.go:154-158 | without a bar inside a column, equal texts mean, row by row, equal time, actor id, actor name, action, target, detail, client address and verifier |
| `AuditChain.MovedBarIsNotSeen` | internal/store/querylog.go:154-158 | the condition is needed: whatever the digest, moving a bar from action to target gives two accepted tables with the same hash and different actions and targets |
| `AuditChain.AcceptedTablesAgree` | internal/store/querylog.go:359-397 | two accepted tables with an empty start and the same last hash have the same texts under the verifier's limit and, without bars, row by row the same eight columns, or a collision is returned |
| `AuditChain.TailIsAccepted` | internal/store/querylog.go:380-386 | the rest of an accepted chain is accepted from any row on whose stored previous hash is the hash before it, and from no other row but for a returned collision |
| `AuditChain.TailsCommit` | internal/store/querylog.go:359-397 | without the empty start, two accepted chains with bar-free first hashes and the same last hash agree as far back as the shorter one goes, or a collision is returned |
| `AuditChain.AcceptedWithAnyLimit` | internal/store/querylog.go:359-397 | a table accepted as a whole is accepted under every limit |
| `AuditChain.WriteKeepsChain` | internal/store/querylog.go:160-193 | writing keeps an accepted table accepted exactly when it does not end in an unhashed row behind hashed ones, up to a returned collision |
| `AuditTools.BackfillIsAccepted` | cmd/backfill-audit-hash/main.go:56-88 | whatever the table held, the verifier accepts the recomputed one, in which only the two hashes and the verifier's name may differ and every previous hash is the hash before it |
| `AuditTools.CheckModeAgreesWithVerifier` | cmd/backfill-audit-hash/main.go:56-88 | on a fully hashed table written by this program the tool's check mode accepts exactly what the verifier accepts |
| `AuditTools.RecomputeIsIdempotent` | cmd/backfill-audit-hash/main.go:56-88 | a second backfill changes nothing |
| `AuditTools.AuditTable.WriteAudit` | internal/store/querylog.go:160-193 | appends one row that holds each part of the entry in its column, empty ids, details and addresses as NULL, the last row's hash, and the hash of all of them in their order; keeps an extendable accepted table so |
| `AuditTools.AuditTable.Backfill` | cmd/backfill-audit-hash/main.go:56-88 | the rewriting loop yields the recomputed table, accepted by verifier and check mode |
| `AuditTools.AuditTable.VerifyOnly` | cmd/backfill-audit-hash/main.go:56-88 | reports agreement exactly when every stored hash equals the recomputed one, else the first row that differs |
| `RawMessage.MessageIsRead` | internal/dnsx/server.go:322-399 | every well-formed message followed by any octets is walked exactly to its end |
| `RawMessage.ProperPrefixFails` | internal/dnsx/server.go:322-399 | every proper prefix of a message is an error |
| `RawMessage.PrefixFree` | internal/dnsx/server.go:322-399 | no message is a proper prefix of another |
| `RawMessage.AcceptedIsEncoding` | internal/dnsx/server.go:322-399 | whatever the walker accepts is the encoding of a message followed by what it leaves |
| `RawMessage.AcceptedIffMessage` | internal/dnsx/server.go:322-399 | a stream is accepted exactly when it starts with an encoded message |
| `RawMessage.MessageExtends` | internal/dnsx/server.go:322-399 | octets arriving later do not change what was read |
| `RawMessage.Reader.ReadFull` | internal/dnsx/server.go:322-340 | reads exactly n octets or drains a short stream; buffer and arrivals still make up the rest of the stream |
| `RawMessage.SkipName` | internal/dnsx/server.go:341-363 | consumes exactly one name, labels or pointer, and moves its octets into the buffer |
| `RawMessage.SkipItems` | internal/dnsx/server.go:364-391 | consumes exactly the counted questions or records |
| `RawMessage.ReadRawMessage` | internal/dnsx/server.go:322-399 | hands exactly the octets of the first message to the parser, leaves exactly the rest, and leaves the reader's buffer as its reads of 12, 1, 4, 10 and data-length octets fill it |
| `RawMessage.ReadWellFormed` | internal/dnsx/server.go:322-399 | the same, stated for a stream known to start with a well-formed message |
| `Framing.ReadCompat` | internal/dnsx/server.go:280-317 | returns what the first two octets lead to; with a plausible length in front it consumes exactly that length, otherwise the message and what its second buffer, computed from the first buffer and the arrivals, still holds at the end |
| `ReadAhead.MessageFills` | internal/dnsx/server.go:322-399 | reading such a message fills a buffer as reading the same number of octets in any other way |
| `ReadAhead.AheadIsHeld` | internal/dnsx/server.go:310-316 | the second buffer holds in the end what the first one would have held, and takes it with it |
| `ReadAhead.RestIsIntactIff` | internal/dnsx/server.go:310-316 | after an unframed message without a record of 4096 octets or more of data, for every way the stream arrives: the rest of the stream is intact if and only if the message ends where the buffered octets, an arrival, or a part of 4096 octets of one end |
| `ReadAhead.ReadThenRest` | internal/dnsx/server.go:246-251 | the same about the call itself: the next call finds the rest of the stream exactly under that condition |
| `ReadAhead.SecondMessageIsLost` | internal/dnsx/server.go:310-316 | two unframed messages that arrive together in at most 4096 octets: the first is read and the second, whatever it is, is gone |
| `Framing.RawIsDetected` | internal/dnsx/server.go:280-317 | an unframed message is recognised, whatever follows, when its identifier is outside 12..4096 |
| `Framing.PrefixedIsDetected` | internal/dnsx/server.go:280-317 | a message with its length in front is recognised, whatever follows |
| `Framing.CollidingIdCuts` | internal/dnsx/server.go:286-309 | an unframed message whose identifier looks like a length is treated by that length: as a framed query, as an unframed one of that size, padded if the stream is short, or not at all |
| `Framing.RawIsDetectedIff` | internal/dnsx/server.go:280-317 | exactly when an unframed message is read as such: its identifier is no plausible length, or it is two octets longer than its identifier says, is no framed query from its third octet on and is a query itself |
| `Qqwry.Search` | internal/dnsx/ipdb.go:90-101 | on every file that opens: bisection returns the last entry with a start not above the target, -1 when there is none; on a sorted index it reads beyond the file exactly when the last start is cut off and the target is not below the start before it |
| `Qqwry.Lookup` | internal/dnsx/ipdb.go:82-110 | on a sorted index the record of the greatest start not above the target is read, none below the first start; a cut-off entry or record is reported as truncated |
| `Qqwry.StoredReads` | internal/dnsx/ipdb.go:124-168 | a record laid out with plain or redirected texts is read back |
| `Qqwry.AbsentAreaIsEmpty` | internal/dnsx/ipdb.go:142-168 | a redirect of the area to offset zero or beyond the file, and a record that ends with the file, give an empty area |
| `Qqwry.ImageOpens` | internal/dnsx/ipdb.go:55-73 | the encoder's file opens and its index mirrors the records one by one |
| `Qqwry.CoversOne` | internal/dnsx/ipdb.go:82-110 | on a sorted list of records exactly one index covers an address |
| `Qqwry.LookupInImage` | internal/dnsx/ipdb.go:82-175 | for every sorted list of records, encoding it and looking an address up returns the texts of the record that covers the address |
| `Addr.MaskIsFloor` | internal/dnsx/dualstack.go:108-111 | masking rounds an address, read as a number, down to a multiple of its block size |
| `Addr.MaskOfMask` | internal/dnsx/dualstack.go:108-111 | of two masks in a row only the shorter matters |
| `Addr.ContainsIsRange` | internal/dnsx/dualstack.go:289-296 | containment in a subnet is a range of numbers |
| `Addr.TieIsIdentical` | internal/dnsx/dualstack.go:289-296 | two subnets of one length that contain the same address are the same subnet |
| `PrefixTable.LongestMatch` | internal/dnsx/ipdb.go:243-261 | the loop returns a containing entry of maximal length, the earliest on ties, or -1 exactly when none contains the address |
| `PrefixTable.TiesAreIdentical` | internal/dnsx/dualstack.go:283-301 | ties with the winner occur only between identical subnets |
| `PrefixTable.BestIsUnique` | internal/dnsx/dualstack.go:283-301 | these conditions determine the winner |
| `PrefixTable.BindingTable.Add` | internal/dnsx/dualstack.go:260-280 | appends a binding with valid subnet and IPv4 address and ignores all others |
| `PrefixTable.BindingTable.Lookup` | internal/dnsx/dualstack.go:283-301 | the address of the best binding, none exactly when no binding contains the client |
| `PrefixTable.Reload` | internal/dnsx/dualstack.go:71-85 | the new table holds the accepted rows of the file followed by those of the enabled records |
| `PrefixTable.ReloadedMeaning` | internal/dnsx/dualstack.go:71-85 | that table holds exactly the bindings that a row of the file or of an enabled record yields |
| `PrefixTable.ReloadedIsOk` | internal/dnsx/dualstack.go:260-280 | parsed rows fill the table with masked subnets only |
| `PrefixTable.FileBeatsDatabase` | internal/dnsx/dualstack.go:71-85 | when the winning subnet is in the file, the winner is the file's binding |
| `PrefixTable.ReloadedWinner` | internal/dnsx/dualstack.go:71-85 | in the table that a reload builds from parsed rows, an entry that ties with the winner is for the same subnet and comes later, and a winner whose subnet the file has is the file's own |
| `PrefixTable.DuplicatesAreInert` | internal/dnsx/dualstack.go:71-85 | database bindings for subnets of the file never change a lookup |
| `Dualstack.ExtractEmbedded` | internal/dnsx/dualstack.go:201-239 | for prefix lengths 32, 40, 48, 56, 64 and 96, extraction returns the address embedded by section 2.2 of RFC 6052 |
| `Dualstack.ExtractedIsEmbedded` | internal/dnsx/dualstack.go:201-239 | conversely, an address that gives a result has that format with that result |
| `Dualstack.ExtractRefuses` | internal/dnsx/dualstack.go:201-239 | nothing is extracted exactly for other lengths or a non-zero octet 8 below length 96 |
| `Dualstack.TranslatedClientIsMapped` | internal/dnsx/dualstack.go:175-198 | a client built from a configured prefix, when no earlier prefix both contains it and gives an address, is mapped to its own IPv4 address |
| `Dualstack.FirstExtractMeaning` | internal/dnsx/dualstack.go:175-198 | the address comes from the first configured prefix that contains the client and gives one, and there is none exactly when no prefix does |
| `Dualstack.VerifyMeaning` | internal/dnsx/ipdb.go:281-307 | two addresses agree exactly when both are found with equal non-empty operator and province and, if strict, no conflicting cities |
| `Dualstack.MapToIPv4` | internal/dnsx/dualstack.go:117-138 | the result comes from the first source that has one, and there is none exactly when no source has one |
| `Dualstack.FirstSourceIsUnique` | internal/dnsx/dualstack.go:117-138 | the first source determines the address |
| `Dualstack.TranslatedClientIsSourced` | internal/dnsx/dualstack.go:117-138 | such a client is mapped to its own IPv4 address and no other, whatever the bindings and the outside service say |
| `Dualstack.BoundClientIsMapped` | internal/dnsx/dualstack.go:117-138 | a client without an embedded address that has a binding is mapped to the address of its best one and no other, whatever the outside service says |
| `Dualstack.DeriveECS` | internal/dnsx/dualstack.go:89-115 | a subnet is derived exactly for IPv6 clients whose first source's address passes the check, and it wraps that address |
| `Dualstack.DerivedEcs` | internal/dnsx/dualstack.go:89-115 | every derived subnet is a masked family-1 subnet: the verified address rounded down to the configured block, for the masks 0..32 that the configuration accepts (internal/config/config.go:310) |
| `L1.L1Cache.constructor` | internal/dnsx/l1cache.go:48-60 | an empty cache with 64 shards and the shard bound max(1, maxEntries / 64) |
| `L1.HashKey` | internal/dnsx/l1cache.go:147-154 | the loop computes the 32-bit FNV-1a recurrence |
| `L1.XorBits` | internal/dnsx/l1cache.go:147-154 | each binary digit of the modelled exclusive or is one exactly when those of the arguments differ |
| `L1.LatestMeaning` | internal/dnsx/l1cache.go:67-133 | the reference value of a key is its latest positive-TTL put with no later delete or matching purge |
| `L1.UnexpiredIff` | internal/dnsx/l1cache.go:67-80 | the reference has an unexpired entry exactly when the latest store is younger than its TTL and the cache's maximum, and the entry is that of the store with the smaller of the two |
| `L1.L1Cache.Get` | internal/dnsx/l1cache.go:67-80 | there is a hit exactly when no eviction has dropped the key and its latest store, not removed since, is younger than its TTL and the cache's maximum; the hit is what was stored, with the smaller of the two |
| `L1.UnpackedInTimeIff` | internal/dnsx/l1cache.go:157-170 | the TTL served for an entry stays within its lifetime exactly when that has not run out at unpacking, and then age and TTL add up to it |
| `L1.LateUnpackWraps` | internal/dnsx/l1cache.go:157-170 | once the lifetime has run out by some seconds the served TTL is 2^32 minus them |
| `L1.HitCanWrap` | internal/dnsx/l1cache.go:157-170 | a lookup in the last second of an entry and an unpacking two seconds later serve a TTL of 2^32-1 |
| `L1.L1Cache.Put` | internal/dnsx/l1cache.go:83-108 | stores the entry, evicting if needed, keeps every key in its shard, the bound and the agreement with the history up to the keys it evicts; a TTL of zero or less is ignored |
| `L1.L1Cache.Del` | internal/dnsx/l1cache.go:111-116 | removes the key and nothing else |
| `L1.L1Cache.PurgePrefix` | internal/dnsx/l1cache.go:120-133 | removes exactly the keys with the prefix and returns their number |
| `L1.Evict` | internal/dnsx/l1cache.go:92-105 | eviction only removes, and makes room |
| `L1.L1Cache.Len` | internal/dnsx/l1cache.go:136-144 | the number of entries, never above 64 times the shard bound |
| `L1.TotalBound` | internal/dnsx/l1cache.go:136-144 | bounded shards bound the total |
| `AnswerTtl.MsgTtl` | internal/dnsx/cache.go:158-176 | the smallest answer TTL, capped at 2^31-1, or the minimum of the first SOA record of a success without answers, or 0 |
| `AnswerTtl.LifetimeMeaning` | internal/dnsx/cache.go:158-176 | with answers it is the greatest number within 2^31-1 and within every answer TTL; without, the minimum of the first SOA record of a success; else 0 |
| `AnswerTtl.StoredTtlBounds` | internal/dnsx/cache.go:79-101 | a stored TTL is between 1 and the message's lifetime, at most the configured maxima, at most every answer TTL and, without answers, the SOA minimum |
| `AnswerTtl.StoredTtlIsLargest` | internal/dnsx/cache.go:79-101 | and it is the largest such value |
| `AnswerTtl.CachedIff` | internal/dnsx/cache.go:79-101 | exactly which messages are cached |
| `AnswerTtl.BareNameErrorIsNotCached` | internal/dnsx/cache.go:158-180 | a name error without answers is not cached, whatever its SOA says |
| `AnswerTtl.AdjustTtls` | internal/dnsx/cache.go:148-156 | sets the TTL of every answer and authority record in place and nothing else |
| `AnswerTtl.HitIsInTime` | internal/dnsx/cache.go:54-74 | at every age, age plus served TTL of each answer equals the stored TTL and stays within each original TTL |
| `AnswerTtl.AnswerCache.Put` | internal/dnsx/cache.go:79-101 | stores message, time and TTL, or nothing for TTL 0 or an unserialisable message |
| `AnswerTtl.AnswerCache.Get` | internal/dnsx/cache.go:54-74 | hits exactly while the age is below the TTL and serves the stored message with the remaining TTL, its answers always within their original TTLs and its authority section exactly under its condition |
| `AnswerTtl.AuthorityKeptIff` | internal/dnsx/cache.go:148-156 | a hit of whatever age serves every authority record within its own TTL exactly when the least authority TTL is positive and not below the message's lifetime or a configured maximum that applies |
| `AnswerTtl.AuthorityTtlGrows` | internal/dnsx/cache.go:148-156 | an authority TTL of 5 seconds is served as 300 |
| `CacheKeys.Safe` | internal/store/cache.go:212-228 | the builder loop with its early exit computes the escaped, capped form |
| `CacheKeys.SafeShape` | internal/store/cache.go:212-228 | for every input the result is not empty, has no colon and at most 126 characters |
| `CacheKeys.OrdinaryIsKept` | internal/store/cache.go:212-228 | a text of 1 to 120 letters, digits, dots, underscores, hyphens and slashes is its own form |
| `CacheKeys.SafeRoundTrip` | internal/store/cache.go:212-228 | the escaping of non-empty input with escapes in U+0010..U+00FF and a form under 120 characters can be undone |
| `CacheKeys.SafeIsInjective` | internal/store/cache.go:212-228 | so different such inputs have different forms |
| `CacheKeys.SafeKeepsApartIff` | internal/store/cache.go:212-228 | exactly when inputs are kept apart: on an alphabet with the hexadecimal digits, different non-empty inputs with forms under 120 characters have different forms if and only if no escape of the alphabet begins a longer one |
| `CacheKeys.RegularIsPrefixFree` | internal/store/cache.go:212-228 | the characters with two-digit escapes are such an alphabet |
| `CacheKeys.LongerEscapeCollides` | internal/store/cache.go:218 | where one character's escape begins another's, the first followed by the missing digits is written like the second, in any context |
| `CacheKeys.TruncationForgets` | internal/store/cache.go:220-222 | beyond 120 characters the rest of the input leaves no trace |
| `CacheKeys.EmptyCollides` | internal/store/cache.go:224-226 | the empty input is written like an underscore |
| `CacheKeys.KeysEqualIff` | internal/store/cache.go:199-204 | for every input two keys are equal exactly when the escaped parts and the query types are |
| `CacheKeys.OrdinaryKey` | internal/store/cache.go:199-204 | with ordinary parts the key is the prefix `dns:cache:`, tenant, scope or `g` for none, lower-cased name and type, with colons between them |
| `CacheKeys.CacheKeyIsInjective` | internal/store/cache.go:199-204 | equal keys have the same type and, part by part, the same tenant, scope and lower-cased name whenever both parts are short inputs over a prefix-free alphabet |
| `CacheKeys.TypesShareKeyIff` | internal/dnsx/handler.go:354 | for one tenant, scope and name two query types share a key exactly when they are equal or both unknown to the library |
| `EcsStage.Process` | internal/dnsx/handler.go:302-331 | the reassignments of the stage compute the staged subnet, the outgoing query and the key of that subnet |
| `EcsStage.StagePrecedence` | internal/dnsx/handler.go:302-331 | the simulated subnet or else the client's goes first unless the tenant forbids it, then the derived one, then the tenant's default; a client's leaves the query as it came, every other is the only one its OPT record then carries |
| `EcsStage.DropSubnets` | internal/dnsx/ecs.go:120-126 | filtering in the options' own storage keeps exactly the other options, in order |
| `EcsStage.AttachLeavesOne` | internal/dnsx/ecs.go:108-135 | the query then carries the hidden subnets of earlier OPT records and the given one, so the given one only exactly when none was hidden, and all other options |
| `EcsStage.AttachKeepsRest` | internal/dnsx/ecs.go:108-135 | the option has scope 0, the OPT record a size of 4096 and its flags as before, and all other records stay as they are; a query without one gets one at its end |
| `EcsStage.StripLeavesNone` | internal/dnsx/ecs.go:139-152 | stripping leaves the hidden subnets and no other, so none exactly when none was hidden, and is idempotent |
| `EcsStage.ClientSubnetDoesNotInterfere` | internal/dnsx/handler.go:302-331 | for a tenant without ECS and no simulation, requests that differ only in subnet options of whichever OPT records give the same key; the outgoing queries are equal exactly when what comes before the last OPT record is, in particular when no subnet is hidden there |
| `EcsStage.KeyedSubnetIsCarried` | internal/dnsx/handler.go:302-331 | with a derived, default or accepted simulated subnet, or a refused client subnet, the whole query carries exactly what the key was computed from if and only if no OPT record before the last one has a subnet option |
| `EcsStage.SubnetsSplit` | internal/dnsx/ecs.go:29-48 | the subnet options of a query are those of earlier OPT records and those of the last one, the only one looked at |
| `EcsStage.HiddenSubnetIsSent` | internal/dnsx/ecs.go:139-152 | a second OPT record hides the client's subnet: the query of a tenant without ECS is keyed as global and sends it upstream |
| `EcsStage.ClientOptionIsForwarded` | internal/dnsx/handler.go:302-303 | an allowed client option goes out unchanged while the key uses its normalised, clamped form |
| `EcsStage.ForwardedIsKeyedIff` | internal/dnsx/handler.go:302-303 | for an option of any family and address size: the forwarded option is the keyed one exactly when it has a length and an address and needed neither normalising nor clamping |
| `EcsStage.ClientKeyIsBlock` | internal/dnsx/ecs.go:53-104 | the key of an IPv4 client is the block its address lies in, of the length asked for (24 when none is named, at most 32), cut down to the configured maximum |
| `EcsStage.FineSubnetLeavesUnclamped` | internal/dnsx/ecs.go:53-64 | a /32 is forwarded while the key names its /24 |
| `LikeEscape.SequentialIsOnePass` | internal/store/querylog.go:401-406 | the three replacements in sequence equal a one-pass escaper |
| `LikeEscape.EscapeRoundTrip` | internal/store/querylog.go:401-406 | the escaping can be undone |
| `LikeEscape.FilterIsSubstring` | internal/store/querylog.go:210-213 | the filter matches a text exactly when it contains the search string |

## Left out

- MySQL, Redis and the network: tables and keys are sequences and maps, each handler's commands are atomic, text is stored verbatim (so no JSON normalisation of `detail`), and a row's time is its formatted text.
- SHA-256, JWT signing, bcrypt, TLS, QUIC, ACME, RRSIG validation and GBK decoding: arbitrary functions or absent. `normalizeISP` and `extractProvince` are part of the location databases' answers here.
- Message packing and unpacking: messages are records of sections and options; only the framing works on octets.
- Hot reload, single flight and the interleaved log writer as classes: their goroutines share state under locks, so they are machines over values; aliasing between goroutines is not modelled.
- Counter widths: the 64-bit log counters, the 32-bit failure counter and record offsets beyond 4 GiB do not wrap; the 32-bit round-robin cursor and FNV hash do.
- Floating-point rounding in `Duration.Seconds()`: durations are truncated exactly.
- Upstream.Group.ExchangeWithFailover: a nil group (a plain error) is not a case; which entries are reached is stated for undisturbed calls.
- Upstream.Group.Select: other goroutines sorting the same slice at the same time is modelled as whole sorts between steps, not as a data race.
- ReadAhead.RestIsIntactIff: for messages with a record of 4096 octets or more of data, which bypass the buffer, the octets lost are computed (`Framing.Ahead`) but no closed condition is given.
- Qqwry.Lookup: a read beyond the end of the file is the outcome `Truncated`; the program panics there, or reads spare capacity of its buffer.
- SessionLifetimes.AccessLasts: like the other theorems about runs of `Sessions`, assumes what the next line says.
- Sessions.RevocationIsFinal: assumes access lifetimes of at most 30 days, the lifetime of the revocation mark, a positive refresh lifetime, fresh random ids and a clock that does not go back.
- Undisturbed.RoundRobinReachesAllIff: assumes that the ids of a group's upstreams differ, as their primary key ensures.
- AnswerTtl.AnswerCache.Get: assumes a clock that does not go back.
- EcsStage.Process: subnets are compared as address and length; their text form and the parsing of the default ECS are not modelled, and stripping an option in the caller's own message object is modelled on a copy.
- CacheKeys.CacheKeyIsInjective: names are compared after lower-casing by an arbitrary function.
- The tenant lookup by domain, the login limiter and lock threshold, warm-up progress counters, the statistics window and the memory cache driver.
- Front ends, deployment files, the certificate manager, configuration loading, other HTTP handlers and the benchmark tool.
