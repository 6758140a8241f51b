# Verified model of the wiki backend's protocols

This project models the parts of the backend whose correctness rests on more than one function, and proves what they
promise, for every input, every run or every interleaving.

* **Cache** (`CacheKeys`, `CacheIndex`, `CacheProtocol`, `CacheSteps`, `CacheCoherence`, `CacheInterleavings`,
  `CacheClient`).
  Readers take an epoch, read the database and store; writers commit, bump the epoch and delete through per-namespace
  index sets, or by a full flush. `CacheProtocol` is the concurrent protocol as a state machine in which every Redis
  command, and every transactional pipeline, is one step; `CacheSteps` says what each step changes and proves that only
  keys that a purge is about are ever deleted; `CacheCoherence` proves that invalidation of exact keys, of
  namespaces and of everything is coherent over every interleaving, namespaces under a hypothesis on single steps;
  `CacheInterleavings` proves that every step that breaks that hypothesis can be continued, from every reachable state,
  until a finished purge has missed a stale value. `CacheClient` is one process's
  client with Redis failing at any command: its indexes always agree with a plain prefix scan, a purge deletes exactly
  what it names, no purge is ever forgotten, and the circuit breaker is open exactly while three failures in a row are
  the last it has seen.
* **GM blocks** (`Secrets`, `SecretsSql`). The one-pass scanner computes a recursive-descent reading of nested
  containers; what it leaves is safe and a subsequence of the input. The SQL twin of two regular expressions shows no
  more than the scanner exactly when no block reuses the closing colons of the block before it.
* **Pagination** (`Pagination`, `CursorCodec`, `JsonText`, `CursorToken`, `CursorWalk`). Walks over a table that changes
  between requests; the cursor token as base64 of JSON with a length bound; and walks as a client makes them, by tokens
  that the server may refuse.
* **Tokens and sessions** (`Sessions`). Single use, revocation and logout over every interleaving of requests, with
  real-valued time, floored TTLs and lost replies.
* **Transactions** (`Transaction`). Re-entrant blocks, commits that fail or take effect and raise, exceptions, and
  callbacks that open blocks of their own.
* **Rate limiting** (`RateLimit`). The bounded in-memory window, the fixed window kept in Redis, and the advertised
  retry delay.
* **Search** (`Search`). LIKE escaping against a LIKE matcher.
* **Data migrations** (`AsiMigration`, `TagMerge`). What two migrations preserve, and exactly when they abort.

A Redis call may fail at any point, before or after it took effect; this is modelled by nondeterministic choice. Times
are reals on one clock that does not run backwards. Classes stand for the objects whose fields the program updates;
datatypes and functions for its values and for the specifications. `Common` and `Numerals` hold what several modules
share.

## Results where the code and a natural reading differ

* `SecretsSql.FourColonsDefeatTwin`: on `:::gm::::gm` the scanner hides everything and the SQL twin does not. The exact
  condition is `Clash`, and texts without a run of four colons never meet it (`SecretsSql.TwinFailsClosed`).
* `CacheInterleavings.BreakingStepGoesStale` and `GapFreeRunsAreSafe`: purges of a namespace can miss a stale value, and
  exactly three kinds of step lead there: a SET that finds its epoch unchanged and falls between the UNLINK and the SREM
  of a purge (a run: `SetInsideGapIsMissed`), a full flush that unlinks the index set of a key set after its scan
  (`SetInsideFlushIsMissed`), and a full flush that fails between an index set and a key listed there
  (`FailedFlushIsMissed`; the miss lasts until the failed flush is replayed). Exact keys and finished flushes are not
  affected.
* `CacheInterleavings.FailedDropLeavesStale`: when a reader's own drop raises, neither it nor the writer that has purged
  the key tries again.
* `CursorWalk.LongNameStopsWalk`: `encode_cursor` sets no bound and `decode_cursor` refuses more than 512 characters, so
  the server answers 422 to its own `next_cursor` when a name of 60 Cyrillic letters ends a page. The exact condition is
  `CursorWalk.TokenWalkTerminatesIff`.
* `Sessions.MarkerLapsesFirst`: the blacklist marker is kept for the floored lifetime, so a logged-out token is accepted
  again in the last fraction of a second before it expires; the documentation has both end at the same moment.
* `Sessions.EarlierCheckSlips`: a refresh token that was checked before a password reset revokes the user's sessions can
  be claimed after it, and its request succeeds. A check that follows the revocation always refuses
  (`Sessions.RevokedTokensAreRefused`); tokens issued in the very millisecond of the revocation pass
  (`Sessions.CheckIsExact`).
* `Transaction.LostCommitDropsCallback`: a COMMIT that takes effect and then raises, as when its reply is lost, counts as
  a failure, so the cache purges registered in the block are dropped although its rows are durable. This is the only
  way for a callback of a durable block not to run (`Transaction.RanOnceOrForgotten`).
* `RateLimit.RetryCanComeTooEarly`: `Retry-After` is computed for fixed windows; in the in-memory fallback a client
  that waits as told may be refused again. `RateLimit.LocalWindow.RetryAsTold` gives the exact condition.
* `AsiMigration.RevertedIsUpgradable`: a downgrade followed by an upgrade aborts exactly if some amount has ten digits,
  which the column can hold and the check of the upgrade refuses (a run: `TenDigitsStayDown`).
* `TagMerge.CollideIffBlocked`: the merge breaks the composite key, and so aborts, exactly if some entity is linked to
  two tags of a group but not to its keeper (a run: `LosersAbort`); the migration's comment says that such duplicates
  cannot abort it.

## Model

| member | source | states |
|---|---|---|
| CacheKeys.Split | app/core/cache/client.py:209-210 | `split(":")` yields at least one segment, no segment holds a colon, and joined by colons they give the string back |
| CacheKeys.SplitConcat | app/core/cache/client.py:209-210 | splitting distributes over joining with a colon |
| CacheKeys.PurgedIndexBySegments | app/core/cache/client.py:202-217 | a key lists the index that a namespace purge reads exactly if it is deeper than the namespace (up to two levels) and agrees with its first one or two segments |
| CacheKeys.IndexSelectsNamespace | app/core/cache/client.py:239-258 | the index a purge reads, filtered as the purge filters it, holds exactly the keys that start with `<prefix>:<namespace>:`, for namespaces of every depth |
| CacheKeys.PurgeClearsTop | app/core/cache/client.py:246-256 | the top index that a deeper purge clears afterwards is one that every purged key belongs to |
| CacheProtocol.SremAll | app/core/cache/client.py:255-256 | the SREM that ends a purge removes its keys from the named sets and changes no other set |
| CacheIndex.Added | app/core/cache/client.py:402-411 | the SADDs of a set pipeline add the key to the named sets and change no other set |
| CacheSteps.StepChangesData | app/core/cache/client.py:275-284 | per step: exactly the evicted keys, the unlinked chunk, a writer's exact keys or a reader's own key leave the data; only a SET stores, its own key with what its reader computed; every other entry is unchanged |
| CacheSteps.StepChangesIndex | app/core/cache/client.py:231-284 | per step: a set loses exactly the chunk of an SREM, what a purge takes out of the top index, what a flush unlinks, or dropped keys that belong to it, and gains only a SET's key that belongs to it |
| CacheSteps.FlushMoves | app/core/cache/client.py:420-423 | a reader's flush starts with its whole first index, and each chunk is deleted, then taken out of the index, with nothing lost on the way |
| CacheSteps.PurgeMoves | app/core/cache/client.py:229-236 | a writer's purge of a namespace likewise, one namespace after the other |
| CacheSteps.OnlyNamedKeysGo | app/core/cache/client.py:220-299 | over every run: a key that a step deletes was evicted, is under a namespace of the purging writer, is one of its exact keys or the reader's own, is under the prefix of a full flush, or shares the top namespace of an overflowing index |
| CacheSteps.ExactKeysAreExact | app/core/cache/client.py:278-279 | invalidating `p:users:1` leaves `p:users:10` alone |
| CacheSteps.PurgesMayFail | app/core/cache/client.py:316-333 | a purge may fail at any moment between its bump and its end, and can then be retried |
| CacheSteps.FlushLeavesNothing | app/core/cache/client.py:261-272 | a flush that ends, with no SET since its scan, has left no key under the prefix and no member in an index set; the epoch counter is exempt |
| CacheSteps.FlushCanEnd | app/core/cache/client.py:261-272 | a flush that has unlinked what its scan met can end |
| CacheCoherence.StaleSetIsCaught | app/core/cache/client.py:406-418 | a SET of a value read before the commit of a writer that has bumped always finds another epoch than it took |
| CacheCoherence.StepKeepsInv | app/core/cache/client.py:275-299 | every enabled step of every reader, writer, flush, failure or eviction keeps the invariant for exact keys and flushes |
| CacheCoherence.ExactKeysAreCoherent | app/core/cache/decorator.py:115-130 | over every interleaving: once a writer has finished, none of its keys holds a value computed before its commit, unless the reader that stored it has yet to run its own drop or that drop raised |
| CacheCoherence.FlushIsCoherent | app/core/cache/client.py:261-272 | over every interleaving: once a full flush has finished, no key under the prefix holds such a value, with the same exception |
| CacheCoherence.StartedPurgeSeesNamespace | app/core/cache/client.py:229-230 | with complete indexes, the members a purge reads include every key under its namespace, unless its reader is about to drop it or failed to, or a flush is about to unlink it and has taken an index set away from it |
| CacheCoherence.StepKeepsNsInv | app/core/cache/client.py:220-258 | every step keeps the namespace invariant (complete indexes, no stale value under a purged namespace), unless it is a SET that settles its key inside the gap of a purge, an UNLINK of a flush that takes an index set away from a settled key, or a failure of a flush that settles a key which is missing from an index or in such a gap |
| CacheCoherence.NamespacesAreCoherent | app/core/base/transaction.py:119-129 | the same coherence for whole namespaces, over every interleaving without such steps; a SET that finds another epoch may fall anywhere, and so may every other failure |
| CacheCoherence.SettledKeysAreIndexed | app/core/cache/client.py:202-217 | in the same runs every live key is in all its indexes, unless its reader is about to drop it or failed to, or a flush is about to unlink it |
| CacheInterleavings.DangerousSetGoesStale | app/core/cache/client.py:231-234 | from every reachable state, a SET that breaks the gap hypothesis can be continued until a namespace purge has finished and left its value live, settled and stale |
| CacheInterleavings.DangerousSweepGoesStale | app/core/cache/client.py:261-272 | the same for every settled key from which an UNLINK of a full flush takes an index set away |
| CacheInterleavings.DangerousFailGoesStale | app/core/cache/client.py:261-272 | the same for every failure of a full flush that breaks the hypothesis |
| CacheInterleavings.BreakingStepGoesStale | app/core/cache/client.py:220-272 | hence the hypothesis is exact: from every reachable state, every step that breaks it can be continued until a finished purge has missed a stale value |
| CacheInterleavings.GapFreeRunsAreSafe | app/core/cache/client.py:220-272 | and no run that keeps it reaches such a state |
| CacheInterleavings.SetInsideGapIsMissed | app/core/cache/client.py:231-234 | a run in which a SET falls into the gap of a purge and is missed |
| CacheInterleavings.SetInsideFlushIsMissed | app/core/cache/client.py:261-272 | a run in which a SET falls between the scan of a flush and its UNLINK of the index set and is missed |
| CacheInterleavings.FailedFlushIsMissed | app/core/cache/client.py:261-272 | a run in which a flush unlinks an index set and fails before a key listed there, which is then missed |
| CacheInterleavings.FailedDropLeavesStale | app/core/cache/client.py:413-426 | a reachable state in which an exact purge has finished and its key holds a stale value whose reader has given up dropping it; neither of the two can take another step |
| CacheClient.PendingPurges.Add | app/core/cache/client.py:153-161 | what is remembered afterwards covers everything covered before and everything added, in at most 5000 entries; beyond that, and only then, it collapses into the flush marker |
| CacheClient.PendingPurges.Take | app/core/cache/client.py:163-166 | hands over all that is remembered and leaves nothing |
| CacheClient.CircuitBreaker.Allow | app/core/cache/client.py:114-121 | lets calls through while closed or after five seconds open, and then is one failure away from opening again |
| CacheClient.CircuitBreaker.Success | app/core/cache/client.py:123-125 | closes the breaker, forgets all failures, and records a success |
| CacheClient.CircuitBreaker.Failure | app/core/cache/client.py:127-134 | opens, and says so, exactly on the third or a later failure while closed; afterwards it is open exactly if the last three recorded calls failed |
| CacheClient.StreakIsSuffix | app/core/cache/client.py:100-134 | the failures in a row at the end of a history are at least n exactly if its last n calls failed |
| CacheClient.Cache.OpenAfterThreeFailures | app/core/cache/client.py:100-134 | over every history of operations: the breaker refuses only after three calls in a row whose commands failed |
| CacheClient.Cache.NeverRefusedWithoutFailures | app/core/cache/client.py:100-134 | a client none of whose commands has failed is never refused |
| CacheClient.Matching | app/core/cache/client.py:230 | keeps exactly the members with the given key prefix |
| CacheClient.DeadSremKeepsIndexed | app/core/cache/client.py:231-234 | taking dead keys out of an index never takes a live key out of it |
| CacheClient.StoreKeepsIndexes | app/core/cache/client.py:402-411 | a set pipeline leaves every live key in every index it belongs to, and indexes list only such keys |
| CacheClient.Cache.PurgeChunk | app/core/cache/client.py:231-234 | one chunk leaves the data and then the index, or a failure leaves live keys indexed |
| CacheClient.Cache.PurgeIndex | app/core/cache/client.py:220-236 | deletes and unlists exactly the selected members, in chunks, and returns them; a failure, which needs a failed command, deletes only some of them |
| CacheClient.Cache.PurgeNamespace | app/core/cache/client.py:239-258 | deletes exactly the live keys that start with `<prefix>:<namespace>:`, and takes what it read of them out of the index it read and out of the top index, and out of no other; fails only if a command failed, and then deletes only such keys |
| CacheClient.Cache.ScanDelete | app/core/cache/client.py:261-272 | no key under the prefix and no index set is left, and no other key is touched |
| CacheClient.Cache.DropKeys | app/core/cache/client.py:275-284 | the keys leave the data and all their indexes together, or nothing happens |
| CacheClient.Cache.ApplyPurge | app/core/cache/client.py:287-299 | bumps the epoch, then nothing that the purge names is left; it deletes nothing else, and in a flush nothing outside the prefix |
| CacheClient.Cache.ReplayPending | app/core/cache/client.py:302-313 | afterwards nothing live is out of date, or everything is still remembered; it deletes only what was remembered |
| CacheClient.Cache.RunPurge | app/core/cache/client.py:316-333 | whatever the purge names is gone when it returns, or remembered; it is all gone, with nothing left to replay, when no command failed; after a failure exactly this purge, and what was remembered before unless that was replayed, is remembered; only keys named by this or a remembered purge are deleted; the breaker records the outcome |
| CacheClient.Cache.DeleteMany | app/core/cache/client.py:441-455 | the same for namespaces and exact keys, and no purge for an empty request |
| CacheClient.Cache.FlushAll | app/core/cache/client.py:458-470 | the same for the whole prefix |
| CacheClient.Cache.ReadEpoch | app/core/cache/client.py:336-359 | answers exactly if the breaker allows it and no command failed, and then nothing live is out of date; the breaker records the outcome of a call it let through, and only that |
| CacheClient.Cache.Get | app/core/cache/client.py:362-380 | returns the live value exactly if the breaker allows it and no command failed; never a value that a purge requested after it was stored should have removed, although any command of that purge may have failed; the breaker records the outcome, a success if no command failed |
| CacheClient.Cache.AfterSet | app/core/cache/client.py:413-423 | drops the key if the epoch has moved, flushes the first index if it outgrew the cap, otherwise changes nothing |
| CacheClient.Cache.StoreNew | app/core/cache/client.py:402-423 | the key is live afterwards exactly if the epoch has not moved and its index is within the cap; other keys go only in an overflow flush of the same top namespace |
| CacheClient.Cache.Set | app/core/cache/client.py:383-426 | no other value is replaced; served without failure, the key holds the new value, or the epoch has moved or its namespace was flushed; the breaker records the outcome |
| CacheClient.Cache.Evict | app/core/cache/client.py:404-409 | expiry of data keys keeps all invariants; index sets persist |
| Secrets.BlockEndIsClose | app/features/shared/secrets.py:53-57 | a container ends just after a bare `:::`, or with the text |
| Secrets.Name | app/features/shared/secrets.py:27 | the token pattern captures a name exactly when a letter follows the colons; a GM opener is a name that starts with "gm" in any case |
| Secrets.VisitTracks | app/features/shared/secrets.py:40-58 | one round of the loop keeps: collected text plus what the reading says remains is the reading of the whole text, and the same for the nested flag |
| Secrets.Scan | app/features/shared/secrets.py:33-63 | the loop computes the recursive-descent reading, and its flag is true exactly if that reading meets a container inside a GM block, whatever `\w` admits |
| Secrets.StrippedIsSafe | app/features/shared/secrets.py:66-69 | no `:::gm` in any letter case survives, not even across the seams of removed blocks; stripping is idempotent |
| Secrets.StrippedIsSubsequence | app/features/shared/secrets.py:40-63 | the visible text is a subsequence of the input |
| Secrets.StripGmBlocks | app/features/shared/secrets.py:66-69 | None stays None; any text becomes its safe reading |
| Secrets.HasNestedGmContainer | app/features/shared/secrets.py:72-75 | true exactly if there is a text whose reading nests |
| SecretsSql.MatchEndIsTheMatch | app/constants.py:447 | of all words the two patterns match at a position, the nested pattern takes the longest and the flat one the shortest |
| SecretsSql.TwinFailsClosedIff | app/features/shared/secrets.py:78-82 | with an empty replacement, the twin shows a prefix of what the stripper shows exactly if no block starts on the closing colons of the block before it; without nesting the two are equal under the same condition |
| SecretsSql.TwinFailsClosed | app/features/shared/secrets.py:78-82 | hence it fails closed on every text without a run of four colons |
| SecretsSql.FourColonsDefeatTwin | app/features/shared/secrets.py:25-27 | a text with four colons on which it shows what the stripper hides |
| SecretsSql.SpacedTwin | app/features/shared/secrets.py:78-82 | with the default replacement the database text is consecutive slices of the text joined by spaces, the same slices as with an empty replacement; without a clash these make a prefix of what the stripper shows |
| Pagination.KeysetIsBefore | app/core/pagination.py:163-169 | the keyset condition selects exactly the rows after the cursor's row in the ordering |
| Pagination.CursorPage | app/core/pagination.py:172-184 | a prefix of at most `size` rows; the next position is that of its last row, and null exactly if nothing is left |
| Pagination.PagePrecedesRest | app/core/pagination.py:163-184 | everything on a page precedes everything the next cursor seeks |
| Pagination.PageOrRest | app/core/pagination.py:163-184 | a row still sought is on the page or sought by the next cursor |
| Pagination.SortedIsUnique | app/core/base/repository.py:293-300 | the sort value with the id as tie-break determines the listing |
| CursorCodec.Unpadded | app/core/pagination.py:122-126 | a token of n bytes has (4n + 2) / 3 ASCII characters and no padding |
| CursorCodec.PaddingRoundTrip | app/core/pagination.py:139-143 | dropping the padding and restoring it with `-len % 4` is inverted by the lenient decoder, for every byte string |
| CursorCodec.DecoderIsLenient | app/core/pagination.py:143 | incomplete padding and non-ASCII text are refused; both pairs of the last two digits are read |
| CursorCodec.Fooba | app/core/pagination.py:126 | a test vector of section 10 of RFC 4648 |
| JsonText.ReadEscaped | app/core/pagination.py:126 | every text, written with ASCII escapes and surrogate pairs, is read back up to its closing quote |
| JsonText.ReadIntText | app/core/pagination.py:126 | every integer is read back with its sign, and no leading zero is accepted |
| JsonText.ReaderIsStrict | app/core/pagination.py:143 | an object opens with a brace, a name with a quote, a colon follows it, and a comma or the closing brace the value |
| CursorToken.PayloadIsRead | app/core/pagination.py:125-126 | a reader of JSON objects, fields in any order, reads the payload as the sort under "s", the value under "v" and the id under "i" |
| CursorToken.PayloadIs | app/core/pagination.py:125-126 | the payload is the text `{"s":<sort>,"v":<value>,"i":<id>}` without spaces |
| CursorToken.DumpsIsInjective | app/core/pagination.py:125-126 | the payload determines the three fields, since a reader of JSON gives them back |
| CursorToken.CursorRoundTrip | app/core/pagination.py:122-160 | for text and timestamp orderings: a cursor fits 512 characters exactly if its payload has at most 384 bytes, and decodes to itself exactly if it fits, its id is positive and it is presented for its own ordering; otherwise it is rejected |
| CursorWalk.TokenWalkIff | app/core/pagination.py:129-184 | a walk by tokens is a walk by positions in which the server accepts the cursor of every page but the last |
| CursorWalk.TokenWalkIsStable | app/core/base/repository.py:293-300 | however the table changes between requests, a complete walk lists rows in strict order without duplicates, only rows that were there, and every row that stayed throughout |
| CursorWalk.TokenWalkTerminatesIff | app/core/pagination.py:129-184 | a fixed table can be walked to a null cursor exactly if the cursor of the last row of every page but the last has a payload of at most 384 bytes and a positive id |
| CursorWalk.TokenWalkOfFixedTable | app/core/pagination.py:172-184 | and then the walk lists exactly the sorted table, on as few pages as the size allows |
| CursorWalk.LongNameStopsWalk | app/features/characters/crud/service.py:100-104 | a listing by name whose first page ends in a name of 60 or more characters such as Cyrillic letters cannot be walked: the server refuses its own cursor |
| CursorWalk.PlainNamesCanWalk | app/features/spells/crud/service.py:76-86 | names of at most 350 plain ASCII characters never stop a walk, whatever the page size |
| Sessions.RemainingSeconds | app/core/security/token.py:123-134 | the floored lifetime never outlives the token, falls short of it by less than a second, and is 0 exactly in the last second |
| Sessions.AuthRedis.ClaimToken | app/features/auth/sessions.py:74-91 | wins exactly if a positive lifetime is left and no live marker exists; once won, no claim of that token wins at any later moment; other tokens and revocations are untouched |
| Sessions.AuthRedis.ReleaseToken | app/features/auth/sessions.py:94-101 | removes the marker, or nothing |
| Sessions.AuthRedis.BlacklistToken | app/core/security/token.py:198-223 | the token is rejected until its floored lifetime is over; no lifetime, no marker |
| Sessions.MarkerLapsesFirst | app/core/security/token.py:198-223 | a blacklisted token is accepted again exactly between the end of its floored lifetime and its expiry, less than a second later |
| Sessions.AuthRedis.RevokeUserSessions | app/features/auth/sessions.py:59-71 | for as long as a refresh token lives, and no longer, exactly the tokens of the user issued before are rejected; tokens of other users are not affected |
| Sessions.AuthRedis.IsSessionRevoked | app/features/auth/sessions.py:39-56 | the answer is exact for the store as it is; a token let through, and not expired, was issued after every completed revocation of its user and has no live marker; a token is rejected only if it may have been marked or predates a revocation of its user |
| Sessions.HeldIsNotClaimable | app/features/auth/sessions.py:74-91 | while a request holds a token no claim of it wins, whether its marker is live or has lapsed |
| Sessions.StepKeepsHolders | app/features/auth/service.py:161-233 | every step of every request, the clock, or a logout keeps at most one holder per token |
| Sessions.TokensAreSingleUse | app/features/auth/service.py:161-233 | over every interleaving and for all time, at most one request per token succeeds; a reset token changes the password at most once more than failures followed a change |
| Sessions.StepCounts | app/features/auth/service.py:224-231 | the two counts grow by one exactly at a committed password change, and at a failure after one |
| Sessions.CreatedTokenOk | app/core/security/token.py:47-52 | a created token expires no later than its lifetime after its `iat_ms` |
| Sessions.CreatedTokenIsExact | app/core/security/token.py:46-50 | `iat_ms` is the moment of issue in whole milliseconds, `exp` that moment plus the lifetime in whole seconds |
| Sessions.LegacyTokenIsDated | app/core/security/token.py:108-121 | a token without `iat_ms` is dated by its expiry, at most a second too early |
| Sessions.StepKeepsRevocations | app/features/auth/sessions.py:59-71 | every step keeps each completed revocation, or a later one, in the store for as long as any older token can live |
| Sessions.RevocationIsPermanent | app/core/security/token.py:108-121 | after a revocation, a token issued before it is rejected at every later moment, by the revocation key or by its own expiry, for all three kinds and for tokens without `iat_ms` |
| Sessions.CheckIsExact | app/features/auth/sessions.py:39-56 | over every run: the check refuses an unexpired token exactly if it carries a live marker or was issued before the millisecond of a completed revocation of its user |
| Sessions.RevokedTokensAreRefused | app/features/auth/service.py:176-177 | over every interleaving: no request whose check follows a completed revocation ever claims, changes a password or succeeds with an older token of that user |
| Sessions.TokensIssuedBeforeAreRefused | app/features/auth/service.py:161-233 | the same by the moments of the steps: issued, revoked in a later millisecond, checked |
| Sessions.EarlierCheckSlips | app/features/auth/service.py:176-182 | a run in which a refresh is checked before a revocation, claims after it, and succeeds |
| Sessions.HoldsByClaim | app/features/auth/service.py:176-182 | a request comes to hold its token only by winning a claim, with lifetime left and no marker, after its check let it through |
| Sessions.ClaimIsExact | app/features/auth/sessions.py:74-91 | a checked request wins its claim exactly if a whole second of lifetime is left and no live marker exists; a refresh has then succeeded |
| Sessions.LostClaimMarks | app/features/auth/sessions.py:85-91 | a claim whose reply is lost has marked the token all the same |
| Sessions.ReleasedTokenIsClaimable | app/features/auth/sessions.py:94-101 | a released token can be claimed by a retry exactly while a second of its lifetime is left |
| Sessions.EveryCallMayFail | app/features/auth/sessions.py:74-101 | wherever a request may claim, update, revoke or release, that call may fail instead |
| Sessions.LoggedOutTokensAreRefused | app/features/auth/service.py:238-256 | over every interleaving: after a logout no request that had not claimed the refresh token ever does, wherever its check falls |
| Sessions.SuccessfulResetIsComplete | app/features/auth/service.py:219-231 | a reset that answers with success has changed the password and revoked the user's sessions |
| Transaction.Session.Exec | app/core/base/transaction.py:102-129 | the depth counter and the pending list compute the meaning given without them, and every outermost exit leaves depth 0 and nothing pending |
| Transaction.Session.RunAfterCommit | app/core/base/transaction.py:58-71 | inside a block the callback is queued last; outside it runs at once |
| Transaction.Session.RunOutermost | app/core/base/transaction.py:114-127 | COMMIT keeps the registered callbacks; an exception, a failing COMMIT, and one that takes effect and raises discard them |
| Transaction.Session.RunPending | app/core/base/transaction.py:92-98 | all callbacks run in order, also after one has failed, and also those that open blocks of their own |
| Transaction.EveryRunIsObserved | app/core/base/transaction.py:102-129 | for every program: writes only inside blocks; callbacks only right after the outermost COMMIT, in registration order, never after a rollback or a COMMIT that raised, none left over; an exception ends what is open, innermost first, up to the `except` that catches it or the callback whose failure is logged; the program raises exactly if one is still under way |
| Transaction.ObserverIsStrict | app/core/base/transaction.py:102-129 | what the observer accepts: writes and registrations inside a block only, due callbacks before all else, and nothing but an end while an exception is under way |
| Transaction.NothingRunsWhileRaising | app/core/base/transaction.py:117-125 | after an exception, a rollback or a lost COMMIT the next event is another rollback, a handler, or a logged callback failure |
| Transaction.ReturnsUnlessRaising | app/core/base/transaction.py:122-125 | a program returns normally exactly if the last event is no exception and no rollback |
| Transaction.BlockReturnsIffCommitted | app/core/base/transaction.py:114-129 | an outermost block returns normally exactly if it ended with a COMMIT, whatever its callbacks do |
| Transaction.CallbacksBalance | app/core/base/transaction.py:92-98 | along every accepted log, registrations balance the ends of their blocks, and callbacks of committed blocks balance runs and what is outstanding |
| Transaction.RanOnceOrForgotten | app/core/base/transaction.py:58-71 | over a whole run every registration is matched by exactly one run if its block committed and said so, and by none if it rolled back or its COMMIT took effect and raised |
| Transaction.LostCommitDropsCallback | app/core/base/transaction.py:117-127 | a block whose COMMIT takes effect and raises: its row is durable, and the callback registered with it never runs |
| Transaction.AnsweredCommitRunsCallback | app/core/base/transaction.py:117-129 | the same block with a COMMIT that answers: the callback runs once, right after it |
| Transaction.DurableCallbacksRun | app/core/base/transaction.py:58-71 | in programs whose COMMITs all answer, a callback fails to run only if its block rolled back |
| RateLimit.HistoryIsRecent | app/middleware/rate_limit.py:188-191 | a trimmed history is exactly what was allowed within the closed period, unless an oversize pop took part of that |
| RateLimit.StaleAreForgotten | app/middleware/rate_limit.py:199-205 | dropping stale histories loses nothing that a later decision needs |
| RateLimit.LocalWindow.DropStale | app/middleware/rate_limit.py:199-205 | removes exactly the histories that are empty or whose last entry is older than the period |
| RateLimit.LocalWindow.PopOldest | app/middleware/rate_limit.py:207-208 | removes exactly the oldest-inserted excess over 10000 and leaves the other histories alone |
| RateLimit.LocalWindow.IncrAndCheck | app/middleware/rate_limit.py:182-197 | allowed if, and unless an oversize pop took part of the client's last period only if, fewer than `calls` requests were allowed in it; exactly the oldest excess over 10000 is popped; other histories are kept as they are; at most 10001 histories |
| RateLimit.RecentIsFew | app/middleware/rate_limit.py:188-197 | fewer than `calls` moments are recent exactly if the `calls`-th last is not |
| RateLimit.PacedIsSliding | app/middleware/rate_limit.py:182-197 | a client each of whose requests was allowed with fewer than `calls` since any moment of the period before it after which it was not popped gets at most `calls` through in any closed interval of one period in which it was not popped |
| RateLimit.LocalWindow.AllowedIsSliding | app/middleware/rate_limit.py:182-197 | in every run, a client gets at most the budget of its own bucket through in any closed interval of one period in which it was not popped; no history is longer than that budget |
| RateLimit.RetryReachesNextWindow | app/middleware/rate_limit.py:132-133 | waiting the advertised whole seconds always leads into the very next fixed window |
| RateLimit.LocalWindow.RetryInFallback | app/middleware/rate_limit.py:132-133 | a client with `calls` recent requests has fewer after the advertised delay exactly if its `calls`-th last one is older than the whole seconds spent in the fixed window |
| RateLimit.LocalWindow.RetryAsTold | app/middleware/rate_limit.py:182-197 | a client that asks, is refused, waits as told and asks again without having been popped is admitted exactly under that condition |
| RateLimit.RetryCanComeTooEarly | app/middleware/rate_limit.py:132-133 | a run of the in-memory window: one call a minute, allowed at 59.5, refused at 59.9 with a delay of one second, and refused again at 60.9 |
| RateLimit.LiveIsExact | app/middleware/rate_limit.py:172-180 | a counter never expires inside its own window, so it holds all that was counted there |
| RateLimit.WindowCounters.Incr | app/middleware/rate_limit.py:161-180 | an answer is the number of requests counted in the window; those within the budget pass |
| RateLimit.FixedWindowsBoundSliding | app/middleware/rate_limit.py:172-173 | at most `calls` per window makes at most twice that in any closed interval of one period |
| RateLimit.WindowCounters.PassedIsBounded | app/middleware/config.py:78-135 | Redis lets a client through at most as often as the budget of its own bucket per window, and at most twice as often per interval |
| RateLimit.CountAndCheck | app/middleware/rate_limit.py:145-159 | Redis decides by its count; when it is down the local window decides alone |
| Search.EscapeStep | app/core/base/repository.py:184 | the three replacements in their order put one backslash before each special character and no more |
| Search.EscapedParses | app/core/base/repository.py:184-189 | an escaped string is a run of literals of the pattern language, whatever follows it |
| Search.AnyLiteralsAny | app/core/base/repository.py:185-189 | any-literals-any matches exactly the texts in which the literals occur |
| Search.Wildcards | app/core/base/repository.py:184-189 | an unescaped `_` matches any single character and `%` any text |
| Search.SearchIsLiteral | app/core/base/repository.py:184-189 | the pattern accepts a text exactly if the search string occurs in it up to case, for strings with any mix of special characters |
| Search.SearchKeepsMatches | app/core/base/repository.py:173-194 | the filter never fails and keeps exactly the rows in which a searched column that the model has, and that is not NULL, holds the text; all rows when there is nothing to search for or in |
| AsiMigration.AmountRoundTrip | migrations/versions/b8e2f4a6c9d1_normalize_asi_choices_child_increases.py:68-76 | an amount written by the downgrade is accepted by the upgrade, with its value, exactly if it has at most nine digits |
| AsiMigration.LabelOfColumn | migrations/versions/b8e2f4a6c9d1_normalize_asi_choices_child_increases.py:153-179 | each label is the first three letters, in upper case, of the column that its points are added to |
| AsiMigration.Int32Wraps | migrations/versions/b8e2f4a6c9d1_normalize_asi_choices_child_increases.py:140-147 | the column holds exactly the 32-bit two's complement integers |
| AsiMigration.Insert | migrations/versions/b8e2f4a6c9d1_normalize_asi_choices_child_increases.py:140-147 | one row per choice and ability that the payload names, holding their sum; fails exactly if a sum overflows the column |
| AsiMigration.GroupByCharacter | migrations/versions/b8e2f4a6c9d1_normalize_asi_choices_child_increases.py:167-179 | the subquery yields each character's uncounted points per ability |
| AsiMigration.RebuiltMeansRows | migrations/versions/b8e2f4a6c9d1_normalize_asi_choices_child_increases.py:190-202 | a rebuilt payload names the abilities of the rows with the same sums, and is well-formed exactly if all amounts have at most nine digits |
| AsiMigration.RevertedIsUpgradable | migrations/versions/b8e2f4a6c9d1_normalize_asi_choices_child_increases.py:63-91 | after a downgrade the next upgrade is accepted exactly if every amount has at most nine digits |
| AsiMigration.Database.Upgrade | migrations/versions/b8e2f4a6c9d1_normalize_asi_choices_child_increases.py:94-150 | succeeds exactly for well-formed payloads whose sums fit; then all choices are marked applied, sums per choice and ability are kept, and every effective score is unchanged; otherwise nothing changes |
| AsiMigration.Database.Downgrade | migrations/versions/b8e2f4a6c9d1_normalize_asi_choices_child_increases.py:153-209 | succeeds exactly if every effective score fits its column; then the base columns hold the effective scores and the payloads are rebuilt; otherwise nothing changes |
| AsiMigration.Database.DowngradeThenUpgrade | migrations/versions/b8e2f4a6c9d1_normalize_asi_choices_child_increases.py:153-209 | down and up again keeps the sums and rows per choice and ability and every effective score |
| AsiMigration.TenDigitsStayDown | migrations/versions/b8e2f4a6c9d1_normalize_asi_choices_child_increases.py:63-91 | a database with an amount of ten digits that goes down and does not come up again |
| TagMerge.MergeTable | migrations/versions/705548ecfb46_article_visibility_search_and_tag_uniqueness.py:58-65 | maps exactly the tags that are not the lowest id of their lowercased name to that lowest id |
| TagMerge.Update | migrations/versions/705548ecfb46_article_visibility_search_and_tag_uniqueness.py:68-74 | in whatever order rows are visited, the statement aborts exactly if two rows would become one, and otherwise repoints what the table as it was says |
| TagMerge.CollideIffBlocked | migrations/versions/705548ecfb46_article_visibility_search_and_tag_uniqueness.py:68-74 | it aborts exactly if some entity is linked to two tags of a group and not to its keeper |
| TagMerge.KeptNamesAreUnique | migrations/versions/705548ecfb46_article_visibility_search_and_tag_uniqueness.py:77 | the remaining lowercased names are unique, as the index demands |
| TagMerge.MergeKeepsNames | migrations/versions/705548ecfb46_article_visibility_search_and_tag_uniqueness.py:67-77 | every entity keeps its set of lowercased tag names, and no remaining link dangles |
| TagMerge.TagDatabase.MergeCaseOnlyDuplicates | migrations/versions/705548ecfb46_article_visibility_search_and_tag_uniqueness.py:47-78 | succeeds exactly if no table is blocked; then unique names, no dangling link, the same names per entity in all four tables, and exactly the lowest ids survive unchanged; otherwise nothing changes |
| TagMerge.LosersAbort | migrations/versions/705548ecfb46_article_visibility_search_and_tag_uniqueness.py:68-74 | a database in which an entity is linked to two losing spellings of a name and not to the third: the merge aborts |

## Left out

- CacheClient.Cache.Set: the same exclusion as for DropKeys; index caps and TTLs are only modelled as far as they delete keys; the TTL of a value is left to `Evict`, which may expire any key at any time.
- CacheClient.Cache.RunPurge: the same exclusion as for DropKeys, for exact keys; pending lists are sets here, so the sorted order in which a replay visits them is not modelled, and the result does not depend on it.
- CacheClient.Cache.DropKeys: keys named like an index set or the epoch counter are excluded, as no caller builds such keys.
- CacheClient.Cache.ApplyPurge: the same exclusion, for exact keys.
- CacheClient.Cache.DeleteMany: the same exclusion, for exact keys.
- CacheClient.Cache.AfterSet: the same exclusion.
- CacheClient.Cache.StoreNew: the same exclusion.
- CacheClient.StoreKeepsIndexes: the same exclusion.
- CacheCoherence.NamespacesAreCoherent: chunks may be of any size in the concurrent protocol, and an index flush may start at any moment after a store; a SCAN returns the names that are there throughout and possibly others.
- In the concurrent protocol, a deletion without a database write (an undecodable entry) is covered as a writer whose commit changes nothing.
- Switching the cache off, rebuilding clients per event loop, and switching the Redis provider, which only tests do.
- Cache key building and canonical rendering of arguments (app/core/cache/decorator.py:223-330): the protocol is parametric in the key.
- Task cancellation, which bypasses `except Exception` in every component.
- Secrets.Scan: letters are folded for ASCII only; no other character lower-cases to "g" or "m" in front of a name.
- SecretsSql.MatchEnd: the two patterns are modelled directly, not a general regular expression engine.
- CursorToken.CursorRoundTrip: JSON other than flat objects of strings and integers is read by any reader that agrees on those; ISO text of timestamps is any text that is read back; lone surrogates, which the database cannot hold, do not occur.
- Offset pages (`paginate`, `fetch_page`): one clamp and one query each.
- Sessions.RevocationIsPermanent: expiry is as in section 4.1.4 of RFC 7519; leeway of the JWT library, signature checks and clock skew are not part of this model.
- Sessions.TokensAreSingleUse: eviction of auth keys by Redis is not modelled, nor what access tokens do after they were issued.
- Transaction.Session.RunOutermost: the exit of `begin_nested` and COMMIT are one decision; of SQL effects only which rows a block writes and makes durable is modelled.
- RateLimit.LocalWindow.IncrAndCheck: floating point rounding of the clock is not modelled; rule matching by path and stage is a lookup.
- RateLimit.WindowCounters.Incr: INCR and EXPIRE are one transaction; a counter past its expiry reads as absent.
- Search.SearchIsLiteral: case folding is an arbitrary character map that leaves `\`, `%` and `_` alone and makes no other character one of them.
- AsiMigration.Database.Upgrade: the order of rows in a table stands for nothing; upper-casing is an arbitrary map that fixes the six labels.
- TagMerge.MergeTable: lower-casing is an arbitrary map on names.
- Other generic repository operations, access predicates, routers, schemas, storage, mail and the remaining migrations.
