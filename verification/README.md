# mqtt-atmowx-bridge: verified model

The bridge turns MQTT messages from a weather station into records of an atproto repo. This is a
Dafny model of how a message becomes a reading, readings an observation, an observation a record
under a time-derived key, and the record an entry of the repo despite crashes, races and a network
that fails, with proofs of what holds over whole runs. `dafny verify dfyconfig.toml` checks
everything.

| part | files | what is proved |
|---|---|---|
| publish protocol | `Protocol.dfy`, `Intervals.dfy`, `Keys.dfy`, `Stamps.dfy` | two threads and a stopper, every shared access a step of its own: no trigger, wakeup or stop request is lost; every interleaving takes an owed snapshot within a bounded number of publisher steps; publishes keep their distance; observation stamps strictly increase in every run if and only if the settings satisfy an explicit condition, and stamps taken from readings if and only if the readings do |
| record keys | `Tid.dfy`, `Microseconds.dfy`, `Truncation.dfy` | the key codec is an order isomorphism; the float arithmetic in front of it is monotone, and loses a microsecond exactly when an integer remainder says so |
| session manager | `Session.dfy`, `Renewals.dfy`, `SessionRuns.dfy`, `SessionStore.dfy`, `Persistence.dfy`, `Dealings.dfy`, `Client.dfy`, `Errors.dfy` | when a token is renewed and when the app password is used, refresh-token rotation, durable-before-use, single-flight renewal, login backoff from both sides, crash safety of the session file, the bounded retry loop and what decides its result |
| retry queue | `Publisher.dfy`, `Queueing.dfy`, `Delivery.dfy`, `Calls.dfy`, `EndToEnd.dfy` | which records a full queue gives up, conservation and order of the queue; at-least-once writes have exactly-once effect when keys are distinct, which the protocol and the codec provide |
| observations | `Quantities.dfy`, `Fields.dfy`, `Records.dfy`, `Fidelity.dfy`, `Moments.dfy` | scaled integers are faithful, monotone and canonical; formatted times sort as the times; the record is exactly the nesting of what was included, each value within half a unit of its reading |
| readings | `Documents.dfy`, `Collector.dfy`, `Ingestion.dfy`, `Topic.dfy`, `Strings.dfy` | what each mapping takes from a message, and the current-value map as the fold of everything accepted; topic matching is the relation of sections 4.7.1 and 4.7.2 of MQTT 3.1.1 |

Objects whose methods update fields are classes. Their methods are proved equal to specification
functions over plain values. Separate laws say what these functions come to case by case, without
going through their bodies, and the results about runs are about them.
What the outside does (replies, clocks, jitter, failing system calls) is a parameter, so a result
holds for every behaviour of it. An ambiguous failure, applied but reported as failed, is one of
these behaviours.

Where the code is weaker than one might expect, the model follows the code:

* `_assert_keys_stay_distinct` accepts settings under which two observations share a key. The
  exact gap between what it accepts and what is safe is `Keys.CheckAcceptsUnsafeExactlyWhen`. For a
  zero gap without rounding the collision needs two publishes at one reading of the clock, which the
  model allows: time need not advance between steps.
* `int(timestamp * 1_000_000)` can lose a microsecond. `Truncation.LosesExactlyWhen` says for which
  counts, `Microseconds.TruncationCanLose` names one (2005-09-05 05:58:23.842625 UTC).
* `decode_tid` raises `KeyError`, not `ValueError`, on a key followed by a newline, because `$` in
  the pattern matches before one. It also accepts keys the encoder never produces.
* With `timestampSource: message`, the default, observations are stamped by their newest reading, so
  a key repeats whenever nothing newer was read; `Stamps.MessageStampsIncreaseExactlyWhen` has the
  exact condition, and `EndToEnd.NewestReadingsWinExactlyWhen` what it means for the repo.
* Beyond the year 2514 the rounded stamp can lie after its moment (`Stamps.FarStampRoundsUp`).
* An integer of 2^1024 or more in a payload, or one of more digits than Python parses, raises out of
  `ingest`: readings stored before it stay, and no trigger is reported (`Collector.Raised`).
* Past 1024 consecutive login failures the power of two no longer converts to a float and the
  backoff stops moving (`SessionRuns.BackoffEndsAtOverflow`).
* A queue size of 0 discards a retryable failure without counting it, and a `SessionError` leaves
  `publish` with its record neither queued nor counted. The model books both under fates of their
  own.
* `_encode_core` rounds to the field's decimals and ignores the mapping's override.
* The session file is synced before the rename, but its directory is not: after a power loss an
  earlier session may be back, never a torn one. Its refresh token may be spent, which makes this a
  fifth way to replay one (`SessionRuns.EveryFaultCanReplay`).

## Model

| member | source | states |
|---|---|---|
| Protocol.NothingIsLost | mqtt_atmowx_bridge/bridge/bridge.py:77-145 | over every interleaving from the start: a stored trigger is covered by a snapshot, still pending, or in a thread's hands; no untimed sleep on a pending trigger and no sleep on a stop request without a wakeup set or about to be; every publish keeps its distance from the last |
| Protocol.StepKeepsInvariant | mqtt_atmowx_bridge/bridge/bridge.py:105-227 | every single step of any thread keeps the protocol invariant |
| Protocol.RunKeepsInvariant | mqtt_atmowx_bridge/bridge/bridge.py:105-227 | so does every run |
| Protocol.PublisherStepServes | mqtt_atmowx_bridge/bridge/bridge.py:131-145 | while a trigger is owed a snapshot, every publisher step takes it or brings it nearer by a bounded measure |
| Protocol.PublisherCanStep | mqtt_atmowx_bridge/bridge/bridge.py:131-145 | the publisher is never stuck on an owed trigger: it can step, or is waiting out the rest of the minimum interval |
| Protocol.TriggerIsServed | mqtt_atmowx_bridge/bridge/bridge.py:105-156 | from every reachable state owing a snapshot, wherever the message thread is in its handover: finishing the handover and at most 20 steps of the publisher and the clock take it, waiting at most the minimum interval |
| Protocol.EveryInterleavingServes | mqtt_atmowx_bridge/bridge/bridge.py:105-156 | in every interleaving without a stop, whatever further messages and wakeups it has: once the round in progress is over, the minimum interval has passed and the publisher has made eight more steps, a snapshot covers the trigger |
| Protocol.ElapsedPublisherCanStep | mqtt_atmowx_bridge/bridge/bridge.py:131-145 | and each of those eight steps is always possible |
| Protocol.StoredIsHanded | mqtt_atmowx_bridge/bridge/bridge.py:105-109 | when the message thread is back, every trigger it stored is handed over |
| Protocol.StopIsServed | mqtt_atmowx_bridge/bridge/bridge.py:77-84 | after `stop` every publisher step brings its end nearer and one is always possible without waiting |
| Intervals.StartsLooping | mqtt_atmowx_bridge/bridge/bridge.py:122-129 | the state the bridge starts from is one of the loop the next three rows are about |
| Intervals.EveryInterleavingPublishes | mqtt_atmowx_bridge/bridge/bridge.py:122-129 | in interval mode, wherever the loop is and however the threads interleave, nine publisher steps contain a snapshot unless a stop is requested |
| Intervals.AnIntervalIsEnough | mqtt_atmowx_bridge/bridge/bridge.py:122-163 | and after an interval without a publisher step it always has one to make |
| Intervals.SnapshotIsNear | mqtt_atmowx_bridge/bridge/bridge.py:122-163 | from every state of the loop a snapshot of everything stored is at most nine publisher steps and one interval of waiting away |
| Protocol.DeadlineIsSpaced | mqtt_atmowx_bridge/bridge/bridge.py:122-163 | an interval deadline never falls before the next allowed publish |
| Protocol.NextBoundaryMonotone | mqtt_atmowx_bridge/bridge/bridge.py:158-163 | the aligned wait ends on the first boundary after now, which is monotone in time |
| Protocol.EarliestMonotone | mqtt_atmowx_bridge/bridge/bridge.py:122-163 | the earliest next publish is monotone in the last one, in all three modes |
| Keys.CheckAcceptsUnsafeExactlyWhen | mqtt_atmowx_bridge/config.py:488-508 | the check passes settings that can collide in exactly two cases: a zero gap in onMessage mode, and an aligned interval the rounding step does not divide |
| Keys.StampsIncreaseExactlyWhenSafe | mqtt_atmowx_bridge/bridge/bridge.py:122-163 | every run stamps its observations at strictly increasing times if and only if the settings are safe |
| Keys.SafeRunsIncrease | mqtt_atmowx_bridge/bridge/bridge.py:229-240 | the sufficient half, for one run |
| Keys.SpacedStampsIncrease | mqtt_atmowx_bridge/bridge/bridge.py:229-240 | two spaced publishes get increasing stamps after rounding, a second apart unless wakeups are aligned and nothing is rounded |
| Keys.UnsafeSettingsCollide | mqtt_atmowx_bridge/bridge/bridge.py:122-163 | the necessary half: every unsafe setting has a complete run that stamps two observations alike or out of order |
| Keys.LateWakeup | mqtt_atmowx_bridge/bridge/bridge.py:158-163 | in aligned mode with a step that does not divide the interval, a wakeup one microsecond before the next boundary is followed by one with the same stamp |
| Keys.SafeKeysIncrease | mqtt_atmowx_bridge/bridge/bridge.py:226-240 | with safe settings the keys of any run are accepted by the encoder and increase as strings, from each observation to every later one |
| Keys.KeysAcrossBoundary | mqtt_atmowx_bridge/atproto/tid.py:58-67 | moments on either side of a whole second have increasing keys, however close they are |
| Keys.LaterKeyIsGreater | mqtt_atmowx_bridge/atproto/tid.py:58-67 | the same for any two observations of one run |
| Stamps.FloatStampIsExact | mqtt_atmowx_bridge/bridge/bridge.py:236-239 | the float floor division of the timestamp is the exact rounding down to a multiple of the step, from 1425 to 2514, before the epoch too |
| Stamps.FarStampRoundsUp | mqtt_atmowx_bridge/bridge/bridge.py:236-239 | a moment in the year 4147 that is stamped after itself |
| Stamps.ObservedAtFor | mqtt_atmowx_bridge/bridge/bridge.py:229-240 | for all times whatever the stamp is the rounded clock reading, or the rounded time of a reading that none is newer than |
| Stamps.ReadingStamps | mqtt_atmowx_bridge/bridge/bridge.py:233-240 | stamped from readings, one observation comes after another exactly when it has a reading from a later window than all of the other's, and like it exactly when neither has |
| Stamps.MessageStampsIncreaseExactlyWhen | mqtt_atmowx_bridge/bridge/bridge.py:233-240 | such stamps strictly increase along a run if and only if every snapshot has a reading from a later window than the one before |
| Stamps.NothingNewRepeatsTheKey | mqtt_atmowx_bridge/bridge/bridge.py:233-240 | while nothing new is read the key repeats |
| Tid.EncodeTid | mqtt_atmowx_bridge/atproto/tid.py:32-44 | accepts exactly the 53-bit microseconds and 10-bit clock identifiers, and yields the 13 base-32 digits of the packed number |
| Tid.DecodeTid | mqtt_atmowx_bridge/atproto/tid.py:47-55 | accepts exactly the 13-digit strings, yields the packed number's two parts, and names the input family that raises KeyError |
| Tid.DecodeEncode | mqtt_atmowx_bridge/atproto/tid.py:32-55 | decoding an encoded pair gives it back on the whole accepted range |
| Tid.EncodeDecode | mqtt_atmowx_bridge/atproto/tid.py:32-55 | re-encoding a decoded key is accepted exactly when its first character is one of the first eight letters, and gives the key back |
| Tid.KeyOrderIsTimeOrder | mqtt_atmowx_bridge/atproto/tid.py:32-44 | string order of keys is numeric order of (microseconds, clock identifier), both directions |
| Tid.ValueOfDigits | mqtt_atmowx_bridge/atproto/tid.py:39-55 | the digits of a number evaluate to it |
| Tid.DigitsOfValue | mqtt_atmowx_bridge/atproto/tid.py:39-55 | the value of a digit string has these digits |
| Tid.DigitsOrder | mqtt_atmowx_bridge/atproto/tid.py:39-44 | digit strings of one length sort as their values |
| Tid.LeadingDigit | mqtt_atmowx_bridge/atproto/tid.py:47-55 | the first character brackets the value |
| Strings.LessIsTransitive | mqtt_atmowx_bridge/atproto/tid.py:32-44 | the listing order of keys is transitive |
| Strings.LessIsIrreflexive | mqtt_atmowx_bridge/atproto/tid.py:32-44 | and strict |
| Strings.LessIsTotal | mqtt_atmowx_bridge/atproto/tid.py:32-44 | and total |
| Microseconds.KeyMicrosMonotone | mqtt_atmowx_bridge/atproto/tid.py:58-67 | over every pair of moments within 2^60 microseconds of the epoch the truncated product is monotone, so key order never inverts time order |
| Microseconds.TruncationIsExact | mqtt_atmowx_bridge/atproto/tid.py:66-66 | no microsecond is lost for 2^(j+20) < N < 2^(j+1)*10^6; j = 30 covers 2005-09-05 to 2038-01-19 |
| Microseconds.WholeSecondsAreExact | mqtt_atmowx_bridge/atproto/tid.py:66-66 | whole seconds, hence all rounded stamps, are never altered |
| Microseconds.AtMostOneMicrosecondLost | mqtt_atmowx_bridge/atproto/tid.py:66-66 | up to 2242 at most one microsecond is lost and none gained |
| Microseconds.TruncationCanLose | mqtt_atmowx_bridge/atproto/tid.py:66-66 | a concrete count that loses one, for every rule of breaking ties |
| Microseconds.KeysIncrease | mqtt_atmowx_bridge/atproto/tid.py:58-67 | keys of moments two microseconds apart are accepted and sort as the moments |
| Microseconds.AdjacentKeysIncrease | mqtt_atmowx_bridge/atproto/tid.py:58-67 | from 2005 to 2038 one microsecond apart is enough |
| Microseconds.BothRoundingsNearest | mqtt_atmowx_bridge/atproto/tid.py:66-66 | neither the quotient nor the product leaves the range where rounding is to nearest |
| Microseconds.NearestIsMonotone | mqtt_atmowx_bridge/atproto/tid.py:66-66 | rounding to nearest is monotone however ties are broken |
| Truncation.LosesExactlyWhen | mqtt_atmowx_bridge/atproto/tid.py:58-67 | for every count up to 2242, with IEEE 754 arithmetic: the key holds the exact count unless, for some j, 2^j*10^6 <= N <= 2^(j+20) and N*2^(52-j) mod 10^6 is between 2^18 and 500000, and then it holds N-1 |
| Truncation.LowerPart | mqtt_atmowx_bridge/atproto/tid.py:66-66 | in the lower part of a binade the remainder alone decides, halfway cases included |
| Truncation.MomentIsExact | mqtt_atmowx_bridge/atproto/tid.py:70-72 | datetime_from_tid gives back exactly the microseconds a key holds, up to 2242 |
| Truncation.RoundTripExactlyWhen | mqtt_atmowx_bridge/atproto/tid.py:58-72 | datetime_from_tid(tid_from_datetime(t)) is t exactly when the key loses nothing, and otherwise the microsecond before |
| Publisher.ObservationPublisher.constructor | mqtt_atmowx_bridge/bridge/publisher.py:41-60 | a new publisher on any repo has an empty queue and zero counters |
| Publisher.ObservationPublisher.Publish | mqtt_atmowx_bridge/bridge/publisher.py:79-105 | queue, counters, repo and result, for every outcome including an escaping exception; a dry run changes nothing |
| Publisher.ObservationPublisher.Flush | mqtt_atmowx_bridge/bridge/publisher.py:107-114 | drains oldest first and stops at the first record still failing |
| Publisher.ObservationPublisher.Write | mqtt_atmowx_bridge/bridge/publisher.py:116-167 | one attempt: classification, counters and effect on the repo |
| Publisher.ObservationPublisher.EnqueuePending | mqtt_atmowx_bridge/bridge/publisher.py:169-181 | appends and evicts from the front down to the bound, and discards with a bound of 0; the rows of Queueing say what that means |
| Publisher.Repo.PutRecord | mqtt_atmowx_bridge/atproto/client.py:164-192 | a keyed overwrite whose reported failure may have been applied |
| Queueing.ClassifyMeans | mqtt_atmowx_bridge/bridge/publisher.py:116-158 | a record is kept for another try exactly after no response, a server error, a timeout, a rate limit or a refused token; dropped exactly on any other refusal |
| Queueing.RetryKeepsTheNewest | mqtt_atmowx_bridge/bridge/publisher.py:169-181 | a first attempt worth another leaves the last `queue_size` records of the old queue and the new one, and settles exactly those cut off in front as evicted |
| Queueing.OnlyAFullQueueEvicts | mqtt_atmowx_bridge/bridge/publisher.py:169-181 | below the bound nothing is evicted, at it the oldest record |
| Queueing.NoQueueDiscards | mqtt_atmowx_bridge/bridge/publisher.py:169-171 | with a bound of 0 the record is let go without being counted as dropped |
| Queueing.RefusalDrops | mqtt_atmowx_bridge/bridge/publisher.py:139-146 | a final refusal drops the record and leaves the queue alone |
| Queueing.EscapeRaises | mqtt_atmowx_bridge/bridge/publisher.py:116-158 | an exception `_write` does not catch counts nothing and leaves the queue alone |
| Queueing.AcceptanceDrains | mqtt_atmowx_bridge/bridge/publisher.py:97-105 | a written record is in the repo and counted, and followed by a drain |
| Queueing.FailureMayLand | mqtt_atmowx_bridge/bridge/publisher.py:116-158 | a failed write changes nothing in the repo but its own key, and that only if it was applied |
| Queueing.RunCounts | mqtt_atmowx_bridge/bridge/publisher.py:116-158 | over every run each call to the server is counted as published or failed, or an exception left it |
| Queueing.EvictsTheOldest | mqtt_atmowx_bridge/bridge/publisher.py:169-181 | over every run and network no evicted record was submitted after one still queued, and both follow the order of submission |
| Delivery.QueueConservation | mqtt_atmowx_bridge/bridge/publisher.py:79-181 | over every run and network: published + dropped + queued + escaped + discarded is the number of publishes, nothing is discarded when the queue is enabled, the queue is within its bound and a suffix of all records ever queued |
| Delivery.EveryRecordIsSomewhere | mqtt_atmowx_bridge/bridge/publisher.py:79-181 | the same per record: it is settled or queued exactly as often as submitted |
| Delivery.DrainStopsAtFirstFailure | mqtt_atmowx_bridge/bridge/publisher.py:107-114 | a flush leaves a suffix of the queue; everything before it was written or rejected, and what is now at its head has just failed |
| Delivery.DistinctKeysGiveExactlyOnce | mqtt_atmowx_bridge/bridge/publisher.py:79-181 | if no key is used for two records, from every repo at the start and whatever failures were ambiguous: the key of each submitted record holds it or is untouched, every record reported written is there, every other one is queued or settled otherwise, and all other keys are untouched |
| Delivery.AbsentIsAccountedFor | mqtt_atmowx_bridge/bridge/publisher.py:79-181 | a submitted record not reported written is queued, rejected, evicted, discarded or escaped |
| Delivery.NewestWinsExactlyWhen | mqtt_atmowx_bridge/bridge/publisher.py:79-181 | with a queue: everything reported published implies that each key holds its newest record, over all runs and networks, if and only if no two different records share a key |
| Delivery.SharedKeyCanLoseTheNewest | mqtt_atmowx_bridge/bridge/publisher.py:97-114 | for every submission sequence with two different records under one key, a network on which all are reported published and an older one is left |
| Delivery.SharedKeyLosesTheNewer | mqtt_atmowx_bridge/bridge/publisher.py:107-114 | the two-record case, with the exact repo |
| Delivery.RunEffects | mqtt_atmowx_bridge/bridge/publisher.py:79-181 | every run keeps the correspondence between repo, ledger and queue |
| Delivery.RunBooks | mqtt_atmowx_bridge/bridge/publisher.py:79-181 | every run keeps the books of each record |
| EndToEnd.EveryObservationOnce | mqtt_atmowx_bridge/bridge/bridge.py:171-240 | every interleaving of the bridge with safe settings, over every network, initial repo and queue size, leaves the repo as if each observation had been written at most once, with keys ascending in publish order |
| EndToEnd.SharedKeyIsSharedWindow | mqtt_atmowx_bridge/bridge/bridge.py:229-240 | stamped from readings, two observations have one key exactly when neither snapshot has a reading from a later rounding window |
| EndToEnd.EveryWindowOnce | mqtt_atmowx_bridge/bridge/bridge.py:171-240 | stamped from readings, over every network, initial repo and queue size: exactly-once effect as long as observations from one window have one record |
| EndToEnd.NewestReadingsWinExactlyWhen | mqtt_atmowx_bridge/bridge/bridge.py:171-240 | with a queue, everything reported published implies the newest observation of each key is in the repo if and only if observations from one window have one record |
| EndToEnd.RoundedIsLossless | mqtt_atmowx_bridge/bridge/bridge.py:236-239 | stamps rounded to seconds keep every microsecond in the key |
| Calls.PutRecord | mqtt_atmowx_bridge/atproto/client.py:164-192 | the answers are the session manager's; its last one is the exception `_write` sees if it is one, and nothing else is; otherwise the first response that decides is; nothing is applied without a request |
| Calls.WhatARetryMeans | mqtt_atmowx_bridge/bridge/publisher.py:116-146 | a response makes `_write` queue a record only after all retries or a token refused twice, and drop it only if final |
| Session.SessionManager.constructor | mqtt_atmowx_bridge/atproto/session.py:86-92 | a new manager knows no session and owes no wait |
| Session.SessionManager.Session | mqtt_atmowx_bridge/atproto/session.py:108-116 | the whole new state of manager, store and server, and the result |
| Session.SessionManager.InvalidateToken | mqtt_atmowx_bridge/atproto/session.py:121-141 | likewise; nothing happens if another token is already current |
| Session.SessionManager.LogOut | mqtt_atmowx_bridge/atproto/session.py:143-160 | forgets the session first, then the store, then revokes it |
| Session.SessionManager.LoadStored | mqtt_atmowx_bridge/atproto/session.py:189-214 | loads once, ignoring another service's session and an unreadable store |
| Session.SessionManager.RenewSession | mqtt_atmowx_bridge/atproto/session.py:216-244 | refresh if usable, else or after a final failure log in |
| Session.SessionManager.RefreshSession | mqtt_atmowx_bridge/atproto/session.py:246-266 | presents the refresh token, discards an answer for another account, persists before returning |
| Session.SessionManager.LogIn | mqtt_atmowx_bridge/atproto/session.py:268-305 | sleeps out the backoff, logs in, resets it on success |
| Session.SessionManager.NoteFailure | mqtt_atmowx_bridge/atproto/session.py:307-326 | counts, backs off with jitter, honours retry-after and 401, and overflows past 1024 |
| Session.SessionManager.PersistSession | mqtt_atmowx_bridge/atproto/session.py:343-354 | keeps the session in memory even if saving fails |
| Renewals.LoginGoesOutExactlyWhen | mqtt_atmowx_bridge/atproto/session.py:108-141 | for every session() and invalidate(): createSession goes out if and only if a renewal is due and there is no session, its refresh token is near its end, or the refresh ended in an answer for another account or a refusal that is not transient |
| Renewals.CurrentTokenServes | mqtt_atmowx_bridge/atproto/session.py:108-141 | if no renewal is due the caller gets the session found, and nothing else happens |
| Renewals.RefreshServes | mqtt_atmowx_bridge/atproto/session.py:216-266 | a good refresh token gets a new session for the same service, stored if the store takes it, without the app password |
| Renewals.TransientFailureSurfaces | mqtt_atmowx_bridge/atproto/session.py:228-238 | a transient failure of the refresh is the caller's; session, store and backoff stay as they were and no createSession goes out |
| Renewals.LoginServes | mqtt_atmowx_bridge/atproto/session.py:268-305 | an accepted login gets a new session and ends the backoff: no failures, no wait |
| Renewals.LoginFailureSurfaces | mqtt_atmowx_bridge/atproto/session.py:268-326 | a failed login is the caller's error and one more failure, and leaves session and store alone |
| Renewals.LoginIsSentAt | mqtt_atmowx_bridge/atproto/session.py:268-285 | createSession goes out at once if no wait is left, and when the wait is over otherwise |
| Renewals.BackoffIsBounded | mqtt_atmowx_bridge/atproto/session.py:307-326 | a failure imposes at least half the capped backoff and what the error asked for, and at most the larger of the capped backoff and that |
| Renewals.BackoffIsCapped | mqtt_atmowx_bridge/atproto/session.py:307-313 | the backoff is 5, 10, 20, ... 640 seconds and 900 from the ninth failure on |
| Renewals.JitterSpreads | mqtt_atmowx_bridge/atproto/session.py:307-313 | without jitter the wait is half the capped backoff, with half of it three quarters |
| Renewals.LogoutForgets | mqtt_atmowx_bridge/atproto/session.py:143-160 | the session is forgotten whatever happens; the refresh token is revoked only if the store forgot it, too |
| SessionRuns.NoReplayWithoutItsFault | mqtt_atmowx_bridge/atproto/session.py:216-266 | in any run with any callers, restarts, power losses and logouts: if an operation presents a spent refresh token, an earlier one let the rotation of that very token fail (answer lost or discarded, save failed, crash before the save) or was a power loss that brought the token back |
| SessionRuns.StepLapses | mqtt_atmowx_bridge/atproto/session.py:216-266 | what each operation presents, and that a held token becomes spent without its successor stored only by such a failure |
| SessionRuns.EveryFaultCanReplay | mqtt_atmowx_bridge/atproto/session.py:246-266 | each of those five exceptions is needed: a run with just it presents a spent token |
| SessionRuns.DurableBeforeUse | mqtt_atmowx_bridge/atproto/session.py:343-354 | whatever session a call returns after any run is the one on disk, unless saving that very session failed |
| SessionRuns.OnlyOurSessions | mqtt_atmowx_bridge/atproto/session.py:189-214 | whatever is stored, no call of any run hands out a session of another service |
| SessionRuns.OneRenewalPerStaleToken | mqtt_atmowx_bridge/atproto/session.py:121-141 | any number of invalidations of one token among other calls cause at most one renewal |
| SessionRuns.OneRenewalPerBurst | mqtt_atmowx_bridge/atproto/session.py:108-116 | a burst of session() callers causes at most one renewal if issued tokens outlive the skew |
| SessionRuns.FreshTokenServesTheBurst | mqtt_atmowx_bridge/atproto/session.py:108-116 | a token that outlives the skew serves all of them without any |
| SessionRuns.StepMovesOn | mqtt_atmowx_bridge/atproto/session.py:121-141 | a renewal moves past the stale token for good, and a later invalidation of it renews nothing |
| SessionRuns.LoginsBackOff | mqtt_atmowx_bridge/atproto/session.py:268-326 | after n <= 1024 failures in a row, whatever operation comes next sends no createSession before the sum of half the capped backoffs has passed since the first failure, nor before what the last error asked for |
| SessionRuns.LeastWaitClosedForm | mqtt_atmowx_bridge/atproto/session.py:307-313 | that sum is 637.5 + 450(n-8) seconds from n = 8 on |
| SessionRuns.BackoffEndsAtOverflow | mqtt_atmowx_bridge/atproto/session.py:307-326 | a noted failure always moves the next login into the future if and only if fewer than 1024 came before it |
| SessionRuns.RunKeeps | mqtt_atmowx_bridge/atproto/session.py:108-266 | every run keeps the token invariant |
| SessionRuns.RunKeepsBackoff | mqtt_atmowx_bridge/atproto/session.py:268-326 | every run keeps the backoff invariant |
| Client.AtpClient.Call | mqtt_atmowx_bridge/atproto/client.py:54-116 | for every server and whatever other threads do: a refusal of the session manager, and nothing else, is a SessionFailed; otherwise the first response that decides is the result; one invalidation; at most max_retries + 2 requests; its sleep lies between the least and the most its waits can come to, and within max_retries * max_backoff; a request after an auth rejection carries a later token |
| Client.AtpClient.Pass | mqtt_atmowx_bridge/atproto/client.py:66-116 | one turn of the loop |
| Client.AtpClient.Recover | mqtt_atmowx_bridge/atproto/client.py:77-116 | which failure renews, waits or ends the call; after a renewal the loop goes on exactly if the manager granted it |
| Client.AtpClient.BackoffFor | mqtt_atmowx_bridge/atproto/client.py:118-123 | between half and all of the capped backoff, or exactly the capped wait the server named; it overflows exactly past 1023 attempts without one |
| Client.AtpClient.JitterSpreads | mqtt_atmowx_bridge/atproto/client.py:118-123 | without jitter the shortest wait, with half of it three quarters of the longest |
| Dealings.FirstDecisionIsTheResult | mqtt_atmowx_bridge/atproto/client.py:66-116 | if the manager serves every request and invalidation, the first response that is neither a first rejection nor a failure with retries left is the last one waited for, and the result |
| Dealings.RenewedThenAccepted | mqtt_atmowx_bridge/atproto/client.py:77-90 | in particular a rejection followed by a success is a success with two tokens |
| Dealings.SessionErrorIsTheManagers | mqtt_atmowx_bridge/atproto/client.py:66-90 | a call raises an exception of the manager if and only if that was its last answer |
| Client.InvalidateLeavesBehind | mqtt_atmowx_bridge/atproto/session.py:121-141 | after a successful invalidation the rejected token is left behind |
| Client.RunAtLeast | mqtt_atmowx_bridge/atproto/session.py:108-141 | and no concurrent session() or invalidate() brings it back |
| SessionStore.FileSessionStore.constructor | mqtt_atmowx_bridge/atproto/session_store.py:85-87 | opens on any disk, whatever of it is not yet synced, given the texts a power loss may leave at the path |
| SessionStore.FileSessionStore.Load | mqtt_atmowx_bridge/atproto/session_store.py:93-105 | gives what the text at the path parses to, nothing if there is none |
| SessionStore.FileSessionStore.Save | mqtt_atmowx_bridge/atproto/session_store.py:107-123 | succeeds if and only if none of its system calls fails; success leaves the new text, failure the old and no trace of the new; in every state on the way a process crash finds the old or the new text whole, and a power loss one of the texts held before |
| SessionStore.FileSessionStore.WriteTemporary | mqtt_atmowx_bridge/atproto/session_store.py:113-118 | while the temporary is written the path is untouched, and success leaves it synced |
| SessionStore.FileSessionStore.Clear | mqtt_atmowx_bridge/atproto/session_store.py:125-127 | leaves nothing at the path |
| SessionStore.WorkingIsSafe | mqtt_atmowx_bridge/atproto/session_store.py:110-119 | work on the temporary changes nothing a crash can expose |
| SessionStore.ReplaceIsSafe | mqtt_atmowx_bridge/atproto/session_store.py:118-120 | replacing by a synced file adds exactly one possible outcome, the new text |
| SessionStore.CleanupIsSafe | mqtt_atmowx_bridge/atproto/session_store.py:121-123 | removing the temporary leaves the path alone |
| SessionStore.RestartAfterCrash | mqtt_atmowx_bridge/atproto/session_store.py:93-123 | after a process crash in any state a save passes through, a new store is valid and loads what the old or the new text parses to |
| SessionStore.RestartAfterPowerLoss | mqtt_atmowx_bridge/atproto/session_store.py:93-123 | after a power loss in any of them it loads what one of the texts held so far parses to |
| SessionStore.CrashesFindSessions | mqtt_atmowx_bridge/atproto/session_store.py:93-123 | with a faithful JSON round trip these are the old or the new session itself, and a session the store has held |
| SessionStore.PowerLossIsSafe | mqtt_atmowx_bridge/atproto/session_store.py:107-123 | a power loss leaves one of the known texts, and nothing else can appear after it |
| SessionStore.UnsyncedReplaceCanTruncate | mqtt_atmowx_bridge/atproto/session_store.py:118-120 | without the fsync any text could be found after a power loss |
| Persistence.LoadSession | mqtt_atmowx_bridge/atproto/session.py:189-198 | the session file holds what the manager's world calls its disk |
| Persistence.SaveSession | mqtt_atmowx_bridge/atproto/session.py:343-347 | saving keeps file and world together, whether it succeeds or fails |
| Persistence.ClearSession | mqtt_atmowx_bridge/atproto/session.py:146-149 | so does clearing |
| Persistence.ReopenAfterCrash | mqtt_atmowx_bridge/atproto/session_store.py:93-123 | after a process crash anywhere in a save the file holds the world's disk or the new session |
| Persistence.ReopenAfterPowerLoss | mqtt_atmowx_bridge/atproto/session_store.py:93-123 | after a power loss it holds what the world falls back to, a session its store has held |
| Topic.TopicMatches | mqtt_atmowx_bridge/mqtt/topic.py:6-31 | for every valid filter and every topic the loop decides the recursive relation, `$` topics, empty levels and the parent match of `#` included |
| Topic.LevelsMatchIsSubstitution | mqtt_atmowx_bridge/mqtt/topic.py:6-31 | the recursive relation is substitution of levels for wildcards |
| Topic.WildcardFreeMatchesItselfOnly | mqtt_atmowx_bridge/mqtt/topic.py:6-31 | a filter without wildcards matches exactly the identical topic |
| Topic.AssertValidTopicFilter | mqtt_atmowx_bridge/config.py:398-410 | accepts exactly the non-empty filters whose wildcards occupy whole levels, `#` only the last |
| Topic.ValidCharactersAreLevels | mqtt_atmowx_bridge/config.py:398-410 | the check by levels accepts the same filters as the rule read character by character |
| Strings.JoinSplit | mqtt_atmowx_bridge/mqtt/topic.py:15-16 | the parts of a split join to the string and hold no separator |
| Strings.SplitAtSeparator | mqtt_atmowx_bridge/bridge/collector.py:271-271 | splitting at a separator splits both sides |
| Quantities.ToQuantity | mqtt_atmowx_bridge/observation/quantity.py:20-51 | the result is canonical, safe and denotes the value rounded half away from zero at the given decimals; refuses exactly bad decimals, non-finite values and significands beyond 2^53-1 |
| Quantities.EncodingIsFaithful | mqtt_atmowx_bridge/observation/quantity.py:32-51 | the error is at most half a unit |
| Quantities.EncodingIsMonotone | mqtt_atmowx_bridge/observation/quantity.py:32-51 | larger values never encode smaller |
| Quantities.CanonicalIsUnique | mqtt_atmowx_bridge/observation/quantity.py:42-46 | equal denotations have identical encodings |
| Quantities.ReencodingIsIdentity | mqtt_atmowx_bridge/observation/quantity.py:20-58 | re-encoding the exact decoded value gives the quantity back |
| Quantities.EncodingIsStable | mqtt_atmowx_bridge/observation/quantity.py:20-58 | at any finer number of decimals, too |
| Quantities.DigitLimitIsRedundant | mqtt_atmowx_bridge/observation/quantity.py:36-49 | the 28-digit limit of quantize refuses nothing the 2^53-1 check would accept |
| Quantities.FoldIsCanonical | mqtt_atmowx_bridge/observation/quantity.py:42-46 | folding keeps the value and leaves no trailing zero while decimals are left |
| Fields.PathsArePrefixFree | mqtt_atmowx_bridge/observation/fields.py:54-120 | no field's path leads through another's or through the record's own keys |
| Fields.Spec | mqtt_atmowx_bridge/observation/fields.py:54-120 | every row wraps or has an integer range, and keeps at most one decimal |
| Records.BuildObservation | mqtt_atmowx_bridge/observation/record.py:95-149 | the loops compute the record, included and rejected lists the rows below describe, or raise on an extra that does not encode |
| Moments.FormattedOrder | mqtt_atmowx_bridge/observation/record.py:66-72 | formatted UTC times sort as strings exactly as the times do to the millisecond, and are equal exactly when these are |
| Moments.UtcEndsInZ | mqtt_atmowx_bridge/observation/record.py:66-72 | the replacement touches the offset only, and turns that of UTC into a Z |
| Records.CollectExtras | mqtt_atmowx_bridge/observation/record.py:120-143 | the second loop, up to the first extra that does not encode |
| Records.CoreFieldsStayPlausible | mqtt_atmowx_bridge/observation/record.py:75-92 | for every field and finite value: encoding never fails, and an accepted one decodes inside the plausible range after rounding, angles in 0..359 |
| Records.DirectionsKeepTheirAngle | mqtt_atmowx_bridge/observation/record.py:79-91 | an angle is off by at most half a degree modulo whole turns |
| Records.SetPathIsExact | mqtt_atmowx_bridge/observation/record.py:54-63 | setting a path changes that path and only what is on the way to or below it |
| Records.RecordIsFaithful | mqtt_atmowx_bridge/observation/record.py:95-149 | looking up any path in the built record gives the encoding of the field there if it has one, the sorted extras, a header value, or nothing |
| Records.SortIsStable | mqtt_atmowx_bridge/observation/record.py:145-147 | extras are sorted by parameter, and those of one parameter keep their order and number |
| Records.ExtrasAreTheFirst | mqtt_atmowx_bridge/observation/record.py:120-143 | the first 64 finite extras are included in order, the rest refused, and building raises exactly when one of the first 64 does not encode |
| Records.EveryReadingIsSomewhere | mqtt_atmowx_bridge/observation/record.py:108-143 | each reading is included or rejected exactly once if finite, and neither otherwise |
| Fidelity.EncodedExactlyWhen | mqtt_atmowx_bridge/observation/record.py:75-92 | every field takes exactly the finite values in its range, ends included, says on which side others are, and encodes within half a unit at its decimals, half a whole number, or half a degree up to turns |
| Fidelity.FieldHoldsItsReading | mqtt_atmowx_bridge/observation/record.py:95-119 | a reading is at its field's path in the record if and only if it is finite and in range, and what is there is that near to it |
| Fidelity.FieldWithoutReading | mqtt_atmowx_bridge/observation/record.py:108-119 | a field nobody reported is not in the record |
| Fidelity.RefusedExactlyWhen | mqtt_atmowx_bridge/observation/record.py:108-119 | a reading is rejected as too low or too high if and only if it is |
| Fidelity.ExtrasAreNear | mqtt_atmowx_bridge/observation/record.py:120-143 | each extra keeps its parameter, the unit of its dimension, its value to half a unit at its decimals and its height to half a hundredth |
| Fidelity.TiesAreBroken | mqtt_atmowx_bridge/observation/quantity.py:32-41 | a value exactly halfway goes away from zero in a quantity, and to the even number in an integer field |
| Fidelity.TiesOfReadings | mqtt_atmowx_bridge/observation/quantity.py:32-41 | so 21.25 at one decimal is 21.3, and -21.25 is -21.3 |
| Collector.ReadingCollector.constructor | mqtt_atmowx_bridge/bridge/collector.py:43-50 | starts empty |
| Collector.ReadingCollector.Ingest | mqtt_atmowx_bridge/bridge/collector.py:52-84 | the map after a message is the old one with everything accepted applied in source and mapping order, up to an exception if one leaves; counts, trigger flag and statistics are exact, and an exception reports no trigger |
| Collector.ReadingCollector.Offer | mqtt_atmowx_bridge/bridge/collector.py:57-74 | one round of the loop over the sources |
| Collector.ReadingCollector.IngestJson | mqtt_atmowx_bridge/bridge/collector.py:119-211 | what a JSON source takes, nothing from a document without the root object, and the mappings before a number float() refuses |
| Collector.ReadingCollector.IngestScalar | mqtt_atmowx_bridge/bridge/collector.py:164-192 | what a scalar source takes |
| Collector.ReadingCollector.Store | mqtt_atmowx_bridge/bridge/collector.py:213-257 | stores the calibrated reading with all its attributes exactly when it is within the mapping's limits and converts |
| Ingestion.CalibrationIsAffine | mqtt_atmowx_bridge/bridge/collector.py:222-222 | a raw zero becomes the offset, and a difference between raw numbers is multiplied |
| Ingestion.AcceptedExactlyWhen | mqtt_atmowx_bridge/bridge/collector.py:222-235 | a raw number is taken if and only if its calibrated value is within the limits, ends included, and converts |
| Ingestion.StoredAs | mqtt_atmowx_bridge/bridge/collector.py:222-247 | it is stored as the conversion of its calibrated value, with name, parameter, dimension, decimals, height, times and source those of the mapping and the message |
| Ingestion.NumbersAre | mqtt_atmowx_bridge/bridge/collector.py:292-307 | numbers and texts that are numbers are numbers; exactly an integer past the float range raises |
| Ingestion.TimesAre | mqtt_atmowx_bridge/bridge/collector.py:194-211 | a reading is as old as its payload says, if that is wanted, there and readable, and else as its message |
| Ingestion.RootIsWalk | mqtt_atmowx_bridge/bridge/collector.py:131-131 | a root that is not configured is the document itself, any other what its path leads to |
| Ingestion.SourceTakesItsYields | mqtt_atmowx_bridge/bridge/collector.py:119-192 | a source takes from a message what its mappings yield, in their order, up to the first exception |
| Ingestion.MessageTakesItsYields | mqtt_atmowx_bridge/bridge/collector.py:52-84 | a message takes what the mappings of the sources it reaches yield, in source and mapping order, up to the first exception |
| Ingestion.InTurnMeans | mqtt_atmowx_bridge/bridge/collector.py:52-84 | up to the first exception: everything if none is met, and otherwise what comes before it and that exception |
| Ingestion.IgnoredIsCounted | mqtt_atmowx_bridge/bridge/collector.py:57-66 | the counter of ignored messages goes up once for each source that ignores one |
| Collector.ReadingCollector.Snapshot | mqtt_atmowx_bridge/bridge/collector.py:86-94 | the map cut at the age limit, inclusive |
| Documents.GetPath | mqtt_atmowx_bridge/bridge/collector.py:269-289 | the early returns agree with walking all segments |
| Documents.RootThenPathIsJoinedPath | mqtt_atmowx_bridge/bridge/collector.py:131-145 | looking up a root and then a path is looking up the joined path, indexes included |
| Documents.WalkMeans | mqtt_atmowx_bridge/bridge/collector.py:269-289 | a path and a key is the entry of what the path leads to, a path and an index in brackets likewise, the empty path the document |
| Documents.IndexIsSegment | mqtt_atmowx_bridge/bridge/collector.py:269-271 | an index in brackets is one more segment, whatever comes before it |
| Documents.SegmentsAcrossDot | mqtt_atmowx_bridge/bridge/collector.py:269-271 | a dot separates segments |
| Documents.StepMeans | mqtt_atmowx_bridge/bridge/collector.py:273-289 | a key of an object gives its value; a missing key, an index out of range or no number, and anything below a scalar give nothing |
| Documents.IndexMeans | mqtt_atmowx_bridge/bridge/collector.py:277-284 | an index counts from the start of a list, or from its end if it is negative |
| Collector.LastAssignmentWins | mqtt_atmowx_bridge/bridge/collector.py:246-247 | each name holds its last assignment, or what it held before |
| Collector.TriggersExactlyWhen | mqtt_atmowx_bridge/bridge/collector.py:57-74 | a message without an exception triggers exactly when a trigger source it is routed to and not ignored by took a reading |
| Collector.MatchedExactlyWhen | mqtt_atmowx_bridge/bridge/collector.py:57-84 | a message without an exception counts as unmatched exactly when it is routed to no source |
| Collector.IngestAll | mqtt_atmowx_bridge/mqtt/client.py:171-185 | a sequence of messages applies the log of everything accepted; an exception ends its message and no other |
| Collector.CollectorHoldsTheLatest | mqtt_atmowx_bridge/bridge/collector.py:52-84 | after any messages the reading of a name is the last one accepted for it, and there is one exactly if any was |

## Left out

- HTTP transport, header parsing, paho callbacks, TLS, signal handling, CLI, health endpoint, logging, redaction and `station.py`.
- JSON decoding, `float()`, the number pattern, `parse_timestamp`, unit conversion (`toSi`) and JWT expiries are parameters; malformed success responses of the PDS are not modelled.
- Dew point and pressure derivations, and the configuration models and their loading.
- `publish_now` racing the publisher thread and the unlocked reads of `status()`.
- Counters and branches that only decide whether an observation is skipped (`min_fields`, `skip_unchanged`, a failing build) are one nondeterministic choice between skipping and committing.
- Process restarts of the bridge: the queue is lost, the last publish forgotten, and a rounded stamp can repeat across one. The session manager's restarts are modelled.
- Clocks: the wall and the monotonic clock advance together, and a timed wait does not return before its timeout. A late return is modelled.
- Float rounding of readings: they are exact reals (`to_quantity` starts from the decimal digits of its argument).
- `MemorySessionStore`, several processes sharing one session file, and failing cleanup of the temporary file.
- A naive `datetime`, which `tid_from_datetime` refuses, is not part of this model; neither are `now_tid` and UTC offsets of fractions of a second.
- Keys.SafeKeysIncrease: stamps lie between 1970 and 2242; from there on the float arithmetic can gain a microsecond as well as lose one.
- EndToEnd.EveryWindowOnce: reading times lie between 1970 and 2242 and their stamps are ones whose keys lose no microsecond; earlier ones have no key, and for the others two stamps a microsecond apart can share one.
- EndToEnd.NewestReadingsWinExactlyWhen: the same.
- Delivery.NewestWinsExactlyWhen: with a queue size of 0 nothing is ever replayed, so the condition is about queues of at least one.
- Records.SetPathIsExact: nested dicts are values, so that `_set_path` updates the caller's dict in place is not captured.
- Documents.RootThenPathIsJoinedPath: which characters count as digits in `[n]`, and `int()` on a segment, are parameters; the dot is not a digit.
- Documents.IndexIsSegment: likewise; neither the dot nor a bracket is a digit.
- Collector.ReadingCollector.Ingest: `warn_once` and its memory of warnings are left out; filters are those the config accepts.
- Publisher.ObservationPublisher.Publish: the key is a parameter (`Microseconds.TidFromMicros` derives it), and the `last_*` fields kept for `status()` are left out.
- Session.SessionManager.Session: calls are atomic because every public method holds the one lock; tokens are named by order of issue.
- SessionStore.FileSessionStore.Save: permissions and directory creation only count as calls that may fail.
