# Verification of the notification server's delivery logic

A Dafny model of the stateful and arithmetic core of the push, email and SMS delivery service, with proofs about
every run of it. `dafny verify dfyconfig.toml` checks the whole project.

| file | what it models |
|---|---|
| `Dispositions.dfy` | outcome classes and the settlement decisions of the push and the contact lane |
| `Handler.dfy` | one delivery: envelope screening and authentication, the effects of the handler, as a step machine and as the method |
| `Protocol.dfy` | broker, overlapping handlers and provider for one message; evidence of settlement, terminal outcomes |
| `Stranding.dfy` | how runs end: a step bound, and exactly which messages stay unsettled |
| `Faults.dfy` | each assumption behind the terminal-outcome theorem is needed; when the last delivery can be Nak-ed |
| `Fleet.dfy` | many messages behind one semaphore: admission, and refinement of the protocol of one message |
| `AckProgress.dfy` | the heartbeat loop, the ack lease, and the exact bound on delays that keeps it |
| `Timed.dfy` | the protocol on a clock: heartbeats establish the leases that the untimed theorems assume |
| `Backpressure.dfy` | the wait for a permit, during which no heartbeat is sent |
| `RateLimit.dfy`, `ContactDispatch.dfy` | the token bucket and the registry that spends it before sending |
| `ContactLane.dfy` | handler and registry together: what becomes of a throttled contact job |
| `Retry.dfy` | the retry schedule |
| `ApiDocs.dfy` | schema closure and public OpenAPI projection, over JSON values |
| `Fingerprints.dfy`, `Receipts.dfy` | the hash pre-images of targets and receipt keys, with an abstract digest |
| `Ledger.dfy` | the insert-once receipt ledger |
| `TokenCache.dfy` | the APNs and FCM token caches under many callers |

How to read the protocol. A run is any sequence of labels: the broker delivers, a lease expires, a handler takes its
next step with some answer of the environment (provider reply, publish confirmed or failed, settlement received or
lost), a handler crashes. A label that is not enabled changes nothing, so every sequence is a run and the theorems range
over all of them. A handler's state is its phase and the log of its effects. A failed publish may have stored its event
or not; only a confirmed one counts as evidence. The broker takes a settlement from any delivery of the message, ignores
what comes after the first Ack or Term, and may redeliver at any time after a Nak. One configuration field selects the
lane, so every theorem covers both.

Where code and documentation differ, the model follows the code. `docs/nats-ingestion-v1.md:48` says that a failed
result publish is answered with a Nak; the code dead-letters and terminates terminal outcomes, and
`Protocol.TerminalOutcomeNeverNaks` holds of it. `docs/nats-ingestion-v1.md:50` says heartbeats come at a third of the
ack wait; the code uses at least five seconds, so an ack wait of five seconds or less cannot be kept alive
(`AckProgress.LeaseNeedsFiveSeconds`).

How time enters. `Protocol.dfy` is untimed: a lease may expire at any label, and some theorems assume that none expires
under an active handler. `Timed.dfy` puts the labels on a clock and gives each delivery a time line: when it reaches the
worker, gets its permit, calls the provider, sends heartbeats and returns. There the assumption is a theorem, and the
bound on the delays under which it holds is exact: beyond it there is a run without crash or loss in which the provider
accepts the message twice.

Some properties hold only under a condition, and each condition is proved exact:

- The last permitted delivery can be Nak-ed, which strands the message, exactly for a dispatched job with two or more
  deliveries whose handler takes the last one for attempt 1, as it does when the header is unreadable
  (`Faults.FinalNakExactly`, `Faults.UnreadableFinalHeaderStrands`).
- Heartbeats keep the lease, and a dispatched job is accepted only once, exactly while startup, the longest silence between
  heartbeats that arrive and the way of a heartbeat (or the tail after the call) add up to less than the ack wait
  (`AckProgress.LeaseBoundIsExact`, `Timed.DelaysDuplicateExactly`).
- A waiting message keeps its lease exactly while the rounds of handlers before it fit in the ack wait: no heartbeat is
  sent for it (`Backpressure.NoLeaseLostWaitingExactly`, `Backpressure.BackpressureAloneDuplicates`).
- Jittered delays of two attempts never decrease exactly when the later jitter window stays above the earlier backoff
  (`Retry.NeverDecreasesExactly`); this is guaranteed while doubling is uncapped and fails between attempts at the cap unless the jitter window rounds to nothing (`Retry.CappedDelaysCanDecrease`).
- The public document as a whole is closed under references exactly when what it keeps outside paths and schemas mentions
  no schema that the public paths miss: a top-level field carried over, a field of info other than title, contact and
  license, or, over arbitrary JSON, a published schema that is named `$ref` and is a string
  (`ApiDocs.WholeDocumentClosedExactly`, `ApiDocs.CarriedReferenceCanDangle`).

## Model

| member | source | states |
|---|---|---|
| Dispositions.LanesAgreeExactly | src/contact_nats_ingestion.rs:499-524 | the contact lane's two decisions equal the push lane's exactly outside the non-positive max_deliver values that the config parsers refuse |
| Dispositions.DocumentedDispositions | docs/nats-ingestion-v1.md:52-56 | after a published result both lanes follow the documented table in both directions: who is acked, who is Nak-ed with attempts left, who is dead-lettered on the last delivery |
| Dispositions.PublishFailureDispositions | src/nats_ingestion.rs:482-501 | after a failed result publish a job is never acked, and is Nak-ed exactly where a published result would be |
| Handler.FoldDifferenceZero | src/nats_ingestion.rs:588-598 | the constant-time byte fold is zero exactly for equal byte strings |
| Handler.ScreenedExactly | src/nats_ingestion.rs:270-327 | a payload is processed exactly when it fits, parses, has the lane's schema and carries the configured secret; which reason an unfit one gets, in the order of the checks |
| Handler.CompletionOfTail | src/nats_ingestion.rs:378-402 | what is still logged once only the burial or the settlement is left, including the early return of a failed burial |
| Handler.Session.ProcessJob | src/nats_ingestion.rs:406-453 | an invalid job is never dispatched and is an invalid payload; a delivery error keeps its class, a missing provider is a permanent failure, an internal error an internal one |
| Handler.HandledExactly | src/nats_ingestion.rs:257-404 | for every screened message, header, reply and publish answers, the whole log: what is dispatched, which class is published, and which settlement or dead letter follows, case by case |
| Handler.Session.HandleMessage | src/nats_ingestion.rs:257-404 | the imperative handler performs, in order, exactly those effects and those of the completed step machine, for every message and every behaviour of its environment |
| Protocol.RunsAreSound | src/nats_ingestion.rs:257-404 | in every run at most max_deliver deliveries, every delivery's log is a legal history of its phase, and a settlement was sent and received by a finished handler |
| Protocol.SettledIsFinal | src/nats_ingestion.rs:344-402 | once an Ack or a Term has arrived, no continuation of the run replaces it or delivers the message again |
| Protocol.HandlerCompletes | src/nats_ingestion.rs:257-404 | from any state of any run, a handler left alone performs exactly the completed delivery that HandleMessage is proved to perform, and moves no other handler |
| Protocol.SettlementEvidence | src/nats_ingestion.rs:344-402 | in every run an acked message has a confirmed result event of a terminal outcome from that delivery; a termed one has a confirmed dead letter, or both publishes failed there after an outcome; a Nak never settles |
| Protocol.EventsReportTheReply | src/nats_ingestion.rs:433-453 | in every run all result and dead-letter events of a dispatched delivery report the class of the reply it got: the carried one, permanent for not configured, internal for an internal error |
| Protocol.SettlementFollowsReply | src/nats_ingestion.rs:344-402 | in every run a finished dispatched delivery is Nak-ed exactly for a throttled, transient or internal failure with attempts left, acked exactly for a terminal class with a confirmed result, terminated otherwise |
| Protocol.CallsAreBounded | src/nats_ingestion.rs:270-335 | in every run at most max_deliver provider calls, and none at all for a poison payload or an invalid job |
| Protocol.TerminalOutcomeNeverNaks | src/nats_ingestion.rs:482-501 | in every run, whichever publishes fail, a handler that saw a terminal outcome never sends a Nak |
| Protocol.TerminalOutcomeIsLastCall | src/nats_ingestion.rs:344-402 | when settlements arrive and leases are kept, no delivery follows a terminal outcome, and once its handler ends the message is settled |
| Protocol.OneHandlerAtATime | src/nats_ingestion.rs:329-335 | if leases are kept, at most one handler is active on a message, whatever crashes or is lost |
| Stranding.RunsAreBounded | src/nats_ingestion.rs:257-404 | every run, whatever its faults, has at most seven effective steps per permitted delivery |
| Stranding.NakLeavesADelivery | src/nats_ingestion.rs:466-480 | in every run a Nak is sent only while the broker can still redeliver, unless that delivery counts as attempt 1 without being the first; Faults.FinalNakExactly makes the exception exact |
| Stranding.StrandedLastDelivery | src/nats_ingestion.rs:382-401 | without crashes or lost settlements, whatever headers are unreadable, publishes fail and leases expire, a message left unsettled for good used every delivery; the last one gave up on the failed dead letter of a poison payload or of a retryable outcome with a confirmed result, or sent a Nak counting itself as attempt 1; it saw no terminal outcome |
| Stranding.StrandedOnlyByBurial | src/nats_ingestion.rs:390-401 | so if the counter of the last delivery is read correctly, only a failed dead-letter publish strands a message |
| Stranding.StrandedExactly | src/nats_ingestion.rs:382-401 | a finished run without crashes or lost settlements leaves the message unsettled exactly when every delivery gave up or sent a Nak; with leases kept, exactly when the last permitted one did |
| Faults.EachFaultAloneDuplicates | src/nats_ingestion.rs:344-402 | for every configuration with two deliveries and every dispatchable message, one lost settlement, one crash or one early lease expiry alone makes the provider accept it twice |
| Faults.UnreadableFinalHeaderStrands | src/nats_ingestion.rs:264-268 | for every number of deliveries from two on, an undisturbed run in which only the last header is unreadable ends with a Nak on the last delivery, the message unsettled for good |
| Faults.FinalNakExactly | src/nats_ingestion.rs:264-268 | for every configuration and message, some run Naks the last permitted delivery as attempt a exactly when the job is dispatched, there are two or more deliveries and a is 1 |
| Fleet.PermitsAreConserved | src/nats_ingestion.rs:174-198 | permits plus active handlers is max_concurrency in every run of the consumer loop |
| Fleet.EventsTakeEffect | src/nats_ingestion.rs:186-197 | after any run every event has its full effect on its message and none on others, except an admission while max_concurrency handlers are at work |
| Fleet.AdmittedExactly | src/contact_nats_ingestion.rs:211-219 | after any run a waiting handler that asks for its permit is admitted exactly when fewer than max_concurrency handlers are at work |
| Fleet.FleetRefinesProtocol | src/contact_nats_ingestion.rs:196-222 | under any contention each message behaves as in a run of the single-message protocol, so its theorems carry over |
| AckProgress.RunWithAckProgress | src/nats_ingestion.rs:544-567 | the loop's heartbeats follow the timer with delayed missed ticks, its 5 ms grace included, and the call returns before the next one; with the biased select none is sent after the call is ready |
| AckProgress.HeartbeatRate | src/nats_ingestion.rs:329 | a call sends no more than one heartbeat per third of the ack wait and per five seconds of its length, and with ticks polled within a bound it misses none |
| AckProgress.LeaseIsKept | src/contact_nats_ingestion.rs:354-360 | the lease is held from delivery until the handler has ended, for calls of any length, if startup, the longest silence between heartbeats and the latency or tail stay below ack_wait |
| AckProgress.LeaseBoundIsExact | src/contact_nats_ingestion.rs:559-581 | all calls within given delays and losses keep their lease to the end exactly when that sum is below ack_wait |
| AckProgress.OneLostBeatIsTolerated | src/nats_ingestion.rs:329-335 | from 15 s of ack wait on, delays below a third of it and isolated lost heartbeats never cost the lease |
| AckProgress.LeaseNeedsFiveSeconds | src/nats_ingestion.rs:329 | a perfectly prompt worker keeps the lease of every call exactly when ack_wait exceeds 5 s |
| Timed.HeartbeatsKeepLeases | src/nats_ingestion.rs:329-335 | in every run on the clock whose delays fit, whatever crashes or is lost, no lease expires under an active handler and at most one handler works on the message |
| Timed.TimedTerminalOutcomeIsLastCall | src/nats_ingestion.rs:329-402 | on the clock, with delays that fit and settlements arriving, no delivery follows a terminal outcome, and once its handler ends the message is settled |
| Timed.DelaysDuplicateExactly | src/nats_ingestion.rs:329-402 | without crashes or lost settlements, some run on the clock makes the provider accept a message twice exactly when the delays do not fit the ack wait |
| Backpressure.WaitIsBounded | src/nats_ingestion.rs:177-196 | in every first-come schedule, a message that finds q others waiting gets its permit within q / max_concurrency + 1 times the longest handler |
| Backpressure.NoLeaseLostWaitingExactly | src/nats_ingestion.rs:177-196 | no message behind at most q others outwaits its lease exactly when that time is below ack_wait |
| Backpressure.QueuedLeaseIsKept | src/contact_nats_ingestion.rs:196-222 | with that time as startup delay and delays that fit, the lease lasts through the wait, the call and the tail |
| Backpressure.BackpressureAloneDuplicates | src/nats_ingestion.rs:177-196 | otherwise there is a schedule and a run without crash, loss or any delay but the wait in which the provider accepts a message twice |
| RateLimit.TokenBucket.constructor | src/contact/rate_limit.rs:35-43 | a new bucket is full and its rate is a sixtieth of the limit per second |
| RateLimit.TokenBucket.TryTake | src/contact/rate_limit.rs:45-64 | the in-place update is the pure bucket step on the old state, for grants and for denials with their hint |
| RateLimit.WindowBound | src/contact/rate_limit.rs:45-55 | in every run, at most capacity + (t - s) * rate calls are granted in any window [s, t] |
| RateLimit.GreedyIsOptimal | src/contact/rate_limit.rs:45-55 | no other choice of grants under the same refill law has granted more calls at any point of any run |
| RateLimit.AdmissibleExactly | src/contact/rate_limit.rs:45-55 | a choice of grants is one the refill law allows exactly when its grants from the start, and between any two calls, keep within the tokens held and flowing in |
| RateLimit.GreedyBeatsTheWindowLaw | src/contact/rate_limit.rs:45-55 | from a full bucket, no choice at all that keeps the window bound has granted more calls at any point of any run, and the bucket keeps it |
| RateLimit.GrantedExactly | src/contact/rate_limit.rs:45-55 | a call is granted exactly when one more grant keeps every window that ends with it within capacity + length * rate |
| RateLimit.IdleMinuteRestoresTheBurst | src/contact/rate_limit.rs:47-55 | a minute after its last call a bucket of any level grants a whole burst at once |
| RateLimit.DeniedCallsAreInvisible | src/contact/rate_limit.rs:45-64 | erasing any denied calls from a history changes no other decision and no later level |
| RateLimit.LevelDependsOnGrantsOnly | src/contact/rate_limit.rs:45-64 | the lazily refilled level is that of a bucket that sees only the granted calls |
| RateLimit.HintIsTheWait | src/contact/rate_limit.rs:57-63 | the hint is the missing tokens over the rate, at least 0.05 s; the 60 s clamp never truncates it |
| RateLimit.HintIsSufficientAndTight | src/contact/rate_limit.rs:57-63 | after a denial and any further denials, a call that respects the hint is granted, and above the floor exactly such a call is |
| RateLimit.ServiceBuckets | src/contact/rate_limit.rs:15-19 | every configured limit, zero included, gives a full bucket of at least one token |
| ContactDispatch.ContactProviderRegistry.WithProvider | src/contact/dispatch.rs:24-30 | a provider is filed under its own kind and the other slot is untouched |
| ContactDispatch.ContactProviderRegistry.WithRateLimit | src/contact/dispatch.rs:32-39 | a slot gets its own fresh limiter and the other slot is untouched |
| ContactDispatch.RepliesExactly | src/contact/dispatch.rs:46-67 | which reply a call gets, from the provider, the limiter and its tokens; Sent and only Sent stands for one send |
| ContactDispatch.HintIsHonoured | src/contact/dispatch.rs:57-66 | a throttled call sends nothing, and made again after its hint it is sent |
| ContactDispatch.CallersAreToldTheTruth | src/contact/dispatch.rs:41-68 | over any interleaving, the sends of a provider are exactly the calls whose callers were told Sent, in order |
| ContactDispatch.ContactProviderRegistry.Dispatch | src/contact/dispatch.rs:41-68 | lookup, limiter and send change exactly the slot of the job's provider; one send for Sent and none otherwise, not configured exactly without a provider; a registry built by its builders never reports a wrong kind |
| ContactDispatch.ServeBothLanes | src/server.rs:88-106 | two lanes over clones of one registry share providers and limiters: the second dispatch finds what the first left |
| ContactDispatch.SlotsAreIndependent | src/contact/dispatch.rs:42-45 | in every run a provider's state depends only on the times of its own calls, whoever made them |
| ContactDispatch.SendsAreGrants | src/contact/dispatch.rs:57-67 | in every run the provider sends are exactly the granted calls |
| ContactDispatch.ProviderWindowBound | src/contact/dispatch.rs:41-68 | over any interleaving of callers, sends in any window number at most limit + (t - s) * limit / 60, one token each |
| ContactLane.ThrottledJobComesBack | src/contact_nats_ingestion.rs:436-512 | a contact job stopped by the local limiter with attempts left is not sent and always Nak-ed, and redelivered once the Nak delay covers the hint it is sent |
| ContactLane.AcceptedMeansSent | src/contact_nats_ingestion.rs:460-486 | a contact job is published as accepted only if its provider was called for it and accepted it |
| ContactLane.UnservedJobsFail | src/contact_nats_ingestion.rs:466-486 | without a provider a contact job is published as a permanent failure, behind one of the wrong kind as an internal failure, and is not sent |
| Retry.NewPolicyNormalizes | src/retry.rs:53-67 | every constructed policy is in bounds, values in bounds are kept, and normalizing again changes nothing |
| Retry.NewPolicyIsNearest | src/retry.rs:53-67 | out-of-range arguments become the nearest admissible values: 1 ms, 24 h, one attempt, half |
| Retry.SaturationNeverShows | src/retry.rs:86-101 | for every policy and attempt the clamped, saturating backoff is min(base * 2^attempt, max) over unbounded integers, and the later saturations and the u64 fallback are idle |
| Retry.JitterRangeIsExact | src/retry.rs:91-101 | over all u64 entropies the local delays are exactly the integer milliseconds of the jitter window |
| Retry.JitterIsEven | src/retry.rs:91-101 | among any window + 1 entropies in a row each millisecond of the window is drawn exactly once |
| Retry.FloorIsExact | src/retry.rs:102-106 | Retry-After is a floor capped at 24 h, and the final minimum is redundant |
| Retry.NeverDecreasesExactly | src/retry.rs:76-107 | the delays of one attempt never exceed those of another, for all entropies, exactly under a guard on backoff and window |
| Retry.CappedDelaysCanDecrease | src/retry.rs:76-107 | attempts with equal backoff, as at the cap, keep their order for all entropies exactly when the jitter window rounds to zero |
| Retry.UncappedDelaysNeverDecrease | src/retry.rs:76-107 | while doubling is uncapped, independently jittered delays never decrease, with any common Retry-After |
| Retry.ScheduleIsBounded | src/retry.rs:76-107 | k local delays sum to at most k * max_ms and at most base_ms * (2^k - 1) milliseconds |
| ApiDocs.SchemaRefsAreExact | src/api_docs.rs:149-163 | a name is found exactly when some path into the value leads to a reference to it |
| ApiDocs.ClosureFrom | src/api_docs.rs:165-185 | from any disjoint reached and frontier such that what reached names refer to lies in either, the recursion returns the least closed superset of both |
| ApiDocs.ClosureDescends | src/api_docs.rs:177-184 | the names not yet reached strictly decrease, so the recursion terminates on cyclic and dangling graphs |
| ApiDocs.ClosureIsReachability | src/api_docs.rs:187-196 | the closure is exactly the set of names reachable by reference chains from the roots |
| ApiDocs.ProjectionIsMinimal | src/api_docs.rs:198-251 | a schema is published exactly when it exists and a public path reaches it, and then unchanged |
| ApiDocs.ProjectionIsClosed | src/api_docs.rs:198-251 | every reference in a published path or schema that resolved internally still resolves |
| ApiDocs.ProjectionFailsClosed | src/api_docs.rs:361-388 | exactly the allow-listed paths are published, never the push and contact job paths, no component but schemas, no contact or licence |
| ApiDocs.ProjectionKeepsTheRest | src/api_docs.rs:215-249 | every other top-level and info field is published unchanged and none is invented; the title is the public one |
| ApiDocs.ProjectionIsNonInterfering | src/api_docs.rs:198-251 | private paths, unreachable schemas, security schemes, contact and licence have no influence on the public document |
| ApiDocs.ProjectionIsIdempotent | src/api_docs.rs:198-251 | projecting twice is projecting once |
| ApiDocs.WholeDocumentClosedExactly | src/api_docs.rs:226-249 | the whole document is closed exactly when the internal document's carried fields, kept info fields and a reachable string schema named "$ref" mention no existing schema that the paths miss |
| ApiDocs.CarriedReferenceCanDangle | src/api_docs.rs:119-133 | a finalized document whose extension field refers to a schema that no public path reaches: the reference is published, the schema is not |
| Fingerprints.DecodeInvertsPreimage | src/redaction.rs:26-36 | every target's pre-image reads back, from the right, as a target with NUL-free keys and the same pre-image; as the target itself exactly when its keys are NUL-free |
| Fingerprints.UnambiguousExactly | src/contracts.rs:84-104 | a pre-image stands for its target alone, among the targets validation admits, exactly when its keys are NUL-free |
| Fingerprints.FingerprintsIdentifyTargets | src/redaction.rs:38-39 | unless the truncated digests collide, equal fingerprints mean equal targets |
| Fingerprints.HexSpells | src/redaction.rs:38-39 | two lower-case digits a byte, the high half first |
| Receipts.BigEndianRoundTrip | src/receipt.rs:53-58 | the eight-byte length prefix reads back |
| Receipts.DecodeInvertsEncode | src/receipt.rs:53-58 | any number of length-prefixed strings reads back uniquely |
| Receipts.KeyPreimageReadsBack | src/receipt.rs:24-38 | behind its domain the key pre-image reads back as tenant, application, idempotency key, provider and fingerprint, in that order |
| Receipts.KeysIdentifyScopes | src/receipt.rs:24-40 | unless the digest collides on the two pre-images, receipt keys are equal exactly when tenant, application, idempotency key, provider and fingerprint are |
| Ledger.DeliveryReceiptLedger.Record | src/receipt.rs:220-234 | the in-place insert is the pure ledger step: recorded, already recorded, or refused without a change |
| Ledger.LedgerIsFirstOffered | src/receipt.rs:219-238 | after any history the ledger maps exactly the offered keys, each to the first receipt offered for it |
| Ledger.RecordedIsSize | src/receipt.rs:240-242 | the number of Recorded results is the number of entries |
| Ledger.ConflictExactly | src/receipt.rs:224-233 | a receipt is refused exactly when a different one with its key came first, and recorded exactly when none did |
| Ledger.ReplayChangesNothing | src/receipt.rs:209-213 | replaying a history, or any receipts from it, changes nothing |
| Ledger.OrderAndDuplicatesDoNotMatter | src/receipt.rs:209-213 | conflict-free histories with the same receipts give the same ledger, in any order and multiplicity |
| Ledger.ConflictsMakeOrderMatter | src/receipt.rs:209-213 | all reorderings of a history give one ledger exactly when it is free of conflicts |
| TokenCache.Cache.GetToken | src/providers/fcm.rs:189-202 | a fresh slot is returned untouched; otherwise the refresh result is returned and stored, and a failure leaves the slot; a returned token is the slot's and fresh |
| TokenCache.QueuedCallIsServed | src/providers/apns.rs:194-208 | in any state, a caller that comes while the lock is free gets, and leaves, what one call of the cache gives |
| TokenCache.NoExpiredTokenIsReturned | src/providers/apns.rs:194-208 | over every interleaving, a returned token was minted before and is not at or past its expiry |
| TokenCache.MintsAreSeparated | src/providers/fcm.rs:189-202 | over every interleaving, j - i further mints take at least j - i cache lifetimes, and none comes before the expiry of an earlier one |
| TokenCache.ProviderLifetimes | src/providers/fcm.rs:308-315 | the separation is 3000 s for APNs and max(1, expires_in - 60) s for FCM, with 3600 s assumed when nothing is announced |
| TokenCache.ApnsTokensAreRecent | src/providers/apns.rs:194-208 | over every interleaving no APNs token is returned 3000 s after its mint |
| TokenCache.FcmTokensAreRecent | src/providers/fcm.rs:308-315 | over every interleaving, whatever each refresh announced, no FCM token is returned max(1, announced - 60) s after its mint |
| TokenCache.FreshTokenIsShared | src/providers/fcm.rs:190-196 | while the cached token is fresh no interleaving starts a refresh, and every caller, queued ones included, gets that token |
| TokenCache.FailedRefreshLeavesSlot | src/providers/fcm.rs:198-201 | a failed or cancelled refresh leaves the slot and frees the lock |

## Left out

- Handler.Session.HandleMessage: its returned error is only logged by the consumer loop and is not modelled; serialization of an event counts as part of a publish.
- Fleet.PermitsAreConserved: here any queued delivery may be admitted next; the order of admission is modelled in Backpressure only.
- AckProgress.LeaseIsKept: polling delays, message latency and the tail after the call are parameters with bounds; the tokio scheduler itself is not modelled.
- Timed.HeartbeatsKeepLeases: one clock for broker and worker; the delay of a Nak is not on the clock, so a redelivery may come at once.
- Backpressure.WaitIsBounded: how many messages the NATS client fetches ahead is the parameter q; the two-second pause after a fetch error is not modelled.
- RateLimit.TokenBucket.TryTake: f64 rounding and the rounding of the hint to nanoseconds are not modelled, arithmetic is over reals; the clock reading is a parameter.
- RateLimit.WindowBound: assumes nondecreasing clock readings, as the monotonic clock read under the mutex gives.
- ContactDispatch.ProviderWindowBound: a send counts at the time its token is granted.
- ContactDispatch.ContactProviderRegistry.Dispatch: what the provider answers to a send is the environment's choice and is modelled in the delivery protocol only.
- ApiDocs.ProjectionIsClosed: JSON values only; the typed OpenAPI document, its serialization and the final parse are not modelled, and a document without object-valued paths and info, on which the code panics, is excluded.
- Receipts.DecodeInvertsEncode: strings are byte sequences no longer than a Rust string can be.
- Receipts.KeysIdentifyScopes: SHA-256 is an arbitrary function; that it does not collide on the inputs at hand is a premise.
- Fingerprints.UnambiguousExactly: that keys are NUL-free is what validation grants (src/validation.rs:249-254); the other field validators are not modelled.
- TokenCache.MintsAreSeparated: token signing and the OAuth exchange are one refresh with an arbitrary result; an announced lifetime so large that the clock addition overflows is not modelled.
- JetStream itself: stream retention, stream and consumer creation, reconnection, and NATS acknowledgement formats.
- Receipt construction (state and reason tables, provider-code characters) and HTTP status classification: finite tables.
- HTTP routers, provider request builders and response classifiers, configuration parsing, text truncation, Retry-After parsing, registry readiness.
