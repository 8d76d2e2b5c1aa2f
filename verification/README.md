# Cherry desktop capture agent: verified kernels

A Dafny model of the seven stateful kernels of the agent, with proofs of what
they keep over every run. `dafny verify dfyconfig.toml` checks everything.

| kernel | files |
|---|---|
| PullPoint event broker and its pullers | `EventBroker.dfy` (the mutex-protected object), `PullProtocol.dfy` (all interleavings), `EventLimits.dfy` (request parameters) |
| Digest and WS-Security authentication | `DigestHeader.dfy`, `Nonce.dfy`, `ReplayCache.dfy`, `Authenticator.dfy`, `AuthenticatorRuns.dfy` |
| Runtime video reconfiguration | `VideoConfig.dfy`, `EncoderSettings.dfy`, `Reconfiguration.dfy` |
| Rotating log | `RotatingLog.dfy`, `LogOrder.dfy` |
| JPEG frame scanner | `JpegScanner.dfy` |
| Recording quota | `RecordingQuota.dfy` |
| RTP metadata track | `MetadataRelay.dfy` |
| Shared vocabulary | `Common.dfy`, `Text.dfy` |

## How the model is built

Objects whose methods update fields are classes, and every method is proved
equal to a function of the old state (`State() == Ticked(old(State()), ...)`).
The properties are then proved about those functions: over all sequences of
steps where the original is concurrent (`PullProtocol`, `Reconfiguration`), and
over all sequences of calls or requests elsewhere. `Next` of `PullProtocol`
runs the very functions the `EventBroker` methods are proved equal to, one
critical section or channel operation at a time.

Clock readings, random tokens, the outcome of every file operation and the
result of the cryptographic functions are parameters, so each theorem holds for
all of them. Instants and durations are nanosecond counts. Where 64-bit
wrap-around, saturation or truncation shows, it is written out (`Wrap64`).

## What is false of the code, and exactly when it is true

- A blocked puller can sleep beside a non-empty queue when two pulls share a
  subscription and the first takes fewer events than there are. On each
  subscription no wake-up is lost if and only if no two pulls share it or every
  message limit used on it is at least 64 (`NoLostWakeupExactly`).
- A Digest request can be accepted twice, for two reasons: `VerifyHTTP` reads
  the clock once for the nonce and again for the cache, and it reads the second
  one before taking the cache's lock. In any run, whatever the order of the
  readings, a repeat gets through exactly when its first reading is in the
  nonce's window and some reading of the cache's clock since the latest
  acceptance, perhaps its own, is past that acceptance's window
  (`RepeatAcceptedExactly`). With one reading a request that leaves exactly the
  overtaken repeats (`OneReadingRepeatExactly`), and with readings in lock order
  nothing (`AtMostOnce`). Both failures reach an honest client's request
  (`HonestRequestAcceptedTwice`, `OvertakenRequestAcceptedTwice`).
- The replay cache answers like one that forgets nothing if and only if no
  attempt is overtaken: none reads its clock inside the window of its key's
  last pass after another attempt has read past it (`CacheLawExactly`). That
  holds when the readings do not go back in lock order (`CacheLaw`).
- With an advancing clock a WS-Security token can be accepted twice, never three
  times (`WsseAtMostTwice`). Some such run accepts it again if and only if its
  first acceptance is before Created (`WsseTwiceExactly`), and a second presentation is accepted
  exactly when it is more than TTL after the first and at most TTL after
  Created (`WsseSecondExactly`).
- A duration of hours and minutes whose total leaves 64 bits is decided by the
  residue of that total modulo 2^64: the cap, a lifetime unrelated to what was
  asked for, or the default minute (`LongRequests`). The lifetime is what is
  due exactly when less than an hour is asked for, or the residue is an hour or
  more in the lower half (`DueExactly`). All three outcomes occur
  (`LongRequestsHappen`).
- `UpdateConfig` validates the whole of its argument but copies nine fields,
  so the result is valid exactly when the target has no substream, or the
  argument has one, or its substream fields are in order anyway
  (`UpdateKeepsValidExactly`). The handler only submits edited copies of the
  running configuration, and these keep it valid (`AlwaysValid`).
- Encoder updates read, edit and commit without a transaction. At any point of
  any interleaving a commit has the effect of the request run in one piece
  exactly when the request asks for everything in which the configuration has
  moved on from its copy (`CommitIsAtomicExactly`). Two updates end as in some
  serial order if and only if they do not overlap, or the last to commit asks
  for everything the other changed, or leaves it nothing to ask for
  (`SerializableExactly`).
- An update that persists writes the file before it takes the lock. The file
  holds the fields of the last update to write it, and agrees with the running
  configuration exactly when the commits since that update's own left its
  fields (`FileAgreesExactly`). When every update persists and no two are
  between write and commit at once, it agrees whenever none is (`FileFollows`);
  two that cross leave each of the two places with the other's fields
  (`CrossedWrites`).
- A reported configuration can be written back exactly when its bit rate is
  within 64..200000 kbit/s (`GetThenSet`), and every valid configuration has a
  valid neighbour for which it is not (`LowBitrateIsRefused`).
- A pull goes round its loop at most three times if and only if no other shares
  its subscription (`ThreePassesExactly`).
- A drained subscriber ends on the current state when its last event is a
  Changed (`DrainedSubscriberIsCurrent`). When it is an Initialized, it does
  exactly when the readiness sampled for that event agreed with lastReady
  (`SynchronizedIsCurrentExactly`).
- "Rotating agent logs" (README.md of the repository) holds while rotations
  succeed. After any calls with any faults the writer is open if and only if no
  call was Close or had to rotate while closing the file, renaming it, or
  opening and measuring the new one failed; from then on every write is dropped
  (`AliveExactly`).
- The quota in bytes is the configured number of GiB exactly below 2^33 GiB;
  from there the product wraps (`LimitExactly`).
- The 90 kHz timestamp advances by the elapsed time, rounded to a tick and
  modulo 2^32, if and only if the number of times its 64-bit product wrapped in
  between is a multiple of 5^9 (`LinearExactly`). For instants a 64-bit
  nanosecond count can hold that means no wrap at all
  (`LinearBetweenWrapsExactly`); wraps are under 57 hours apart, and the first
  one throws the timestamp back to zero (`TimestampJumps`).
- The loss document of the relay's error exit is labelled Changed even when
  loss was already reported; it changes something exactly when the source was
  ready at the latest sample (`ErrorExitWellToldExactly`).

## Model

| member | source | states |
|---|---|---|
| PullProtocol.NoLostWakeupExactly | internal/onvif/events.go:140-191 | for each subscription, over every reachable interleaving of enqueues, ticks, expiry, unsubscription and pulls: a puller blocked on a live non-empty queue is signalled or another puller is about to look, if and only if no two pulls share that subscription or every limit used on it is at least 64 |
| PullProtocol.WakeupCanBeLost | internal/onvif/events.go:152-173 | for every other policy on a subscription, a reachable state in which a puller sleeps beside its non-empty queue with nobody on the way |
| PullProtocol.LonePullIsSignalled | internal/onvif/events.go:162-173 | a pull alone on its subscription, blocked beside a non-empty queue, has its channel full, whatever is shared elsewhere |
| PullProtocol.ThreePassesSuffice | internal/onvif/events.go:144-173 | a pull alone on its subscription never makes a fourth pass of its loop and never blocks a third time, whatever ticks, renewals, synchronization points and stale signals occur and whatever is shared elsewhere |
| PullProtocol.ThreePassesHappen | internal/onvif/events.go:144-173 | three passes are reached on every subscription, so the bound is tight |
| PullProtocol.ThreePassesExactly | internal/onvif/events.go:144-173 | three passes bound every pull on a subscription if and only if no two pulls share it |
| PullProtocol.AnyPassHappens | internal/onvif/events.go:144-173 | on a shared subscription every pass number is reached |
| PullProtocol.DeliveryRefinement | internal/onvif/events.go:152-160 | in every run: the queue is the tail of what was enqueued, at most 64 long; what was handed out are enqueued events at strictly increasing positions before the queue; an event neither queued nor handed out was followed by 64 newer ones; the newest event is never dropped |
| PullProtocol.NothingDroppedEarly | internal/onvif/events.go:152-191 | over every step of every run, a surviving subscription's queue loses events only to a caller, in order, or its oldest one to a new event when exactly 64 are pending; below 64 a new event drops nothing |
| PullProtocol.SubscriptionSafety | internal/onvif/events.go:80-112 | in every run at most 32 subscriptions, each expiring no later than an hour after the last instant its lifetime was set |
| PullProtocol.ChangedTracksReadiness | internal/onvif/events.go:68-75 | in every run the Changed broadcasts alternate, the latest is the negation of lastReady, and the Changed events of any queue are the last broadcasts since its subscription was created |
| PullProtocol.DrainedSubscriberIsCurrent | internal/onvif/events.go:68-75 | a subscriber that has drained its queue and whose last event was a Changed ends on the current state, even after overflow |
| PullProtocol.SynchronizedIsCurrentExactly | internal/onvif/events.go:124-138 | however long after, a drained subscriber whose last event came from a synchronization point is on the current state exactly when the readiness sampled there agreed with lastReady |
| PullProtocol.NextView | internal/onvif/events.go:56-199 | each step of the whole broker does to each single subscription exactly one of seven effects: keep, drop, open, extend, add, take, drain |
| PullProtocol.InvStep | internal/onvif/events.go:56-199 | the conjunction of all the invariants above is kept by every enabled step |
| PullProtocol.PullGoesOn | internal/onvif/events.go:144-173 | in every reachable state a pull can take its next pass, a blocked one can end at its deadline leaving the broker as it is, and a signalled one can wake |
| PullProtocol.PassEndsExactly | internal/onvif/events.go:144-168 | a pass ends the pull unless it finds a live empty queue, and then blocks it |
| PullProtocol.OthersGoOn | internal/onvif/events.go:65-138 | in every state the ticker and any client can take their turn |
| EventBroker.EventBroker.constructor | internal/onvif/events.go:48-54 | a new broker has no subscription and remembers the readiness it sampled |
| EventBroker.EventBroker.CleanupLocked | internal/onvif/events.go:193-199 | the loop removes exactly the subscriptions that do not expire after now, and leaves the rest as they are |
| EventBroker.EventBroker.EnqueueLocked | internal/onvif/events.go:182-191 | the event is appended to this queue only, the oldest of 64 making room, and the channel is full |
| EventBroker.EventBroker.EnqueueAllLocked | internal/onvif/events.go:176-180 | in whatever order the map is walked, every subscription gets the event once |
| EventBroker.EventBroker.Tick | internal/onvif/events.go:65-75 | expired entries go, and one Changed event reaches the others exactly when readiness differs from lastReady |
| EventBroker.EventBroker.Create | internal/onvif/events.go:80-100 | succeeds exactly with a token and fewer than 32 live entries, and adds an empty, unsignalled one expiring ttl after the instant read before the lock |
| EventBroker.EventBroker.Renew | internal/onvif/events.go:102-112 | succeeds exactly on an entry not yet expired, and never revives one |
| EventBroker.EventBroker.Unsubscribe | internal/onvif/events.go:114-122 | succeeds exactly on a present entry, expired or not, and removes only it |
| EventBroker.EventBroker.SynchronizationPoint | internal/onvif/events.go:124-138 | succeeds exactly on an entry not yet expired, which alone gets an Initialized event with the sampled readiness |
| EventBroker.EventBroker.PullPass | internal/onvif/events.go:144-166 | one locked pass: reports no subscription exactly when the entry is missing or expired; else hands out the oldest events, the limit of them or all there are, and keeps the rest; blocks exactly on an empty queue |
| EventBroker.PassHandsOut | internal/onvif/events.go:144-166 | the same of the state transformation, with the expiry it reports |
| EventBroker.EnqueueToOneMore | internal/onvif/events.go:176-180 | broadcasting to one more subscription is one more enqueue |
| EventLimits.PullTimeout | internal/onvif/events.go:311-320 | for every text the wait is positive and at most a minute |
| EventLimits.TerminationDuration | internal/onvif/events.go:333-354 | for every text, wrapping ones included, the lifetime is positive and at most an hour |
| EventLimits.DurationsGranted | internal/onvif/events.go:311-376 | for every duration with hours, minutes and seconds, any of them absent, the residue of the total modulo 2^64 decides the lifetime and the wait: capped in the lower half, the fallback for zero and the upper half |
| EventLimits.DueExactly | internal/onvif/events.go:311-376 | exactly when a lifetime or a wait of hours and minutes is what is due: as asked, at most the limit, the default for nothing |
| EventLimits.MessageLimitReads | internal/onvif/events.go:322-331 | every printed integer is read as itself brought into 1..100, with 10 below 1 |
| EventLimits.HoursAndMinutes | internal/onvif/events.go:356-376 | hours and minutes are read back if and only if their total fits in 64 bits |
| EventLimits.LongRequests | internal/onvif/events.go:333-376 | exactly when a request of hours and minutes gets the hour, and when it gets the bare residue or the default minute instead |
| EventLimits.LongRequestsHappen | internal/onvif/events.go:333-376 | 2562047 hours get the cap, 2562048 the default minute, 5124096 about 25 minutes |
| EventLimits.OnlyDurations | internal/onvif/events.go:356-360 | only texts of the duration form are read as other than zero |
| EventLimits.AbsentGetsDefaults | internal/onvif/events.go:311-337 | an absent value gets five seconds, ten messages, the default lifetime |
| EventLimits.MessageLimitDefault | internal/onvif/events.go:322-326 | a limit that is not a number is ten |
| EventLimits.AbsoluteTime | internal/onvif/events.go:344-353 | an absolute instant gives the time left to it, at most an hour, or the default when it is past |
| AuthenticatorRuns.AtMostOnce | internal/auth/digest.go:59-96 | no run with one clock reading a request accepts one qop=auth credential twice for a nonce the server issued, although the cache forgets |
| AuthenticatorRuns.SecondAcceptanceStraddles | internal/auth/digest.go:68-94 | with two readings, a second acceptance has the first reading inside and the second past the window of the first acceptance |
| AuthenticatorRuns.RepeatAcceptedExactly | internal/auth/digest.go:59-96 | in any run, in any order of clock readings, exactly when the repeat of an accepted request is accepted again |
| AuthenticatorRuns.OneReadingRepeatExactly | internal/auth/digest.go:59-96 | with one reading a request, a repeat is accepted exactly inside the nonce's window after a request in between read past the first acceptance's window |
| AuthenticatorRuns.ServedAgainExactly | internal/auth/digest.go:160-173 | a request with the key of the latest acceptance is accepted exactly when some reading since then is past that acceptance's window |
| AuthenticatorRuns.HonestRequestAcceptedTwice | internal/auth/digest.go:68-94 | every honest request repeated with its readings on both sides of the window's end is accepted twice |
| AuthenticatorRuns.OvertakenRequestAcceptedTwice | internal/auth/digest.go:91-164 | every honest request repeated with one reading, overtaken on its way to the lock by a later one, is accepted twice |
| AuthenticatorRuns.WsseAtMostTwice | internal/auth/digest.go:98-127 | one (username, nonce, created) is accepted at most twice over any run |
| AuthenticatorRuns.WsseAtMostOnce | internal/auth/digest.go:98-127 | at most once when its first acceptance is not before Created |
| AuthenticatorRuns.WsseTwiceExactly | internal/auth/digest.go:98-127 | some run with an advancing clock accepts a token again if and only if its first acceptance is before Created |
| AuthenticatorRuns.WsseSecondExactly | internal/auth/digest.go:98-127 | a second presentation is accepted exactly more than TTL after the first and at most TTL after Created |
| AuthenticatorRuns.WsseRepeatExactly | internal/auth/digest.go:98-127 | in any run, in any order of readings, exactly when an accepted token is accepted again |
| AuthenticatorRuns.HonestAnswerChecks | internal/auth/digest.go:59-88 | the printed answer to a challenge passes every check exactly within TTL of the nonce's second, and is told stale outside it |
| AuthenticatorRuns.HonestAnswerServed | internal/auth/digest.go:59-96 | in any run, an honest answer inside the window is served unless its very credential was presented before |
| AuthenticatorRuns.ServedIsProven | internal/auth/digest.go:59-127 | in any run a served request carries the response owed for the password, or the token its digest |
| AuthenticatorRuns.HttpKeyInjective | internal/auth/digest.go:90 | the NUL-joined replay key determines username, nonce, nc, cnonce and uri |
| AuthenticatorRuns.KeysDisjoint | internal/auth/digest.go:125 | an HTTP replay key is never a WS-Security one |
| ReplayCache.CacheLawExactly | internal/auth/digest.go:160-173 | the evicting cache lets through exactly what a reference that forgets nothing lets through, if and only if no reading is overtaken |
| ReplayCache.CacheLaw | internal/auth/digest.go:160-173 | so it does on every run whose readings do not go back in lock order |
| ReplayCache.LetThroughExactly | internal/auth/digest.go:160-173 | in any order of readings, an attempt is accepted exactly when its key never was, or some reading since the latest time is past its window |
| ReplayCache.CacheHolds | internal/auth/digest.go:160-173 | a key is held, with the deadline of its latest acceptance, exactly until some attempt reads past that deadline |
| ReplayCache.AcceptedExactly | internal/auth/digest.go:160-173 | with an advancing clock an attempt is accepted exactly when every earlier acceptance of its key is more than TTL old |
| ReplayCache.OvertakenReadingForgets | internal/auth/digest.go:160-173 | every key presented again inside its window after another key was presented past it is let through twice |
| Authenticator.Authenticator.AcceptReplayKey | internal/auth/digest.go:160-173 | the eviction loop drops exactly the keys past their expiry; the key is accepted exactly when it is not among the rest, and is then remembered until now plus TTL |
| Authenticator.CheckedExactly | internal/auth/digest.go:59-92 | a request passes the checks, under which replay key, if and only if it is a Digest header of the configured identity with a valid nonce, the request's URI and the response RFC 7616 owes for the password, with qop=auth or none; it is stale if and only if it is a Digest header of that identity with an invalid nonce |
| Authenticator.ExpectedIsOwed | internal/auth/digest.go:74-85 | what the server expects is the hash of the colon-separated parts a client owes |
| Authenticator.WsseCheckedExactly | internal/auth/digest.go:98-124 | a token passes if and only if it is the configured user's, carries the digest of the configured password and is dated within TTL of now |
| Authenticator.Authenticator.VerifyHTTP | internal/auth/digest.go:59-96 | accepts exactly what the checks and the cache admit, says stale exactly for a well-addressed request with an invalid nonce, and touches the cache only for qop=auth |
| Authenticator.Authenticator.VerifyWSSE | internal/auth/digest.go:98-127 | accepts exactly what the checks and the cache admit, touching the cache only after the checks |
| Authenticator.Authenticator.Challenge | internal/auth/digest.go:49-57 | parsing the header gives back the realm, the fresh nonce, MD5, auth, and stale exactly when asked |
| DigestHeader.RoundTrip | internal/auth/digest.go:187-236 | for every list of well-formed parameters, quoted with escapes or bare, parsing the printed list gives the last-wins map |
| DigestHeader.DistinctRoundTrip | internal/auth/digest.go:187-236 | with distinct keys every value comes back and no other key appears |
| DigestHeader.ChallengeRoundTrip | internal/auth/digest.go:49-57 | a client recovers realm, nonce, algorithm, qop and stale from a challenge |
| DigestHeader.FreshChallengeNotStale | internal/auth/digest.go:49-57 | a challenge that is not stale binds no stale |
| DigestHeader.UnquoteEscape | internal/auth/digest.go:202-222 | unquoting an escaped value followed by anything gives the value and stops at its closing quote |
| DigestHeader.UnquoteMeans | internal/auth/digest.go:202-222 | a quoted string with a backslash before any of its characters is read as what it means, up to its closing quote or to the end |
| DigestHeader.PaddedFirst | internal/auth/digest.go:198-199 | white space around the equals sign does not matter |
| DigestHeader.PaddedValue | internal/auth/digest.go:226-230 | nor does it around a bare value |
| DigestHeader.LeadingSeparators | internal/auth/digest.go:190 | nor do blanks, tabs and commas before a parameter |
| DigestHeader.NothingParsed | internal/auth/digest.go:194-197 | without a key there is nothing more |
| DigestHeader.ParseDigest | internal/auth/digest.go:187-236 | the loop over the header, total on every input, computes the function the round trip is about |
| DigestHeader.ReadQuoted | internal/auth/digest.go:203-222 | the inner loop with its escape flag computes the recursive unquoting, value and length |
| DigestHeader.TakeValue | internal/auth/digest.go:200-232 | the quoted or comma-ended value and what follows it |
| Nonce.NonceWindow | internal/auth/digest.go:129-158 | for every 64-bit timestamp, a nonce issued at t is valid exactly within TTL of t rounded down to the second |
| Nonce.NonceCarriesItsTime | internal/auth/digest.go:129-158 | decoding, splitting, parsing and the MAC comparison recover the second a nonce was issued |
| Nonce.ValidExactly | internal/auth/digest.go:137-158 | any text is a valid nonce if and only if it decodes to a number of seconds within TTL of now and the server's own MAC of it |
| Nonce.Base64RoundTrip | internal/auth/digest.go:134-138 | unpadded base64url decoding inverts encoding on every byte string |
| Nonce.ForeignRefused | internal/auth/digest.go:138-141 | a character outside the alphabet makes a nonce undecodable |
| Nonce.OddLetterRefused | internal/auth/digest.go:138-141 | so does one letter over a multiple of four, and no other length |
| Text.SplitJoin | internal/auth/digest.go:142-145 | splitting at a separator undoes joining fields free of it |
| Text.JoinSplit | internal/auth/digest.go:142-145 | splitting loses nothing |
| Text.TrimPadded | internal/auth/digest.go:198-199 | trimming takes off the white space around a text and nothing else |
| Text.AtoiItoa | internal/auth/digest.go:130-149 | parsing undoes printing for every 64-bit integer |
| Text.AtoiReads | internal/auth/digest.go:146-149 | digits, signed or not, are their value as long as it fits in 64 bits |
| Reconfiguration.NoLostReconfiguration | internal/capture/capture.go:68-84 | in every interleaving of updates with the supervisor, FFmpeg on other video fields than the current ones means a token is pending, an updater is about to send, or FFmpeg has been killed and is awaited; restarts never exceed updates |
| Reconfiguration.QuietMeansCurrent | internal/capture/capture.go:195-249 | with no token and no updater in flight, a running FFmpeg runs what is configured |
| Reconfiguration.RestartIncludesCommits | internal/capture/capture.go:195-240 | whatever happens after a restart, FFmpeg is started next on a configuration that includes every commit made before it |
| Reconfiguration.StopsOnlyCancelled | internal/capture/capture.go:195-249 | in every run the supervisor returns only after a cancellation |
| Reconfiguration.SupervisorProgress | internal/capture/capture.go:195-249 | from every reachable state not cancelled the supervisor can by itself get to run FFmpeg on what is configured, from a pending token by taking it |
| Reconfiguration.ExitedLaunches | internal/capture/capture.go:228-247 | FFmpeg that exits by itself can be started again |
| Reconfiguration.CancelReturns | internal/capture/capture.go:220-236 | a cancellation at any moment lets the supervisor return |
| Reconfiguration.AlwaysValid | internal/capture/capture.go:51-79 | every interleaving of handler-driven updates keeps the running configuration valid |
| Reconfiguration.FileAgreesExactly | internal/capture/capture.go:59-79 | in every interleaving the file holds the fields of the last update to write it, and agrees with memory exactly when the commits since that update's left those fields |
| Reconfiguration.FileFollows | internal/capture/capture.go:59-79 | when every update persists and no two are between write and commit at once, the file agrees whenever none is |
| Reconfiguration.CrossedWrites | internal/capture/capture.go:59-79 | two updates that write in one order and commit in the other leave the file with one's fields and memory with the other's |
| Reconfiguration.CommitIsAtomicExactly | internal/onvif/encoder_config.go:49-130 | at any point of any interleaving, exactly when a commit has the effect of its request run in one piece |
| Reconfiguration.FreshCommitIsAtomic | internal/onvif/encoder_config.go:49-130 | it has when nobody committed since the copy was taken |
| Reconfiguration.SerializableExactly | internal/onvif/encoder_config.go:49-130 | in whatever run two updates read and commit, exactly when the configuration ends as in a serial order |
| Reconfiguration.OverlappingUpdateIsLost | internal/onvif/encoder_config.go:49-130 | of two overlapping updates of different streams the first survives exactly when it changed nothing |
| EncoderSettings.StaleSetExactly | internal/onvif/encoder_config.go:49-130 | a request applied to a stale copy does what it would do now exactly when it asks for every number that moved on and the other stream did not |
| EncoderSettings.SettledExactly | internal/onvif/encoder_config.go:71-125 | exactly when a request changes nothing |
| EncoderSettings.SetThenGet | internal/onvif/encoder_config.go:71-130 | after a successful set every requested number is reported and every absent one unchanged, the GOP length beside the H264 element before the one inside it; the other stream changes only through the shared GOP |
| EncoderSettings.SetStores | internal/onvif/encoder_config.go:115-125 | which stored field takes which requested number, and in what form |
| EncoderSettings.AcceptedExactly | internal/onvif/encoder_config.go:49-133 | a valid configuration accepts a request if and only if its stream exists, its encoding and interval are supported, its numbers are in range, the GOP is one to ten whole seconds and the substream no larger or faster than the main stream |
| EncoderSettings.GetThenSet | internal/onvif/server.go:644-658 | writing a report back, its GOP length in either place, succeeds exactly when its bit rate is within 64..200000, and then changes no reported number of either stream |
| EncoderSettings.LowBitrateIsRefused | internal/onvif/encoder_config.go:112-115 | every valid configuration has a valid neighbour, at 32 kbit/s, whose own report is refused |
| EncoderSettings.SetThenSet | internal/onvif/encoder_config.go:71-130 | a complete request leaves nothing of the one before it |
| EncoderSettings.SameSite | internal/onvif/encoder_config.go:115-125 | the handler never touches anything but the nine video fields |
| EncoderSettings.Manager.constructor | internal/capture/capture.go:33-35 | a manager starts on its configuration with no restart pending |
| EncoderSettings.Manager.UpdateConfig | internal/capture/capture.go:51-85 | refuses exactly an invalid configuration, a missing path or a failed write, and then changes nothing; else exactly the nine fields are stored and a restart is pending |
| EncoderSettings.Manager.EditedCopy | internal/onvif/encoder_config.go:49-125 | the sequence of field overwrites and early returns computes the prepared configuration or the first refusal |
| EncoderSettings.Manager.SetVideoEncoderConfiguration | internal/onvif/encoder_config.go:37-133 | on success memory holds the set configuration, and so does the file when persistence was asked for; on refusal nothing changed |
| VideoConfig.ValidByParts | internal/config/config.go:128-229 | exchanging the nine video fields of a valid configuration keeps it valid exactly when the new ones satisfy their own conditions |
| VideoConfig.ValidExactly | internal/config/config.go:128-229 | exactly which configurations are valid, as one condition on the site and one on the nine fields |
| VideoConfig.UpdateKeepsValidExactly | internal/capture/capture.go:51-79 | exactly when copying the nine fields of a valid configuration into a valid one leaves it valid |
| VideoConfig.BitrateRoundTrip | internal/onvif/server.go:699-713 | the text a setter stores is read back as the number it was set to, and is not blank |
| VideoConfig.BitrateReads | internal/onvif/server.go:699-713 | digits are read in kbit/s, with a k of any case as without, in Mbit/s with an m, and zero as 4000 |
| VideoConfig.BitrateDefault | internal/onvif/server.go:708-711 | text without a digit counts as 4000 |
| LogOrder.OrderUnderFaults | internal/logging/rotate.go:37-99 | whatever removal, stat, rename, close or open fails, the slots read from the highest down hold consecutive pieces of the initial contents and the accepted bytes, in order and without duplication |
| LogOrder.CleanRunIsSuffix | internal/logging/rotate.go:37-99 | when nothing fails, the slots hold exactly a suffix of the initial contents followed by everything written |
| LogOrder.CleanRunIsComplete | internal/logging/rotate.go:37-99 | nothing is lost while the rotations fit in the unused backups |
| LogOrder.CleanWrite | internal/logging/rotate.go:37-51 | a write without faults leaves the slots exactly as before or exactly rolled, with p at the end, and keeps the file within its limit unless p alone exceeds it |
| LogOrder.CleanWriteSlots | internal/logging/rotate.go:43-50 | what fits the limit is appended; what does not starts a new file, and every backup moves up by one |
| LogOrder.ShortWrite | internal/logging/rotate.go:48-50 | a write cut short keeps what was taken |
| LogOrder.BackupsBounded | internal/logging/rotate.go:84-91 | after any calls with any faults no slot above the last backup is created, removed or changed |
| LogOrder.CleanShift | internal/logging/rotate.go:84-91 | the descending loop moves every backup up by one and frees the first |
| LogOrder.AliveExactly | internal/logging/rotate.go:37-99 | after any calls with any faults the writer is open if and only if none of them was Close or a rotation on which closing, renaming or reopening failed; once it is not, nothing is accepted any more |
| LogOrder.EndsExactly | internal/logging/rotate.go:37-99 | exactly which calls end an open writer, under every combination of faults |
| LogOrder.ClosedStaysClosed | internal/logging/rotate.go:37-42 | without a usable file every later call changes and accepts nothing |
| RotatingLog.RotatingWriter.constructor | internal/logging/rotate.go:20-35 | the defaults of 20 MiB and 5 backups, and the file opened for appending with its length |
| RotatingLog.RotatingWriter.Open | internal/logging/rotate.go:64-77 | the handle is on slot 0 and size is its length, or there is none |
| RotatingLog.RotatingWriter.Rotate | internal/logging/rotate.go:79-99 | the in-place loop computes the shift of all slots under the given faults; a failed close leaves a dead handle; success exactly when close, the last rename, open and stat all succeed |
| RotatingLog.RotatingWriter.Write | internal/logging/rotate.go:37-51 | the new slots and the accepted count, and success exactly when the file is usable, any rotation succeeds and all of p is taken |
| RotatingLog.RotatingWriter.Close | internal/logging/rotate.go:53-62 | the handle is gone and the slots are as they were |
| JpegScanner.ExactSegmentation | internal/onvif/server.go:480-535 | any list of JPEG images within the limit, with junk free of FF D8 around them, is split into exactly that list |
| JpegScanner.ScanExactly | internal/onvif/server.go:508-535 | a call returns f after n bytes if and only if the stream starts with something free of SOI followed by the image f, n bytes in all, within the limit |
| JpegScanner.TooLongExactly | internal/onvif/server.go:526-528 | a call complains of the length exactly when the stream goes on past the limit of its first image without an EOI |
| JpegScanner.ReadJpegFrame | internal/onvif/server.go:508-535 | the byte automaton returns, and consumes, what the scan of the remaining stream says |
| JpegScanner.SnapshotCache.ReadFrames | internal/onvif/server.go:480-493 | the loop reads every frame up to the first error and caches the last one |
| RecordingQuota.EnforceQuota | internal/capture/capture.go:490-524 | for every listing: nothing is removed within the limit, only listed files are removed, none modified within two segments, the total is the surviving size, and the outcome below holds |
| RecordingQuota.DeleteOldest | internal/capture/capture.go:510-523 | over any order by age and any pattern of failures: no protected file goes, no removable survivor is older than a removed file, the limit is met or everything unprotected was tried, and the last removed file would exceed the limit again |
| RecordingQuota.OutcomeUnique | internal/capture/capture.go:508-523 | with distinct modification times those conditions determine which files survive |
| RecordingQuota.SizeOfPermuted | internal/capture/capture.go:508 | the total does not depend on the order of the listing |
| RecordingQuota.SortByAge | internal/capture/capture.go:508 | a rearrangement by modification time |
| RecordingQuota.LimitExactly | internal/capture/capture.go:504 | the limit is the configured GiB exactly below 2^33 |
| RecordingQuota.CutoffExactly | internal/capture/capture.go:509 | recent means within two segments of now, exactly while that fits in 64 bits |
| MetadataRelay.StreamReconstructs | internal/capture/metadata_relay.go:186-214 | every session that sends anything sends Initialized once and first, each Changed reverses the state reported, and folding the documents gives the readiness sampled last |
| MetadataRelay.SessionLasts | internal/capture/metadata_relay.go:198-234 | a session lasts exactly as long as every document fits and is written, sending one for each sample |
| MetadataRelay.ErrorExitReportsLoss | internal/capture/metadata_relay.go:218-228 | an error exit leaves the receiver at loss if its last packet is written, else at the last sampled state |
| MetadataRelay.ErrorExitWellToldExactly | internal/capture/metadata_relay.go:218-228 | exactly when that last Changed document really changes something |
| MetadataRelay.RelaySession.SendMetadata | internal/capture/metadata_relay.go:186-208 | the document labelled by the edge in readiness is sent, or the session ends |
| MetadataRelay.RelaySession.ExitOnError | internal/capture/metadata_relay.go:218-228 | a last loss document, if it can be written |
| MetadataRelay.SequenceDistinct | internal/capture/metadata_relay.go:39 | any 65536 consecutive packets carry distinct numbers, and the next repeats the first |
| MetadataRelay.SequenceSteps | internal/capture/metadata_relay.go:39 | each packet is numbered one more than the one before, modulo 2^16 |
| MetadataRelay.TimestampDifference | internal/capture/metadata_relay.go:40 | for all instants the timestamp difference is the elapsed ticks, rounded down or up, less what the product lost by wrapping |
| MetadataRelay.TimestampAbsolute | internal/capture/metadata_relay.go:40 | until the first wrap the timestamp is the time since 1970 in ticks, modulo 2^32 |
| MetadataRelay.LinearExactly | internal/capture/metadata_relay.go:40 | for all instants, timestamps advance by the elapsed time to a tick, modulo 2^32, if and only if the wraps in between are a multiple of 5^9 |
| MetadataRelay.LinearBetweenWrapsExactly | internal/capture/metadata_relay.go:40 | for 64-bit instants they do if and only if there is no wrap in between |
| MetadataRelay.TimestampLinear | internal/capture/metadata_relay.go:40 | between wraps the timestamp advances at 9/100000 of a tick a nanosecond, rounded down or up, modulo 2^32 |
| MetadataRelay.TimestampJumps | internal/capture/metadata_relay.go:40 | the first instant at which the product wraps, and the jump it makes, which is not linear |
| MetadataRelay.RtpState.MakePacket | internal/capture/metadata_relay.go:38-52 | each packet carries the number before it plus one, and the k-th the initial number plus k, modulo 2^16 |

## Left out

- SOAP and XML: requests start as parsed fields and reports are records; the WS-Security token extraction, fault texts and response documents are not part of this model.
- Cryptography: MD5, HMAC, SHA-1 and padded base64 decoding are arbitrary functions; nothing is said about forging, timing or collisions, and random event tokens are values never minted before.
- EventBroker.EventBroker.PullPass: the pull loop itself blocks, so its passes, waits, deadline and cancellation are steps of PullProtocol rather than one method; a subscription is a value in the map, so the sharing of one subscription object between map and pullers appears only as a channel that outlives its entry.
- EventLimits.TerminationDuration: the float64 arithmetic of the seconds group is an arbitrary function of its text, and the RFC 3339 parser is the time left it yields.
- Instants: unbounded integers, so the saturation of Go's time subtraction about 292 years away is not modelled.
- DigestHeader.ChallengeRoundTrip: the `%q` verb is modelled by escaping the quote and the backslash, which is what it does for printable ASCII; strings are sequences of characters, not UTF-8 bytes.
- Authenticator.Authenticator.VerifyHTTP: lower-cases the scheme in ASCII only; the Kelvin sign and its like are not folded.
- VideoConfig.ValidByParts: passwords are counted in characters instead of bytes, and the outcome of parsing the advertised address is part of the configuration.
- EncoderSettings.SetThenGet: one stream's report is taken from one configuration; encoderXMLFor reads it a second time for the GOP, so a report overlapping an update may mix two.
- EncoderSettings.Manager.UpdateConfig: of the configuration file only the nine fields are kept, and writing it succeeds or fails as a whole, in `Reconfiguration` too.
- RotatingLog.RotatingWriter.Rotate: that Go's file handle is dead after a Close that failed is taken from its library.
- RecordingQuota.SortByAge: insertion sort stands for the library's sort, of which only the order is used; walking the directory tree is a list of files.
- MetadataRelay.RelaySession.SendMetadata: whether the document fits one packet is a flag; its text, the writer lock and the RTSP session are not modelled.
- Supervision: backoff times, the ready and sourceReady flags, process and socket handling, MediaMTX, encoder probing and the scripts would only add easy members.
- Main program, discovery, OSD text, environment loading and the XML handlers are not modelled.
