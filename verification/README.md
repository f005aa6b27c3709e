# RadioTAK: a verified model of its stateful core

RadioTAK takes bytes from radio decoders, turns them into events, decides which
radios may appear on a TAK server and how often, and keeps bounded queues
between all of these and the network. This project models the parts where the
state is, and proves what they keep over whole runs. `dafny verify dfyconfig.toml`
checks everything.

How the models are built: code that only computes is a set of functions. An
object that is updated in place is a class. A method that is one step of a state
machine is stated by a step function over an abstract state (`View()`), and the
claims about runs are lemmas over sequences of such steps, with histories
(what was enqueued, published, evicted, lost) kept beside the state.
Threads and tasks are modelled as steps that may be interleaved in any order.

| file | what it models |
|---|---|
| `Kiss.dfy` | the incremental KISS decoder, the encoder it undoes, and line noise |
| `Tnc2.dfy` | AX.25 UI frames (sections 3.12 and 4.3.3.6 of AX.25 v2.2) to TNC2 text, from wire bytes to text and back to the frame |
| `Identities.dfy`, `Registry.dfy`, `Forwarding.dfy`, `Pacing.dfy`, `Pipeline.dfy` | the forwarding engine: allowlist, staleness, rate limit, dedupe, fan-out |
| `TakManager.dfy` | one TAK connection: drop-oldest queue, in-flight item, reconnect loop |
| `Ndjson.dfy` | the exporter client shared by producer threads and one consumer thread |
| `Hubs.dfy`, `Lines.dfy` | event bus, audio and spectrum hubs, newline splitting |
| `AudioExporter.dfy`, `Pcm.dfy`, `AudioPath.dfy` | segment ownership, PCM batches, the browser's decoder and resampler, and the way of a call from one to the other |
| `Archive.dfy` | encrypted-call deduplication |
| `UpdateJob.dfy` | the update job that survives the death of its process |
| `Frequencies.dfy`, `Tuners.dfy`, `Buckets.dfy` | frequency text, tuner allocation, FFT buckets |
| `Alerts.dfy`, `LoginLimit.dfy`, `Hearing.dfy` | alert streaks, login limit, message-rate window |
| `Basics.dfy`, `Decimals.dfy` | optional values, bytes, decimal digits |

## Where a promise ends

The code keeps some promises only under a condition. Each is stated with the
exact condition, and the code is modelled as it is.

- A KISS frame after noise is delivered if and only if the noise did not stop in
  the middle of an escape; otherwise its opening delimiter becomes data
  (`Kiss.ResynchronisesIffNotMidEscape`).
- Printed frequencies read back if and only if every value is positive and below
  10 GHz (`Frequencies.RoundTripIffInRange`); a `khz` suffix is always refused,
  although a branch for it exists (`Frequencies.KilohertzRefused`).
- The list of systems says that listening rows take tuners as the playlist does.
  The two agree if and only if every listening row that gets a tuner has a
  frequency (`Tuners.AgreeIff`).
- A call with a blank talkgroup is stored with an empty string and looked up as
  NULL. So its own row takes no other call, and it may merge into a row without a
  talkgroup. When a call merges is `Archive.MergesIff`, when two calls of a run
  share a row `Archive.ShareRowIff`, and every row holds calls of its own key
  only if and only if no blank call found a recent row without a talkgroup
  (`Archive.OneKeyPerRowIff`).
- A call that arrives late may merge into a row any distance after it
  (`Archive.OldCallMerges`); it lies within 15 s of its row's start if and only if
  no row of the key it asks for starts more than 15 s after it
  (`Archive.MergeDistance`).
- Each manager of an enabled server gets one CoT per forwarded event and every
  other manager none, if and only if at least one server is enabled and all
  enabled ones have managers, or a broadcast reaches no manager
  (`Forwarding.OneCopyIff`); the exact number of copies otherwise is
  `Forwarding.FanOutCopies`.
- The dedupe key does not tell every two radios apart: `Forwarding.UidsEqualIff`
  says which ones share it, `Forwarding.UidsOfDashlessRadios` what is left when
  radio ids hold no dash.
- The reconnect delay never shrinks between resets if and only if its two bounds
  are in order (`TakManager.DelayNeverShrinksIff`).
- The end of a clear call is lost if and only if buffers with samples arrive
  between the last drain and the completeness check
  (`AudioExporter.AllDeliveredIff`).
- A segment's consumer count is given back once if and only if no exception is
  raised after the body's release took effect, or before it with an exception
  handler that fails as well, and none leaves the run loop with the segment in
  hand (`AudioExporter.ReleasedOnceIff`); every such failure is reached
  (`AudioExporter.OneSegmentRun`).
- The login limit holds for the handler as it is, which awaits nothing between
  check and outcome (`LoginLimit.LoginLimitHolds`). It rests on that: for a
  hypothetical threaded caller it would hold if and only if an address had one
  login under way at a time (`LoginLimit.LimitHoldsIff`).
- An acknowledgement given before a streak begins carries into it
  (`Alerts.EarlyAckReachesNextStreak`), one given during it does not outlive it
  (`Alerts.NeverIntoLaterStreak`).
- A finished send has placed its line in every run if and only if at most one
  thread sends (`Ndjson.NeverRefusedIff`).
- A listener is cut off if and only if it once leaves as many events unread as its
  queue has room for (`Hubs.CutOffIff`).
- An update may succeed and still be reported as failed: when the process dies,
  the next boot reports failed if and only if the worker had saved no outcome
  (`UpdateJob.DeathBeforeSaveFails`), also when the restart that the update itself
  asks for comes first. Otherwise what is shown is settled and honest
  (`UpdateJob.BootSettles`). A worker that cannot read the version ends before its
  first save and leaves "running" until then (`UpdateJob.JobIsHonest`).

## Model

| member | source | states |
|---|---|---|
| `Kiss.KissDecoder.Feed` | modules/aprs_rf_gateway/kiss_client.py:22-49 | the byte loop ends in the state and with the frames of the step-by-step decoder, for any chunk and any carried state |
| `Kiss.FeedConcat` | modules/aprs_rf_gateway/kiss_client.py:22-49 | feeding two chunks is feeding their concatenation: same frames, same final state, for all bytes |
| `Kiss.ChunkingIrrelevant` | modules/aprs_rf_gateway/kiss_client.py:143-147 | however a stream is cut into reads, frames and state are those of the whole stream |
| `Kiss.FeedFrame` | modules/aprs_rf_gateway/kiss_client.py:24-48 | what any state at all makes of one well-formed frame: intact, preceded by collected junk, or glued to it |
| `Kiss.NothingBeforeFirstFrame` | modules/aprs_rf_gateway/kiss_client.py:25-30 | until the first delimiter any bytes leave the decoder as it was and yield nothing |
| `Kiss.StrayEscapeIsData` | modules/aprs_rf_gateway/kiss_client.py:31-42 | an escape before any byte that is not one of the two codes makes that byte data, anywhere in a stream: as if it had been escaped as the protocol asks |
| `Kiss.ResynchronisesIffNotMidEscape` | modules/aprs_rf_gateway/kiss_client.py:31-39 | after arbitrary noise the next frame is the last one delivered, exactly when the noise did not end inside an escape |
| `Kiss.DecodeUndoesEncode` | modules/aprs_rf_gateway/kiss_client.py:22-49 | any list of nonempty payloads, KISS-encoded and cut anywhere, is decoded to exactly that list |
| `Tnc2.ConvertFrame` | modules/aprs_rf_gateway/kiss_client.py:65-108 | the address loop and its refusals compute the conversion that the round-trip lemmas are about |
| `Tnc2.AddressRoundTrip` | modules/aprs_rf_gateway/kiss_client.py:52-62 | decoding an encoded address gives call and SSID text, SSID and end bit, whatever the C, H and reserved bits |
| `Tnc2.BlanksDoNotCount` | modules/aprs_rf_gateway/kiss_client.py:56 | blanks on either side of a call are ignored, and a field of blanks is empty |
| `Tnc2.BlankAddressSkipped` | modules/aprs_rf_gateway/kiss_client.py:82-88 | an address of blanks without an SSID names no station; reading goes on behind it unless it is the last |
| `Tnc2.ConvertUndoesEncode` | modules/aprs_rf_gateway/kiss_client.py:65-108 | every frame of 2 to 10 stations, with any port 0-3 command byte or none, becomes SRC>DST[,PATH]:INFO exactly when control is 0x03 or 0x13 and PID is 0xF0, and is refused otherwise |
| `Tnc2.TooManyStationsRefused` | modules/aprs_rf_gateway/kiss_client.py:82-98 | a frame that names more than ten stations is refused, whatever follows |
| `Tnc2.TruncatedRefused` | modules/aprs_rf_gateway/kiss_client.py:67-98 | a frame cut off anywhere before its payload is refused, with or without a command byte |
| `Tnc2.WireToText` | modules/aprs_rf_gateway/kiss_client.py:22-108 | a KISS stream cut anywhere that carries one UI frame yields one payload and its text, on any decoder between frames |
| `Tnc2.AddressTextInjective` | modules/aprs_rf_gateway/kiss_client.py:59-62 | equal address texts mean equal call and SSID |
| `Tnc2.TextDeterminesFrame` | modules/aprs_rf_gateway/kiss_client.py:65-108 | two UI frames with 7-bit payloads give the same text exactly when they name the same stations in the same roles and carry the same payload bytes; C, H, reserved and poll bits and the command byte do not matter |
| `Identities.IdentityTable.Find` | radiotak/gateway/identities.py:12-24 | the query and the loop find the row that the lookup rule names |
| `Identities.IdentityTable.ObserveOrCreate` | radiotak/gateway/identities.py:27-57 | the whole table after an observation, and the row it landed in |
| `Identities.LookupRespectsSystem` | radiotak/gateway/identities.py:12-24 | a lookup never crosses systems, finds something whenever a candidate exists, and prefers an exact row |
| `Identities.LookupMeans` | radiotak/gateway/identities.py:12-24 | the row found is of the radio and, if the event names a system, of that system or of none, the first before the second; none is found only if there is no such row |
| `Identities.ObservingApprovesNobody` | radiotak/gateway/identities.py:27-57 | after an observation its row is allowed exactly if the lookup had found an allowed row; no other row changes |
| `Identities.NewRadioIsKept` | radiotak/gateway/identities.py:36-57 | a radio seen for the first time gets one row with its system, alias and position, enabled but not approved, and the same lookup finds that row from then on |
| `Identities.KnownRadioIsUpdated` | radiotak/gateway/identities.py:46-57 | a radio seen again counts one more, takes the position the event gives, gets a callsign only if it had none, keeps the rest and is still found |
| `TakManager.TakConnectionManager.Enqueue` | radiotak/gateway/tak/__init__.py:139-146 | one enqueue step: oldest item evicted and counted when full; the invariant is kept |
| `TakManager.TakConnectionManager.Start` | radiotak/gateway/tak/__init__.py:148-151 | clears the stop flag and creates a task only if none is alive |
| `TakManager.TakConnectionManager.RequestStop` | radiotak/gateway/tak/__init__.py:153-154 | the stop flag is set and nothing else changes |
| `TakManager.TakConnectionManager.MarkStopped` | radiotak/gateway/tak/__init__.py:155-157 | the state reads disconnected even if the task is still alive; queue, flight and counters stay |
| `TakManager.TakConnectionManager.LoopTurn` | radiotak/gateway/tak/__init__.py:159-164 | one turn of the loop head: ends on stop, else counts an attempt |
| `TakManager.TakConnectionManager.ConnectionMade` | radiotak/gateway/tak/__init__.py:231-233 | an attempt whose connection is up may drain from then on; no counter moves |
| `TakManager.TakConnectionManager.DrainPop` | radiotak/gateway/tak/__init__.py:209-219 | the item leaves the queue before the write: expired ones are dropped and counted, others go into flight |
| `TakManager.TakConnectionManager.DrainWritten` | radiotak/gateway/tak/__init__.py:219-220 | a finished write counts the in-flight item as sent |
| `TakManager.TakConnectionManager.AttemptFailed` | radiotak/gateway/tak/__init__.py:169-174 | a failure loses the in-flight item uncounted and doubles the delay up to its bound |
| `TakManager.TakConnectionManager.PresenceWritten` | radiotak/gateway/tak/__init__.py:222-228 | a presence message counts as generated and sent outside the queue |
| `TakManager.TakConnectionManager.PumpReturned` | radiotak/gateway/tak/__init__.py:165-166 | the pump's normal return resets the delay |
| `TakManager.TakConnectionManager.Cancelled` | radiotak/gateway/tak/__init__.py:167-168 | cancellation ends the task and loses only the in-flight item |
| `TakManager.StepKeeps` | radiotak/gateway/tak/__init__.py:139-228 | every step keeps the invariant between queue, in-flight item, counters, ages, written items and delay |
| `TakManager.QueueAndWritesInOrder` | radiotak/gateway/tak/__init__.py:139-220 | in every reachable state the queue is the newest part of everything enqueued and within its bound; written items are in enqueue order; none was too old when popped |
| `TakManager.EvictionNeedsFullQueue` | radiotak/gateway/tak/__init__.py:139-146 | over any run an item is evicted only once as many newer items as the queue has room for have been enqueued behind it |
| `TakManager.WaitingItemsAreWritten` | radiotak/gateway/tak/__init__.py:148-284 | from any reachable state without a task: once started and connected, as many drains as items wait write exactly those that are not too old, in order, count the others as dropped, and leave the queue empty |
| `TakManager.StopEnds` | radiotak/gateway/tak/__init__.py:153-166 | after a request to stop, a task with nothing in flight ends without another attempt, and what waits stays queued |
| `TakManager.UncountedAtMostAttempts` | radiotak/gateway/tak/__init__.py:139-228 | generated - sent - dropped - queued is exactly the items lost by failed writes plus the one in flight, and lies between 0 and the number of attempts, which counts each attempt once |
| `TakManager.DelayFollowsFailures` | radiotak/gateway/tak/__init__.py:159-174 | the delay is that of the failures since the last reset, and only a task start or a pump return can lower it |
| `TakManager.BackoffDoubles` | radiotak/gateway/tak/__init__.py:160-174 | with its bounds in order the delay after k failures in a row is the minimum doubled k times, cut at the maximum |
| `TakManager.DelayNeverShrinksIff` | radiotak/gateway/tak/__init__.py:159-174 | the delay never shrinks between resets exactly when the minimum does not exceed the maximum |
| `Registry.TakManagerRegistry.EnqueueFor` | radiotak/gateway/tak/__init__.py:350-357 | exactly the named manager's history grows, by this item; false exactly when there is none |
| `Registry.TakManagerRegistry.EnqueueAll` | radiotak/gateway/tak/__init__.py:339-348 | exactly the reachable managers' histories grow, by one item each, and the count says how many |
| `Registry.TakManagerRegistry.Upsert` | radiotak/gateway/tak/__init__.py:310-326 | one server's manager is added or takes the place of its last one, with the queue it brings; the others keep theirs |
| `Registry.TakManagerRegistry.StopAll` | radiotak/gateway/tak/__init__.py:331-337 | no manager is registered afterwards |
| `Forwarding.FanOutCopies` | radiotak/gateway/pipeline.py:319-376 | the exact number of CoTs one forwarded event adds to each queue, for any servers, managers and states; all of them are of this event and at the end |
| `Forwarding.OneCopyIff` | radiotak/gateway/pipeline.py:319-376 | every manager of an enabled server gets one copy and every other manager none, exactly when at least one server is enabled and all enabled ones have managers, or a broadcast reaches no manager |
| `Forwarding.OneCopyPerForward` | radiotak/gateway/pipeline.py:216-376 | over any run in which every enabled server has a manager, however managers come and go: each queue has got exactly one CoT per event forwarded for its server since its manager was registered, in forwarding order, and nothing else |
| `Forwarding.QueueIffRegistered` | radiotak/gateway/tak/__init__.py:310-337 | over any run a queue exists exactly while its server has a manager; events neither make nor remove one |
| `Forwarding.OnlyApprovedForwarded` | radiotak/gateway/pipeline.py:97-117 | over any run, whatever managers there are and however they come and go: every CoT in a queue that was not there from the start came, since its manager was registered, from an event forwarded at a step at which the radio's identity was enabled and approved; decode events and operator edits add none |
| `Forwarding.EditDecides` | radiotak/gateway/identities.py:134-144 | after an operator's edit of the row a radio's lookup finds, the radio is approved exactly if the edit enables and approves it |
| `Forwarding.EmergencyForwarded` | radiotak/gateway/pipeline.py:287-376 | over any run an emergency report of an approved radio, however old or frequent, adds to every queue exactly the copies its server and the broadcasts account for |
| `Forwarding.UidsEqualIff` | radiotak/gateway/__init__.py:185-187 | for any two radios: equal UIDs exactly when radio id and dashed system name agree, or one radio id is a dash-joined extension of the other by the end of the other's system name |
| `Forwarding.UidsOfDashlessRadios` | radiotak/gateway/__init__.py:185-187 | for radio ids without a dash: equal UIDs exactly when the ids are equal and the system names agree up to spaces and dashes, a missing or empty system being UNK |
| `Forwarding.UidNotInjective` | radiotak/gateway/__init__.py:185-187 | two families of different radios with one UID: systems missing, empty and named UNK, and a dash that may belong to either part |
| `Pacing.TableHoldsLastForward` | radiotak/gateway/pipeline.py:384 | over any run the dedupe table holds position and time of the latest forward of each UID |
| `Pacing.ForwardedIff` | radiotak/gateway/pipeline.py:267-317 | over any run a report is forwarded exactly if its radio is approved and, unless it is an emergency, it is at most twice the stale time old and, with suppression on, nothing of the radio was forwarded before or it comes at least the interval later and either far enough away or at least a heartbeat later |
| `Pacing.RateLimit` | radiotak/gateway/pipeline.py:301-311 | over any run with a steady clock a non-emergency forward comes at least the minimum interval after every earlier forward of its UID |
| `Pacing.ForwardsPerSpan` | radiotak/gateway/pipeline.py:298-311 | any span of time holds at most floor(span / interval) + 1 of them |
| `Pacing.HeartbeatBound` | radiotak/gateway/pipeline.py:300-317 | while an allowed radio reports at most g apart, the time without a forward never exceeds the larger of interval and heartbeat, plus g |
| `Pipeline.LocationPipeline.Gate` | radiotak/gateway/pipeline.py:267-317 | the gates, in code order, give the engine's verdict |
| `Pipeline.LocationPipeline.Decide` | radiotak/gateway/pipeline.py:221-317 | the identity observed by the event is judged as the lookup before the event would have been |
| `Pipeline.LocationPipeline.Send` | radiotak/gateway/pipeline.py:319-376 | the server loop and its fallbacks change the managers' queues as the fan-out says |
| `Pipeline.LocationPipeline.ProcessEvent` | radiotak/gateway/pipeline.py:216-399 | one event through table, gates, registry and dedupe table is one step of the engine, across all objects involved |
| `Ndjson.NdjsonTcpClient.FirstOffer` | integrations/sdrtrunk/patch/NdjsonTcpClient.java:86-92 | a send up to its first offer; false leaves the sender between its atomic steps |
| `Ndjson.NdjsonTcpClient.PollOldest` | integrations/sdrtrunk/patch/NdjsonTcpClient.java:94 | the eviction step, which may find the queue already emptied |
| `Ndjson.NdjsonTcpClient.SecondOffer` | integrations/sdrtrunk/patch/NdjsonTcpClient.java:95 | the second offer, which may find the place taken again |
| `Ndjson.NdjsonTcpClient.TakeLine` | integrations/sdrtrunk/patch/NdjsonTcpClient.java:117 | the consumer takes the oldest line into its hand, or nothing |
| `Ndjson.NdjsonTcpClient.LineWritten` | integrations/sdrtrunk/patch/NdjsonTcpClient.java:126-127 | a written line empties the hand and resets the backoff |
| `Ndjson.NdjsonTcpClient.LoopFailed` | integrations/sdrtrunk/patch/NdjsonTcpClient.java:134-146 | a failure loses the line in hand and doubles the backoff up to 15 s |
| `Ndjson.ConservationAndOrder` | integrations/sdrtrunk/patch/NdjsonTcpClient.java:86-157 | for any interleaving: queue within capacity and newest part of the accepted lines; taken and delivered lines in acceptance order; sends = queued + taken + evicted + refused + still inside send |
| `Ndjson.LossNeedsFullQueue` | integrations/sdrtrunk/patch/NdjsonTcpClient.java:86-97 | for any interleaving every send begun is on the books, and no more lines are evicted, and no more refused, than sends found the queue full |
| `Ndjson.WaitingLinesAreWritten` | integrations/sdrtrunk/patch/NdjsonTcpClient.java:112-127 | from any reachable state, as many takes and writes as lines wait deliver exactly these, in order |
| `Ndjson.BackoffDoubles` | integrations/sdrtrunk/patch/NdjsonTcpClient.java:111-146 | the wait after k failures since the last write is half a second doubled k times, at most 15 s |
| `Ndjson.OneProducerNeverRefused` | integrations/sdrtrunk/patch/NdjsonTcpClient.java:86-97 | with one producer nothing is ever refused and every finished send has placed its line, in send order |
| `Ndjson.NeverRefusedIff` | integrations/sdrtrunk/patch/NdjsonTcpClient.java:86-97 | for a set of producer threads: no run ever refuses a line exactly when the set has at most one member; for any two threads a run from the start that refuses one |
| `Lines.LineSplitter.Feed` | modules/sdr_location_gateway/sdrtrunk/audio.py:135-137 | one chunk yields the complete lines of buffer plus chunk and keeps the rest |
| `Lines.SplitMeaning` | modules/sdr_location_gateway/sdrtrunk/audio.py:136-137 | lines and rest put together again are the stream, and contain no newline |
| `Lines.SplitUndoesUnsplit` | modules/sdr_location_gateway/sdrtrunk/audio.py:136-137 | any newline-free lines and rest are recovered from their stream |
| `Lines.ChunkingIrrelevant` | modules/sdr_location_gateway/sdrtrunk/spectrum.py:95-100 | however the stream is cut, lines and rest are those of the whole stream |
| `Hubs.EventBus.Publish` | radiotak/gateway/events.py:16-27 | the event is stamped, every subscribed queue with room gets it, exactly the full ones are cut off, history keeps its newest |
| `Hubs.EventBus.Subscribe` | radiotak/gateway/events.py:29-32 | a new listener starts with an empty queue |
| `Hubs.EventBus.Unsubscribe` | radiotak/gateway/events.py:34-35 | the listener is no longer fed and keeps what waits for it |
| `Hubs.EveryListenerGapFree` | radiotak/gateway/events.py:16-35 | over any run what a listener has read plus what waits is one gap-free segment of the published events from its subscription to its end or to now; history is the newest part |
| `Hubs.HistoryIsFull` | radiotak/gateway/events.py:12-38 | over any run the history holds as many events as were published since the last clear, up to its bound |
| `Hubs.UnsubscribedStaysOff` | radiotak/gateway/events.py:34-35 | over any run a listener that has unsubscribed is never fed again |
| `Hubs.CutOffIff` | radiotak/gateway/events.py:16-35 | over any run a listener that does not unsubscribe is cut off exactly if at some publish an unbounded queue in its place would already have held as many unread events as its queue has room for; until then it holds as many as that queue |
| `Hubs.AudioHub.Publish` | modules/sdr_location_gateway/sdrtrunk/audio.py:37-54 | every listener's queue takes the frame, the oldest one making room; latest attributes, time and counters follow the frame |
| `Hubs.EveryListenerHasNewest` | modules/sdr_location_gateway/sdrtrunk/audio.py:28-54 | over any run each listener's frames are the newest published since it subscribed, at most as many as its queue holds (24 audio, 8 spectrum) |
| `Hubs.WaitingCount` | modules/sdr_location_gateway/sdrtrunk/audio.py:45-54 | over any run as many frames wait for a listener as a counter says that only looks at publishes, reads and the room: a frame is dropped only when the queue is full |
| `Hubs.NothingWaitsUnsubscribed` | modules/sdr_location_gateway/sdrtrunk/audio.py:33-35 | over any run nothing waits for a listener from when it unsubscribes until it subscribes anew |
| `Hubs.AcceptedIff` | modules/sdr_location_gateway/sdrtrunk/audio.py:67-92 | which messages are accepted; a clear one keeps its sound and marks, an encrypted one its marks only, and a sample rate out of range becomes 8000 |
| `Hubs.PublishedGuarded` | modules/sdr_location_gateway/sdrtrunk/audio.py:70-95 | every frame the parser let through is silent and without PCM if it is encrypted |
| `Hubs.NoPendingEncryptedPcm` | modules/sdr_location_gateway/sdrtrunk/audio.py:37-95 | over any run that publishes parsed frames no waiting encrypted frame carries PCM |
| `AudioExporter.DrainNewBuffers` | integrations/sdrtrunk/patch/AudioFrameExporter.java:217-230 | the drain loop appends the PCM of exactly the buffers not drained before, in order |
| `AudioExporter.PumpSegment` | integrations/sdrtrunk/patch/AudioFrameExporter.java:171-197 | one pump step of a segment up to its release: messages and what stays pending, also when an exception breaks it |
| `AudioExporter.EncryptedStepIsSilent` | integrations/sdrtrunk/patch/AudioFrameExporter.java:173-181 | a step that finds the segment encrypted sends no PCM and keeps none, whatever the later reads of the flag say |
| `AudioExporter.SilentOnceFlagged` | integrations/sdrtrunk/patch/AudioFrameExporter.java:163-215 | a segment flagged from some step on sends no PCM from there on, even what was pending |
| `AudioExporter.EncryptedLifeSends` | integrations/sdrtrunk/patch/AudioFrameExporter.java:173-199 | an encrypted segment that completes sends one silence marker for every time one is due and, last, one end marker, all flagged encrypted |
| `AudioExporter.DueOncePerSecond` | integrations/sdrtrunk/patch/AudioFrameExporter.java:176-180 | due markers are a second apart, and at every step the latest is less than a second old |
| `AudioExporter.ClearLifeSendsAll` | integrations/sdrtrunk/patch/AudioFrameExporter.java:163-230 | from any point in a clear segment's life the PCM sent until completion is what waited plus all buffers not yet drained, and all batches but the last are large |
| `AudioExporter.ClearSegmentDelivered` | integrations/sdrtrunk/patch/AudioFrameExporter.java:163-249 | a clear segment's batches concatenate to the 16-bit encoding of its buffers, each but the final flush has at least 1600 bytes, and the browser decodes exactly the rounded clipped samples |
| `AudioExporter.ClearLifeFlags` | integrations/sdrtrunk/patch/AudioFrameExporter.java:183-199 | a clear segment that completes sends sound that is not flagged encrypted and, last, one end marker that is not either |
| `AudioExporter.LessThanABatchWaits` | integrations/sdrtrunk/patch/AudioFrameExporter.java:184-188 | after any step less than one batch waits to be sent |
| `AudioExporter.AllDeliveredIff` | integrations/sdrtrunk/patch/AudioFrameExporter.java:184-199 | everything the segment ends up with was sent exactly when no sample arrived between last drain and completeness check |
| `AudioExporter.CountsAccounted` | integrations/sdrtrunk/patch/AudioFrameExporter.java:92-215 | over any run, exceptions anywhere: released + held differs from received by exactly the surplus of the steps that let go of the segment |
| `AudioExporter.ReleasedOnceIff` | integrations/sdrtrunk/patch/AudioFrameExporter.java:191-213 | over any run a segment received once is given back once exactly when the run loop did not lose it and no pump step of it raised an exception after the body's release took effect, or before it with a handler that failed too |
| `AudioExporter.ReleasedOnceIfHandled` | integrations/sdrtrunk/patch/AudioFrameExporter.java:191-213 | with a handler whose release takes effect: exactly when nothing is raised after the body's release took effect |
| `AudioExporter.OneSegmentRun` | integrations/sdrtrunk/patch/AudioFrameExporter.java:191-213 | from the start, for every way a pump step can end, a run that gives a segment back just as often: twice if an exception follows the body's release and the handler's takes effect, never if none does |
| `AudioExporter.EveryCountReleasedOnce` | integrations/sdrtrunk/patch/AudioFrameExporter.java:92-215 | in every run without a mishandling step, after every atomic step and for every segment: received = released + waiting + in hand + tracked |
| `AudioExporter.FirstInFirstOut` | integrations/sdrtrunk/patch/AudioFrameExporter.java:103-147 | until disposal segments are taken off in the order they were received, and a poll takes the oldest whenever one waits |
| `AudioExporter.DisposeReleasesAll` | integrations/sdrtrunk/patch/AudioFrameExporter.java:106-128 | disposing with the pump stopped releases what is outstanding: released equals received but for the surplus of earlier steps |
| `AudioExporter.AudioFrameExporter.Receive` | integrations/sdrtrunk/patch/AudioFrameExporter.java:92-104 | an enabled exporter keeps the count, a disabled one gives it back at once |
| `AudioExporter.AudioFrameExporter.Poll` | integrations/sdrtrunk/patch/AudioFrameExporter.java:136-147 | the oldest waiting segment moves into the run loop's hand |
| `AudioExporter.AudioFrameExporter.SortPolled` | integrations/sdrtrunk/patch/AudioFrameExporter.java:139-146 | the segment in hand is released as a duplicate or followed with nothing pending |
| `AudioExporter.AudioFrameExporter.TakeIncoming` | integrations/sdrtrunk/patch/AudioFrameExporter.java:136-148 | everything waiting is sorted, oldest first, as by single poll and sort steps |
| `AudioExporter.AudioFrameExporter.LetGo` | integrations/sdrtrunk/patch/AudioFrameExporter.java:198-213 | release and removal of the body, and the exception handler's own when the body's release or an earlier call raised: the segment leaves the list once, its count is given back zero, one or two times as the exceptions decide |
| `AudioExporter.AudioFrameExporter.PumpAt` | integrations/sdrtrunk/patch/AudioFrameExporter.java:169-213 | one pump step is one step of the books, and its messages go out in order |
| `AudioExporter.AudioFrameExporter.Pump` | integrations/sdrtrunk/patch/AudioFrameExporter.java:163-215 | removal during iteration skips no segment: each is pumped once, in order, with its messages and releases |
| `AudioExporter.AudioFrameExporter.Dispose` | integrations/sdrtrunk/patch/AudioFrameExporter.java:106-128 | with the pump stopped every held count is released and nothing is held afterwards |
| `AudioPath.EveryMessageArrives` | integrations/sdrtrunk/patch/AudioFrameExporter.java:266-283 | every message reaches the hub as one frame with its flags, and with its sound exactly if it is not flagged encrypted |
| `AudioPath.ClearCallHeard` | radiotak/web/static/js/listen.js:5-12 | of a clear call that completes the browser decodes, frame by frame, exactly the rounded clipped samples of all its buffers, through exporter, wire and hub |
| `AudioPath.EncryptedCallNotHeard` | modules/sdr_location_gateway/sdrtrunk/audio.py:67-92 | nothing is heard of a segment from when it is flagged for good, through exporter, wire and hub |
| `Pcm.AppendPcm` | integrations/sdrtrunk/patch/AudioFrameExporter.java:232-249 | the clipping and byte-splitting loop appends the encoding of the samples |
| `Pcm.LittleEndian` | integrations/sdrtrunk/patch/AudioFrameExporter.java:245-247 | the low byte of a sample comes first, negative ones in two's complement |
| `Pcm.ClipIsNearest` | integrations/sdrtrunk/patch/AudioFrameExporter.java:236-244 | a sample out of full scale becomes the nearest in range, others stay |
| `Pcm.DecodeUndoesEncode` | radiotak/web/static/js/listen.js:5-12 | decoding recovers exactly the rounded clipped samples, for all sample lists |
| `Pcm.QuantizeError` | integrations/sdrtrunk/patch/AudioFrameExporter.java:236-245 | the rounding error is at most half a step, a tie going up |
| `Pcm.ResampleTo` | radiotak/web/static/js/listen.js:14-36 | length and every output of the resampling loop, for equal and for different rates |
| `Pcm.LengthFits` | radiotak/web/static/js/listen.js:22-23 | the converted buffer lasts as long as the source to within one sample, and has at least one |
| `Pcm.InterpolationStaysBetween` | radiotak/web/static/js/listen.js:26-34 | each output reads two neighbouring samples inside the buffer and lies between them; at whole positions it is the sample |
| `Pcm.RampIsReproduced` | radiotak/web/static/js/listen.js:26-34 | a ramp is converted to the same ramp: interpolation is linear between samples and constant behind the last |
| `Pcm.PlaybackNeverOverlaps` | radiotak/web/static/js/listen.js:184-188 | over any run of frames no buffer starts in the past or before any earlier one has ended |
| `Pcm.PlaybackIsPrompt` | radiotak/web/static/js/listen.js:184-188 | a buffer starts when the one before ends, or at once if that has passed: neither gap nor delay of its own |
| `Archive.EncryptionArchive.RecordDecode` | radiotak/services/encryption_archive.py:107-217 | the row search and the field updates, or the new row; nothing when the archive is off |
| `Archive.FindRowMeaning` | radiotak/services/encryption_archive.py:127-139 | the query gives the newest matching row, and none only if none matches |
| `Archive.RowsSummariseCalls` | radiotak/services/encryption_archive.py:140-204 | in any order of arrival a row's hear count, sticky flags, first-given values, last-seen time and decrypt state are those of exactly the calls it took |
| `Archive.HearCountsAddUp` | radiotak/services/encryption_archive.py:142-168 | hear counts add up to the number of calls |
| `Archive.RowsAreWindows` | radiotak/services/encryption_archive.py:125-161 | for calls in time order rows of one key that is not blank start more than 15 s apart, and each call lies within 15 s after the start of its row, which has its key or, for a blank talkgroup, none |
| `Archive.FewestWindows` | radiotak/services/encryption_archive.py:125-217 | the rows of a key that is not blank cover its calls and no smaller family of closed 15-second windows does, whatever other calls the run holds |
| `Archive.MergesIff` | radiotak/services/encryption_archive.py:126-139 | on any table a call merges exactly if a row of the key it asks for starts no earlier than 15 s before it, and then into the one that started last; otherwise it opens a row |
| `Archive.ShareRowIff` | radiotak/services/encryption_archive.py:126-139 | in any run in time order a later call joins an earlier call's row exactly when it asks for the key of that row within 15 s of its start |
| `Archive.OneKeyPerRowIff` | radiotak/services/encryption_archive.py:131-185 | in any run, every row holds calls of its own key only exactly when no call with a blank talkgroup found a recent row without one |
| `Archive.BlankRowHoldsOneCall` | radiotak/services/encryption_archive.py:131-185 | in any run a row stored with a blank talkgroup holds one call |
| `Archive.MergeDistance` | radiotak/services/encryption_archive.py:126-139 | a merged call lies within 15 s of its row's start exactly when no row of the key it asks for starts more than 15 s after it |
| `Archive.OldCallMerges` | radiotak/services/encryption_archive.py:126-139 | a call any amount older than the only row of its key merges into it |
| `UpdateJob.UpdateService.Save` | radiotak/services/updater.py:295-305 | the stored log is cut to its last 80,000 characters |
| `UpdateJob.UpdateService.ReconcileOnStartup` | radiotak/services/updater.py:308-329 | a restarting job becomes done, a running one failed, others stay |
| `UpdateJob.UpdateService.StartUpdateJob` | radiotak/services/updater.py:538-561 | a worker is created only if none is alive and the record is not busy |
| `UpdateJob.UpdateService.JobAbandoned` | radiotak/services/updater.py:485-487 | an exception before the try block ends the thread and saves nothing |
| `UpdateJob.UpdateService.BeginJob` | radiotak/services/updater.py:485-499 | the worker's first save replaces the log |
| `UpdateJob.UpdateService.AppendLog` | radiotak/services/updater.py:332-339 | a line of its own is appended under the cap |
| `UpdateJob.UpdateService.FinishJob` | radiotak/services/updater.py:504-527 | the outcome of update_now becomes done, restarting or failed |
| `UpdateJob.UpdateService.JobRaised` | radiotak/services/updater.py:528-535 | an exception makes the job failed with code 1 |
| `UpdateJob.CapCommutes` | radiotak/services/updater.py:295-339 | capping at every save keeps what capping once at the end would keep, for every kind of log edit |
| `UpdateJob.StatusKeeps` | radiotak/services/updater.py:308-561 | every step, in any interleaving, keeps one worker and the agreement of record, worker and outcome |
| `UpdateJob.StartsIffFree` | radiotak/services/updater.py:538-561 | over any run a request starts a worker exactly if none is alive and no job is running or restarting, so also after a failure; else it changes nothing |
| `UpdateJob.OutcomeShown` | radiotak/services/updater.py:504-527 | over any run a failure is shown with its code, a success at once in development and else as a restart that the next boot turns into done |
| `UpdateJob.LogOfAJob` | radiotak/services/updater.py:485-527 | the log of a job that runs through is the version it started from, its output lines, each on a line of its own, and how it ended, as far as the cap goes |
| `UpdateJob.JobIsHonest` | radiotak/services/updater.py:485-561 | over any interleaving of requests, worker steps, deaths and boots: at most one worker; done or restarting exactly if the latest job's update_now returned 0 and that was saved; a live process shows running exactly if a worker is at work or the latest one ended before its first save; the log is the end of the uncapped log |
| `UpdateJob.BootSettles` | radiotak/services/updater.py:308-329 | after a boot nothing is running or restarting, no worker exists, and done still means a saved return code 0 |
| `UpdateJob.DeathBeforeSaveFails` | radiotak/services/updater.py:308-329 | over any run, when the process dies and boots again the job is newly reported as failed exactly if its worker had saved no outcome, whether update_now was at work, had returned 0 or another code, or the worker was gone before its first save |
| `Frequencies.ParseFrequencies` | modules/sdr_location_gateway/sdrtrunk/playlist.py:315-348 | the loop with its seen set parses the separated tokens in order, drops later duplicates and stops at the first bad token |
| `Frequencies.AnySeparators` | modules/sdr_location_gateway/sdrtrunk/playlist.py:323 | commas, semicolons, blanks and line ends separate tokens in any mixture and number, also before the first and behind the last |
| `Frequencies.UnitsRead` | modules/sdr_location_gateway/sdrtrunk/playlist.py:327-344 | a positive number marked as hertz is rounded to hertz; marked as megahertz it is read like an unmarked one, as megahertz below 10,000 and as hertz from there on; case does not matter |
| `Frequencies.WholeNumbersRead` | modules/sdr_location_gateway/sdrtrunk/playlist.py:316-344 | a whole number below 10,000 is megahertz and from there on hertz, unless it is marked as hertz |
| `Frequencies.StripZeros` | modules/sdr_location_gateway/sdrtrunk/playlist.py:351-354 | stripping zeros from a fraction divides by a power of ten, so nothing is lost |
| `Frequencies.PrintedText` | modules/sdr_location_gateway/sdrtrunk/playlist.py:351-354 | the printed text is whole megahertz without leading zeros and, only if needed, a dot and up to six digits without trailing zeros, that denote the value exactly |
| `Frequencies.ParsePrinted` | modules/sdr_location_gateway/sdrtrunk/playlist.py:326-354 | what the parser makes of any printed integer: refused as not positive, itself below 10 GHz, and a millionth of it, rounded half to even, from there on |
| `Frequencies.ParsedText` | modules/sdr_location_gateway/sdrtrunk/playlist.py:315-358 | for every list of integers, whether its printed text is refused and otherwise exactly which list it reads as |
| `Frequencies.RoundTripIffInRange` | modules/sdr_location_gateway/sdrtrunk/playlist.py:315-358 | parsing the printed list gives it back without later duplicates exactly when every value is positive and below 10 GHz |
| `Frequencies.ParsePrintParse` | modules/sdr_location_gateway/sdrtrunk/playlist.py:315-358 | any accepted text survives printing and parsing exactly when its values are in that range |
| `Frequencies.AddAllMeaning` | modules/sdr_location_gateway/sdrtrunk/playlist.py:345-347 | deduplication keeps exactly the values, once each |
| `Frequencies.AddAllOfDistinct` | modules/sdr_location_gateway/sdrtrunk/playlist.py:345-347 | a list without duplicates is left alone, order included |
| `Frequencies.KilohertzRefused` | modules/sdr_location_gateway/sdrtrunk/playlist.py:327-338 | any plain number with a khz suffix, in whatever case, is refused |
| `Tuners.AssignListenStates` | modules/sdr_location_gateway/sdrtrunk/playlist.py:491-509 | each row is off, active or starved by how many listening rows come before it |
| `Tuners.SystemsFromRows` | modules/sdr_location_gateway/sdrtrunk/playlist.py:526-546 | entries are the enabled rows with a frequency, in order |
| `Tuners.EntryIs` | modules/sdr_location_gateway/sdrtrunk/playlist.py:526-546 | every enabled row with a frequency has its own entry, at its place in the order, with its frequencies and auto-start |
| `Tuners.ApplyTunerSlots` | modules/sdr_location_gateway/sdrtrunk/playlist.py:512-523 | in place, an entry keeps auto-start exactly if fewer auto-starts than tuners come before it; nothing else changes |
| `Tuners.ListeningCenter` | modules/sdr_location_gateway/sdrtrunk/playlist.py:253-261 | the first frequency of the first auto-start entry that has one |
| `Tuners.FirstComeFirstServed` | modules/sdr_location_gateway/sdrtrunk/playlist.py:491-509 | exactly min(listening, tuners) rows are active, none of them follows a starved row, and exactly the rows not listening are off |
| `Tuners.CountersDiffer` | modules/sdr_location_gateway/sdrtrunk/playlist.py:491-546 | page and playlist count differently by exactly the listening rows without a frequency |
| `Tuners.AgreeIff` | modules/sdr_location_gateway/sdrtrunk/playlist.py:474-546 | a row is active exactly when its entry keeps auto-start, for all rows, exactly when every listening row that gets a tuner has a frequency |
| `Tuners.CenterIsFirstActive` | modules/sdr_location_gateway/sdrtrunk/playlist.py:253-261 | then the listening centre is the first frequency of the first active row |
| `Tuners.NoCenterWithoutActive` | modules/sdr_location_gateway/sdrtrunk/playlist.py:253-261 | without an active row there is no listening centre |
| `Buckets.BucketMean` | integrations/sdrtrunk/patch/DftFrameExporter.java:279-286 | the inner loop computes the mean linear power of its range |
| `Buckets.LinearIsPower` | integrations/sdrtrunk/patch/DftFrameExporter.java:291-298 | linear power has the decibels of its bin, and is zero exactly for bins without a value or below the floor |
| `Buckets.DownsampleLinear` | integrations/sdrtrunk/patch/DftFrameExporter.java:253-289 | short rows are converted bin by bin, longer ones to the mean power of each bucket |
| `Buckets.BucketsPartition` | integrations/sdrtrunk/patch/DftFrameExporter.java:266-278 | buckets are nonempty, follow each other without gap or overlap and reach from first to last bin; the loop's guards never act |
| `Buckets.StartsEvenly` | integrations/sdrtrunk/patch/DftFrameExporter.java:266-270 | every bucket starts at the whole part of its share of the row |
| `Buckets.SizesEven` | integrations/sdrtrunk/patch/DftFrameExporter.java:266-278 | every bucket holds the whole part of an even share or one bin more |
| `Buckets.OneBucketEach` | integrations/sdrtrunk/patch/DftFrameExporter.java:266-278 | every bin lies in exactly one bucket |
| `Buckets.PowerConserved` | integrations/sdrtrunk/patch/DftFrameExporter.java:267-287 | outputs weighted by bucket size add up to the total linear power |
| `Buckets.AverageBetweenExtremes` | integrations/sdrtrunk/patch/DftFrameExporter.java:279-286 | each output lies between the extremes of its bucket |
| `Buckets.PickedIndices` | modules/sdr_location_gateway/sdrtrunk/spectrum.py:61-64 | rows of at most 512 bins are left alone; of longer ones 512 strictly increasing in-range indices are kept, evenly spread, the first included |
| `Alerts.AlertStore.Acknowledge` | radiotak/services/alerts.py:57-68 | sets or renews the acknowledgement; refused only for an empty id |
| `Alerts.AlertStore.CheckAcked` | radiotak/services/alerts.py:70-77 | true exactly within the TTL; an expired acknowledgement is forgotten |
| `Alerts.AlertStore.NoteAll` | radiotak/services/alerts.py:79-95 | unseen alerts get the poll's time and one event each, seen ones keep theirs |
| `Alerts.AlertStore.Prune` | radiotak/services/alerts.py:97-101 | alerts no longer active lose their time and acknowledgement, others keep both |
| `Alerts.AlertStore.Collect` | radiotak/services/alerts.py:417-432 | one poll: note, prune, list each alert with its time and whether it is acknowledged, then sort by severity and title |
| `Alerts.SortedStably` | radiotak/services/alerts.py:431 | the sorted list is in order and rows that share a place keep their order, so none is lost or added |
| `Alerts.TimeIsStreakStart` | radiotak/services/alerts.py:79-101 | after any history an alert is seen exactly while in a streak, and its time is that of the streak's first poll |
| `Alerts.OneEventPerStreak` | radiotak/services/alerts.py:79-101 | the events published for an alert are exactly one per streak, with the time of its first poll |
| `Alerts.AckedIff` | radiotak/services/alerts.py:57-101 | an alert counts as acknowledged exactly if some acknowledgement is no older than the TTL and no streak ended since, although expired ones are forgotten on the way |
| `Alerts.PollLists` | radiotak/services/alerts.py:417-432 | after any history a poll lists an alert exactly if it is active and either acknowledged ones are asked for or no acknowledgement in force is younger than the TTL, with the start of its streak |
| `Alerts.NeverIntoLaterStreak` | radiotak/services/alerts.py:97-101 | an acknowledgement given during a streak is not in force in any later one |
| `Alerts.EarlyAckReachesNextStreak` | radiotak/services/alerts.py:97-101 | one given while the alert is inactive is in force throughout the next streak |
| `LoginLimit.RateLimiter.CheckRateLimit` | radiotak/auth/__init__.py:110-117 | prunes the address's list to the window and allows exactly while fewer than the limit remain; one check step |
| `LoginLimit.RateLimiter.RecordFailedLogin` | radiotak/auth/__init__.py:120-121 | adds one failure to this address only; one failure step |
| `LoginLimit.RateLimiter.ClearFailedLogins` | radiotak/auth/__init__.py:124-125 | forgets this address only; one success step |
| `LoginLimit.RateLimiter.LoginPost` | radiotak/web/routers/__init__.py:487-521 | check and outcome of one login, each at its own time, with no other login in between; the answer is whether fewer failures than the limit are recent |
| `LoginLimit.RecentMeans` | radiotak/auth/__init__.py:115 | pruning keeps exactly the attempts younger than the window, each as often as before |
| `LoginLimit.RecentOfRecent` | radiotak/auth/__init__.py:115-116 | pruning earlier forgets nothing that a later check would count |
| `LoginLimit.FailuresPerWindow` | radiotak/auth/__init__.py:110-125 | for any caller that fails a login only after a passed check: over any run any half-open window holds at most limit + parallel - 1 failures of one address between clears |
| `LoginLimit.FailuresAreWrong` | radiotak/web/routers/__init__.py:505-521 | over any run of logins the failures on record for an address are exactly the times of its wrong passwords that were let through since its last right one that was |
| `LoginLimit.HandlerDecides` | radiotak/web/routers/__init__.py:505 | a login is let through exactly if fewer such wrong passwords than the limit are recent, although the check only sees a pruned list |
| `LoginLimit.LoginLimitHolds` | radiotak/web/routers/__init__.py:505-521 | over any run of logins of any addresses, any half-open window holds at most the limit of wrong passwords of one address let through between right ones |
| `LoginLimit.LimitHoldsIff` | radiotak/auth/__init__.py:110-125 | for a caller with up to so many logins of an address under way: the limit holds in all runs exactly when that number is one; otherwise a run from the start reaches limit + parallel - 1 |
| `Hearing.HearingGauges.Note` | radiotak/services/hearing.py:38-42 | the event is added, then the old ones are trimmed from the front |
| `Hearing.HearingGauges.TrimEvents` | radiotak/services/hearing.py:44-48 | the loop drops from the front exactly while too old |
| `Hearing.HearingGauges.MessagesPerMinute` | radiotak/services/hearing.py:50-52 | the rate is the number of events in the window scaled to a minute and rounded to one decimal, ties to even |
| `Hearing.TrimIsSince` | radiotak/services/hearing.py:44-48 | on ordered times trimming from the front is filtering |
| `Hearing.SinceMeans` | radiotak/services/hearing.py:46-48 | filtering keeps exactly the times not before the cutoff, each as often as before |
| `Hearing.DequeIsWindow` | radiotak/services/hearing.py:38-52 | after any run under a steady clock the deque is the whole history of events filtered to the window |

## Left out

- Tnc2.ConvertFrame: the payload decoder (UTF-8 with replacement) is a parameter that reads 7-bit characters as themselves; what it makes of other bytes is not modelled.
- Frequencies.ParseFrequencies: tokens are plain decimals; exponents, underscores, infinities, NaN and white space beyond ASCII are not modelled.
- Frequencies.RoundTripIffInRange: fractions are exact; binary floating point, which is precise enough on this range, is not modelled.
- Buckets.DownsampleLinear: powers are exact reals and bucket starts exact quotients, as they are for 512 buckets in binary floating point; other targets could round.
- Pcm.ResampleTo: samples and positions are exact reals.
- AudioPath.ClearCallHeard: base64 is a parameter with an inverse; JSON quoting is left out.
- Hearing.HearingGauges.MessagesPerMinute: the rate is rounded from exact numbers; binary floating point is not modelled.
- Hubs.EventBus.Publish: how an event without a time stamp is given one is a parameter.
- Hubs.EveryListenerHasNewest: covers the spectrum hub through its room of 8; that hub's `latest` frame and counters are not modelled.
- Alerts.AlertStore.Collect: how alerts are detected is left out, and the order of severity and title is a parameter.
- AudioExporter.AudioFrameExporter.Dispose: assumes the pump has stopped, holds no segment in its hand, and that no release raises; a dispose that races a running pump is not modelled.
- AudioExporter.AudioFrameExporter.LetGo: removals succeed, as they do while only the pump's thread changes the list.
- Pipeline.LocationPipeline.ProcessEvent: one event is one atomic step; races on the dedupe map are not modelled.
- Ndjson.NdjsonTcpClient.LoopFailed: reconnecting, the peer-watch thread, idle heartbeats and the consumer's exit on an interrupt are not steps of their own.
- TakManager.TakConnectionManager.LoopTurn: presence timing, dry runs and the contents of a connection attempt are nondeterministic steps; the queue bound is at least 1, as in every construction.
- UpdateJob.UpdateService.Save: file errors and unreadable records are not modelled; time stamps, versions and error texts are left out.
- Archive.EncryptionArchive.RecordDecode: columns outside the key, the summary fields and the sticky fields are left out, as are capture sessions, retention and statistics queries.
- Forwarding.OneCopyPerForward: about one pipeline; the second broadcast at modules/sdr_location_gateway/sdrtrunk/adapter.py:123-129 and the replay path add copies of their own.
- CoT XML, marker styles and the great-circle distance: opaque parameters of the engine.
- Sockets, TLS, enrollment, subprocesses and the database engine: replaced by steps that succeed or fail, and by sequences and maps of records.
- Tuner exclusivity between SDRTrunk and Direwolf: some routes start a decoder without the guard, so no whole-system invariant holds.
- Web routes, templates, drawing and help text: no deep state.
- ALGID parsing, version stamps, Marti bitfields and colour packing: small or finite domains.
