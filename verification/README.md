# Verification model of the light rig's Link, Snake and buffer code

The program plays lights from a Launchpad in time with other devices. This project models its hard
logic in Dafny and proves what that logic is for:

- the **timing algebra** of Ableton Link: beats, tempi, timelines, phase encoding and the translation
  between a client's timeline and the session's (`Rounding`, `LinkTime`, `Phase`, `ClientSession`);
- the **session protocol** of one Link node, as a state machine whose steps are the handlers of its io
  thread (`Protocol`), what each step does told without the handlers (`ProtocolEffects`), what holds over
  runs (`ProtocolRuns`, `ProtocolLoss`), and the classes with their sorted vectors that implement it and
  are proved to take exactly those steps (`LinkNode`, `Vectors`);
- the **lock-free ring** between the audio thread and the callback dispatcher, with every atomic access
  and every data access as a step of its own (`CircularFifo`);
- the **wire format**: big-endian integers, payloads, message headers, ping and pong (`ByteStream`,
  `Payload`, `PeerWire`);
- the **peer timeouts** of a gateway (`PeerGateway`);
- the **estimators**: least squares over a sliding window and the Kalman filter, over exact reals
  (`LinearRegression`, `Kalman`);
- the **Snake game** on its 8 x 8 torus with its lamps (`Snake`, `SnakePage`), its rules told from the
  state before a tick (`SnakeRules`), and which of its seeds can be drawn and eaten (`SnakeSeed`);
- asio's **scatter/gather copy** between buffer sequences (`BufferCopy`).

Code that is made of expressions is modelled by functions and lemmas. Code that updates fields, vectors
or memory in place is modelled by classes and methods with the same loops, each proved equal to a step
of a state machine or to a function of the old state; the properties over runs are proved about that.

`dafny verify dfyconfig.toml` checks the whole project.

## How to read the model

- A beat value is an `int` number of microbeats, a time an `int` number of microseconds. `llround` is
  rounding half away from zero. The quotients that the code forms in floating point are exact, so that
  the only rounding left is the explicit `llround`; for quotients of integers it is `RoundDiv`, which is
  proved to be `llround` of the exact quotient. C++ `/` and `%` truncate; `TruncDiv` and `TruncMod` say so.
- A tempo is a real number of beats per minute for which a beat lasts a positive number of microseconds.
- Half a quantum is either neighbour of the exact half (`IsHalf`), because `0.5 * quantum` is computed in
  floating point. Every lemma about phases holds for both choices or says for which.
- Node and session ids are eight bytes compared as arrays. The session model uses numbers instead;
  `ByteStream.LexOrderIsNumeric` is why that loses nothing.
- Clock readings and random ids are fields of `Env` and unconstrained. A measurement is a pending entry
  that later succeeds with some transform of slope 1, fails, or is lost without a result.
- In `PeerWire` and `ByteStream` a pair of iterators is the sequence of bytes between them.
- The random seed of the Snake game is any cell off the body, in the colours and coordinates that the
  search can produce.

## Where the code differs from its own description

- `Timeline.hpp:34-37` promises a bijection between beats and wall time. It is one exactly when a beat
  lasts one second; times survive exactly for tempi of at least 60 bpm and beats exactly for tempi of at
  most 60 bpm (`LinkTime.BijectionExactlyAtOneSecond`).
- `Phase.hpp:51-53` announces the least value greater than x; the code returns the least value greater
  than or equal to x (`Phase.NextPhaseMatchLeast`).
- `Phase.hpp:62-64` announces the closest match. It is that exactly when the half quantum was rounded
  down (`Phase.ClosestExactlyWhenHalfIsFloor`): always for an even quantum, and with exact arithmetic for
  no odd one (`Phase.NearestByQuantum`). The encoding is a bijection in any case.
- `ClientSessionTimelines.hpp:75-78` wants to avoid unnecessary session timelines. For a tempo above
  60 bpm rounding can hide that nothing changed, and repeating a commit then raises the priority again;
  the guard is reliable exactly for tempi of at most 60 bpm (`ClientSession.CommitIdempotentExactly`).
- `ClientSessionTimelines.hpp:102-103` gives `result.toBeats(t) == client.toBeats(t) + shift`. For a
  tempo that holds, at all times and for all shifts, exactly when a beat lasts an odd number of seconds
  (`ClientSession.ShiftExactly`); at any tempo it holds within the bound of `ClientSession.ShiftError`.
- `Peers.hpp:31-32` promises a callback for any membership change. A peer that re-announces itself under
  another session may leave the current one unnoticed, and enabling Link forgets the peers without a
  recount (`Controller.hpp:112-118`). `ProtocolRuns.StaleCountExactly` says for every handler when the
  peer count becomes stale, and `ProtocolRuns.StaleCountReachable` is a run from a new node on which it does.
- `Sessions.hpp:153-164`, the rule for joining a session, always decides between two sessions unless
  their ghost times differ by exactly half a second (`ProtocolRuns.JoinRuleDecides`), but it need not be
  an order: three sessions win against each other in a circle exactly when the two with the outer ids
  are more than half a second apart, the larger id ahead, and both tie with the middle one
  (`ProtocolRuns.JoinRuleCyclesExactly`). Any set in which every two are decided is ordered exactly
  when it has no such three (`ProtocolRuns.JoinRuleOrdersExactly`).
- `MeasurementService.hpp:97` promises to measure the peer and invoke the handler. A measurement that is
  destroyed, because its gateway is closed (`MeasurementService.hpp:79-85`) or its peer is measured again
  (`MeasurementService.hpp:110`), can leave the handler uncalled: the posted callback finds no entry for
  the node (`MeasurementService.hpp:152-154`). A session that loses its last measurement this way, and
  only such a session, is stuck: it stays known without a transform and is neither measured nor joined
  until the node founds a new session, however often it is announced (`ProtocolLoss.StuckExactly`,
  `ProtocolLoss.NeverJoined`). First contact over a gateway that is then
  repaired is enough (`ProtocolLoss.StuckReachable`).
- A session id that is cut short on the wire is not an error: the missing bytes are zero
  (`PeerWire.SessionEntryAccepted`).
- `SnakePage.cpp:20-21` draws coordinate 9, which is off the board, for the largest random number
  (`SnakeSeed.DrawIsNineExactly`). A seed can be eaten exactly when it is on the board
  (`SnakeSeed.SeedCanBeEatenExactly`). Two keys between two ticks can reverse the snake
  (`Snake.KeysReverseOnlyTogether`). The power-up of 20 ticks is counted down before the snake moves and
  so protects in 19 of them (`SnakeRules.BluePower`).
- `Kalman.hpp:70-81` subtracts the mean of the filter's steps. The steps go once round the ring, so that
  mean is always zero (`Kalman.WDiffsCancel`).

## Model

| member | source | states |
|---|---|---|
| Rounding.LRoundCharacterised | lib/AbletonLink/include/ableton/link/Beats.hpp:36-39 | `llround` gives n exactly when n is within a half of x and a tie has gone away from zero |
| Rounding.RoundDivIsLRound | lib/AbletonLink/include/ableton/link/Tempo.hpp:56-65 | the integer division used by the timing lemmas is `llround` of the exact quotient |
| Rounding.RoundDivError | lib/AbletonLink/include/ableton/link/Tempo.hpp:56-65 | the rounding error is at most a half, and a full half only away from zero |
| Rounding.TruncModMeans | lib/AbletonLink/include/ableton/link/Beats.hpp:76-79 | for a positive divisor the remainder is smaller than it, has the sign of the dividend, and is congruent to the dividend |
| LinkTime.TempoOfMicros | lib/AbletonLink/include/ableton/link/Tempo.hpp:40-53 | a tempo made from whole microseconds per beat has exactly these microseconds per beat |
| LinkTime.TempoRounds | lib/AbletonLink/include/ableton/link/Tempo.hpp:50-53 | for every tempo: the microseconds of a beat are the nearest whole number to 60000000 / bpm, ties away from zero, so their error times bpm is at most half of bpm |
| LinkTime.TimelineRate | lib/AbletonLink/include/ableton/link/Timeline.hpp:44-52 | both conversions run forward through the two origins: a million microbeats for a beat's microseconds, up to half a unit of the result |
| LinkTime.XFormRounds | lib/AbletonLink/include/ableton/link/GhostXForm.hpp:34-42 | for every slope but 0: both directions are the nearest whole numbers to the exact affine values |
| LinkTime.XFormRoundTrip | lib/AbletonLink/include/ableton/link/GhostXForm.hpp:34-42 | for every slope but 0: ghost time to host time and back is off by at most half the slope plus a half |
| LinkTime.MicrosToBeatsOdd | lib/AbletonLink/include/ableton/link/Tempo.hpp:56-59 | converting a negated duration negates the beats, despite rounding |
| LinkTime.BeatsToMicrosOdd | lib/AbletonLink/include/ableton/link/Tempo.hpp:62-65 | converting negated beats negates the duration, despite rounding |
| LinkTime.TimeRoundTrip | lib/AbletonLink/include/ableton/link/Timeline.hpp:44-52 | time to beats and back is exact for beats of at most a second and otherwise off by at most half a microbeat's duration plus half a microsecond |
| LinkTime.BeatRoundTrip | lib/AbletonLink/include/ableton/link/Timeline.hpp:44-52 | beats to time and back is exact for beats of at least a second, with the mirrored error bound otherwise |
| LinkTime.BijectionExactlyAtOneSecond | lib/AbletonLink/include/ableton/link/Timeline.hpp:34-52 | for each tempo: all times survive iff a beat lasts at most a second, all beats iff at least a second, so the two conversions are inverse iff exactly a second |
| Phase.PhaseIsResidue | lib/AbletonLink/include/ableton/link/Phase.hpp:31-49 | the phase is the non-negative residue, also for negative beats and truncating division |
| Phase.NextPhaseMatchLeast | lib/AbletonLink/include/ableton/link/Phase.hpp:51-60 | the next match has the target's phase, is the least such value at or above x, and is x iff x has that phase already |
| Phase.PhaseEncodingBijection | lib/AbletonLink/include/ableton/link/Phase.hpp:76-97 | encoding and decoding undo each other in both orders, for all beats, origins, quanta and both roundings of the half |
| Phase.PhaseEncodingMeaning | lib/AbletonLink/include/ableton/link/Phase.hpp:70-81 | the encoded beat has the phase relative to the origin, deviates by at most half a quantum rounded up, and keeps distances |
| Phase.EncodedTimeMeaning | lib/AbletonLink/include/ableton/link/Phase.hpp:70-81 | for every time: the encoded beat has the phase of the beat counted from the origin and lies within half a quantum, rounded up, of the true beat |
| Phase.ClosestExactlyWhenHalfIsFloor | lib/AbletonLink/include/ableton/link/Phase.hpp:62-68 | the match is a nearest one for all inputs iff the half quantum was rounded down |
| LinkTime.TimeWithinOneMicro | lib/AbletonLink/include/ableton/link/Timeline.hpp:44-52 | for a beat of at most three seconds a time that went through beats is off by at most one microsecond |
| Phase.NearestByQuantum | lib/AbletonLink/include/ableton/link/Phase.hpp:62-68 | by quantum: the match is a nearest one whichever way the half is rounded iff the quantum is even, and with exact arithmetic iff it is even |
| Phase.EncodedTimesSurviveExactly | lib/AbletonLink/include/ableton/link/Phase.hpp:83-97 | for every tempo, quantum and rounding of the half: decoding to a time undoes encoding for all times iff a beat lasts at most a second |
| Phase.PhaseEncodedTimeRoundTrip | lib/AbletonLink/include/ableton/link/Phase.hpp:83-97 | the error of decoding an encoded time: none for beats of at most a second, at most one microsecond from 20 bpm on |
| ClientSession.ClampTempo | lib/AbletonLink/include/ableton/link/ClientSessionTimelines.hpp:30-37 | the result is the nearest tempo between 20 and 999 bpm, so a valid one is kept; the origins are kept; a beat then has between 60060 and 3000000 microseconds |
| ClientSession.UnitSlope | lib/AbletonLink/include/ableton/link/GhostXForm.hpp:34-42 | with slope 1 both directions are exact translations and undo each other |
| ClientSession.ClientIsContinuous | lib/AbletonLink/include/ableton/link/ClientSessionTimelines.hpp:39-62 | adopting a session leaves the client's beat at that time exactly as it was |
| ClientSession.ClientIsOnGrid | lib/AbletonLink/include/ableton/link/ClientSessionTimelines.hpp:52-61 | the adopted timeline has the session's tempo and its origin is beat 0 of the session |
| ClientSession.NoDrift | lib/AbletonLink/include/ableton/link/ClientSessionTimelines.hpp:44-62 | adopting the same session again at any other time gives the identical timeline |
| ClientSession.CommitReadsBack | lib/AbletonLink/include/ableton/link/ClientSessionTimelines.hpp:65-100 | a newly built session timeline outranks the old one, has beat 0 exactly at the client's origin in ghost time, and reads back exactly as the client committed it |
| ClientSession.CommitPriority | lib/AbletonLink/include/ableton/link/ClientSessionTimelines.hpp:88-98 | the new priority is the least one that outranks the old timeline and is not below the beat at which the change takes effect |
| ClientSession.UnchangedReadsBackExactly | lib/AbletonLink/include/ableton/link/ClientSessionTimelines.hpp:75-82 | when the session timeline is kept, reading back is exact for a tempo iff a beat lasts at most a second |
| ClientSession.CommitIdempotentExactly | lib/AbletonLink/include/ableton/link/ClientSessionTimelines.hpp:75-98 | repeating a commit changes nothing for a tempo iff a beat lasts at least a second |
| ClientSession.ShiftExactly | lib/AbletonLink/include/ableton/link/ClientSessionTimelines.hpp:102-112 | for each tempo: shifting a client timeline shifts its beats exactly, at all times and for all shifts, iff a beat lasts an odd number of seconds |
| ClientSession.ShiftError | lib/AbletonLink/include/ableton/link/ClientSessionTimelines.hpp:102-112 | at any tempo the shifted timeline has the shifted beats up to one microbeat and the microbeats of one microsecond |
| CircularFifo.StepInv | lib/AbletonLink/include/ableton/link/CircularFifo.hpp:50-105 | every atomic step of either thread keeps the relation between indices, slots and the items published and released |
| CircularFifo.StepRefinesQueue | lib/AbletonLink/include/ableton/link/CircularFifo.hpp:50-89 | every atomic step is a step of a bounded queue: rejected only when full, empty only when empty, clear removes a prefix and returns its last item |
| CircularFifo.FullExactly | lib/AbletonLink/include/ableton/link/CircularFifo.hpp:50-61 | a push gives up iff the queue is full at that moment |
| CircularFifo.EmptyExactly | lib/AbletonLink/include/ableton/link/CircularFifo.hpp:63-89 | a pop or a clear finds nothing iff the queue is empty at that moment |
| CircularFifo.RunRefinesQueue | lib/AbletonLink/include/ableton/link/CircularFifo.hpp:50-105 | the observable events of every interleaving are accepted by a first-in first-out queue of the ring's capacity |
| CircularFifo.NoInterleavingIsExcluded | lib/AbletonLink/include/ableton/link/CircularFifo.hpp:50-105 | after any run, an action can come next iff its thread is ready for it: no index is ever out of range, so runs are all interleavings |
| CircularFifo.NoSlotIsWrittenWhileRead | lib/AbletonLink/include/ableton/link/CircularFifo.hpp:56-86 | the slot the producer writes is never the one the consumer may be reading, not even when clearAndPopLast reads although it found nothing |
| CircularFifo.ClearIsWaitFree | lib/AbletonLink/include/ableton/link/CircularFifo.hpp:76-89 | in every run the scan turns at most `size` times, and the item returned is the newest one published at its last load of the tail |
| CircularFifo.TakesAt | lib/AbletonLink/include/ableton/link/CircularFifo.hpp:63-89 | taking in order means: after k removed items a pop returns item k of the history, and a clear of n items returns item k + n - 1 |
| CircularFifo.FifoOrder | lib/AbletonLink/include/ableton/link/CircularFifo.hpp:50-89 | in every accepted trace, clears included, the items removed one after the other and then what is still queued are exactly those queued at first and then pushed |
| CircularFifo.PopsReturnPushesInOrder | lib/AbletonLink/include/ableton/link/CircularFifo.hpp:43-89 | from an empty ring under any interleaving pops and clears take the pushed items in order, each returning the newest it takes, and the rest is still queued; without clears the popped items are all those taken |
| CircularFifo.Fifo.Push | lib/AbletonLink/include/ableton/link/CircularFifo.hpp:50-61 | uninterrupted: appends the item iff fewer than `size` items are queued |
| CircularFifo.Fifo.Pop | lib/AbletonLink/include/ableton/link/CircularFifo.hpp:63-74 | uninterrupted: removes and returns the oldest item iff there is one |
| CircularFifo.Fifo.ClearAndPopLast | lib/AbletonLink/include/ableton/link/CircularFifo.hpp:76-89 | uninterrupted: empties the ring and returns the newest item iff there is one |
| Protocol.InitInv | lib/AbletonLink/include/ableton/link/Controller.hpp:66-99 | a new node satisfies the invariant |
| ProtocolEffects.InitFounds | lib/AbletonLink/include/ableton/link/Controller.hpp:66-99 | a new node is in a session of its own whose ghost time starts at 0 at the clock reading of construction, with beat 0 there for session and client and the nearest valid tempo |
| ProtocolEffects.ResetFounds | lib/AbletonLink/include/ableton/link/Controller.hpp:271-290 | a reset leads to a session under the fresh id whose ghost time starts at 0 at the clock reading and advances with the clock, whose timeline starts there, and which knows no peers and no other sessions |
| ProtocolEffects.FoundsExactly | lib/AbletonLink/include/ableton/link/Controller.hpp:365-380 | over all handlers: the node founds a session iff Link is enabled or a recount finds a session with a positive count empty, by a departure, a closed gateway, an announcement or a join; otherwise it founds none, is in the session that the measurement decides, and a recount has stored the number of distinct peers left |
| ProtocolEffects.EarlierFounderWins | lib/AbletonLink/include/ableton/link/Sessions.hpp:153-164 | of two founded sessions more than 500000 microseconds apart the earlier one wins at every moment and the later one never |
| ProtocolEffects.CacheExactly | lib/AbletonLink/include/ableton/link/Peers.hpp:206-298 | over all handlers without a new session, for every entry: it remains iff it was there and did not leave, its gateway did not close and its session was not forgotten, or it is the one announced; and it says what was announced last, or the committed timeline |
| ProtocolEffects.PendingExactly | lib/AbletonLink/include/ableton/link/Sessions.hpp:113-130 | over all handlers, for every session: its running measurements are one more iff it is announced and unknown or it is the current one, re-measured and has peers, and one fewer iff one has ended |
| ProtocolEffects.SessionsExactly | lib/AbletonLink/include/ableton/link/Sessions.hpp:81-110 | over all handlers without a new session, for every session: whether it is known, with which timeline and which transform |
| ProtocolEffects.StampsExactly | lib/AbletonLink/include/ableton/link/Sessions.hpp:113-146 | over all handlers without a new session: a known session carries the time of its last successful measurement, void before the first and while it is measured again |
| ProtocolEffects.CommitReaches | lib/AbletonLink/include/ableton/link/Controller.hpp:144-155 | a client's timeline leaves the session alone iff beat 0 and tempo are the session's already; otherwise the session has the client's tempo, beat 0 at the client's origin in ghost time, and a higher priority |
| ProtocolEffects.ClientFollows | lib/AbletonLink/include/ableton/link/Controller.hpp:201-230 | over all handlers but client writes: where session or transform change the client ends with the session's tempo and with its origin on beat 0 of the session, and otherwise it is left alone |
| ProtocolEffects.RtCommitFollows | lib/AbletonLink/include/ableton/link/Controller.hpp:247-255 | the same for a timeline from the realtime thread, if its beats last at most a second or it changes the session |
| Protocol.SawPeerInv | lib/AbletonLink/include/ableton/link/Peers.hpp:206-261 | an announcement keeps the invariant, with its suppression, its new measurement and a reset that may follow |
| Protocol.JoinInv | lib/AbletonLink/include/ableton/link/Controller.hpp:257-269 | joining keeps the invariant through the re-entrant recount and reset |
| Protocol.SwitchInv | lib/AbletonLink/include/ableton/link/Sessions.hpp:165-173 | swapping the current session with a measured one keeps the known ids and all stored timelines |
| Protocol.MeasurementSucceededInv | lib/AbletonLink/include/ableton/link/Sessions.hpp:132-181 | a successful measurement keeps the invariant and, without a reset, the known sessions and their timelines |
| Protocol.MeasurementFailedInv | lib/AbletonLink/include/ableton/link/Sessions.hpp:196-220 | dropping a session together with its cached peers keeps the invariant |
| Protocol.StepInv | lib/AbletonLink/include/ableton/link/Controller.hpp:201-290 | every handler, and every loss of a measurement, keeps: Controller and Sessions agree, other sessions exclude the current one, every cached peer's session is known with a timeline of at least its priority, and a known session's transform is a measured one or none |
| ProtocolRuns.RunInv | lib/AbletonLink/include/ableton/link/Controller.hpp:201-290 | along every run from a state with the invariant, it holds |
| ProtocolRuns.ReachableInv | lib/AbletonLink/include/ableton/link/Controller.hpp:66-99 | the invariant holds in every state reachable from a new node, lost measurements included |
| ProtocolLoss.StuckExactly | lib/AbletonLink/include/ableton/link/MeasurementService.hpp:140-167 | over all handlers and sessions: a session is stuck afterwards, known but neither measured nor being measured, iff it was stuck and the node has not founded a new session, or its last measurement has just been lost before any has given a result |
| ProtocolLoss.NoneStuckFromStart | lib/AbletonLink/include/ableton/link/Sessions.hpp:91-102 | on every run from a new node without such a loss, every known session has been measured or is being measured |
| ProtocolLoss.NeverJoined | lib/AbletonLink/include/ableton/link/Sessions.hpp:103-107 | along every run without a reset a stuck session is never joined, whoever announces it |
| ProtocolLoss.StuckReachable | lib/AbletonLink/include/ableton/discovery/PeerGateways.hpp:108-125 | a run from a new node that ends with a stuck session whose peer is visible: first contact over a gateway that is then repaired |
| ProtocolRuns.SuppressionHidesNothing | lib/AbletonLink/include/ableton/link/Peers.hpp:78-93 | reporting an already cached session and timeline would change nothing |
| ProtocolRuns.StepMonotone | lib/AbletonLink/include/ableton/link/Sessions.hpp:222-240 | without a reset no handler replaces the timeline of a known session by one of equal or lower priority |
| ProtocolRuns.SessionTimelineOnlyRises | lib/AbletonLink/include/ableton/link/Sessions.hpp:222-240 | the same along every run, wherever the session is kept meanwhile |
| ProtocolRuns.NodeAdoptsBest | lib/AbletonLink/include/ableton/link/Sessions.hpp:81-110 | after any announcements, cached and suppressed in any way, a node holds the best timeline it heard for its session |
| ProtocolRuns.BestIsMaximal | lib/AbletonLink/include/ableton/link/Sessions.hpp:222-232 | that timeline is one of those offered and none has a higher beat origin |
| ProtocolRuns.NodesConverge | lib/AbletonLink/include/ableton/link/Sessions.hpp:81-110 | two nodes that hear the same timelines in any order end with the same priority, and the same timeline if priorities are distinct |
| ProtocolRuns.RtCommitReadsBack | lib/AbletonLink/include/ableton/link/Controller.hpp:247-255 | a timeline set from the realtime thread is exactly what the client timeline is after its handler, and the session's priority does not fall |
| ProtocolRuns.CommitIsNotUndone | lib/AbletonLink/include/ableton/link/Controller.hpp:232-245 | after a commit an announcement of a superseded timeline does not change the session timeline |
| ProtocolRuns.ClientBeatNeverJumps | lib/AbletonLink/include/ableton/link/Controller.hpp:201-290 | for every handler and any clock readings: the client moves at most once at the first reading and, on a reset, once more at the second, each time keeping the beat at that reading exactly and taking the tempo the node ends with |
| ProtocolRuns.ResetIsContinuous | lib/AbletonLink/include/ableton/link/Controller.hpp:271-290 | founding a session continues the beats of the old session and of the client exactly, in whatever ghost time `ProtocolEffects.ResetFounds` gives it |
| ProtocolRuns.NewSessionIsMeasured | lib/AbletonLink/include/ableton/link/Sessions.hpp:91-102 | an announced unknown session is never suppressed: its timeline is stored and a measurement launched |
| ProtocolRuns.FailedSessionIsRemeasured | lib/AbletonLink/include/ableton/link/Sessions.hpp:202-219 | a session whose measurement failed is forgotten by both caches and measured as if new when it is seen again |
| ProtocolRuns.MeasurementDecides | lib/AbletonLink/include/ableton/link/Sessions.hpp:153-178 | the node switches iff the measured session wins, stores the result either way, and keeps the transform of the session it leaves |
| ProtocolRuns.MembershipTestExact | lib/AbletonLink/include/ableton/link/Peers.hpp:220-242 | the membership test fires exactly when the announced session's number of distinct peers rises by one; otherwise the number is unchanged |
| ProtocolRuns.RecountIsExact | lib/AbletonLink/include/ableton/link/Controller.hpp:365-380 | after a recount, and a reset it may cause, the stored count is the number of distinct peers in the session |
| ProtocolRuns.StaleCountExactly | lib/AbletonLink/include/ableton/link/Controller.hpp:107-120 | over all handlers: an exact count becomes stale iff an announcement overwrites a peer's last entry in the current session while another gateway already shows the peer in the announced one, or Link is enabled with a positive count |
| ProtocolRuns.AnnouncementCount | lib/AbletonLink/include/ableton/link/Peers.hpp:226-260 | the announcement half of this |
| ProtocolRuns.StaleCountReachable | lib/AbletonLink/include/ableton/link/Peers.hpp:226-260 | on a new node, a peer seen on two gateways that moves to another session on both leaves a count of one in a session without peers |
| ProtocolRuns.JoinRuleDecides | lib/AbletonLink/include/ableton/link/Sessions.hpp:153-164 | at one moment at most one of two sessions wins, and one does iff their ghost times do not differ by exactly half a second |
| ProtocolRuns.OlderSessionWins | lib/AbletonLink/include/ableton/link/Sessions.hpp:153-164 | between sessions with slope 1 the outcome does not depend on the moment: founded more than half a second earlier wins, closer than that the smaller id |
| ProtocolRuns.JoinRuleCyclesExactly | lib/AbletonLink/include/ableton/link/Sessions.hpp:153-164 | three sessions a, b, c in the order of their ids win in a circle iff c is more than half a second ahead of a and both are less than that away from b |
| ProtocolRuns.JoinRuleOrdersExactly | lib/AbletonLink/include/ableton/link/Sessions.hpp:153-164 | among any sessions of which every two are decided, winning is transitive iff no three are spread like that |
| ProtocolRuns.JoinRuleCycles | lib/AbletonLink/include/ableton/link/Sessions.hpp:153-164 | a witness: such sessions exist |
| LinkNode.Peers.SessionPeers | lib/AbletonLink/include/ableton/link/Peers.hpp:56-66 | returns exactly the entries of the session, sorted by id and address |
| LinkNode.Peers.UniqueSessionPeerCount | lib/AbletonLink/include/ableton/link/Peers.hpp:68-76 | counts the distinct peer ids of the session, however many gateways show them |
| LinkNode.Peers.SetSessionTimeline | lib/AbletonLink/include/ableton/link/Peers.hpp:78-93 | gives every cached entry of the session the timeline, in place, and changes no other |
| LinkNode.Peers.ForgetSession | lib/AbletonLink/include/ableton/link/Peers.hpp:95-102 | drops exactly the entries of the session and keeps the vector sorted |
| LinkNode.Peers.Store | lib/AbletonLink/include/ableton/link/Peers.hpp:217-248 | inserts or overwrites one entry, keeping the vector sorted and free of duplicates |
| LinkNode.Peers.SawPeerOnGateway | lib/AbletonLink/include/ableton/link/Peers.hpp:206-261 | the handler on sorted vectors takes exactly the protocol's announcement step |
| LinkNode.Peers.PeerLeftGateway | lib/AbletonLink/include/ableton/link/Peers.hpp:263-284 | the handler takes exactly the protocol's departure step |
| LinkNode.Peers.CloseGateway | lib/AbletonLink/include/ableton/link/Peers.hpp:286-298 | the handler takes exactly the protocol's gateway step |
| LinkNode.Sessions.LaunchSessionMeasurement | lib/AbletonLink/include/ableton/link/Sessions.hpp:113-130 | launches one measurement and clears the timestamp iff the session has a peer |
| LinkNode.Sessions.ChoosePeer | lib/AbletonLink/include/ableton/link/Sessions.hpp:119-124 | picks the founding peer if it is visible and else the first peer |
| LinkNode.Sessions.SawSessionTimeline | lib/AbletonLink/include/ableton/link/Sessions.hpp:81-110 | takes exactly the protocol's step on the sorted vector of sessions |
| LinkNode.Sessions.HandleSuccessfulMeasurement | lib/AbletonLink/include/ableton/link/Sessions.hpp:132-181 | takes exactly the protocol's step, with the switch inside the vector and the join callback |
| LinkNode.Sessions.SwitchTo | lib/AbletonLink/include/ableton/link/Sessions.hpp:165-173 | makes the found session current and puts the old one back in its sorted place |
| LinkNode.Sessions.HandleFailedMeasurement | lib/AbletonLink/include/ableton/link/Sessions.hpp:196-220 | takes exactly the protocol's step |
| LinkNode.Sessions.RemeasureCurrent | lib/AbletonLink/include/ableton/link/Sessions.hpp:183-194 | takes exactly the protocol's re-measurement step |
| LinkNode.Controller.UpdateSessionTiming | lib/AbletonLink/include/ableton/link/Controller.hpp:201-230 | updates timing and client timeline together, and only on a change |
| LinkNode.Controller.HandleTimelineFromClient | lib/AbletonLink/include/ableton/link/Controller.hpp:232-237 | takes exactly the protocol's step across the three objects |
| LinkNode.Controller.HandleTimelineFromSession | lib/AbletonLink/include/ableton/link/Controller.hpp:239-245 | takes exactly the protocol's step across the three objects |
| LinkNode.Controller.CommitClientTimeline | lib/AbletonLink/include/ableton/link/Controller.hpp:151-154 | takes exactly the protocol's commit step |
| LinkNode.Controller.HandleRtTimeline | lib/AbletonLink/include/ableton/link/Controller.hpp:247-255 | takes exactly the protocol's commit step from the realtime thread's timeline |
| LinkNode.Controller.JoinSession | lib/AbletonLink/include/ableton/link/Controller.hpp:257-269 | takes exactly the protocol's step, with the recount and reset it may lead to |
| LinkNode.Controller.ResetState | lib/AbletonLink/include/ableton/link/Controller.hpp:271-290 | takes the protocol's step across the three objects, whose meaning is `ProtocolEffects.ResetFounds` |
| LinkNode.Controller.CountSessionPeers | lib/AbletonLink/include/ableton/link/Controller.hpp:365-380 | takes the protocol's recount step; which recounts found a session is `ProtocolEffects.FoundsExactly` |
| ByteStream.UintRoundTrip | lib/AbletonLink/include/ableton/discovery/NetworkByteStreamSerializable.hpp:94-179 | a value and a rest are read from a stream iff the stream is the value's big-endian bytes and the rest |
| ByteStream.Int64RoundTrip | lib/AbletonLink/include/ableton/discovery/NetworkByteStreamSerializable.hpp:220-236 | the same for signed 64-bit values in two's complement |
| ByteStream.Int64Bits | lib/AbletonLink/include/ableton/discovery/NetworkByteStreamSerializable.hpp:220-236 | the bytes of a signed value spell it modulo 2 to the 64 |
| ByteStream.DeserializeId | lib/AbletonLink/include/ableton/discovery/NetworkByteStreamSerializable.hpp:290-306 | fills the array with at most eight bytes and leaves missing bytes zero |
| ByteStream.IdRoundTrip | lib/AbletonLink/include/ableton/discovery/NetworkByteStreamSerializable.hpp:320-338 | an id written whole is read back, with the bytes after it |
| ByteStream.LexOrderIsNumeric | lib/AbletonLink/include/ableton/link/NodeId.hpp:34-43 | the array order of ids is the order of the numbers they spell |
| Payload.EntryRoundTrip | lib/AbletonLink/include/ableton/discovery/Payload.hpp:45-84 | an entry and a rest are read from a stream iff the stream is the entry's encoding and the rest |
| Payload.ParseByteStream | lib/AbletonLink/include/ableton/discovery/Payload.hpp:95-132 | the parse loop hands exactly the scanned entries to the handlers in order and throws exactly on a malformed rest or a throwing handler, keeping what was done by then |
| Payload.ParseIffEncoded | lib/AbletonLink/include/ableton/discovery/Payload.hpp:102-178 | a stream parses cleanly into a list of entries iff it is the encoding of that list |
| Payload.ScanConcat | lib/AbletonLink/include/ableton/discovery/Payload.hpp:160-178 | a well-formed stream followed by any bytes is scanned as the two one after the other |
| Payload.ParsePayloadConcat | lib/AbletonLink/include/ableton/discovery/Payload.hpp:160-178 | handlers see the entries of both parts in order, and the second part only if the first did not throw |
| Payload.SizeIsEncodedLength | lib/AbletonLink/include/ableton/discovery/Payload.hpp:160-178 | the announced size is the number of bytes written, and a sum of payloads is written as their concatenation |
| Payload.UnknownEntriesSkipped | lib/AbletonLink/include/ableton/discovery/Payload.hpp:95-130 | entries without a handler are as good as absent wherever they stand |
| PeerWire.TimelineRoundTrip | lib/AbletonLink/include/ableton/link/Timeline.hpp:65-89 | a timeline entry of 24 bytes is read back and consumed exactly |
| PeerWire.EndpointRoundTrip | lib/AbletonLink/include/ableton/link/MeasurementEndpointV4.hpp:43-62 | an endpoint entry is read back and consumed exactly |
| PeerWire.PeerStateReceived | lib/AbletonLink/include/ableton/link/PeerState.hpp:59-76 | two passes over a stream yield the sent state, also with unknown entries mixed in anywhere |
| PeerWire.PeerStateRoundTrip | lib/AbletonLink/include/ableton/link/PeerState.hpp:59-76 | `fromPayload` undoes `toPayload` |
| PeerWire.PeerStateBytes | lib/AbletonLink/include/ableton/link/PeerState.hpp:59-65 | what a node broadcasts, byte by byte: timeline, session and endpoint, each behind its four characters and its size |
| PeerWire.NothingSent | lib/AbletonLink/include/ableton/link/PeerState.hpp:67-76 | entries that are missing leave zeros |
| PeerWire.SessionEntryAccepted | lib/AbletonLink/include/ableton/link/SessionId.hpp:51-57 | a session entry is accepted iff it has at most eight bytes; a short one is filled with zeros |
| PeerWire.TimelineEntryAccepted | lib/AbletonLink/include/ableton/discovery/Payload.hpp:258-270 | a timeline entry is accepted iff it has exactly 24 bytes |
| PeerWire.WireTempo | lib/AbletonLink/include/ableton/link/Tempo.hpp:67-86 | a received timeline converts every beat and time as the sent one, keeps both origins and is sent on unchanged; it is equal iff the tempo is a whole number of microseconds per beat |
| PeerWire.MessageRoundTrip | lib/AbletonLink/include/ableton/discovery/v1/Messages.hpp:97-164 | a message is built iff the payload is smaller than 492 bytes, fits the buffer, and parses into its header and payload |
| PeerWire.DiscoveryHeaderExactly | lib/AbletonLink/include/ableton/discovery/v1/Messages.hpp:139-164 | for any bytes: those with the protocol's eight characters and room for a header parse into a header and a rest iff they are their encoding, all others into an invalid header with nothing consumed |
| PeerWire.MessageBytes | lib/AbletonLink/include/ableton/discovery/v1/Messages.hpp:97-120 | a message starts with the protocol's eight characters, type, ttl, two zero bytes and the sender |
| PeerWire.LinkRoundTrip | lib/AbletonLink/include/ableton/link/v1/Messages.hpp:78-134 | the same for ping and pong headers, with any bytes appended |
| PeerWire.LinkSize | lib/AbletonLink/include/ableton/link/v1/Messages.hpp:78-99 | a ping or pong is built iff it has fewer than 512 bytes |
| PeerWire.LinkHeaderExactly | lib/AbletonLink/include/ableton/link/v1/Messages.hpp:114-134 | for any bytes: the same for the headers of pings and pongs |
| PeerWire.PongCarriesPing | lib/AbletonLink/include/ableton/link/PingResponder.hpp:119-171 | a reply is sent iff the message is a ping with at most 32 payload bytes; it fits the buffer and is read as the responder's fields followed by the ping's own bytes, whatever they are |
| PeerWire.PingPong | lib/AbletonLink/include/ableton/link/PingResponder.hpp:153-171 | a measurement's ping comes back with all four fields intact |
| PeerWire.PongBytes | lib/AbletonLink/include/ableton/link/PingResponder.hpp:153-171 | a pong, byte by byte: protocol, type 2, session, ghost time, then the ping's own bytes |
| PeerWire.PingBytes | lib/AbletonLink/include/ableton/link/Measurement.hpp:187-190 | a ping, byte by byte: protocol, type 1, host time, previous ghost time |
| PeerGateway.PeerGateway.OnPeerState | lib/AbletonLink/include/ableton/discovery/PeerGateway.hpp:113-132 | the peer gets its new deadline, all others keep theirs, it is reported, and the list stays sorted and unique with the timer armed |
| PeerGateway.PeerGateway.OnByeBye | lib/AbletonLink/include/ableton/discovery/PeerGateway.hpp:134-142 | removes exactly that peer and reports its departure iff it was known |
| PeerGateway.PeerGateway.PruneExpiredPeers | lib/AbletonLink/include/ableton/discovery/PeerGateway.hpp:144-160 | reports exactly the peers whose deadline lies before now, once each in deadline order, removes them and arms the timer for the next |
| PeerGateway.PeerGateway.ScheduleNextPruning | lib/AbletonLink/include/ableton/discovery/PeerGateway.hpp:162-182 | while the list is not empty the timer fires no later than a second after any deadline |
| PeerGateway.ExpiredIsPrefix | lib/AbletonLink/include/ableton/discovery/PeerGateway.hpp:151-158 | in a sorted list the expired peers are exactly a prefix |
| PeerGateway.ReportAppended | lib/AbletonLink/include/ableton/discovery/PeerGateway.hpp:130-157 | reports stay consistent: a departure is only ever reported of a peer that is visible at that moment |
| PeerGateway.PruneMakesProgress | lib/AbletonLink/include/ableton/discovery/PeerGateway.hpp:162-181 | a prune at the time the timer was set for removes at least one peer |
| LinearRegression.NormalEquations | lib/AbletonLink/include/ableton/link/LinearRegression.hpp:33-61 | the residuals of the computed line sum to zero and are uncorrelated with x |
| LinearRegression.RegressionIsOptimal | lib/AbletonLink/include/ableton/link/LinearRegression.hpp:33-61 | no line has a smaller sum of squared residuals, also when all x are equal |
| LinearRegression.RegressionIsUnique | lib/AbletonLink/include/ableton/link/LinearRegression.hpp:33-61 | unless all x are equal only the computed line attains the least error |
| LinearRegression.SameXIsLevel | lib/AbletonLink/include/ableton/link/LinearRegression.hpp:47-49 | if all x are equal the line is level |
| LinearRegression.RegressionOfRotation | lib/AbletonLink/include/ableton/link/LinearRegression.hpp:33-61 | rotating the points does not change the line |
| LinearRegression.RingAdvances | lib/AbletonLink/include/ableton/link/HostTimeFilter.hpp:58-66 | adding a sample keeps the ring a rotation of the newest samples, at most 512 |
| LinearRegression.WindowIsLast512 | lib/AbletonLink/include/ableton/link/HostTimeFilter.hpp:34 | the window is all samples or the last 512 of them |
| LinearRegression.HostTimeFilter.SampleTimeToHostTime | lib/AbletonLink/include/ableton/link/HostTimeFilter.hpp:53-73 | returns the rounded prediction of the least-squares line through the newest samples, the given one included |
| LinearRegression.HostTimeFilter.Reset | lib/AbletonLink/include/ableton/link/HostTimeFilter.hpp:47-51 | forgets all samples |
| Kalman.Gain | lib/AbletonLink/include/ableton/link/Kalman.hpp:121-125 | the gain lies between 0 and 1, also where the divisor is zero; which gain it is says `Kalman.GainIsOptimal` |
| Kalman.GainIsOptimal | lib/AbletonLink/include/ableton/link/Kalman.hpp:119-127 | the step follows the input with the one weight of least error variance and keeps that variance as its covariance; if there is no variance at all the weight is 0.7 |
| Kalman.VarianceIsLeast | lib/AbletonLink/include/ableton/link/Kalman.hpp:48-93 | the sample variance is the least sum of squares around any centre, attained by the mean, divided by one less than the number of values |
| Kalman.WDiffsCancel | lib/AbletonLink/include/ableton/link/Kalman.hpp:70-93 | the steps sum to zero, so the process variance is their mean square |
| Kalman.EstimateInHull | lib/AbletonLink/include/ableton/link/Kalman.hpp:111-128 | the full update keeps the value between the smallest and the largest input |
| Kalman.Kalman.CalculateVVariance | lib/AbletonLink/include/ableton/link/Kalman.hpp:48-68 | the two loops compute the sample variance of measured minus filtered values |
| Kalman.Kalman.CalculateWVariance | lib/AbletonLink/include/ableton/link/Kalman.hpp:70-93 | the two loops compute the sample variance of the filter's steps round the ring |
| Kalman.Kalman.Iterate | lib/AbletonLink/include/ableton/link/Kalman.hpp:95-132 | value and covariance are those of `Reference`, which is told from the history of inputs and outputs instead of the ring; no slot is read before it is written, the covariance stays non-negative and the value in the hull of all inputs |
| Kalman.Kalman.constructor | lib/AbletonLink/include/ableton/link/Kalman.hpp:35-41 | no inputs, value 0, covariance 1 |
| Kalman.TrackingStep | lib/AbletonLink/include/ableton/link/Kalman.hpp:95-132 | a step on the ring keeps the agreement of value, covariance and slots with the last n inputs and outputs of the reference |
| Kalman.FirstOutputs | lib/AbletonLink/include/ableton/link/Kalman.hpp:100-110 | until n inputs have come the output is their weighted mean with doubling weights, and the covariance stays 1 |
| Kalman.WorkedExample | lib/AbletonLink/include/ableton/link/Kalman.hpp:95-132 | after offsets 0, 0, 0, 0, 8, 8 a filter of five gives exactly 152 / 23 |
| Kalman.Filter | lib/AbletonLink/include/ableton/link/MeasurementService.hpp:121-134 | the transform has slope 1, and its intercept is the rounded last output of the reference for a filter of five and all offsets, which lies between two rounded offsets |
| Snake.KeysReverseOnlyTogether | src/mapping/page/SnakePage.cpp:49-67 | no single key reverses the snake, but in every direction two keys can |
| Snake.TurnByPad | src/mapping/page/SnakePage.cpp:49-67 | by row and column of the pads: columns 1 to 3 turn a vertical snake west and 6 to 8 east, rows 1 to 3 turn a horizontal snake south and 5 to 8 north, and all other keys do nothing |
| Snake.MoveDisplaces | src/mapping/page/SnakePage.cpp:149-168 | a move displaces by one modulo 8, in y for north and south and in x for east and west, stays on the board, and the opposite move undoes it |
| Snake.ShiftInv | src/mapping/page/SnakePage.cpp:89-95 | a move keeps the body on the board and connected on the torus, and everything behind the head free of overlaps |
| Snake.EatInv | src/mapping/page/SnakePage.cpp:97-110 | eating either kind of seed keeps the game well-formed and the head free of collisions |
| Snake.CutInv | src/mapping/page/SnakePage.cpp:111-115 | the cut stops with at least three cells, connected and free of overlaps but for the tail |
| Snake.TickCases | src/mapping/page/SnakePage.cpp:97-127 | in a tick that eats, the collision test that follows changes nothing |
| Snake.AdvanceLamps | src/mapping/page/SnakePage.cpp:86-95 | after the move exactly body and seed are lit, even if the tail was dark before |
| Snake.EndAnimationInv | src/mapping/page/SnakePage.cpp:129-147 | every step of the game over keeps the game well-formed, up to the restart |
| Snake.TickInv | src/mapping/page/SnakePage.cpp:70-147 | every tick keeps the game well-formed and the lamps right |
| SnakePage.RunInv | src/mapping/page/SnakePage.cpp:41-147 | on every run of ticks and keys: at least three cells on the board, consecutive ones adjacent on the torus, the seed off the body, distinct cells but for the tail while the game is on, and lamps that show it |
| SnakePage.GamesInv | src/mapping/page/SnakePage.cpp:8-16 | every game from the constructor on is well-formed at all times, and its lamps are right from the first refresh on |
| SnakePage.RefreshLamps | src/mapping/page/SnakePage.cpp:41-47 | a refresh makes the lamps right in every well-formed state |
| SnakePage.TickMeans | src/mapping/page/SnakePage.cpp:70-127 | told from the state before the tick: a point iff the head arrives at the seed, growth at the old tail for a red seed, power-up for a blue one, and a lost game iff the head arrives without power-up at a cell that is not vacated |
| SnakeRules.TickFollows | src/mapping/page/SnakePage.cpp:70-127 | after any tick of a game that is on every cell behind the head, a grown one included, is where the one before it was |
| SnakeRules.PoweredBite | src/mapping/page/SnakePage.cpp:111-120 | a powered snake that runs into its cell j keeps exactly the head and the cells up to that one, loses the power-up and not the game |
| SnakeRules.PowerLasts | src/mapping/page/SnakePage.cpp:74-84 | on every run that eats nothing blue and meets nothing, the power-up is on iff fewer ticks have passed than its timer showed, whatever keys are pressed |
| SnakeRules.BluePower | src/mapping/page/SnakePage.cpp:97-106 | on such a run a blue seed protects the snake in the next 19 ticks and not in the 20th |
| SnakePage.LengthIsEarned | src/mapping/page/SnakePage.cpp:97-147 | on every run each cell beyond the third has been paid for with a point |
| SnakePage.LampsExactUnlessGrown | src/mapping/page/SnakePage.cpp:70-127 | after a tick in which the snake has not grown, incremental drawing equals a full redraw |
| SnakePage.GameOverDuration | src/mapping/page/SnakePage.cpp:122-147 | a game over with n cells ends after exactly (n - 3) + 21 further ticks, scrolls the score exactly once and keeps the first three cells |
| SnakePage.EdgeSeedIsForever | src/mapping/page/SnakePage.cpp:18-29 | a seed at coordinate 9 stays for ever, and nothing is scored and the snake does not grow after it |
| SnakeSeed.DrawIsNineExactly | src/mapping/page/SnakePage.cpp:20-21 | a drawn coordinate lies between 1 and 9 and is 9 iff the random number is the largest |
| SnakeSeed.EveryCoordinateIsDrawn | src/mapping/page/SnakePage.cpp:20-21 | every coordinate from 1 to 9 is drawn for some random number |
| SnakeSeed.SeedCanBeEatenExactly | src/mapping/page/SnakePage.cpp:49-147 | from every well-formed state, whatever the snake and the power-up, some run of ticks and keys eats the seed iff the seed is on the board |
| SnakePage.SnakePage.constructor | src/mapping/page/SnakePage.cpp:8-16 | the game starts well-formed at (6, 5) with three cells, heading north, with no points |
| SnakePage.SnakePage.SetCurrent | src/mapping/page/SnakePage.cpp:70-127 | the method that moves cells and lamps in place takes exactly the tick of the state machine and keeps the game well-formed |
| SnakePage.SnakePage.NoteOn | src/mapping/page/SnakePage.cpp:49-67 | changes nothing but the direction, as the state machine's key press does |
| SnakePage.SnakePage.IsColliding | src/mapping/page/SnakePage.cpp:31-39 | tells whether a cell of the body, or one behind the head, is at the place |
| SnakePage.SnakePage.RefreshLeds | src/mapping/page/SnakePage.cpp:41-47 | the redraw loop lights exactly body and seed |
| SnakePage.SnakePage.PlayEndAnimation | src/mapping/page/SnakePage.cpp:129-147 | takes exactly the state machine's step during a game over |
| BufferCopy.CopyBuffer | lib/AbletonLink/modules/asio-standalone/asio/include/asio/buffer.hpp:1729-1738 | copies the smaller size and changes no other byte of the region |
| BufferCopy.CopyAt | lib/AbletonLink/modules/asio-standalone/asio/include/asio/buffer.hpp:2165-2171 | one copy of the loop writes the bytes taken from the source to the next slots of the target, in every region that shares them, and keeps the source |
| BufferCopy.TakenFlat | lib/AbletonLink/modules/asio-standalone/asio/include/asio/buffer.hpp:2165-2171 | what is taken at the iterator's offset is the next piece of the flattened sequence |
| BufferCopy.AtAdvances | lib/AbletonLink/modules/asio-standalone/asio/include/asio/buffer.hpp:2174-2188 | the iterator and offset stand at the next byte after any partial copy, over empty buffers too |
| BufferCopy.TurnAdvances | lib/AbletonLink/modules/asio-standalone/asio/include/asio/buffer.hpp:2685-2713 | one turn extends what has been copied on both sides by exactly the bytes moved and always advances, over empty buffers too, which is why the loop ends |
| BufferCopy.DisjointCopy | lib/AbletonLink/modules/asio-standalone/asio/include/asio/buffer.hpp:2668-2717 | if target buffers do not overlap, showing the last byte written to each slot means that the flattened target is the copied prefix and its own old rest |
| BufferCopy.BufferCopy | lib/AbletonLink/modules/asio-standalone/asio/include/asio/buffer.hpp:2668-2717 | copies exactly the least of both total sizes and the limit; every byte of the target's regions, overlapping or not, is the last one written to it or unchanged; without overlaps the flattened target is that prefix of the flattened source and its own old rest; source and all bytes outside the buffers are unchanged |

## Left out

- Sockets, multicast, interface scanning, message sending and the discovery service around the gateways: I/O; what they deliver are the steps of the models.
- Clocks, timers and random ids: parameters. The 30 second re-measurement timer is a step that may happen at any time.
- IEEE 754 rounding: quotients are exact, and only `llround` and the choice of the half quantum are kept.
- 64-bit overflow of beats and times, and `ttl` arithmetic: integers are unbounded. Only the byte formats are bounded.
- Tempi whose beat rounds to zero microseconds or which are not positive: `Tempo` excludes them, and so does a received timeline with no positive microseconds per beat, which the code accepts.
- Slopes other than 1 where a transform is inverted: measurements and resets only produce slope 1. Continuity and no drift hold for every slope but 0.
- Atomics are sequentially consistent, as in the code; other memory orders are not modelled. `isEmpty` of the ring is not modelled.
- The realtime read path (`timelineRtSafe`, the try-lock, `mHasPendingTimelines`, the grace period) and the lock-free dispatcher: only the ring and the handler they lead to are modelled.
- The gap between `setTimeline` and its asynchronous handler is two separate steps of the protocol, `AClientWrite` and `AClientCommit`, which also allow steps in between that the io queue would order.
- Which peer is measured, and its endpoint, are not part of the protocol's state: a measurement is pending for a session. `LinkNode.Sessions.ChoosePeer` states the choice.
- The pings of a measurement and the collection of its samples: a measurement succeeds, fails or is lost. The loss is a step that may happen to any pending measurement at any time, not only when its gateway closes or its peer is measured again.
- Tempo and peer-count callbacks to the application, and the update of the discovery service's state.
- `std::equal_range`, `upper_bound`, `find_if` and `remove_if` are linear scans or a filter with the same results.
- `CircularFifo.Fifo`, `PeerWire.RespondToPing` and the class methods run without interruption; interleavings are the subject of the step model alone.
- `PeerWire` appends bytes as sequences: the fixed message buffer and its iterators appear only as the bound on the length.
- ProtocolRuns.NodesConverge: speaks of announcements between two nodes' resets only, because a reset leaves the session.
- The random search for a seed and its termination: the seed it settles on is a nondeterministic choice, and the probability of a blue one is not modelled.
- The colours and the pulsing of the lamps: a lamp is on or off. The colours of the cells are in the invariant.
- BufferCopy.BufferCopy: no target buffer overlaps a source buffer, as `memcpy` demands; a null buffer is an empty one.
- Negative quanta, which the code does not guard against.
- SequencerPage, the colour pages, MIDI, transports and the web interface: device and UI glue.
