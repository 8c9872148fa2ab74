# A verified model of the DIG peer link

The repository implements one end of a peer-to-peer link: a frame codec that accepts any opcode byte, a
directional rate limiter, a map of outstanding requests keyed by a 16-bit correlation id, and the tasks that use
them over a WebSocket. This project models those parts in Dafny and proves what they promise, over every input,
every run and every interleaving. `dafny verify dfyconfig.toml` checks all of it.

## How the model is laid out

| file | what it models |
|---|---|
| `Wire.dfy` | machine integers and big-endian encodings |
| `DigMessage.dfy` | the peer envelope: printer, borrowing parser, owning parser |
| `Bytes.dfy` | the length-prefixed payload container and its cursor |
| `RateLimit.dfy` | the limiter object; its counters refine a list of charges |
| `RateLimitRuns.dfy` | whole runs of timed offers: the counters are the trace of the window |
| `RateLimitVisits.dfy` | what a window admits under any clock |
| `RateLimitBursts.dfy` | runs that spend whole budgets on empty messages |
| `RateLimitSpans.dfy` | what any span of real time admits, and exactly which spans keep to one budget |
| `RateLimitClocks.dfy` | exactly which clocks keep every window to one budget |
| `RateLimitRelations.dfy` | two runs side by side: directions, ratchet, lockout, what a verdict means |
| `RateLimitIsolation.dfy` | when the verdicts on an opcode depend on its own traffic alone |
| `RateLimitTable.dfy` | verdicts and budgets in terms of the table, message counts and payload bytes alone |
| `Sending.dfy` | the send loop: deadline, back-off, charges, a lone sender |
| `RequestMap.dfy` | the request map object, its permits, and the abstract table behind it |
| `MapRuns.dfy` | runs of map operations |
| `IdReuse.dfy` | the distance between two issues of one id |
| `Requesting.dfy` | the life of one request, against arbitrary use of the map by others |
| `Channel.dfy` | the bounded channel to the application |
| `Inbound.dfy`, `InboundTheorems.dfy` | the inbound loop, and what it promises over runs |
| `LinkMachine.dfy`, `LinkInvariant.dfy`, `LinkTheorems.dfy` | one link as a state machine of freely interleaving steps |
| `LinkOutcomes.dfy` | how every call ends, and that nobody gets stuck |
| `FacingLinks.dfy` | two such links joined by FIFO queues, with colliding ids |
| `Provenance.dfy` | what travels between them: exact requests, in order, and answers to exactly those |
| `LateReply.dfy` | exactly how late a reply may come |
| `Starvation.dfy` | when a waiting caller can still get a permit from a silent peer's link |
| `Agreement.dfy` | the machine and the sequential operations describe one program |

Objects the source updates in place are classes whose methods are proved against functions on values
(`Table`, `Window`, byte strings); what is promised over runs is then proved of those functions. The allocation
cursor of the request map is carried unwrapped as ghost state, so a request is told from a later one under the
same id by its position, its *ticket*. The link machine keeps ghost history too: how much had arrived when each call
got its id, how its entry left the map, and what has arrived. No step looks at that. A call's ticket also stands for the
id the source keeps in a local variable, and a frame's origin tells an honest application what it has to answer.

## Assumptions

- `f64` is modelled as `real`: no rounding, NaN or infinity. Where a result needs it, the limits and the factor are
  non-negative (`NonNegativeTableSuffices` says a non-negative table is enough). The window length is positive;
  the source divides by it.
- A block run under one lock is one step, and the semaphore is a counter. The permit of a request removed by a
  cancel comes back with the cancel; the permit of an answered one comes back when the reply is handed over.
- Time is a parameter: each call of the limiter is told the wall clock, and each attempt of the send loop is
  told the instant its deadline is checked at. Where a result needs a clock that never runs backwards, or only one that
  does not return to a window it has left, it says so. A sleep lasts at least as long as it is asked to.
- Whole WebSocket messages arrive in order (section 6.2 of RFC 6455). Whether a write succeeds is arbitrary, and so is
  whether one that fails has put its frame on the wire.
- In `FacingLinks` both applications are honest: they answer requests they have received under the ids those
  carried, as often, as late and under whatever opcodes they like, and otherwise send frames without an id. No
  opcode that asks is declared as a reply.
- The four-byte length prefix of `Bytes` is read and written by `chia_traits`, which is not part of this model. It is
  taken to be big-endian, and to leave the cursor where it is when it fails.

## Where the code and its documentation differ

The model follows the code.

- The protocol's written specification, in its section 2, promises the round trip for every message. It holds exactly
  up to 16 MiB of payload (`RoundTripExactly`); above that the frame is rejected, and from 4 GiB on the length field is
  truncated (`DecodeOfEncode`).
- `src/request_map.rs:87` says a recycled id reappears after 65 535 other ids. Ids that stay live are skipped, so
  it is at least 65 535 - L other requests, L being the other requests live at the time (`ReuseDistance`). That many
  is all there need be, whatever else is live (`ReuseDistanceReached`), so the comment is right of an id if and only if
  no other request is live when it is issued (`FullDistanceExactly`).
- The same comment says a late reply cannot match a newer waiter. It cannot within a lap of the cursor
  (`EndToEndCorrelation`); one position later it can (`LateReplyIsMistaken`), so a lap is exactly the limit
  (`CorrelationExactly`).
- `src/request_map.rs:120-121` means abandoned requests not to use up the id space. An insert prunes only once it has a
  permit (`src/request_map.rs:111-122`), so if callers abandon while all permits are out, and the peer stays silent,
  nobody is ever served again. `PermitStillComesExactly` says exactly when that is so, `StarvationReachable` that
  it can happen.
- `src/rate_limit.rs:123` calls the limiter sliding. Its windows tumble: a window length of time keeps every run to one
  budget if and only if it is one of the limiter's own windows (`OneBudgetExactly`); others admit up to twice that
  (`TwiceTheBudget`, reached by `TwiceIsReached`).
- `src/rate_limit.rs:247` speaks of crossing into a new window. A clock that steps back into a window finds it empty
  too (`BackwardClockOverspends`): a window admits one budget for each time the clock enters it (`BudgetPerVisit`,
  reached by `BudgetPerVisitReached`), so every run on a clock keeps to one if and only if that clock never returns to a
  window it has left (`BudgetKeptExactly`). On other clocks even outbound isolation fails (`OutboundIsolationExactly`).
- The same document routes replies on the id alone in its section 7.2, and requires the opcode too in section 7.3.
  The code does the latter.
- `src/rate_limit.rs:221-224` tests the aggregate for every opcode. Inbound, where refusals are charged, an overrun
  aggregate therefore refuses opcodes that do not count against it (`InboundLockout`, `InboundNotIsolated`);
  `IsolationExactly` says when an opcode's verdict is its own traffic's alone.
- `src/link.rs:100-101` takes two windows to outlast any exhausted budget. A window and one backoff, less a nanosecond, is
  enough for a lone sender, or just a backoff if windows last one second (`LoneSenderNeverTimesOut`); nothing shorter is
  (`ShorterTimesOut`).
- `src/link.rs:412-415` and `src/link.rs:423-430` cancel by id, after the receiver may already be gone. The cancel is
  the request's own for a full lap of the cursor (`CancelOwnership`, `OthersUntouched`), and from no table for any longer
  (`CancelOwnsExactly`; `LateCancelHitsAnother` is a run in which nobody misbehaves).

## Model

| member | source | states |
|---|---|---|
| DigMessages.ToBytes | src/dig_message.rs:78-93 | the buffer built push by push is the frame with the length taken modulo 2^32 |
| DigMessages.EncodedLayout | src/dig_message.rs:77-92 | byte by byte: opcode, presence flag, id and 32-bit length with the heavier byte first, then the payload |
| DigMessages.FromBytes | src/dig_message.rs:106-154 | the offset-advancing parser computes `Decode`; the checked additions never fire where `usize` has 32 bits or more |
| DigMessages.FromBytesOwned | src/dig_message.rs:165-216 | the owning parser agrees with the borrowing one on every buffer, and drains exactly the payload |
| DigMessages.AcceptedExactly | src/dig_message.rs:106-154 | a buffer is accepted as `m` if and only if those bytes, in big-endian weights, say so and the payload is at most 16 MiB |
| Wire.Be16Ordered | src/dig_message.rs:84 | two-byte fields are in the order of their numbers, as only big-endian ones are |
| Wire.Be32Ordered | src/dig_message.rs:90 | so are four-byte fields |
| DigMessages.DecodeExact | src/dig_message.rs:106-154 | a buffer is accepted as `m` if and only if some prefix of it is a frame of `m` within the 16 MiB ceiling |
| DigMessages.DecodeOfEncode | src/dig_message.rs:78-154 | what any encoded message decodes to, of whatever size, the truncated length included |
| DigMessages.RoundTripExactly | src/dig_message.rs:68-154 | decoding undoes encoding if and only if the payload is at most 16 MiB |
| DigMessages.RoundTripFailsOverTheCeiling | src/dig_message.rs:75-154 | a concrete message whose encoding does not decode, so the round trip is not for every message |
| DigMessages.ReencodeNormalises | src/dig_message.rs:78-154 | re-encoding an accepted buffer gives its framed prefix with the presence flag as 0 or 1 |
| DigMessages.TrailingBytesIgnored | src/dig_message.rs:147-154 | appended bytes never change an accepted decode |
| Payloads.Sink.Stream | src/bytes.rs:81-91 | appends the length prefix and the payload, or refuses a payload over `u32::MAX` and appends nothing |
| Payloads.Cursor.Parse | src/bytes.rs:93-103 | the payload at the cursor and the position after it, or where an error leaves the cursor |
| Payloads.StreamedLayout | src/bytes.rs:81-91 | the length with the heaviest byte first, then the payload |
| Payloads.ParseFailsExactly | src/bytes.rs:93-103 | a parse fails if and only if the four length bytes are missing or announce more than is there |
| Payloads.ParseAtExact | src/bytes.rs:93-103 | a parse succeeds with a payload if and only if that payload's streamed form lies at the cursor |
| Payloads.StreamedParsesBack | src/bytes.rs:81-103 | a list of payloads parses back in order with the cursor at its end exactly where that list was streamed |
| RateLimits.OpcodeRateLimiter.constructor | src/rate_limit.rs:149-166 | a new limiter is in the window of its clock with nothing charged |
| RateLimits.OpcodeRateLimiter.RollWindow | src/rate_limit.rs:248-258 | any change of period, in either direction, clears every counter, and nothing else does |
| RateLimits.OpcodeRateLimiter.Govern | src/rate_limit.rs:191-202 | `tx` shadows `other`, which shadows the default; only `other` counts against the aggregate |
| RateLimits.OpcodeRateLimiter.Decide | src/rate_limit.rs:206-230 | the comparisons on running counters give the verdict that the sums over the window's charges call for |
| RateLimits.OpcodeRateLimiter.Admit | src/rate_limit.rs:185-245 | rolls, judges and charges by direction, keeping every counter equal to the sum over the window's charges |
| RateLimits.OpcodeRateLimiter.Allow | src/rate_limit.rs:172-174 | true exactly for an admission, with the same effect |
| RateLimitTable.VerdictByTable | src/rate_limit.rs:185-242 | every verdict of a run is what the source's comparisons give on the table, the payload length, and the sums charged before in the same window |
| RateLimitTable.UnsendableByTable | src/rate_limit.rs:188-211 | on an empty window a message is `Unsendable` if and only if its length, capped at 32 bits, or a limit of the table fails one of the comparisons |
| RateLimitTable.BudgetByTable | src/rate_limit.rs:200-224 | no window lets through more messages or payload bytes of an opcode, or of those sharing the aggregate, than the scaled table allows |
| RateLimits.JudgeByTotals | src/rate_limit.rs:206-230 | a verdict by sums over charges is the verdict by running totals plus the message |
| RateLimits.TalliedAfter | src/rate_limit.rs:213-239 | storing the new count and size keeps the counters equal to the sums |
| RateLimits.PeriodIsQuotient | src/rate_limit.rs:249 | counting whole windows is the source's integer division |
| RateLimitRuns.NonNegativeTableSuffices | src/rate_limit.rs:200-224 | a table without negative limits and a non-negative factor give non-negative budgets |
| RateLimitRuns.WindowIsTrace | src/rate_limit.rs:236-258 | over any run, unless the clock has left the period and come back, the current window is charged exactly the trace of that period: all offers inbound, the admitted ones outbound |
| RateLimitVisits.BudgetPerVisit | src/rate_limit.rs:213-258 | under any clock, a period admits of each opcode and of the aggregate at most one scaled budget for each time the clock enters it |
| RateLimitVisits.WindowBudget | src/rate_limit.rs:213-242 | unless the clock returns to a period it has left, admitted count and bytes of each opcode and of the aggregate stay within the scaled budgets in every window of every run |
| RateLimitClocks.BudgetPerVisitReached | src/rate_limit.rs:213-258 | on any clock some run is admitted a whole budget of messages for each time the clock enters a period |
| RateLimitClocks.BudgetKeptExactly | src/rate_limit.rs:248-258 | every run made on a clock keeps an opcode to one budget in every window if and only if the clock never returns to a period it has left |
| RateLimitClocks.BackwardClockOverspends | src/rate_limit.rs:248-258 | a concrete clock that steps back, and a run on it that is admitted twice one window's budget |
| RateLimitSpans.FewWindowsTouched | src/rate_limit.rs:248-258 | the most windows d seconds touch is (d + window - 2) / window + 1, and a span from a window's last second touches as many |
| RateLimitSpans.SpanBudget | src/rate_limit.rs:185-258 | any span admits, of an opcode or of the aggregate, at most one budget per window it touches |
| RateLimitSpans.RealTimeBound | src/rate_limit.rs:185-258 | any d seconds, however aligned, admit at most (d + window - 2) / window + 1 budgets, of an opcode or of the aggregate |
| RateLimitSpans.RealTimeBoundReached | src/rate_limit.rs:185-258 | for every d some run is admitted as many messages as that bound allows |
| RateLimitSpans.TwiceTheBudget | src/rate_limit.rs:123-126 | no window length of time admits more than twice the budget |
| RateLimitSpans.OneBudgetExactly | src/rate_limit.rs:123-126 | every run keeps to one budget of an opcode over a window length of time if and only if that time is one of the limiter's windows |
| RateLimitBursts.TableBursts | src/rate_limit.rs:188-224 | the opcodes that can spend their budget on empty messages, from the table: all outside the aggregate that are allowed a message a window |
| RateLimitSpans.TwiceIsReached | src/rate_limit.rs:123-126 | with windows of two seconds or more, some run is admitted twice the budget in one window length of time |
| RateLimitRelations.FirstOfWindow | src/rate_limit.rs:204-230 | no first message of a window is ever deferred |
| RateLimitRelations.UnsendableExactly | src/rate_limit.rs:96-98 | a message is unsendable if and only if no window, however charged, admits it |
| RateLimitRelations.DeferredIsWorthWaiting | src/rate_limit.rs:94-95 | a deferred message is admitted as the first of any other window |
| RateLimitRelations.FullerAdmitsLess | src/rate_limit.rs:213-230 | what a fuller window admits an emptier one admits |
| RateLimitRelations.InboundChargedMore | src/rate_limit.rs:232-242 | on the same offers the inbound counters are at least the outbound ones at every step, on every group of opcodes |
| RateLimitRelations.DirectionDominance | src/rate_limit.rs:101-121 | what inbound admits outbound admits, and both call the same messages unsendable |
| RateLimitRelations.InboundOnlyGrows | src/rate_limit.rs:232-242 | inbound, a window's charges contain everything offered earlier in it |
| RateLimitRelations.InboundRatchet | src/rate_limit.rs:105-107 | inbound, after the first deferral of an opcode no message of it is admitted until the window rolls |
| RateLimitRelations.InboundLockout | src/rate_limit.rs:215-242 | inbound, once the aggregate exceeds its budget no opcode at all is admitted until the window rolls |
| RateLimitRelations.OutboundNeverOverrun | src/rate_limit.rs:221-242 | outbound, the aggregate never exceeds its budget |
| RateLimitIsolation.OwnTrafficOnly | src/rate_limit.rs:191-258 | unless the clock returns to a period it has left, an opcode outside the aggregate is charged what it would be with the link to itself |
| RateLimitIsolation.IsolationExactly | src/rate_limit.rs:191-258 | in either direction, unless the clock returns, the verdict on an opcode outside the aggregate is that of its own traffic alone if and only if the window it is judged in is not overrun on the aggregate or that verdict is no admission |
| RateLimitIsolation.OutboundIsolation | src/rate_limit.rs:191-258 | outbound, unless the clock returns, the verdict on an opcode outside the aggregate depends only on that opcode's own traffic |
| RateLimitIsolation.OutboundIsolationExactly | src/rate_limit.rs:191-258 | outbound, that is so of every run made on a clock if and only if the clock never returns to a period it has left |
| RateLimitIsolation.InboundNotIsolated | src/rate_limit.rs:221-242 | a concrete inbound run that overruns the aggregate and so refuses an opcode outside it that would be admitted on its own |
| RateLimitIsolation.NotIsolatedTable | src/rate_limit.rs:191-198 | a table with such opcodes |
| Sending.SendMessage | src/link.rs:292-317 | stops at the first attempt that is not deferred or has no time left, reports its verdict, makes at most timeout / backoff + 1 attempts, and hands the sink the frame only if admitted |
| Sending.TooLargeExactly | src/link.rs:297-300 | `Unsendable` is reported, with opcode and size, of exactly the messages no window, however charged, would admit |
| Sending.SendTimeoutExactly | src/link.rs:303-307 | `SendTimeout` is reported exactly when the last attempt was deferred too, with less than a second left; every attempt before was deferred with at least a second left |
| Sending.TimedOutWasWorthWaiting | src/link.rs:288-291 | only a message that some window would admit times out |
| Sending.HandedExactlyIfCharged | src/link.rs:296-316 | the sink is handed the message if and only if the last attempt charged it, and the outcome is then the sink's |
| Sending.AttemptsBounded | src/link.rs:303-307 | the number of attempts is bounded by the timeout whatever others do to the limiter |
| Sending.UnsendableNeverRetried | src/link.rs:298-300 | an unsendable message is given up at the first attempt |
| Sending.DeferredLeavesNoTrace | src/rate_limit.rs:109-110 | under any clock, deferred attempts leave the shared limiter exactly as if they had never been made |
| Sending.ChargedOnceOrNever | src/link.rs:295-308 | under any clock, the message is charged once if admitted and not at all otherwise, whatever others send meanwhile |
| Sending.LoneSenderExactly | src/link.rs:292-308 | however long its sleeps turn out, a lone sender that is deferred at first times out if and only if its last attempt still falls in the first one's window, and is otherwise admitted by the first attempt in a later one |
| Sending.LoneSenderNeverTimesOut | src/link.rs:292-308 | with a timeout of at least a window and a backoff, less a nanosecond, or of a backoff if windows last one second, a lone sender never times out |
| Sending.ShorterTimesOut | src/link.rs:303-307 | with any shorter timeout a deferred lone sender can time out |
| Sending.DefaultTimeoutSuffices | src/link.rs:53-102 | the link's own window and default timeout are long enough |
| Sending.LoneSenderOnTheTick | src/link.rs:292-308 | when the sleeps are exact, it times out if and only if its timeout ends before the window does, and is otherwise admitted at the first second of the next window |
| RequestMaps.SomeTicketFree | src/request_map.rs:124-133 | with fewer than 65 536 entries the wrapping search meets an unused id within one lap |
| RequestMaps.RequestMap.constructor | src/request_map.rs:94-100 | a new map is empty with its cursor at 0 and all permits free |
| RequestMaps.RequestMap.Insert | src/request_map.rs:118-147 | prunes abandoned requests, stores the new one at the first unused id from the cursor on, advances the cursor past it, and accounts for every permit |
| RequestMaps.RequestMap.Take | src/request_map.rs:157-173 | removes the entry only for a declared opcode, records an undeclared one, and leaves the map alone for an unknown id |
| RequestMaps.RequestMap.Cancel | src/request_map.rs:177-179 | removes and returns whatever holds the id, and changes nothing else |
| MapRuns.PerformAll | src/request_map.rs:106-179 | any sequence of operations on the object is the same sequence on the abstract table |
| IdReuse.LapIsCovered | src/request_map.rs:86-90 | over a full lap every id was already live or is issued |
| IdReuse.ReuseDistance | src/request_map.rs:86-90 | two issues of one id are a positive number of laps apart on the cursor, with at least 65 535 - L other requests in between |
| IdReuse.ReuseDistanceReached | src/request_map.rs:86-90 | after any issue whatever, some run reissues the id after exactly 65 535 - L other requests |
| IdReuse.FullDistanceExactly | src/request_map.rs:86-90 | an id is sure not to be reissued before 65 535 others if and only if no other request is live when it is issued |
| Requesting.AwaitPermit | src/request_map.rs:111-116 | a caller goes on with the first table in which a permit is free, and waits as long as there is none |
| Requesting.ServedAtTheFirstPermit | src/request_map.rs:111-116 | whoever waits is served from the first table with fewer than 65 535 requests, and with none only if there never is one |
| Requesting.RequestFromTheFirstPermit | src/link.rs:412 | a request gets its id and runs its course from that table |
| Requesting.NoPermitNoRequest | src/request_map.rs:111-116 | while no permit comes free nothing is registered |
| Requesting.RequestMessage | src/link.rs:406-442 | a request's outcome, the map and the limiter it leaves, send loop included, for arbitrary use of the map by others at each await point |
| Requesting.AnsweredByTheFirstDeclared | src/request_map.rs:157-173 | while its caller waits, a request is answered exactly by the first declared opcode on its id, unless somebody's late cancel of that id comes first |
| Requesting.KeptOrGone | src/request_map.rs:157-179 | an entry goes by a prune, its answer or a cancel of its id, or else has recorded the last undeclared opcode |
| Requesting.EndsExactly | src/link.rs:412-441 | exactly how a request ends, from what reached its id, late cancels of others included: its reply, a closed channel, `InvalidResponse` naming the last undeclared opcode, or a timeout |
| Requesting.GoneMeansTimeout | src/link.rs:423-438 | within a lap, a request that was neither answered nor orphaned and whose entry went before its own cancel ends in a timeout |
| Requesting.EndsWithinALap | src/link.rs:412-441 | within a lap, how a request ends is settled by what reached its id and whether its entry lasted until its cancel |
| Requesting.OthersUntouched | src/link.rs:412-430 | within a lap of the insert, neither cancel touches anyone else's entry |
| Requesting.NothingLeftBehind | src/link.rs:403-405 | however a request ends, no entry of its own remains |
| Requesting.LateCancelHitsAnother | src/link.rs:423-430 | a concrete run of one full lap, in which others only insert and abandon, after which the cancel removes a newer, live request |
| Requesting.OwnExactly | src/request_map.rs:118-147 | whatever is live when a request is issued, every run of others leaves its id free or its own up to a cursor bound if and only if that bound is within a lap |
| Requesting.CancelOwnsExactly | src/link.rs:412-430 | from any table, a failed or expired request's cancel is sure to find its own entry or none up to a cursor bound if and only if that bound is within a lap |
| Channels.Channel.TryPush | src/link.rs:559 | accepts, or reports full at 32 waiting messages or closed, and never waits |
| Inbound.Route | src/link.rs:536-565 | one frame goes to its waiter, to the channel, or is dropped, as the abstract routing says |
| Inbound.ReadInbound | src/link.rs:523-570 | the loop ends at a close or a failed read and at nothing else, and what it did is the abstract run |
| InboundTheorems.DrainNoninterference | src/link.rs:514-522 | two runs that differ only in how the application drains give the same map and answer the same waiters |
| InboundTheorems.RoutingConservation | src/link.rs:530-568 | every decodable frame has exactly one destination, the application gets the queued ones in arrival order, and never more than 32 wait |
| InboundTheorems.DroppedOnlyWhenFull | src/link.rs:559-565 | a message is dropped if and only if the channel is full or closed and no waiter is answered by it |
| InboundTheorems.UndecodableErased | src/link.rs:536-539 | erasing all undecodable frames changes nothing about any other frame |
| LinkInvariant.StepKeepsInv | src/request_map.rs:81-180 | every step of callers, reader and application keeps the invariant: permits, entries, history and order of tickets |
| LinkTheorems.RunKeepsInv | src/request_map.rs:94-180 | the invariant holds in every reachable state |
| LinkTheorems.PermitConservation | src/request_map.rs:83-146 | free permits, entries, callers about to insert and replies being handed over always sum to 65 535, so an insert finds at most 65 534 entries and an unused id |
| Starvation.PermitStillComesExactly | src/request_map.rs:111-122 | in a reachable state a permit can still come free without anything arriving if and only if one is free, or its holder is about to insert, is being answered, or will still cancel its id |
| Starvation.StarvationReachable | src/request_map.rs:102-122 | a reachable state where no caller is ever served unless the peer answers: 65 535 requests abandoned while nobody inserts |
| LinkTheorems.CancelOwnership | src/link.rs:412-430 | within a lap of the insert a cancel takes out its call's own entry or nothing, however others interleave |
| LinkTheorems.CancelledByOwnOrLapped | src/request_map.rs:177-179 | over any run, an entry is only ever cancelled by its own call or by one at least a lap older |
| LinkTheorems.ExactDiagnosis | src/link.rs:423-441 | an expired call that still has its entry reports `InvalidResponse` if and only if a frame arrived on its id since the insert, naming the last opcode, and a timeout otherwise |
| LinkTheorems.UndeclaredNeverAnswers | src/request_map.rs:149-166 | an undeclared opcode on a live id neither completes nor evicts the waiter |
| LinkTheorems.NoHonestReplyLost | src/link.rs:412-424 | a matching reply is handed to its own call if and only if the entry is still there; otherwise it was answered, cancelled, or pruned after its caller gave up |
| LinkTheorems.UnknownMeansGone | src/request_map.rs:157-162 | an unknown id means the call's entry is rightly gone |
| LinkTheorems.AtMostOnce | src/request_map.rs:157-173 | a call is answered, removed and finished at most once each |
| LinkOutcomes.EndedByOneStep | src/link.rs:412-441 | whatever a call ended with, one step of the run ended it so: its reply, a failed send, an expired deadline with the exact diagnosis, or a cancel by a call at least a lap older |
| LinkOutcomes.OneStepEnds | src/link.rs:412-441 | and each of those steps ends it, for the rest of the run |
| LinkOutcomes.SendFailedExactly | src/link.rs:414-421 | a call reports a failed send if and only if it cancelled unsent, and only after its send failed |
| LinkOutcomes.ChannelClosedExactly | src/link.rs:423-424 | a call reports a closed channel if and only if it found it so, and only after another's late cancel took its entry |
| LinkOutcomes.RanOutExactly | src/link.rs:423-441 | a call reports a timeout or an invalid response if and only if it cancelled after its deadline, its frame having been sent |
| LinkOutcomes.NobodyIsStuck | src/link.rs:406-442 | in every reachable state each caller that is not done can take its next step; waiting for a permit it can exactly if one is free |
| LinkOutcomes.HandedIsDelivered | src/request_map.rs:39-43 | a reply handed to a caller that still waits is the one its call then has |
| FacingLinks.NetRunKeepsInv | src/request_map.rs:149-173 | over any interleaving of two links, every frame on its way is under the id of a call of its sender or of its receiver, or has no id, and no request has a reply's opcode |
| FacingLinks.RequestsAreForwarded | src/link.rs:541-557 | a peer's request never answers a waiter, however its id collides |
| FacingLinks.AnsweredByOwnOrLate | src/request_map.rs:86-90 | with no hypothesis on lateness, an answer is a reply to the answered call or to one issued the same id at least a lap earlier |
| FacingLinks.EndToEndCorrelation | src/link.rs:541-557 | while no reply comes a full lap late, a call is only ever completed by the reply to its own request |
| LateReply.LateReplyIsMistaken | src/request_map.rs:86-90 | a concrete run of two polite links, with no reply more than a lap and one position late, in which a reply completes another call |
| LateReply.CorrelationExactly | src/request_map.rs:86-90 | every run of two links in which replies come within so many cursor positions completes calls only by their own replies if and only if that many is at most a lap |
| FacingLinks.HonestReplyReachesItsCall | src/link.rs:412-424 | an honest reply reaches its own call if and only if the entry is still there |
| Provenance.CallsAreStarts | src/link.rs:406-413 | the calls of a link are the requests made on it, in order, with their opcodes, payloads and declared replies |
| Provenance.WrittenIsMade | src/link.rs:284-317 | exactly what each step puts on the wire: a call's opcode, id and payload, an application's answer under the id it was asked under, or a message without an id |
| Provenance.WireIsFifo | src/link.rs:530-535 | frames arrive once each, in the order they were sent |
| Provenance.RequestsAreExact | src/link.rs:412-413 | wherever a request is by now, it is the opcode and payload its caller asked to send, under the id of its call |
| Provenance.CompletedByAnAnswer | src/link.rs:412-424 | while no reply comes a full lap late, a completed call has what the peer's application answered after it was handed exactly that call's request |
| Agreement.StepActsOnTheMap | src/request_map.rs:106-179 | every step of the machine acts on the map as one operation of the object, or not at all |
| Agreement.ReaderRoundIsRouted | src/link.rs:541-566 | the machine's reader routes every frame as the inbound loop does |
| Agreement.ApplicationsAgree | src/link.rs:227-232 | both applications take the oldest message first and stop listening alike |

## Left out

- RateLimits.OpcodeRateLimiter.Admit: `f64` rounding, NaN and infinities, because the budgets are what the table and the factor come to over the reals.
- RequestMaps.RequestMap.Acquire: one attempt at a permit; `Requesting.AwaitPermit` waits. The order in which waiting callers are served is not modelled; `Starvation` says when one can still be served.
- Sending.LoneSenderNeverTimesOut: the limiter's clock is the deadline's, read in whole seconds from any epoch, and the first attempt is made at once.
- Sending.ChargedOnceOrNever: for non-negative budgets only; under a negative one even the first message of a window is deferred, and a deferral then rolls the window.
- RateLimitSpans.OneBudgetExactly, RateLimitClocks.BudgetKeptExactly: for an opcode of the aggregate, only if the aggregate allows as many messages as the opcode's own budget.
- Requesting.RequestMessage: nobody uses the map between getting a permit and inserting; `LinkMachine` lets them.
- LinkTheorems.AtMostOnce: an expired call may miss a reply delivered between its deadline and its cancel, as in the source; the reply is then swallowed.
- Connecting and closing, TLS, peer addresses and socket errors: input and output over libraries whose source is not shown.
- Fairness of the runtime's scheduler, and waiting times of its locks: every result is about safety, apart from the bounded send loop.
- `request_infallible`, `request_fallible`, `request_raw`, `request_dig`, `opcode_of`: typed wrappers that choose the declared opcodes and parse the reply.
- `OpcodeRateLimits::from` and the numbers of the default table: the table is an arbitrary parameter.
- `src/opcodes.rs`, `src/dig_message_type.rs`, `src/node_type.rs`: finite constant tables.
- `src/introducer_wire.rs`: message bodies generated by a macro that is not part of this model.
- Errors as text, logging, hashing (`update_digest`), `serde`, `Debug` and `Display`.
