# Proofs about the ragz protocols and parsers

ragz is a multi-tenant retrieval service: a FastAPI backend on PostgreSQL, Redis, Celery and S3, and a
React frontend. This Dafny project models the small stateful parts of it on which the rest relies, and
proves what they promise over every input, every schedule and every crash. `dafny verify dfyconfig.toml`
checks all of it.

Each module follows one source file.

- `RedisKey`, `RateLimit`, `UsageCap`, `Idempotency`: one Redis key under a clock. The fixed-window
  limiter, the caps that are checked first and recorded later, and the two replay claims are run as
  interleaved steps of any number of callers that may crash between INCR and EXPIRE.
- `Outbox`, `EvalClaims`, `EvalDispatch`: the transactional outbox. Dispatchers claim rows under locks,
  send outside the transaction, commit once; they interleave and die anywhere. Eval runs are claimed by
  event id, and the two machines run together end to end.
- `EventStream`, `EventStreamPrinting`, `EventStreamStandard`: the incremental server-sent-events parser
  against a block-by-block reading of its input, the print/parse round trip, and the exact streams on
  which it agrees with sections 9.2.5 and 9.2.6 of the HTML Standard.
- `Colour`, `HexColour`, `Palette`: RGB and HSL over exact reals, hex strings, lightness shifts, and the
  centre-out choice of series colours.
- `RouteTree`, `RoutePolicy`, `PolicyGuarantee`: the router and dependency walks, the audits that read
  them, and for exactly which tables empty audits guarantee guarded routes, over arbitrary tables and
  routers.
- `ObjectStorage`: the streaming multipart upload under short reads and faults.
- `FolderKeys`, `FolderMoves`, `FolderWalk`: the composite foreign keys, the delete cascade they cause,
  folder moves alone and in pairs, and the application's own walk over the subtree.
- `ClientIp`, `AuthFetch`, `BodyLimit`, `LoopEngines`: X-Forwarded-For, the shared token refresh, the
  request-body ceiling, and one database engine per event loop.

`Prelude` and `Text` are the vocabulary they share.

Where the source changes state in place the model is a class or a method with loops, proved equal to a
specification function; state machines over all schedules are values with a `Next` or `After` function
and an invariant kept by every step. What lies outside (broker, S3, Redis, the application behind a
middleware, the server's messages, the ipaddress parsers) enters as parameters: every theorem holds for
all of their behaviours.

## Where code and documentation disagree

The model follows the code. Each difference below names the members that give its exact condition or a
witness.

- `core/idempotency.py:33-36` says a replayed update is rejected "with no expiry to outlive". The mark
  has a TTL: after one full TTL without an acceptance the same value is accepted again
  (`Idempotency.ReplayAfterExpiry`).
- `core/storage.py:70-74` bounds memory by the part size. The locals `head`, `nxt` and `chunk` keep
  parts alive: what is held at once peaks at the number of non-empty chunks read, up to four, so two
  suffice exactly for uploads of at most two parts (`ObjectStorage.PutStream`). An empty read also ends
  the upload, so a reader that returns one before its end loses the rest
  (`ObjectStorage.CompleteExactly`).
- `modules/documents/folders.py:249-253` sends "every document anywhere" in the subtree through the
  deletion path. The walk stops after 1000 levels, and creating folders has no such cap. It finds exactly
  the folders that lie at most 1000 levels below the deleted one; a document filed deeper is not deleted
  and only loses its folder (`FolderWalk.WalkMatchesCascade`, `FolderWalk.DeepFolderMissed`).
- `modules/documents/folders.py:135-143` rejects moves that would cut a subtree off from the root. No lock
  spans check and write, so two moves at once can do it all the same: exactly when each new place led to
  the other folder (`FolderMoves.PairOfMoves`, `FolderMoves.RaceMakesCycle`).
- `worker/loop.py:67-81` says shutdown disposes of the loop's engine and must not raise. Called while
  another loop runs it disposes of nothing, called on its own running loop it raises, and a task left
  over on the loop can bring the entry back (`LoopEngines.ShutdownExactly`,
  `LoopEngines.Process.StopWorker`).
- `api/policy.py:611-626` promises that no unwired route slips through. A path with a colon can
  (`PolicyGuarantee.ColonHole`), and so can the first of two routes under one key
  (`PolicyGuarantee.DuplicateHole`). `PolicyGuarantee.GuaranteeExactly` says for which tables neither can
  happen.
- `lib/chart-palette.ts:100-103` keeps picks apart; two picks from a ramp of two are the same colour
  (`Palette.DistinctExactly`).
- The limiter admits up to `2 * limit - 1` calls in one window's length, and no more
  (`RateLimit.AtMostTwiceTheLimit`, `RateLimit.BoundIsReached`). A failure counter with a limit of zero
  or less still lets the first caller through.
- The event-stream parser consumes a subset of the grammar and differs from the HTML Standard in three
  ways: an empty event name stays empty where section 9.2.6 falls back to "message", `flush` dispatches
  an unfinished last event that section 9.2.6 discards, and a leading byte order mark is not dropped
  (`EventStreamStandard.StandardExactly` says on which streams none of them shows). The one caller
  decodes with a TextDecoder, which drops the mark.

## Model

| member | source | states |
|---|---|---|
| `EventStream.CutStable` | frontend/src/lib/sse.ts:40-45 | Input that arrives later never changes a line already complete, in particular when a chunk ends between CR and LF |
| `EventStream.LineParts` | frontend/src/lib/sse.ts:21-34 | A line is read as the text before its first colon and the text after it, less one space only if there is one |
| `EventStream.DrainAppend` | frontend/src/lib/sse.ts:37-48 | Processing what is complete and then adding text gives the same state as adding the text first |
| `EventStream.ChunkInvariance` | frontend/src/lib/sse.ts:37-48 | Any list of chunks, empty ones and cuts inside CRLF included, leaves the same messages, buffer, event and data lines as the whole text in one piece |
| `EventStream.AnyTwoChunkings` | frontend/src/lib/sse.ts:36-56 | Two ways of cutting one text cannot be told apart, before or after a flush |
| `EventStream.FoldInterprets` | frontend/src/lib/sse.ts:15-34 | Line-by-line processing emits, for every list of lines, exactly one message per block that has data, with the block's last event name and its data joined by LF |
| `EventStream.ParserMeaning` | frontend/src/lib/sse.ts:11-56 | Feeding any chunks and flushing emits exactly the messages of the reference reading of the whole text and leaves the parser as new |
| `EventStream.SseParser.constructor` | frontend/src/lib/sse.ts:11-13 | A new parser has an empty buffer, event "message" and no data |
| `EventStream.SseParser.Dispatch` | frontend/src/lib/sse.ts:15-19 | The object's state after a dispatch is the specified one |
| `EventStream.SseParser.ProcessLine` | frontend/src/lib/sse.ts:21-34 | The object's state after one line is the specified one |
| `EventStream.SseParser.Feed` | frontend/src/lib/sse.ts:37-48 | The loop reaches the specified state and leaves no complete line in the buffer |
| `EventStream.SseParser.Flush` | frontend/src/lib/sse.ts:49-55 | The flushed state is the specified one and the parser is ready for a new stream |
| `EventStreamPrinting.LinesOfPrinted` | frontend/src/lib/sse.ts:40-45 | Exactly which lines a text with mixed endings is read as: all but the blank LF lines that follow a CR line |
| `EventStreamPrinting.LinesReadBack` | frontend/src/lib/sse.ts:40-45 | Lines with any mix of endings are read back unchanged if and only if no blank LF line follows a CR line |
| `EventStreamPrinting.LossCosts` | frontend/src/lib/sse.ts:15-34 | Every lost separator between two messages lowers the number of messages that can come out |
| `EventStreamPrinting.NoLossNoChange` | frontend/src/lib/sse.ts:15-34 | When only separators before comments or the end are lost, the messages are the same |
| `EventStreamPrinting.RoundTrip` | frontend/src/lib/sse.ts:15-56 | Messages printed with any endings per line, comments anywhere, in any chunks, come back exactly if and only if no separator is lost between CR and LF |
| `EventStreamPrinting.UniformRoundTrip` | frontend/src/lib/sse.ts:15-56 | With one ending throughout the messages always come back |
| `EventStreamPrinting.PrintThenParse` | frontend/src/lib/sse.ts:15-56 | Every list of messages whose event has no CR or LF and whose data has no CR survives printing with LF, CR or CRLF and any chunking |
| `EventStreamPrinting.LostSeparatorExample` | frontend/src/lib/sse.ts:40-45 | Two messages with a CR line before the LF separator come out as one that holds the data of both |
| `EventStreamStandard.StandardMeaning` | frontend/src/lib/sse.ts:6-34 | The line-by-line processing model of the standard, with its data and event type buffers, gives one event per finished block that has data, an empty type counting as none |
| `EventStreamStandard.MarkedLines` | frontend/src/lib/sse.ts:21-34 | Behind a byte order mark the parser reads the text as if its first line were not there |
| `EventStreamStandard.StandardExactly` | frontend/src/lib/sse.ts:6-57 | In any chunks the parser emits exactly the standard's events if and only if no block with data ends up with an empty event name and no data follows the last blank line; behind a byte order mark, if and only if losing the first line costs nothing, spelled out by cases |
| `RedisKey.Redis.Execute` | backend/src/ragz/core/ratelimit.py:21-24 | One INCR, EXPIRE NX or passing of time on a key with an optional expiry |
| `RedisKey.Redis.Interleave` | backend/src/ragz/core/ratelimit.py:14-19 | Any commands of other clients between two of ours |
| `RateLimit.CheckRateLimit` | backend/src/ragz/core/ratelimit.py:11-26 | The caller is refused exactly when its own count is over the limit; whatever others do between INCR and EXPIRE, after the call the key has an expiry or does not exist |
| `RateLimit.RecordFailure` | backend/src/ragz/core/ratelimit.py:42-49 | Counts one and leaves no key without an expiry; record_daily_usage is the same code |
| `RateLimit.PeekRateLimit` | backend/src/ragz/core/ratelimit.py:29-39 | Refuses exactly when a live count is at or over the limit and changes nothing |
| `RateLimit.PeekDailyCap` | backend/src/ragz/core/ratelimit.py:52-66 | Passes exactly when the cap is off, the count is gone or it is below the limit; changes nothing |
| `RateLimit.NextKeepsInv` | backend/src/ragz/core/ratelimit.py:21-25 | Every step of any caller, a crash between INCR and EXPIRE and the passing of time keep the epoch invariant |
| `RateLimit.EpochsLast` | backend/src/ragz/core/ratelimit.py:12-23 | Under every schedule each counting epoch begins at least a full window after the one before |
| `RateLimit.WindowBound` | backend/src/ragz/core/ratelimit.py:11-26 | Epochs a window apart admit at most 2 * limit - 1 calls in any interval of one window |
| `RateLimit.AtMostTwiceTheLimit` | backend/src/ragz/core/ratelimit.py:11-26 | Over all schedules, crashes and delays at most 2 * limit - 1 calls are admitted in any half-open interval of one window, wherever it starts; none when the limit is not positive |
| `RateLimit.BoundIsReached` | backend/src/ragz/core/ratelimit.py:11-26 | For every limit and every window of two seconds or more a schedule reaches that bound |
| `UsageCap.CapRunKeepsInv` | backend/src/ragz/core/ratelimit.py:29-77 | Count plus callers in flight stays below the cap plus the concurrency, across expiry and uses that are never recorded |
| `UsageCap.OvershootBounded` | backend/src/ragz/core/ratelimit.py:29-77 | With at most k callers between a passed peek and its record the counter never exceeds limit + k - 1; one at a time never exceeds the limit |
| `UsageCap.OvershootReached` | backend/src/ragz/core/ratelimit.py:29-77 | That overshoot is reached for every limit and k |
| `UsageCap.NonPositiveDailyIsUnlimited` | backend/src/ragz/core/ratelimit.py:63-64 | With a cap of zero or less even a single caller reaches any count |
| `Idempotency.ClaimKey.ClaimOnce` | backend/src/ragz/core/idempotency.py:15-25 | SET NX EX on the key, with the reply Redis gives for a TTL that is not positive |
| `Idempotency.ClaimKey.ClaimMonotonic` | backend/src/ragz/core/idempotency.py:37-77 | The script as one atomic step; a rejected value writes nothing |
| `Idempotency.SlotIsLatestWin` | backend/src/ragz/core/idempotency.py:15-77 | After any calls the key holds exactly what the latest successful claim wrote |
| `Idempotency.OnceWinsExactly` | backend/src/ragz/core/idempotency.py:15-25 | A call wins if and only if its TTL is valid and every earlier win has run out |
| `Idempotency.OnceOutcomes` | backend/src/ragz/core/idempotency.py:15-25 | A call is refused for its TTL if and only if that is not positive, and loses if and only if it is and some earlier win still lives |
| `Idempotency.OnceWinsApart` | backend/src/ragz/core/idempotency.py:15-25 | Two wins of one key are at least the first one's TTL apart |
| `Idempotency.AcceptedExactly` | backend/src/ragz/core/idempotency.py:47-54 | A value is accepted if and only if its TTL is valid and no live mark is at or above it, rejected if and only if a live mark is, and refused for its TTL otherwise |
| `Idempotency.AcceptedIncreases` | backend/src/ragz/core/idempotency.py:47-54 | While the mark lives the accepted values strictly increase |
| `Idempotency.MarkIsMaximum` | backend/src/ragz/core/idempotency.py:37-54 | While it lives the stored mark is the maximum of everything presented, accepted or not |
| `Idempotency.ReacceptedOnlyAfterGap` | backend/src/ragz/core/idempotency.py:33-36 | A value not above an accepted one is accepted again only after a full TTL without an acceptance |
| `Idempotency.ReplayAfterExpiry` | backend/src/ragz/core/idempotency.py:33-36 | The very value that set the mark is accepted again if and only if that TTL has passed |
| `Outbox.Backoff` | backend/src/ragz/modules/outbox/service.py:26-37 | The first retry waits five seconds, none waits longer than half an hour; the one-hour cap never binds |
| `Outbox.KeepsRetrying` | backend/src/ragz/modules/outbox/service.py:87-103 | A row that fails any number of times stays pending with its topic, counts every failure and comes due after 5, 30, 120, 600 and from then on 1800 seconds |
| `Outbox.Database.DispatchPending` | backend/src/ragz/worker/outbox.py:80-120 | A sweep that dies before its commit leaves every row as it was but not the sends; one that ends returns the number of sends and changes the claimed rows and no others, field by field: sent ones dispatched with the time and no error, those without a handler failed with an error naming the topic, raised ones pending with the first 1000 characters of the error, one more attempt and the next tier |
| `Outbox.EachRowOnItsOwn` | backend/src/ragz/worker/outbox.py:81-85 | Whatever happens to the rest of the batch, the fields of each claimed row are changed by its own topic and its own send alone |
| `Outbox.NextKeepsInv` | backend/src/ragz/worker/outbox.py:89-115 | Publishing, claiming, sending, marking, committing, crashing and purging, by any number of dispatchers, keep locks exclusive and every open transaction honest |
| `Outbox.NoLostWork` | backend/src/ragz/modules/outbox/service.py:62-66 | A published event is at every later time pending, parked for an unknown topic, or was sent; it disappears only after a send, and a committed dispatched status means a send came first |
| `Outbox.RowsHaveOrigins` | backend/src/ragz/modules/outbox/service.py:40-103 | In every reachable state each row is exactly as some step published it, or what some step made, by topic and reply, of the row committed when that step handled it |
| `Outbox.PurgedByStamp` | backend/src/ragz/modules/outbox/service.py:81-84 | Over every run a committed dispatched row carries the time at which its handler's return was recorded, and a row may be purged if and only if it is dispatched and that time lies before the cutoff |
| `Outbox.SweepIsARun` | backend/src/ragz/worker/outbox.py:89-115 | The sweep method is one of the runs of the state machine |
| `Outbox.SendsPerEvent` | backend/src/ragz/modules/outbox/service.py:62-66 | An event is sent at most once more often than dispatchers crashed: at most once when none does |
| `Outbox.RepeatedSends` | backend/src/ragz/worker/outbox.py:109-115 | The bound is the best one: for every n a run with exactly n crashes sends one event n + 1 times |
| `EvalClaims.EvalTable.RunEval` | backend/src/ragz/modules/evals/runner.py:158-217 | A redelivered event adds nothing and spends nothing; a first delivery adds one row and scores once, and each point at which the process can be lost leaves what was committed before it |
| `EvalClaims.NextKeepsInv` | backend/src/ragz/modules/evals/runner.py:158-181 | Delivery, claim, start of scoring, finish and death of interleaved workers keep claims unique, workers on rows of their own, and nothing spent before a claim |
| `EvalClaims.OneRunPerEvent` | backend/src/ragz/modules/evals/runner.py:149-156 | However often an event is delivered to however many workers that may die anywhere: at most one row carries it, there is one if and only if some delivery reached its commit, scoring begins at most once and only for a claimed event, and a scored row was paid for exactly once |
| `EvalClaims.UnkeyedNeverCollide` | backend/migrations/versions/81d69f832405_eval_run_dispatch_idempotency.py:36-38 | Calls without an event never collide: over any run each one that began has its own row, or was lost with its worker and left none, or is still being scored |
| `EvalClaims.DeadClaimStaysUnscored` | backend/src/ragz/modules/evals/runner.py:166-181 | A row whose worker died after claiming stays unscored for ever, whatever is delivered later |
| `EvalClaims.RunEvalIsARun` | backend/src/ragz/modules/evals/runner.py:158-217 | The call is one of the runs of the machine, from any state and on any idle worker, for every point of loss: it adds the rows the method adds, spends one scoring exactly when a keyed one begins, and leaves the worker idle |
| `EvalDispatch.NextKeepsInv` | backend/src/ragz/worker/outbox.py:56-61 | With dispatchers and runners interleaved, nothing is held or claimed that was not published under the eval topic and tried |
| `EvalDispatch.EvalsRunAtMostOnce` | backend/src/ragz/worker/tasks.py:348-356 | End to end, with crashes, handler calls that raised although the broker took the message, resends and any number of deliveries: an event has at most one run and is scored at most once, a run exists only for an event that was tried, and an eval event no try of which returned is still pending |
| `EvalDispatch.TriedEventRuns` | backend/src/ragz/worker/tasks.py:348-356 | From every reachable state a tried eval event without a run gets exactly one, scored once, when an idle worker takes it and lives to the end |
| `Colour.HslRoundTrip` | frontend/src/lib/chart-palette.ts:54-85 | Converting any colour to HSL and back returns it exactly, in all six sectors, on their boundaries and for greys |
| `Colour.HslRange` | frontend/src/lib/chart-palette.ts:54-71 | The hue lies below a full turn, saturation and lightness between 0 and 1 |
| `Colour.ChannelMonotone` | frontend/src/lib/chart-palette.ts:73-85 | At fixed hue and saturation every channel is monotone in the lightness |
| `Colour.LightnessMonotone` | frontend/src/lib/chart-palette.ts:73-85 | A lighter colour is no darker in any channel and both stay in the gamut |
| `Colour.ShiftMovesOneWay` | frontend/src/lib/chart-palette.ts:90-98 | For a fraction of at most one a tint never lowers a channel, a shade never raises one, the result stays in the gamut, and the full shifts are white and black |
| `Colour.ShiftMovesExactly` | frontend/src/lib/chart-palette.ts:90-98 | How far a shift moves: the greatest and the least channel together go exactly the given fraction of their way to white or black, every channel keeps its place between them, and each channel of a grey goes exactly that fraction of its own way |
| `HexColour.HexRoundTrip` | frontend/src/lib/chart-palette.ts:42-52 | Reading back any printed colour returns its three bytes |
| `HexColour.CanonicalHex` | frontend/src/lib/chart-palette.ts:42-52 | Printing what was read gives the hash and the same digits in lower case |
| `HexColour.ReadsExactly` | frontend/src/lib/chart-palette.ts:42-47 | A string is read as a colour if and only if it is six hexadecimal digits with or without a hash between white space, and then as its three pairs of digits in order |
| `HexColour.PrintNearest` | frontend/src/lib/chart-palette.ts:49-52 | Printing any colour in the gamut and reading it back gives the bytes within half a step of its channels |
| `HexColour.ClampIsIdle` | frontend/src/lib/chart-palette.ts:49-52 | The clamp changes nothing on any shifted colour |
| `HexColour.ShiftedHex` | frontend/src/lib/chart-palette.ts:90-98 | On strings, rounding included: the shift of a colour is a colour whose bytes are the nearest to the shifted channels, no byte falls under a tint or rises under a shade, and shifts by 1, -1 and 0 are white, black and the canonical spelling |
| `HexColour.ShiftedGrey` | frontend/src/lib/chart-palette.ts:90-98 | A grey byte goes the given fraction of its way to 255 or to 0, to the nearest byte |
| `HexColour.NoColourStays` | frontend/src/lib/chart-palette.ts:90-92 | A string that is no colour passes through unchanged |
| `Palette.WrapIsModulo` | frontend/src/lib/chart-palette.ts:108 | JavaScript's sign-keeping remainder, applied twice, is the mathematical modulus for negative offsets too |
| `Palette.GetDistributedColors` | frontend/src/lib/chart-palette.ts:106-117 | The loop picks the specified ramp positions in order |
| `Palette.PositionsCentred` | frontend/src/lib/chart-palette.ts:106-117 | For every ramp and count the picks are one run of ring neighbours with its middle pick, the earlier of two, in the middle of the ramp; two picks are the neighbours of that middle |
| `Palette.DistinctExactly` | frontend/src/lib/chart-palette.ts:106-117 | For every ramp and every n the positions are pairwise distinct if and only if n is at most the ramp's length and it is not two picks from a ramp of two |
| `Palette.Categorical` | frontend/src/lib/chart-palette.ts:124-131 | For every n the list has length max(n, 0); up to four it is a prefix of the base hues, beyond it each pick is a tint, a base hue or a shade of the hue at its place |
| `Palette.HueCycle` | frontend/src/lib/chart-palette.ts:119-131 | Among the first m picks every hue occurs m / 4 times, rounded down or up |
| `Palette.CategoricalWindow` | frontend/src/lib/chart-palette.ts:119-131 | For n > 4 the picks are one contiguous run of the ring of twelve through its middle, distinct up to twelve, with the four hues used equally often to within one |
| `RouteTree.NormalizeIdempotent` | backend/src/ragz/api/policy.py:21-28 | Normalising a path twice is normalising it once, for every string with braces and colons anywhere |
| `RouteTree.ConverterStripped` | backend/src/ragz/api/policy.py:21-28 | In every string, wherever a braced name with a converter stands, the converter goes and the name stays, and the text before and after it is normalised on its own |
| `RouteTree.NormalizedExactly` | backend/src/ragz/api/policy.py:24-28 | A path is left alone if and only if no braced name with a converter stands anywhere in it |
| `RouteTree.CallsFindWired` | backend/src/ragz/api/policy.py:549-563 | The walk finds an action's tag if and only if some path of dependencies, at any depth, leads to it |
| `RouteTree.EachLeafOnce` | backend/src/ragz/api/policy.py:31-63 | The walk yields every mounted route exactly once and nothing else, each under the concatenated include prefixes |
| `RoutePolicy.AuditSchema` | backend/src/ragz/api/policy.py:335-351 | The loop over the schema collects the specified gaps |
| `RoutePolicy.AuditHidden` | backend/src/ragz/api/policy.py:353-365 | The loop over hidden routes collects the specified gaps |
| `RoutePolicy.AuditRoutePolicy` | backend/src/ragz/api/policy.py:306-366 | Both parts, in order |
| `RoutePolicy.AuditRouteEnforcement` | backend/src/ragz/api/policy.py:566-608 | The route index and the loop over the policy collect the specified gaps |
| `RoutePolicy.AuditUnmodeledGaps` | backend/src/ragz/api/policy.py:611-633 | The filter over the parsed messages, and its exception when a message has no space |
| `RoutePolicy.UnmodeledKeeps` | backend/src/ragz/api/policy.py:627-633 | The filter keeps exactly the lines whose key is readable and not catalogued, unchanged, and raises if and only if some line has no readable key |
| `RoutePolicy.ParseExactly` | backend/src/ragz/api/policy.py:630 | The two splits recover method and path from a message if and only if neither has a colon and the method has no space |
| `RoutePolicy.ColonCutsPath` | backend/src/ragz/api/policy.py:630 | A path with a colon is read back cut there |
| `RoutePolicy.IndexIsLast` | backend/src/ragz/api/policy.py:582-587 | The index holds for each key the last mounted route that answers to it |
| `RoutePolicy.PolicyAuditExactly` | backend/src/ragz/api/policy.py:306-366 | The policy audit is empty if and only if every listed and every hidden route is public or has a known action |
| `RoutePolicy.PolicyGapsName` | backend/src/ragz/api/policy.py:306-366 | Each line of the policy audit begins with the method and path of an unclassified route that is listed in the schema, documentation aside, or hidden, and each such route has its line |
| `RoutePolicy.EnforcementNames` | backend/src/ragz/api/policy.py:589-608 | The enforcement audit has a line beginning with method and path for each entry that is neither excepted nor wired in the route mounted last under its key, and no other line |
| `RoutePolicy.ReasonIrrelevant` | backend/src/ragz/api/policy.py:630 | Which key is read back from a gap message does not depend on the complaint |
| `RoutePolicy.UnmodeledAuditExactly` | backend/src/ragz/api/policy.py:611-633 | For every table the filtered audit is empty if and only if every policy entry is excepted, read back as a key of the role-only catalogue, or wired in its mounted route |
| `RoutePolicy.EveryRouteGuarded` | backend/src/ragz/api/policy.py:611-626 | When both audits are empty, every method of every mounted route whose message is not read back as another's catalogued key, and which no later route shadows, is public, a documentation page, a named exception, in the role-only catalogue, or wired to the known action it declares |
| `RoutePolicy.ReadableNotMistaken` | backend/src/ragz/api/policy.py:630 | An entry with no colon in path or method is never read back as another's |
| `PolicyGuarantee.AuditedIsCleanable` | backend/src/ragz/api/policy.py:306-366 | Only tables whose every entry is excused or can be mounted without complaint ever pass both audits |
| `PolicyGuarantee.BareRoutePasses` | backend/src/ragz/api/policy.py:582-633 | For every such table and exposed entry a router exists that passes both audits with a bare, unguarded route under that entry, and with one route per key when the entry is read back as a catalogued key |
| `PolicyGuarantee.GuaranteeExactly` | backend/src/ragz/api/policy.py:611-626 | Empty audits prove every route guarded, among routers with one route per key, if and only if no exposed entry is read back as a catalogued key or no router passes at all; among all routers, if and only if no entry is exposed or none passes |
| `PolicyGuarantee.ColonHole` | backend/src/ragz/api/policy.py:629-632 | A bare route whose path is a colon suffix of a catalogued one: both audits are empty and it is unguarded |
| `PolicyGuarantee.DuplicateHole` | backend/src/ragz/api/policy.py:582-587 | A bare route and a wired one under the same key: both audits are empty and the first is unguarded |
| `ObjectStorage.FileObject.Read` | backend/src/ragz/core/storage.py:15-20 | One read of a stream with any pattern of short, empty and failing reads |
| `ObjectStorage.Client.Send` | backend/src/ragz/core/storage.py:90-124 | One S3 call, recorded, which may raise |
| `ObjectStorage.PutStream` | backend/src/ragz/core/storage.py:65-125 | For every stream and fault the loop ends, makes exactly the specified calls, and holds at its peak exactly as many non-empty chunks as it read, or four if it read more; after a good upload, unless only its first read was empty, that is the number of stored chunks, up to four |
| `ObjectStorage.LoopStores` | backend/src/ragz/core/storage.py:99-124 | Parts carry the numbers 1, 2, .. in order and the chunks in order, and an abort is made exactly once and last if a call or read fails |
| `ObjectStorage.StoresWhatWasRead` | backend/src/ragz/core/storage.py:86-120 | An upload that ends well stored exactly the bytes read up to the first empty read, in order, and aborted nothing |
| `ObjectStorage.FaultAbortsOnce` | backend/src/ragz/core/storage.py:121-125 | A fault after the upload was created leads to exactly one abort, as the last call, and a raise; before it to none |
| `ObjectStorage.DoneExactly` | backend/src/ragz/core/storage.py:86-125 | An upload ends well if and only if every read up to its end succeeds and so does the single put, or the creation, every part and the completion |
| `ObjectStorage.CompleteExactly` | backend/src/ragz/core/storage.py:102-114 | Nothing of the stream is lost if and only if no data follows its first empty read |
| `ObjectStorage.FullChunks` | backend/src/ragz/core/storage.py:10-12 | With full reads every part but the last has exactly the part size and their number is the length over the part size, rounded up |
| `ObjectStorage.FullUpload` | backend/src/ragz/core/storage.py:86-120 | With full reads and no fault the stored bytes are the stream, and multipart is used exactly when it is longer than one part |
| `FolderKeys.Database.DeleteFolder` | backend/migrations/versions/f5a8d2e91c47_folder_tenant_fks.py:40-63 | The triggers of the two composite keys, fired in any order and on parent cycles too, end and remove exactly the folder and its descendants and clear exactly the references to them |
| `FolderKeys.DeleteIsContained` | backend/migrations/versions/f5a8d2e91c47_folder_tenant_fks.py:40-63 | A delete stays in one org, removes no document, takes exactly the documents filed in or below the folder out of their folder and changes nothing else of them, and every composite key holds again |
| `FolderKeys.Database.DeleteFolderBareSetNull` | backend/migrations/versions/f5a8d2e91c47_folder_tenant_fks.py:48-53 | The same cascade under a bare SET NULL: it violates the non-null org and is rolled back if and only if some document is filed in the subtree, and deletes as before otherwise |
| `FolderKeys.Preflight` | backend/migrations/versions/e4f7c1a83b26_composite_tenant_fks.py:59-76 | The query names no row exactly when all pairs agree, names only offenders, at most twenty, and all of them when fewer |
| `FolderKeys.Upgrade` | backend/migrations/versions/e4f7c1a83b26_composite_tenant_fks.py:79-94 | The upgrade succeeds if and only if every table is clean, and otherwise names rows of the first bad table |
| `FolderKeys.KeysAreTables` | backend/migrations/versions/e4f7c1a83b26_composite_tenant_fks.py:37-51 | The eight paired columns, each table listed in any order, all validate if and only if every row of the database refers only to workspaces, users and folders of its own org |
| `FolderKeys.IsAncestorOrSelf` | backend/src/ragz/modules/documents/folders.py:135-153 | Answers no if and only if the climb from the folder ends within the cap without meeting the candidate |
| `FolderKeys.Database.CheckMove` | backend/src/ragz/modules/documents/folders.py:164-174 | A move is allowed if and only if the folder is in the caller's organisation and in a workspace the caller may use, and so is the new parent, in the same workspace, with its ancestors ending within 1000 steps without the folder; every other case has its own answer: not found, denied or conflict, in the source's order |
| `FolderKeys.Database.MoveFolder` | backend/src/ragz/modules/documents/folders.py:156-180 | With no other move in between, exactly the allowed moves change the one parent column and a refused one nothing; every composite key and workspace pairing is kept, and every folder that had a root still has one |
| `FolderKeys.MoveKeepsRooted` | backend/src/ragz/modules/documents/folders.py:135-153 | Hanging a folder at a place that does not lead back to it makes no cycle and cuts no other folder off |
| `FolderMoves.PairOfMoves` | backend/src/ragz/modules/documents/folders.py:170-180 | When two moves both pass their check before either writes, every folder that had a root keeps one if and only if not each of the new places led to the other folder |
| `FolderMoves.RaceMoves` | backend/src/ragz/modules/documents/folders.py:156-180 | The two requests interleaved that way, each answered by its own rights as if alone: both accepted give both folders their new parents, with rooted folders kept in exactly that case; any other outcome keeps them always |
| `FolderMoves.RaceMakesCycle` | backend/src/ragz/modules/documents/folders.py:170-180 | Any two folders at the root, each moved under the other at once: both checks pass and the result is a cycle with no root |
| `FolderWalk.CollectSubtree` | backend/src/ragz/modules/documents/folders.py:183-219 | The breadth-first walk ends, cycles or not, with exactly the folders that a chain inside the workspace reaches within the cap |
| `FolderWalk.WalkExactly` | backend/src/ragz/modules/documents/folders.py:202-219 | A folder is collected if and only if climbing its parents reaches the deleted folder in at most the cap's steps without leaving the workspace |
| `FolderWalk.CascadeExactly` | backend/migrations/versions/f5a8d2e91c47_folder_tenant_fks.py:56-63 | A folder is removed by the cascade if and only if climbing its parents reaches the deleted folder at all |
| `FolderWalk.WalkMatchesCascade` | backend/src/ragz/modules/documents/folders.py:249-277 | With unmixed workspaces the walk finds the folders the cascade removes if and only if each lies at most 1000 levels below the root; a document is marked for deletion if and only if its folder lies that near; every marked one loses its folder, and all that lose their folder are marked if and only if none was filed deeper |
| `FolderWalk.MarkedInWorkspace` | backend/src/ragz/modules/documents/folders.py:188-196 | Even where workspaces mix, a marked document lies in the deleted folder's workspace, and so do its folder and every folder between |
| `FolderWalk.SmallSubtreeIsNear` | backend/src/ragz/modules/documents/folders.py:202-219 | A subtree of at most 1001 folders is never too deep, parent cycles included |
| `FolderWalk.DeepFolderMissed` | backend/src/ragz/modules/documents/folders.py:202-219 | One folder deeper the cascade removes a folder whose documents are never marked |
| `ClientIp.TrustedNetworks` | backend/src/ragz/core/client_ip.py:57-70 | The loop keeps exactly the networks named by well-formed entries |
| `ClientIp.IsTrusted` | backend/src/ragz/core/client_ip.py:73-77 | True exactly for a well-formed address inside some trusted network |
| `ClientIp.InsideExactly` | backend/src/ragz/core/client_ip.py:67-77 | A network holds one block of consecutive addresses of its version, as many as its host bits allow, from its base with the host bits cleared |
| `ClientIp.SlashEight` | backend/src/ragz/core/client_ip.py:67-77 | 10.0.0.1/8 holds 10.0.0.0 up to 10.255.255.255 and nothing else |
| `Text.StripExactly` | backend/src/ragz/core/client_ip.py:100 | Stripping takes off the white space at both ends and nothing else, for any notion of white space |
| `ClientIp.AnsweredExactly` | backend/src/ragz/core/client_ip.py:80-120 | Behind an address in a configured network the answer is the last hop of the header that is an address in none, if there is one, and in every other case it is the direct peer |
| `ClientIp.Resolve` | backend/src/ragz/core/client_ip.py:80-120 | The walk from the right, with its early returns, gives the last foreign hop of a reading from the left, and the peer when there is none, when the peer is not trusted or when nothing is configured |
| `ClientIp.LastForeignIsRightmost` | backend/src/ragz/core/client_ip.py:104-111 | The chosen hop is well-formed and untrusted and nothing to its right is, and there is none if and only if no hop qualifies |
| `ClientIp.PeerOrForeign` | backend/src/ragz/core/client_ip.py:80-120 | The answer is the peer or a well-formed untrusted hop of the header; behind an untrusted peer the header is irrelevant |
| `ClientIp.Prepended` | backend/src/ragz/core/client_ip.py:104-111 | Any text and a comma on the left change nothing once the header names a foreign hop; otherwise the text alone decides |
| `ClientIp.Appended` | backend/src/ragz/core/client_ip.py:104-111 | Trusted or malformed hops on the right change nothing |
| `ClientIp.SpoofProofExactly` | backend/src/ragz/core/client_ip.py:20-24 | No prefix can move the answer if and only if the peer is untrusted or the header already names a foreign hop |
| `ClientIp.BadEntriesIgnored` | backend/src/ragz/core/client_ip.py:58-60 | Malformed, blank and repeated entries and the order of the configuration change nothing |
| `AuthFetch.Client.RefreshAccessToken` | frontend/src/api/client.ts:14-21 | A caller gets the refresh in the slot or starts one; the slot then holds what it got |
| `AuthFetch.Client.Answered` | frontend/src/api/client.ts:60-63 | From an answer to the next await: join on a first 401 outside the exempt paths, end otherwise |
| `AuthFetch.Client.RefreshAnswered` | frontend/src/api/client.ts:23-28 | From the refresh answer: a refusal clears the token, a network error does not |
| `AuthFetch.Client.BodyRead` | frontend/src/api/client.ts:29-40 | A non-empty string becomes the token; anything else clears it and refuses |
| `AuthFetch.Client.RunFinally` | frontend/src/api/client.ts:17-19 | The slot is emptied before the shared promise settles |
| `AuthFetch.Client.Resumed` | frontend/src/api/client.ts:62-68 | Retry on a renewal, callback on a refusal, rejection without callback on a failed refresh |
| `AuthFetch.StepKeepsInv` | frontend/src/api/client.ts:14-69 | Every interleaving step keeps the slot naming exactly the uncleared refresh and every call consistent with the refresh it joined |
| `AuthFetch.OneRefreshOutstanding` | frontend/src/api/client.ts:13-21 | At most one refresh is outstanding at any time, and it is the one in the slot |
| `AuthFetch.FlightShared` | frontend/src/api/client.ts:13-21 | Until its finally runs no other refresh starts, whoever asks |
| `AuthFetch.EachCallBounded` | frontend/src/api/client.ts:53-69 | A call sends at most two requests, the second exactly after a renewal; it joins a refresh, one at most, exactly when its first answer is a 401 outside the exempt paths, and fires the callback exactly when its refresh returned false |
| `AuthFetch.FirstBearer` | frontend/src/api/client.ts:53-60 | Over every run the first request of a call carries the token in force when the call began, or none if there was none or it was empty, and what it carried never changes |
| `AuthFetch.RetryBearer` | frontend/src/api/client.ts:61-64 | Over every run the retry after a renewal carries the token in force when the call resumed, whoever set it, and is the last request of the call |
| `AuthFetch.LastAnswerReturned` | frontend/src/api/client.ts:60-69 | The caller gets the answer to the last request sent for it, and a rejection exactly as its own request or its refresh was rejected |
| `AuthFetch.FailuresCounted` | frontend/src/api/client.ts:62-66 | Over any run the callback fired once per such call and at no other time |
| `AuthFetch.SameOutcome` | frontend/src/api/client.ts:13-21 | Calls that joined the same refresh are told the same |
| `AuthFetch.SlotClearedFirst` | frontend/src/api/client.ts:17-19 | When a call resumes the slot is empty or already holds a newer refresh |
| `AuthFetch.TokenFollowsRefresh` | frontend/src/api/client.ts:23-69 | A refresh renews exactly when its answer brings a non-empty token and fails exactly when unreachable; unless something else writes the token in between, a retry carries the token its refresh brought, a refusal left none and ends with the 401, and a rejected refresh left the old one |
| `AuthFetch.EveryRunEnds` | frontend/src/api/client.ts:53-69 | The answers and continuations still to come are bounded: no call goes round for ever |
| `AuthFetch.NeverStuck` | frontend/src/api/client.ts:14-69 | Something can still happen if and only if a call is unfinished or the slot is taken: no caller is left waiting |
| `BodyLimit.Limiter.LimitedReceive` | backend/src/ragz/api/security_middleware.py:143-150 | A message goes on to the application exactly when it is no body message or the running total fits |
| `BodyLimit.Limiter.TrackingSend` | backend/src/ragz/api/security_middleware.py:154-158 | The flag is set by the attempt to start a response, even when the send fails |
| `BodyLimit.Limiter.Call` | backend/src/ragz/api/security_middleware.py:125-171 | For every application, headers and server messages, what was delivered, what went out and how the call ended are the specified ones; other scopes pass through |
| `BodyLimit.DeliveredBounded` | backend/src/ragz/api/security_middleware.py:116-118 | The delivered body bytes never exceed the ceiling, even when the application catches the signal and reads on |
| `BodyLimit.NothingAfterCrossing` | backend/src/ragz/api/security_middleware.py:143-150 | After the first refused body message every later one is refused too |
| `BodyLimit.PassedExactly` | backend/src/ragz/api/security_middleware.py:143-150 | Exactly what gets through: everything before the piece that crosses the ceiling, then only messages that are no piece of the body |
| `BodyLimit.OneResponse` | backend/src/ragz/api/security_middleware.py:163-171 | An application that starts at most one response leaves at most one on the wire |
| `BodyLimit.UncaughtCrossing` | backend/src/ragz/api/security_middleware.py:160-171 | An uncaught crossing gives exactly one 413 if and only if no response had been tried, and otherwise goes on with nothing added |
| `BodyLimit.DeclaredRefused` | backend/src/ragz/api/security_middleware.py:130-139 | Over the declared length there is one 413 and nothing of the request reaches the application |
| `BodyLimit.LastLengthCounts` | backend/src/ragz/api/security_middleware.py:130-139 | The last content-length header decides: above the ceiling there is one 413 and the application is not called, otherwise the call goes on as if nothing had been declared |
| `BodyLimit.NoLength` | backend/src/ragz/api/security_middleware.py:130-139 | Without that header nothing is declared |
| `BodyLimit.InvisibleExactly` | backend/src/ragz/api/security_middleware.py:108-118 | Unless the declared length is too large, the middleware changes nothing at all if and only if the body fits; other scopes it never touches |
| `BodyLimit.UploadsPass` | backend/src/ragz/api/security_middleware.py:29-42 | The global ceiling never clips an upload its route would accept, with up to ten megabytes of framing |
| `LoopEngines.Process.GetLoopEngine` | backend/src/ragz/core/db.py:66-83 | The prune loop and the lookup reach the specified map; the engine returned is the running loop's entry, and outside a loop it raises |
| `LoopEngines.Process.DisposeLoopEngine` | backend/src/ragz/core/db.py:86-93 | The entry is gone before the engine is disposed of |
| `LoopEngines.Process.GetTaskLoop` | backend/src/ragz/worker/loop.py:28-38 | The slot then holds an open loop, a new one only if there was none |
| `LoopEngines.Process.Run` | backend/src/ragz/worker/loop.py:41-64 | Enters the process's loop, which is then open, or refuses exactly when a loop is already running and changes nothing |
| `LoopEngines.Process.StopWorker` | backend/src/ragz/worker/loop.py:67-81 | The specified state in all cases, and it raises exactly when called on its own running loop |
| `LoopEngines.StepKeepsInv` | backend/src/ragz/core/db.py:63-93 | Every call, closing and shutdown keeps entries fresh and every engine accounted for |
| `LoopEngines.EnginesAccountedFor` | backend/src/ragz/core/db.py:63-93 | Over every run no two loops share an engine, no entry is a disposed engine, and every engine ever created is mapped, disposed of, or belonged to a closed loop |
| `LoopEngines.NoClosedLoopKept` | backend/src/ragz/core/db.py:69-77 | Right after a lookup no closed loop is in the map |
| `LoopEngines.SameEngine` | backend/src/ragz/core/db.py:52-62 | Until its loop is closed or its engine disposed of, every lookup on a loop returns the same engine, whatever other loops do |
| `LoopEngines.OneEnginePerWorker` | backend/src/ragz/core/db.py:59-62 | A worker that only runs tasks creates one loop and at most one engine in its life |
| `LoopEngines.WorkerRecovers` | backend/src/ragz/worker/loop.py:28-34 | Whatever was closed or shut down before, the next task gets an open loop and an engine that is not disposed of |
| `LoopEngines.ClosedLoopReplaced` | backend/src/ragz/worker/loop.py:28-38 | When the worker's loop is closed from any reachable state, the next task and its lookup run on a new loop with a new engine and the closed loop has no entry |
| `LoopEngines.ShutdownExactly` | backend/src/ragz/worker/loop.py:67-81 | After shutdown from any reachable state the loop has no entry if and only if no left-over task looked it up again or, inside another loop, it had none; the slot is cleared unless its own loop is running; the engine is disposed of exactly when no loop was running |
| `LoopEngines.ShutdownInsideAnotherLoop` | backend/src/ragz/worker/loop.py:75-81 | A run after which a closed loop's pool is still mapped and was never disposed of |

## Left out

- Redis, Celery, SQLAlchemy, PostgreSQL, S3, FastAPI and asyncio themselves: each command, row lock, constraint trigger, S3 call and await is one atomic step with the contract stated in its module.
- Redis clocks finer than a second, eviction and failover; numbers beyond what a Lua double holds exactly.
- `RateLimit.CheckRateLimit`: the key built by the `rate_limit` guard and the HTTP error it raises are not modelled; the key is one arbitrary key.
- `Outbox.NoLostWork`: whether a Celery worker then runs the sent task is not modelled; a send is the handler's normal return. `nudge`, `select_queue`, `build_ingest_chain` and the handlers' payloads are not modelled, and purging ignores its batch limit.
- `Outbox.Database.DispatchPending`: Python's quoting of odd characters in a topic inside `last_error` is taken as plain single quotes.
- `EventStreamStandard.StandardExactly`: the standard's last event id and reconnection time, which the parser ignores, are not part of the messages compared.
- `EvalClaims.EvalTable.RunEval`: the metrics themselves are not computed; a row is scored or not.
- `Colour.HslRoundTrip`: exact reals; floating-point rounding in the browser is not modelled. Rounding to bytes is.
- `Palette.Categorical`: reading the palette from CSS variables and the React hook are not modelled.
- `RoutePolicy.EveryRouteGuarded`: the literal tables are arbitrary maps and sets; that the schema lists the visible routes is a hypothesis, since FastAPI builds it. Messages quote actions with plain single quotes.
- `ObjectStorage.PutStream`: cancellation, which `except Exception` does not catch, and the content type and keys of the S3 calls are not modelled; an upload that fails before `create_multipart_upload` returns has nothing to abort.
- `FolderWalk.CollectSubtree`: the walk is modelled on sets of ids; on a parent cycle the original's list repeats ids, which changes only the count shown by `count_subtree`.
- `FolderKeys.Database.MoveFolder`: renaming in the same call and audit records are not modelled; each ancestor check is one read of the table. Access checks of `delete_folder` and the outbox events it publishes are not modelled either.
- `FolderKeys.Upgrade`: the downgrades and `usage_records`, which the migration leaves alone, are not modelled.
- `ClientIp.Resolve`: what the ipaddress parsers accept and which characters `strip` removes are parameters; a parsed network is its base address and the number of its host bits.
- `AuthFetch.Client.Answered`: request bodies, headers other than the bearer and URL parsing are not modelled; the path is given.
- `BodyLimit.Limiter.Call`: how Python's `int` reads a Content-Length is a parameter; a failing send of the 413 itself and `trusted_hosts_for` are not modelled.
- `LoopEngines.Process.StopWorker`: tasks left over on the loop may only look the engine up; threads are not modelled, so one loop at most is running.
- Retrieval, ingestion, chat, crypto, configuration, logging, the user interface and the remaining migrations: no protocol of their own, or foreign calls around easy logic.
