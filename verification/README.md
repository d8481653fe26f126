# Verified models of the hub, the delegation orchestrator and the wire codec

This project models, in Dafny, the parts of the repository whose correctness spans many calls, and proves what they
promise over every input and every run.

| part | modules |
|---|---|
| PostgreSQL wire codec (`security-patches/pgproto3`) | `WireBytes`, `WireOrder`, `WireLoops`, `WireLayouts`, `Framing`, `MapOrder`, `Decimal`, `BindMessage`, `DataRowMessage`, `RowDescriptionMessage`, `StartupMessages`, `ErrorResponses`, `Receivers` |
| Bounded delegation (`backend/a2a/budget.go`, `backend/a2a/orchestration`) | `Budget`, `TaskGraphs` (TaskGraph.dfy), `Delegation`, `FanOut`, `FanOutOrder`, `FanOutRecords`, `FanOutOverrun` |
| Event log and subscribers (`backend/a2a/events.go`) | `EventStream` |
| Assignment replay (`backend/agent`) | `AssignmentReducer`, `AssignmentController` |
| Hub switch (`backend/a2a/hub_*.go`, `backend/connector`) | `HubRegistry`, `HubAnswers`, `RateLimiter`, `HubMailbox`, `GroupSend`, `Convergence` |
| Helpers they share | `Options`, `Sets`, `Sorting`, `Text` |

## How the model is built

Go objects whose methods update fields are classes; loops that move a cursor, fill a slice or walk a map are loops. Every
such method is proved equal to a function of its old state (`Deliver`, `Stamped`, `Do`, `Next`, `Parse`, ...), and the
theorems are about those functions: over whole runs (`Run`, `RunStore`, `Answers`, `Decisions`), over every interleaving
where the source is concurrent, and over every order in which a Go map may be walked (`MapOrder.Enumerates`).

Values that come from outside enter as parameters: the clock, random ids and tokens, which reads fail, the answer of the
active-children query, whether a declaration is valid. The store is a map from work id to record; creating a record
fails on an existing id and charging a parent adds to its counters.

A specification function says what a method does; what that means is then stated without it. `HubAnswers` tells the hub's
answers by the earlier answers of the same run, `Delegation.CreatedLimits` gives each limit of a child against the request
and the parent, `FanOut.Verdict` speaks of the slots, `AssignmentReducer.AcceptedIff` of the log, `RateLimiter.DecisionIff` of
the requests' times, `HubMailbox.OnlyItsItem` of single items, and `WireOrder` and `WireLayouts` of explicit bytes.

The wire codec treats a message as a byte sequence. Each parser is characterised exactly: it answers `Done(v, rest)` if and
only if the input is the encoding of `v` followed by `rest` and `v` is well formed. Round trips follow, and so does the
fact that nothing else decodes to the same value without starting with the same bytes.

## What the proofs brought out

Where the code does something other than its comments or its callers suggest, the model follows the code. Each line names the
lemma with the exact condition, and the one with a run or an input that shows the failure.

- A startup message without parameters encodes, but its encoding does not decode (`StartupMessages.RoundTrip`).
- After an unknown message type the client reader is ready for the next message (`Receivers.ClientSkipsUnknown`). The
  server reader reports the same error from then on, because it looks at the type before it reads the body: it delivers
  exactly the messages before the first unknown one (`Receivers.ServerStopsAtUnknown`).
- Decoding a `Bind` body panics exactly when, behind two strings and the format codes, fewer parameters than announced are
  followed by a length below -1 (`BindMessage.PanicsIff`, with the body in `BindMessage.PanickingBody`). No encoder here
  produces such a length.
- The cycle check over the store looks at 100 ancestors. On a forest it misses exactly a proposed child further up than
  that (`TaskGraphs.BoundedCheckExact`; `TaskGraphs.LongChainMissed` has a work with 101 ancestors).
- Adding a node a second time under another parent makes the child lists and the parent map disagree, and only that does
  (`TaskGraphs.AddAgrees`).
- A parent that has used up its tokens gives its child a limit of 0, which is then read as no limit at all
  (`Budget.ExhaustedLimitIsLost`, `Delegation.ChildWithinRemainder`; in `Delegation.ExhaustedRun` a tree whose root may spend
  ten tokens hands out any number of them). Every work of a run has a limit exactly when no delegation came from an
  exhausted parent (`Delegation.AllLimitedIff`), and then none exceeds that of a work above it (`Delegation.LimitsBelow`).
- A task whose executor succeeds without output is reported as completed, but its record is never completed
  (`FanOutRecords.RecordClosedIff`) and counts against its parent's concurrency for good
  (`FanOutRecords.SilentBlocks` has one such task keep the next one out).
- The results of a fan-out depend on the order its workers run in unless the parent has room for all tasks together: its
  own checks cover only the number of children, so a sibling's charge, a sibling still running or one without output can
  have a task refused. For tasks that would each be delegated alone, having that room is exactly what makes the results
  independent of the order (`FanOutOrder.OrderIndependentIff`).
- Workers inspect the parent first and charge it later, so several can spend the same remainder. The parent's limits hold
  in every interleaving exactly when the semaphore lets one worker through at a time or the parent can pay for every
  choice of tasks that its concurrency limit lets happen (`FanOutOverrun.StaysWithinIff`), which is all of them unless many
  have no output (`FanOutOverrun.StaysWithinAll`). `FanOutOverrun.TwoTasksRace` has two tasks of eight tokens under a limit
  of ten: in either order one is refused, and overlapping, both are delegated.
- An artifact published under the sequence number of the status event that follows it hides that event from a live
  subscriber, even when it is terminal (`EventStream.RepeatHidesTerminal`); `EventStream.StrayHarmlessIff` says exactly which
  extra publishes are harmless.
- An event published beside a row of another kind ends a live stream and a replayed one at different places
  (`EventStream.LiveAndReplayedDiffer`). Every subscriber is to see the log, whenever it takes its snapshot, exactly when
  each row is published as it is and none is passed over (`EventStream.AgreementIff`; `EventStream.SeesLogIff` for one
  subscriber of a run).
- Histories beyond 500 rows and full buffers lose events: `EventStream.LostExactly` says which.
- The comment on `ApplyAssignmentEvent` calls repeats idempotent. In a machine whose runners are in step an accepted repeat
  is, exactly when it repeats the last applied event (`AssignmentController.RepeatIdempotentIff`). Any older one is acted
  on again and then answered with an error, because its acknowledgement falls behind the cursor
  (`AssignmentController.RepeatAnswer`). So an old creation brings back a runner nobody is assigned
  (`AssignmentController.RepeatKeepsSyncIff`; `AssignmentController.RevivedRun` is such a run), and a replay that starts
  further back than the last applied event stops at its first event and never reconciles: which replays get through is
  `AssignmentController.ReplayReachesIff`. The reducer's own `ApplyReplay`, which accepts any overlap
  (`AssignmentReducer.ReplayCatchesUp`), is not what the machine calls.
- The fixed-window limiter admits up to `2 * limit - 1` requests in one window length, and that many can happen
  (`RateLimiter.AnyWindowBounded`, `RateLimiter.BoundIsReached`).
- The mailbox key of a group message is ambiguous in general: two pairs share one exactly when one group id continues the
  other with a colon and what the other's key starts with (`GroupSend.InternalKeyEqualIff`). The ids this program generates
  hold no colon, so it never happens here (`GroupSend.GeneratedKeysInjective`, `GroupSend.ItemBelongsToItsGroup`).
- The group store itself records a message with an empty text or context as sent although nobody receives it
  (`GroupSend.EmptyMessageReachesNobody`). Only a direct call of the store can do that: the send route refuses such
  messages, and what it lets through always reaches every recipient (`GroupSend.ExactlyOneItem`).
- `Converge` says that arrival order does not matter. That holds if and only if no two different events with ids share a
  key or tie in the order (`Convergence.OrderIndependentIff`), which one installation with identifying event ids satisfies
  (`Convergence.OneInstallation`).

## Model

| member | source | states |
|---|---|---|
| Framing.FinishFrame | security-patches/pgproto3/pgproto3.go:75-91 | Beginning a message, appending a body and finishing it gives type byte, true length and body behind what was there before, or the refusal |
| Framing.FinishMessage | security-patches/pgproto3/pgproto3.go:84-91 | Whatever stood in the placeholder, the result is everything before it, four bytes that weigh the length of the body plus themselves (the first byte counting most), and the body; exactly a length above the maximum is refused |
| Framing.FrameBytes | security-patches/pgproto3/pgproto3.go:75-91 | A frame in explicit bytes: the type, four bytes weighing the length of the body plus four, then the body |
| WireOrder.Order16 | security-patches/pgproto3/bind.go:48-60 | A 16-bit number is the sum of its byte i times 256^(last - i); written numbers compare from the first byte on as the numbers do; reading gives the sum |
| WireOrder.Order32 | security-patches/pgproto3/pgproto3.go:84-91 | The same for 32 bits |
| WireOrder.OrderSigned | security-patches/pgproto3/data_row.go:51-67 | Signed numbers are written modulo 2^16 and 2^32, and -1 is all ones |
| WireOrder.EarlierIsSmaller | security-patches/pgproto3/pgproto3.go:84-91 | For strings of one length: the first difference from the front decides iff the weighted sums compare so |
| WireOrder.CellBytes | security-patches/pgproto3/data_row.go:81-89 | NULL is four bytes of all ones; any other value is four bytes weighing its length, then the value |
| WireBytes.CStringExact | security-patches/pgproto3/bind.go:31-36 | A NUL-terminated string is read as v with rest left over iff v holds no NUL and the input is v, a NUL, then rest |
| WireBytes.CellExact | security-patches/pgproto3/data_row.go:51-67 | A length-prefixed value is read as c iff the input starts with the encoding of c; NULL and the empty value have different encodings |
| WireBytes.CellsExact | security-patches/pgproto3/data_row.go:51-67 | n values are read as the list cs iff the input is their concatenated encodings followed by the rest |
| WireBytes.CellsNegative | security-patches/pgproto3/bind.go:66-92 | Reading n values meets a length below -1 iff the input is the encodings of fewer than n values followed by such a length |
| WireBytes.ShortCellsFit | security-patches/pgproto3/data_row.go:81-89 | Values in a body short enough to frame are never cut by the conversion of their length to 32 bits |
| WireLoops.DecodeInt16s | security-patches/pgproto3/bind.go:51-60 | The format-code loop reads exactly the announced number of codes and stops behind them, or fails when they do not fit |
| WireLoops.AppendCells | security-patches/pgproto3/bind.go:132-141 | The parameter loop appends the count and each value's encoding, in order |
| BindMessage.Bind.Decode | security-patches/pgproto3/bind.go:28-110 | On success all five fields are those of the parsed message, whatever the object held before; a malformed body is reported, and the bodies of PanicsIff panic |
| BindMessage.PanicsIff | security-patches/pgproto3/bind.go:66-92 | Decoding panics iff the body is two NUL-free strings, the format codes, a count n, the encodings of fewer than n parameters and then a length below -1 |
| BindMessage.PanickingBody | security-patches/pgproto3/bind.go:66-92 | One such body of ten bytes |
| BindMessage.Bind.Encode | security-patches/pgproto3/bind.go:113-152 | Appends the framed body to the destination, or refuses exactly when a list is too long for its count or the message for its length |
| BindMessage.Exact | security-patches/pgproto3/bind.go:28-152 | A body is read as m iff m is well formed and the encoding of m starts the body |
| BindMessage.RoundTrip | security-patches/pgproto3/bind.go:28-152 | Decode undoes Encode, leaving nothing over, iff neither string holds a NUL; sizes are guaranteed by a successful Encode |
| WireLayouts.BindBytes | security-patches/pgproto3/bind.go:113-152 | A bind message with different values in every place, byte by byte: portal before statement, parameter formats before parameters before result formats |
| DataRowMessage.DataRow.Decode | security-patches/pgproto3/data_row.go:22-71 | The row equals the parsed values whatever the reused backing array held and whether or not it was replaced; failure is reported exactly when the body does not parse |
| DataRowMessage.DataRow.Fill | security-patches/pgproto3/data_row.go:50-69 | The field loop overwrites every slot up to the field count in place |
| DataRowMessage.DataRow.Encode | security-patches/pgproto3/data_row.go:74-92 | Appends the framed row to the destination or refuses exactly the rows that are too large |
| DataRowMessage.Exact | security-patches/pgproto3/data_row.go:22-92 | A body is read as the given values iff their encoding starts it |
| DataRowMessage.RoundTrip | security-patches/pgproto3/data_row.go:22-92 | Every row that encodes decodes to itself, NULL distinct from empty, with nothing left over |
| WireLayouts.EmptyRowFrame | security-patches/pgproto3/data_row.go:74-92 | An empty row is framed as 44 00 00 00 06 00 00 |
| WireLayouts.RowBytes | security-patches/pgproto3/data_row.go:74-92 | A row of one byte, NULL and the empty value, byte by byte |
| RowDescriptionMessage.RowDescription.Decode | security-patches/pgproto3/row_description.go:58-101 | The fields are those of the parsed body; failure is reported exactly when it does not parse |
| RowDescriptionMessage.RowDescription.Encode | security-patches/pgproto3/row_description.go:104-124 | Appends the framed field list or refuses exactly the lists that are too large |
| RowDescriptionMessage.FieldExact | security-patches/pgproto3/row_description.go:68-98 | One field is read iff the input is its NUL-free name, NUL and the six fixed-width numbers with their signs |
| RowDescriptionMessage.Exact | security-patches/pgproto3/row_description.go:58-124 | A body is read as the given fields iff their names hold no NUL and their encoding starts the body |
| RowDescriptionMessage.RoundTrip | security-patches/pgproto3/row_description.go:58-124 | Decode undoes Encode iff no field name holds a NUL |
| WireLayouts.ColumnBytes | security-patches/pgproto3/row_description.go:104-124 | One column: the name, NUL, and at fixed offsets behind it table, attribute, type, size, modifier and format, each weighed from its first byte on |
| StartupMessages.StartupMessage.Decode | security-patches/pgproto3/startup_message.go:25-64 | The answer, with its five outcomes, is that of the parser, and on success the version and the parameters are the parsed ones |
| StartupMessages.StartupMessage.Encode | security-patches/pgproto3/startup_message.go:67-81 | For some order that lists each parameter once, appends length, version, pairs and the final zero |
| StartupMessages.RoundTrip | security-patches/pgproto3/startup_message.go:25-81 | For every map order, decoding gives the parameters back iff the version is the supported one, there is at least one parameter and no string holds a NUL; with none it is an invalid format |
| WireLayouts.StartupBytes | security-patches/pgproto3/startup_message.go:67-81 | The version, weighed from its first byte on, key, NUL, value, NUL and the final zero |
| ErrorResponses.ErrorResponse.Decode | security-patches/pgproto3/error_response.go:37-110 | The report is the fold of all tags read into an empty report, later tags winning; failure exactly when a string or the final zero is missing |
| ErrorResponses.ErrorResponse.Encode | security-patches/pgproto3/error_response.go:113-117 | For some order of the extra fields, the framed report |
| ErrorResponses.AppendNamed | security-patches/pgproto3/error_response.go:119-209 | Appends each of the eighteen named fields in order, leaving out empty strings and zero numbers |
| ErrorResponses.AppendUnknown | security-patches/pgproto3/error_response.go:211-215 | The walk over the extra fields writes each of them once, in some order |
| ErrorResponses.RoundTrip | security-patches/pgproto3/error_response.go:37-220 | For every map order, decoding gives the report back iff it is clean: no NUL in a string and no extra field under a zero or a named tag |
| Decimal.ParseIntItoa | security-patches/pgproto3/error_response.go:70-77 | Parsing the printed form of any 32-bit number gives that number back |
| Decimal.ParseIntClamps | security-patches/pgproto3/error_response.go:70-77 | Any string of digits, with or without a sign, is read as the 32-bit number nearest to the sum of its digits times powers of ten |
| Decimal.DigitsWorth | security-patches/pgproto3/error_response.go:119-209 | A number is printed in decimal, without leading zeros |
| WireLayouts.WrittenTags1 | security-patches/pgproto3/error_response.go:119-209 | The tag under which each of the first six named fields is written, as a byte |
| WireLayouts.WrittenTags2 | security-patches/pgproto3/error_response.go:119-209 | The same for the next six |
| WireLayouts.WrittenTags3 | security-patches/pgproto3/error_response.go:119-209 | The same for the last six |
| WireLayouts.StoredTags1 | security-patches/pgproto3/error_response.go:40-110 | Which field the value of each tag is stored in, whatever was read before, and that no other field changes: S, V, C |
| WireLayouts.StoredTags2 | security-patches/pgproto3/error_response.go:40-110 | M, D, H |
| WireLayouts.StoredTags3 | security-patches/pgproto3/error_response.go:40-110 | P, p, q |
| WireLayouts.StoredTags4 | security-patches/pgproto3/error_response.go:40-110 | W, s, t |
| WireLayouts.StoredTags5 | security-patches/pgproto3/error_response.go:40-110 | c, d, n |
| WireLayouts.StoredTags6 | security-patches/pgproto3/error_response.go:40-110 | F, L, R |
| WireLayouts.TagReads | security-patches/pgproto3/error_response.go:40-110 | A body of one field is read by storing its value under its tag |
| Receivers.Connection.Receive | security-patches/pgproto3/frontend.go:76-156 | One call is exactly one step of the reader: header, remembered fields, body, decoding, with every failure point (the server side is in backend.go) |
| Receivers.Connection.NextChunk | security-patches/pgproto3/chunkreader.go:10-14 | A failed read consumes nothing; a successful one returns exactly the next n bytes |
| Receivers.ReceiveTakes | security-patches/pgproto3/frontend.go:76-156 | On explicit bytes a failure-free call takes as many as the four length bytes weigh, the first counting most, less four; it waits when there are fewer and reports a negative length |
| Receivers.Step | security-patches/pgproto3/backend.go:113-185 | While a message is owed, whatever stands behind, a call fails and still owes the same messages, or delivers the next one and owes the others; with no failure it delivers |
| Receivers.EveryScheduleInOrder | security-patches/pgproto3/frontend.go:76-156 | For every schedule of failed reads the messages received are a prefix of those sent, in order, with no other error; the reader owes the rest and every failure-free call makes progress |
| Receivers.AllDelivered | security-patches/pgproto3/frontend.go:76-156 | A schedule with enough failure-free calls delivers exactly the messages sent |
| Receivers.DataRowDeliverable | security-patches/pgproto3/frontend.go:105-152 | A frame made by the data-row encoder is one the reader delivers as that row |
| Receivers.RowDescriptionDeliverable | security-patches/pgproto3/frontend.go:105-152 | The same for row descriptions with NUL-free names |
| Receivers.ErrorResponseDeliverable | security-patches/pgproto3/frontend.go:105-152 | The same for clean error and notice reports, for every map order |
| Receivers.BindDeliverable | security-patches/pgproto3/backend.go:113-185 | The same for bind messages on the server side |
| Receivers.ClientSkipsUnknown | security-patches/pgproto3/frontend.go:98-152 | After an unknown type the client has consumed exactly that message and owes the following ones |
| Receivers.ServerStuckOnUnknown | security-patches/pgproto3/backend.go:129-175 | Once the server has remembered an unknown type, every later call of every schedule answers the same error and changes nothing |
| Receivers.ServerNeverPassesUnknown | security-patches/pgproto3/backend.go:113-185 | When an unknown type comes next, every call of every schedule fails to read until the header arrives and answers the unknown type from then on; nothing is ever delivered |
| Receivers.ServerStopsAtUnknown | security-patches/pgproto3/backend.go:113-185 | Wherever in a stream an unknown type stands, the server delivers exactly the messages before it, in order, all of them once enough calls meet no failure, and the error only after the last |
| Budget.ExhaustedLimitIsLost | backend/a2a/budget.go:196-272 | A child is given a limit of 0 iff its parent has nothing left, and a work is never refused tokens iff its limit is not positive |
| TaskGraphs.CheckProposedEdge | backend/a2a/orchestration/graph.go:31-79 | Accepts iff none of the first 100 ancestors is the child or repeats an earlier node |
| TaskGraphs.BoundedCheckExact | backend/a2a/orchestration/graph.go:31-79 | On a forest the bounded check accepts iff the child is not among the nearest ancestors, and so differs from the unbounded one iff the child lies further up |
| TaskGraphs.LongChainMissed | backend/a2a/orchestration/graph.go:51-76 | A work with 101 ancestors, whose topmost ancestor the check accepts as its child although that closes a cycle |
| TaskGraphs.ShortChainsAgree | backend/a2a/orchestration/graph.go:31-147 | Both checks give the same verdict whenever the parent has at most 100 ancestors |
| TaskGraphs.TaskGraph.CheckCycle | backend/a2a/orchestration/graph.go:119-147 | Terminates on every parent map and accepts iff the chain above the parent ends and never meets the child |
| TaskGraphs.EdgeKeepsForest | backend/a2a/orchestration/graph.go:119-147 | In a forest, adding an edge keeps a forest iff the child is not the parent and not above it |
| TaskGraphs.TaskGraph.GetDescendants | backend/a2a/orchestration/graph.go:150-173 | Terminates on every graph and returns, without repetition and in order of distance, exactly the nodes other than the root reachable by child edges |
| TaskGraphs.Visit | backend/a2a/orchestration/graph.go:162-169 | The inner loop queues each unseen child once and keeps the search's two-level invariant |
| TaskGraphs.AddAgrees | backend/a2a/orchestration/graph.go:107-116 | Adding a node keeps the two indices in agreement iff it does not move a node to another parent |
| TaskGraphs.IndicesAgree | backend/a2a/orchestration/graph.go:107-173 | With agreeing indices, a node is reachable from the root iff the root lies on its parent chain |
| TaskGraphs.GuardedInsertionKeepsForest | backend/a2a/orchestration/graph.go:107-147 | However nodes arrive, adding each once and only past the cycle check keeps a forest with agreeing indices |
| TaskGraphs.BuiltIndicesAgree | backend/a2a/orchestration/graph.go:107-173 | In such a graph descendants are exactly the nodes below the root, and no node is its own ancestor |
| Delegation.Orchestrator.DelegateTask | backend/a2a/orchestration/orchestrator.go:79-235 | The answer and the new store are exactly those of the specification: checks in order, child record, parent charged; nothing changes on any refusal. AnswerIff, CreatedLimits and CreatedRecord say what they are |
| Delegation.CreatedLimits | backend/a2a/budget.go:225-272 | For each limit of a created work (children, fan-out, concurrency, runtime, retries, tokens, work units): at most what was asked for that limit, or its default figure, and at most what the parent leaves of it, and equal to one of the two; a root gets what was asked; the depth limit is handed down |
| Delegation.CreatedRecord | backend/a2a/orchestration/orchestrator.go:144-211 | The created record: its parent, depth, zero counters; the parent is charged one child and the tokens and units asked for; nothing else in the store changes |
| Delegation.AnswerIff | backend/a2a/orchestration/orchestrator.go:109-211 | A work is created iff the edge is accepted, the parent exists, is not terminal and has room in depth, children, active children, tokens and units, and the id is new; each refusal is reported iff it is the first that applies |
| Delegation.RunKeepsLimits | backend/a2a/orchestration/orchestrator.go:109-211 | In every run: depth within the limit and one more than the parent's, depth limits equal and the others not above the parent's, children counted exactly and within the limit; used tokens and units equal what the children asked for and stay within a positive limit |
| Delegation.ChildWithinRemainder | backend/a2a/orchestration/orchestrator.go:144-151 | A delegated child's token and work-unit limits are within its parent's remainder whenever that limit of the parent is positive; otherwise, with counters not negative, they are above it |
| Delegation.TreeBounded | backend/a2a/orchestration/orchestrator.go:109-211 | In every run, below any work the depth stays within that work's limit and the tree holds at most 1 + C + ... + C^(D - depth) works |
| Delegation.OneRootBound | backend/a2a/orchestration/orchestrator.go:109-211 | A store grown from one root holds at most 1 + C + ... + C^D works in all |
| Delegation.ExhaustedRun | backend/a2a/orchestration/orchestrator.go:144-210 | For every n, a run of DelegateTask in which the root's ten tokens are used up and a descendant still hands out n |
| Delegation.AllLimitedIff | backend/a2a/budget.go:225-272 | In every run, for tokens and for work units: every work has a positive limit iff no delegation came from a parent that had used up its own |
| Delegation.LimitsBelow | backend/a2a/budget.go:225-272 | In such a run with no request below zero, every work's limit is positive and no higher than that of any work above it |
| Delegation.FreshEdgeAccepted | backend/a2a/orchestration/orchestrator.go:109-114 | While a tree only grows, the cycle check accepts every id it did not hold at first |
| FanOut.AloneIsDelegateTask | backend/a2a/orchestration/fanout.go:183-201 | A worker whose delegation nothing interrupts does to the store what one call of DelegateTask does, and is refused when that is |
| FanOut.EveryInterleaving | backend/a2a/orchestration/fanout.go:154-260 | In every interleaving, between the steps of a delegation too, stopped or not: the semaphore counts the workers past it within its bound; slot i is blank until worker i leaves and then holds its own outcome, a refused delegation or a cancellation; the store only gains children of the parent; the parent is charged for no more than was asked |
| FanOut.SomeWorkerMoves | backend/a2a/orchestration/fanout.go:171-180 | While a worker is unfinished some worker can move: no deadlock |
| FanOut.EachWorkerStepCounts | backend/a2a/orchestration/fanout.go:171-260 | Every worker step uses up a bounded supply, so every run of workers ends |
| FanOut.CanFinish | backend/a2a/orchestration/fanout.go:154-264 | Every run, stopped or not, can be brought to its end, an undisturbed one without disturbance, and slots once decided stay |
| FanOut.FinishedRun | backend/a2a/orchestration/fanout.go:154-264 | When all workers have left, the semaphore is free and every slot holds an outcome |
| FanOut.Join | backend/a2a/orchestration/fanout.go:271-318 | completed and canceled count the slots in those states, failed the others; usage summed; success iff: all slots completed (all-success), one did (first-success), some set of the given minimum size did (partial failure, quorum; by default one, and more than the others), never for another policy |
| FanOut.SuccessIsVerdict | backend/a2a/orchestration/fanout.go:286-318 | The thresholds on counts decide as that statement about the slots does, for every policy and minimum |
| FanOut.TotalsOfSlots | backend/a2a/orchestration/fanout.go:273-284 | Replacing one slot changes the totals by exactly the difference of what the two report |
| FanOut.JoinOfRun | backend/a2a/orchestration/fanout.go:271-318 | For every run that has ended: completed, failed and canceled slots make up the total, a default quorum is a majority, and with default thresholds all-success implies quorum implies partial failure, which equals first success |
| FanOutOrder.NeverRefusedIff | backend/a2a/orchestration/fanout.go:90-245 | No undisturbed interleaving has a delegation refused iff the parent has room for all tasks together: new and different ids, a level of depth, tokens and units for all that is asked, and concurrency for all that can be active at once, the tasks without output among them for good |
| FanOutRecords.RecordClosedIff | backend/a2a/orchestration/fanout.go:210-250 | In every undisturbed run, once a delegated task has left, its record is completed iff its executor failed or returned output, and the usage in the record and in the slot is what the executor reported |
| FanOutRecords.SilentBlocks | backend/a2a/orchestration/fanout.go:236-250 | A run in which a completed task without output keeps its sibling from being delegated |
| FanOutOrder.RoomMeansOutcomes | backend/a2a/orchestration/fanout.go:154-264 | With that room every undisturbed run ends with each task's own outcome, in input order |
| FanOutOrder.OrderIndependentIff | backend/a2a/orchestration/fanout.go:90-264 | For tasks that would each be delegated alone, all undisturbed interleavings end with the same slots iff there is that room |
| FanOutOverrun.StaysWithinIff | backend/a2a/orchestration/fanout.go:126-201 | For tasks that would each be delegated alone and ask for nothing below zero, the parent's limits hold in every undisturbed interleaving iff one worker runs at a time or the parent can pay for every choice of tasks that concurrency allows in one run |
| FanOutOverrun.StaysWithinAll | backend/a2a/orchestration/fanout.go:126-201 | With concurrency for all, that is: iff one worker runs at a time or the parent has enough for all tasks |
| FanOutOverrun.TwoTasksRace | backend/a2a/orchestration/fanout.go:170-201 | Two tasks of eight tokens under a limit of ten: in either order the second is refused, and some interleaving delegates both |
| EventStream.WorkChannel.Publish | backend/a2a/events.go:68-89 | Every subscriber is offered the item, and a full buffer drops it without touching the others |
| EventStream.Replay | backend/a2a/events.go:117-136 | Yields the snapshot up to and including its first terminal row |
| EventStream.Drain | backend/a2a/events.go:139-160 | Yields what the sequence filter lets through, up to and including the first terminal item |
| EventStream.EveryRun | backend/a2a/events.go:92-162 | Every interleaving of appends, publishes and subscriber steps, a failing snapshot included, keeps: the stream is the shown part of the snapshot followed by the filtered part of what was taken from the buffer |
| EventStream.InOrderOnce | backend/a2a/events.go:92-162 | In every run, even with lost or stray publishes, the stream is strictly increasing after the starting point and ends exactly at its first terminal event |
| EventStream.NothingMissing | backend/a2a/events.go:92-162 | With room in the buffer and a snapshot within the limit, the stream is a prefix of the snapshot's rows followed by everything published under higher numbers, and all of that once the buffer is empty; stale publishes make no difference |
| EventStream.FaithfulPublishing | backend/a2a/store.go:203-222 | When every row is published as it is, that is exactly the rows after the starting point that are in the snapshot or published |
| EventStream.AgreementIff | backend/a2a/events.go:109-162 | Every subscriber, whenever it takes its snapshot, is to see the log after its starting point iff what is published after that point is the log |
| EventStream.SeesLogIff | backend/a2a/events.go:109-162 | A drained subscriber of a run without loss has seen the log iff what was published above its snapshot is what the log holds there |
| EventStream.DrainedStream | backend/a2a/events.go:68-162 | In every run, losses included, a drained subscriber has seen the first rows of its snapshot up to the limit and then what the filter lets through of the items that found room |
| EventStream.LostExactly | backend/a2a/events.go:68-162 | Without stray publishes a drained stream holds exactly the snapshot rows within the limit and, above the last of them, what was published while the subscriber listened and its buffer had room |
| EventStream.StrayHarmlessIff | backend/a2a/events.go:147 | One more publish leaves a caught-up subscriber's stream alone iff its sequence number is not above the starting point and everything published or in the snapshot |
| EventStream.RepeatDropped | backend/a2a/events.go:147 | An item whose number is not above an earlier one is never yielded |
| EventStream.RepeatHidesTerminal | backend/a2a/tools/task_manage.go:450-459 | A run in which an artifact sent under a terminal status row's number hides that row: the log has ended and the subscriber waits on |
| EventStream.LiveAndReplayedDiffer | backend/a2a/store.go:203-222 | Runs in which an event that is not terminal is published for a terminal row: the replayed stream ends with the row, the live one waits on |
| AssignmentReducer.Reducer.ApplyEvent | backend/agent/assignment/reducer.go:55-109 | The error and the new state are exactly those of the specification |
| AssignmentReducer.AcceptedIff | backend/agent/assignment/reducer.go:55-109 | In every run an event is accepted iff it is in the run's log, or names everything its kind needs, has the next number, uses no id or key of the log, and creates an agent that is not hosted or changes one that is (hosted: its last event in the log does not remove it); and which refusal is answered otherwise |
| AssignmentReducer.LogGrows | backend/agent/assignment/reducer.go:55-109 | The log grows by exactly the accepted events it does not hold |
| AssignmentReducer.RosterOfRun | backend/agent/assignment/reducer.go:86-104 | In every run the assigned agents are those whose last event in the log does not remove them, each with that event's configuration |
| AssignmentReducer.Reducer.ApplyReplay | backend/agent/assignment/reducer.go:112-119 | Applies events one by one up to the first refusal |
| AssignmentReducer.Reducer.Acknowledge | backend/agent/assignment/reducer.go:123-160 | The error and the new cursor are exactly those of the specification; nothing else changes |
| AssignmentReducer.AckAcceptedIff | backend/agent/assignment/reducer.go:123-160 | In every run an acknowledgement is accepted iff it is for this machine, names an event of the log by number, id and key (or nothing, before the first event), and is not behind the last accepted one |
| AssignmentReducer.Reducer.ActiveAgentIDs | backend/agent/assignment/reducer.go:191-198 | For every map order, the assigned agents, each once, in ascending order |
| AssignmentReducer.Reducer.FullRosterText | backend/agent/assignment/reducer.go:200-214 | The text that is hashed: ids and revisions in ascending order of ids |
| AssignmentReducer.EveryRunConsistent | backend/agent/assignment/reducer.go:55-160 | Whatever is delivered, the assignments are the fold of the retained events, which have no gap, and the acknowledged cursor names one of them |
| AssignmentReducer.RunIndexed | backend/agent/assignment/reducer.go:55-109 | In every run the id and key indexes name exactly the retained events |
| AssignmentReducer.StateIsLogPrefix | backend/agent/assignment/reducer.go:55-119 | For every delivery schedule of one log the retained events are the log's first lastSequence events and the assignments their fold |
| AssignmentReducer.SameSequenceSameRoster | backend/agent/assignment/reducer.go:55-119 | Two reducers of one log at the same sequence hold the same assignments |
| AssignmentReducer.SameSequenceSameRevision | backend/agent/assignment/reducer.go:200-214 | And the same roster revision text |
| AssignmentReducer.ReplayCatchesUp | backend/agent/assignment/reducer.go:112-119 | From wherever a schedule left a reducer, its own ApplyReplay of an acceptable log from any earlier point succeeds and reaches the log's end |
| AssignmentReducer.AckNeverMovesBack | backend/agent/assignment/reducer.go:123-160 | From any point of any run on, the acknowledged cursor never moves back |
| AssignmentReducer.RevisionDetermined | backend/agent/assignment/reducer.go:200-214 | The revision text depends on the assignments alone, not on the order of a map walk |
| AssignmentController.BareOfPath | backend/agent/client/client.go:766-771 | A path prefix does not change the bare id |
| AssignmentController.MachineClient.StopRunner | backend/agent/client/runner.go:593-604 | The runner under the bare id is gone, all others stay |
| AssignmentController.MachineClient.ApplyAssignmentEvent | backend/agent/client/assignment_controller.go:55-108 | Reduce, then act on the runner, then acknowledge, with the answer of each failure point; an acknowledgement is returned iff there is no error and names the event |
| AssignmentController.MachineClient.ReconcileRoster | backend/agent/client/assignment_controller.go:146-191 | From any runner set, ends with exactly the assigned agents hosted, and with bare ids each in its assigned configuration |
| AssignmentController.MachineClient.ApplyAssignmentReplay | backend/agent/client/assignment_controller.go:112-142 | Applies the events up to the first error and answers the last one's acknowledgement; one that reaches reconciliation ends with runners and assignments equal whatever was there before; an empty one before any event changes nothing |
| AssignmentController.ReplayReachesIff | backend/agent/client/assignment_controller.go:112-142 | For a machine given events of one acceptable log in any order: a replay of the log reaches reconciliation iff it is empty or starts with the last applied event or the one after it; an earlier start is stopped by the acknowledgement, a later one by the gap |
| AssignmentController.NewEventKeepsSync | backend/agent/client/assignment_controller.go:55-108 | A newly sequenced event for a bare id keeps runners equal to assignments and moves the acknowledged cursor to it |
| AssignmentController.RunnersFollowAssignments | backend/agent/client/assignment_controller.go:55-108 | Over every run of bare-id events none of which is applied twice, runners and assignments never differ |
| AssignmentController.RepeatIdempotentIff | backend/agent/client/assignment_controller.go:52-108 | In every run whose runners are in step, applying an accepted event again changes nothing and returns no error iff it is the last applied one |
| AssignmentController.RepeatAnswer | backend/agent/client/assignment_controller.go:69-101 | An accepted repeat leaves the reducer alone, acts on the runner again, and is an acknowledgement regression unless it repeats the last event |
| AssignmentController.MachineSettled | backend/agent/client/assignment_controller.go:55-108 | In every run the acknowledged cursor names the last applied event |
| AssignmentController.RepeatKeepsSyncIff | backend/agent/client/assignment_controller.go:69-87 | Whatever it answers, an accepted repeat keeps runners and assignments equal iff it still describes the agent's assignment |
| AssignmentController.RevivedRun | backend/agent/client/assignment_controller.go:55-108 | Creating, removing and creating again with the same event leaves a runner without an assignment, and an error |
| HubRegistry.Hub.SweepOne | backend/a2a/hub_registry.go:517-530 | One agent's state after a sweep, all others unchanged, and whether it expired |
| HubRegistry.Hub.Reconcile | backend/a2a/hub_registry.go:517-530 | For every map order the whole table is swept and exactly the newly expired agents are reported |
| HubRegistry.Hub.ActiveAgentCount | backend/a2a/hub_registry.go:532-540 | The number of agents neither revoked nor expired |
| HubRegistry.Hub.RegisterContext | backend/a2a/hub_registry.go:268-316 | The answer and the new table are those of the specification, with its refusals in order |
| HubRegistry.Hub.AuthenticateAgent | backend/a2a/hub_registry.go:318-328 | Sweeps, then answers a copy without secrets for a live agent with the right token; CredentialsIff says what that means for the caller |
| HubRegistry.Hub.DisconnectContext | backend/a2a/hub_registry.go:338-358 | Sweeps, then marks an authentic agent offline |
| HubRegistry.Hub.HeartbeatContext | backend/a2a/hub_registry.go:360-378 | Sweeps, then marks an authentic agent online and renews its lease |
| HubRegistry.Hub.RevokeContext | backend/a2a/hub_registry.go:414-434 | Revokes once, with the trimmed reason, without sweeping first |
| HubRegistry.Hub.LookupView | backend/a2a/hub_registry.go:487-499 | Sweeps, then answers a copy without secrets |
| HubRegistry.SameDo | backend/a2a/hub_registry.go:268-434 | An operation answers the same on two tables a sweep would make equal, and leaves them so |
| HubRegistry.LazyExpiryInvisible | backend/a2a/hub_registry.go:268-434 | Inserting sweeps anywhere in a run with a clock that never goes back changes no answer |
| HubRegistry.CapHoldsInEveryRun | backend/a2a/hub_registry.go:268-316 | In every run from empty the live agents never exceed the cap, and each live agent is the one its registration key leads to |
| HubRegistry.ReRegisterReturnsLiveAgent | backend/a2a/hub_registry.go:285-291 | Registering again under a live agent's key answers with that agent or is refused before the table is consulted, and creates nothing |
| HubRegistry.TerminalStates | backend/a2a/hub_registry.go:338-434 | From any point of any run on: no agent disappears, a REVOKED one never changes again, an EXPIRED one can only become REVOKED |
| HubAnswers.CredentialsIff | backend/a2a/hub_registry.go:318-434 | In every run an authentication, heartbeat or disconnect of an id and token is accepted iff an earlier call was answered with that id and token, no revocation of the id came since, and its registration time is not over; otherwise the credentials are invalid |
| HubAnswers.LookupTells | backend/a2a/hub_registry.go:487-530 | In every run a lookup finds exactly the enrolled ids, with the name and times of the enrolment and no secrets, and says ONLINE iff the enrolment counts and an accepted heartbeat lies within the lease with no accepted disconnect since |
| HubAnswers.RegistrationIff | backend/a2a/hub_registry.go:268-316 | In every run: the refusals in order; the holder of an enrolment that counts under the same key is told its id and expiry; any other gets a new token iff fewer enrolments count than the policy admits |
| HubAnswers.EnrolledOnce | backend/a2a/hub_registry.go:268-316 | In every run an id is enrolled by at most one call |
| HubAnswers.AnswersAre | backend/a2a/hub_registry.go:268-434 | The answer to each call in these statements is the one at its place in the list of the run's answers |
| RateLimiter.HubRateLimiter.constructor | backend/a2a/hub_http.go:43-51 | The settings are always positive and are the given ones when those are |
| RateLimiter.HubRateLimiter.Allow | backend/a2a/hub_http.go:53-71 | The decision and the new table are those of the specification |
| RateLimiter.HubRateLimiter.Cleanup | backend/a2a/hub_http.go:73-82 | For every map order, a table above 1024 keys keeps exactly the entries whose window is not over |
| RateLimiter.DecisionIff | backend/a2a/hub_http.go:53-82 | In every run from empty, with eviction: a request is admitted iff it opens a window (the first of its key, or a whole window after the last opening) or fewer than limit requests for its key, refused ones included, arrived since the opening |
| RateLimiter.EvictionInvisible | backend/a2a/hub_http.go:53-82 | With a clock that never goes back the limiter decides every request like one that never evicts |
| RateLimiter.AnyWindowBounded | backend/a2a/hub_http.go:53-71 | Any interval of one window length admits at most 2 * limit - 1 requests per key |
| RateLimiter.OwnWindowBounded | backend/a2a/hub_http.go:53-71 | A window the limiter itself opened admits at most limit requests, the opening one included |
| RateLimiter.BoundIsReached | backend/a2a/hub_http.go:53-71 | For every limit and window a run admits exactly 2 * limit - 1 requests in one window length |
| HubMailbox.MemoryHubMailbox.EnqueueItem | backend/a2a/hub_mailbox.go:54-72 | An incomplete item is refused, a repeated address answers the item already there, anything else is appended under the next number |
| HubMailbox.MemoryHubMailbox.Find | backend/a2a/hub_mailbox.go:74-83 | The first item with the address, if any |
| HubMailbox.MemoryHubMailbox.PendingCount | backend/a2a/hub_mailbox.go:85-95 | The number of the hub's unacknowledged items |
| HubMailbox.MemoryHubMailbox.Poll | backend/a2a/hub_mailbox.go:97-117 | The first limit unacknowledged items of the target after the cursor, in sequence order, with the exact refusals |
| HubMailbox.MemoryHubMailbox.Scan | backend/a2a/hub_mailbox.go:103-113 | Stopping at a full page loses nothing that belongs on it |
| HubMailbox.MemoryHubMailbox.AcknowledgeItem | backend/a2a/hub_mailbox.go:119-132 | Stamps the first match once, and reports whether there is one |
| HubMailbox.MemoryHubMailbox.CancelTask | backend/a2a/hub_mailbox.go:134-146 | The same by task id |
| HubMailbox.EveryRunOk | backend/a2a/hub_mailbox.go:54-146 | In every run numbers count from 1 without gap, no two items share an address, and no item is lost, moved or rewritten beyond one acknowledgement |
| HubMailbox.OnlyItsItem | backend/a2a/hub_mailbox.go:119-146 | In every run an operation changes no item except the one it is meant for (by hub, target and number, or the first of the hub's task), which becomes acknowledged at its time unless it was, all other fields kept |
| HubMailbox.AddedIff | backend/a2a/hub_mailbox.go:54-72 | An item is added iff it is complete and no item has its hub, target, requester and key; it comes last, as given, numbered by its place |
| HubMailbox.EnqueuedConserved | backend/a2a/hub_mailbox.go:54-146 | In every run, per hub: items accepted = pending + acknowledged |
| HubMailbox.PagesCoverInbox | backend/a2a/hub_mailbox.go:97-117 | Polling page by page, whatever the page sizes, returns exactly the target's unacknowledged items, once each and in ascending order |
| HubMailbox.PollingMissesNothing | backend/a2a/hub_mailbox.go:54-146 | However enqueues, acknowledgements and cancellations fall between the polls, nothing is returned twice, and an item never acknowledged has been returned exactly once when the cursor has passed it or polling finds nothing more |
| GroupSend.PeerKeyNotReserved | backend/a2a/hub_http.go:361-364 | A key that passes the peer route's check does not start with the reserved prefix, trimmed or not |
| GroupSend.MemoryHubGroupStore.BeginSend | backend/a2a/hub_group_memory.go:262-302 | The first critical section: duplicate, group, membership and fan-out checks in order, recipients snapshotted, id drawn only when sending |
| GroupSend.MemoryHubGroupStore.SendGroupMessage | backend/a2a/hub_group_memory.go:262-335 | A call by itself: refused or repeated calls change nothing, else the recipients' items are queued in turn with the reported sequences and the message, as given but for the next id, is appended |
| GroupSend.CallAlone | backend/a2a/hub_group_memory.go:262-335 | The steps of the interleaved model, uninterrupted, add up to that call |
| GroupSend.BegunDeliverable | backend/a2a/hub_group.go:149-166 | What the send route checks, together with named members, is what the mailbox needs of every item |
| GroupSend.EveryInterleaving | backend/a2a/hub_group_memory.go:262-335 | Every interleaving of calls, peer tasks, acknowledgements, cancellations and changes of groups keeps: what a call has sent is in the mailbox, every reserved key comes from a call, and group ids are generated ones |
| GroupSend.ExactlyOneItem | backend/a2a/hub_group_memory.go:262-335 | Once a call from the route has finished, each recipient it snapshotted has exactly one item for that hub, sender, group and key, however calls with one key overlap |
| GroupSend.OwnContent | backend/a2a/hub_group_memory.go:304-328 | When no other call of the sender and group uses the key, each recipient's one item carries the call's own text, context and task id |
| GroupSend.RecipientsExact | backend/a2a/hub_group_memory.go:277-287 | The recipients are the agents of exactly the active members other than the sender, each once, in member order |
| GroupSend.ReservedKeysAreGroupItems | backend/a2a/hub_http.go:361-364 | No peer task can ever occupy a group message's key |
| GroupSend.IncompleteReachesNobody | backend/a2a/hub_mailbox.go:54-58 | The mailbox refuses a group item iff hub, recipient, sender, context or text is empty |
| GroupSend.EmptyMessageReachesNobody | backend/a2a/hub_group_memory.go:304-328 | A direct call of the store with an empty context or text queues nothing and reports sequence 0 for every recipient |
| GroupSend.InternalKeyEqualIff | backend/a2a/hub_group_memory.go:309 | Two group and key pairs share a mailbox key iff they are equal or one group id continues the other with a colon and what the other's key starts with |
| GroupSend.InternalKeyInjective | backend/a2a/hub_group_memory.go:309 | So group ids without a colon never share one |
| GroupSend.GeneratedKeysInjective | backend/a2a/hub_group.go:130-136 | Generated group ids are of that kind: equal mailbox keys mean the same random bytes and the same key |
| GroupSend.ItemBelongsToItsGroup | backend/a2a/hub_group_memory.go:262-335 | In every run an item under a generated group's key was sent by a call for that group and key to that recipient, and carries that call's text, context and task id |
| GroupSend.InternalKeyAmbiguous | backend/a2a/hub_group_memory.go:309 | Two group and key pairs with colons that share a mailbox key |
| Convergence.Converge | backend/connector/convergence.go:7-28 | The result is the stable sort of each key's first event |
| Convergence.DedupeFacts | backend/connector/convergence.go:8-20 | Only events with an id are kept, every key that occurs is kept, and no key twice |
| Convergence.KeepsFirst | backend/connector/convergence.go:7-28 | An event is in the result iff it has an id and no earlier event of its key |
| Convergence.KeyIdentifies | backend/connector/convergence.go:13 | Without NUL in organization and installation, two keys are equal iff organization, installation and event id are |
| Convergence.TimeGoesForward | backend/connector/convergence.go:21-26 | The result goes forward in time, and at one time upward through the event ids, compared at their first difference |
| Convergence.SortStable | backend/connector/convergence.go:21-26 | Events that tie keep their order |
| Convergence.Idempotent | backend/connector/convergence.go:7-28 | Converging twice is converging once, for every input |
| Convergence.DependsOnlyOnSet | backend/connector/convergence.go:7-28 | For unambiguous events the result depends only on the set of events |
| Convergence.OneInstallation | backend/connector/convergence.go:7-28 | One installation whose event ids identify events is unambiguous |
| Convergence.OrderIndependentIff | backend/connector/convergence.go:7-28 | All permutations of the input give one result iff the input is unambiguous |

## Left out

- Integer width in counters and budgets: `int32`, `int64` and `uint64` counters are unbounded integers. The wire codec models its widths exactly.
- Store failures other than a missing or an existing work; the ignored result of the usage update is assumed to be success.
- Delegation.Orchestrator.DelegateTask: one atomic call, as in a sequential run; what overlapping calls do is modelled for the workers of one fan-out only, where reading the parent and counting its active children is one step.
- FanOut.EveryInterleaving: runs on values; goroutines appear as interleaved atomic steps, nothing but the fan-out changes the parent meanwhile, executors leave the store alone, and output text, artifacts, durations and the final usage update of the parent are dropped.
- EventStream.EveryRun: runs on values with interleaved atomic steps; a missing store is not modelled.
- Channel and subscriber bookkeeping in events.go (one channel per tenant and work, removal on leaving).
- GroupSend.BegunDeliverable: lengths are counted in characters, not bytes.
- SHA-256: the roster revision is modelled as the text that is hashed, and secrets are compared directly.
- HubRegistry.Hub.RegisterContext: the declaration's validity is a flag; provider, transport, capabilities and card are not kept.
- Hub persistence callbacks, `Load`, `RotateTokenContext` and policy changes: they neither sweep first nor respect the cap.
- AssignmentController.MachineClient.ApplyAssignmentEvent: a runner is the configuration it was last given; the derived executor configuration, display name and process are not modelled.
- The revision comparison of `ReconcileRoster`, which only logs, a nil replay and saving the cursor to disk.
- Receivers.Connection.Receive: hands over the bodies of the other message types undecoded, so their decode errors do not occur; startup, TLS and cancel requests, and the authentication state that selects among password messages, are not modelled.
- Receivers.Connection.NextChunk: a negative length counts as a failed read.
- Slice aliasing between decoded values and the input, and between a destination and an encoder's result; only the reused backing array of `DataRow` is an array.
- The destination's content after a failed decode.
- GroupSend.MemoryHubGroupStore.BeginSend: timestamps, trust marks, the state in delivery summaries and a missing mailbox are dropped; invitations, ownership and archiving appear as arbitrary changes of a group.
- RateLimiter.AnyWindowBounded: times are integers after the zero time, so the saturation of very long durations is not modelled.
- Text.TrimSpace: knows the spaces of Latin-1 only.
- HTTP routing, JSON, streaming clients, timers, `CancelWorkTree`, policy, isolation, trace, card, bridge bindings and the drain runner.
