# Service Admin: layered layout, packaged proxy, log window and table state

This project models the parts of Service Admin whose correctness is not visible from one function at a time, and
proves what they keep over every input, every step or every run.

- **Dependency page layout** (`DependencyGraph`, `DependencyWorklist`, `LayerGrid`, `DependencyLayout`). The automatic
  layout counts dependency entries, drains a worklist, gives every service it can resolve the length of its longest
  dependency path, pushes all others into one last layer, lays every layer out on a line and moves the selected
  service to the origin. `AutoLayout` is the whole algorithm, loop for loop; what it is proved to satisfy
  determines every position (`LayoutUnique`), independent of queue order.
- **Diagnostic writer** (`DiagnosticWriter`, `WriterHistory`). A bounded queue drained by one native write at a time. `State` and `Step`
  describe it as a machine in which a native write may complete while it is submitted, later, in part, repeatedly or
  with an error; class `Writer` is the imperative code and equals the machine step by step. When it accepts a line and
  when it fails is then told by its events and the limits in figures.
- **Body readers** (`BodyReaders`, `HeaderFraming`). Chunks are copied into one fixed buffer. Each reader is a class
  over an array, proved against a function of the stream; the function is shown not to depend on chunking. The framing
  accepted from raw headers is a stricter form of section 6.3 of RFC 9112 and section 8.6 of RFC 9110.
- **Source-admission route** (`SourceAdmission`, `SourceDiagnostics`, `SourceEvidence`). A machine stepped by any number
  of concurrent requests, the clock, the timer, closing sockets and the closing server: one owner at a time, upstream
  only after a whole and timely body, release only after everything closed. Its lifetime lines are numbered without a
  gap and, read alone, are a true account of who owned the route. `SourceHistory` and `SourceEndings` tell the same
  machine by what happened to it: who is admitted, what is sent upstream (exactly the whole and timely bodies of trusted
  owners) and how requests and diagnostics end.
- **Leases of ordinary request bodies** (`GenericLease`, `LeaseHistory`). Eight leases, given whenever fewer are held, each
  given back once, none ever lost; a whole and timely body under a lease is sent.
- **Log window** (`LogReader`, `LogWindow`). The endpoint's slice arithmetic and the viewer's window over an
  append-only file, with the exact conditions under which the window is what it claims to be.
- **Role claims** (`RoleClaims`), **table state in the URL** (`TableUrlState`) and **dashboard numbers**
  (`DashboardMetrics`).

`Common` holds what several of them share. `dafny verify dfyconfig.toml` verifies everything.

## What turned out not to hold, and when it does

Each of these is proved with its exact condition.

- *A service whose id is the empty string.* The worklist takes an empty id for a missing entry and skips it
  (`src/features/dependencies/index.tsx:247`), so its dependents are never resolved. The model keeps this: an obstacle
  is a cycle or that id, and the services left waiting are exactly those reachable from an obstacle.
- *Older lines after growth.* Loading older lines records the file's new length without its new lines. The window is
  exact afterwards if and only if the file had not grown (`LogWindow.AnsweredExact`); the gap then stays, the very same
  lines, until a poll reports more new lines than one chunk holds (`LogWindow.GapStays`). Over whole sessions the number
  of lines lost is exactly what the file grew by before such loads (`LogWindow.SessionExactIff`).
- *A log file that does not exist yet* is answered by two lines of explanation that count as lines of the file. The
  window that showed them is exact after the file appears if and only if the poll replaces it or the file's first two
  lines read the same (`LogWindow.PlaceholderStays`).
- *A file that stops in the middle of a line.* Appending bytes appends lines, whatever the bytes, if and only if the
  file is empty or ends with a line feed (`LogReader.AppendOnlyIff`).
- *Pages before the default page* do not survive the URL; pages from the default page on do (`TableUrlState.PageRoundTrip`).
- *`ensurePageInRange`* navigates again and again, to where it already is, unless it resets to the last page or the
  default page is in range (`TableUrlState.EnsureStabilises`). With default page one a single navigation is enough.

One number in the documentation differs: `docs/reference/source-admission-proxy-lifetime-diagnostics.md:7` gives 99 bytes
for the longest lifetime line. The code's longest line has 93 (`SourceDiagnostics.WrittenLength`,
`SourceDiagnostics.LongestLineReached`), and the model follows the code.

## Model

| member | source | states |
|---|---|---|
| DependencyGraph.GraphOfUnique | src/features/dependencies/index.tsx:217-224 | with distinct ids, the table by id holds exactly the visible services, each with its own dependency entries |
| DependencyGraph.WalkBack | src/features/dependencies/index.tsx:245-257 | from a service that still waits, one can walk back along dependencies for any number of steps, or meets the skipped empty id |
| DependencyGraph.Repeats | src/features/dependencies/index.tsx:259-264 | pigeonhole: a walk longer than the number of services visits one twice |
| DependencyGraph.HeldBackIsBlocked | src/features/dependencies/index.tsx:259-264 | a service that still waits for an unprocessed one is reachable from a cycle or from the skipped empty id |
| DependencyGraph.SettledIsNotBlocked | src/features/dependencies/index.tsx:245-257 | a dequeued service is not reachable from any cycle (a self-dependency included) nor from the empty id |
| DependencyWorklist.BuildEdges | src/features/dependencies/index.tsx:221-236 | the edge tables: every service lists its dependents once per dependency entry, and counts the visible entries it waits for, repetitions included |
| DependencyWorklist.ReadyServices | src/features/dependencies/index.tsx:238-243 | the queue starts with exactly the services that wait for nothing, each once, and all depths with zero |
| DependencyWorklist.Relax | src/features/dependencies/index.tsx:249-256 | one dequeued service keeps the worklist invariant: counts equal the entry occurrences of unprocessed services, no id is enqueued twice, depths have a witness and grow along processed edges |
| DependencyWorklist.ResolveLayers | src/features/dependencies/index.tsx:245-257 | the loop ends; exactly the services not blocked leave the queue, each once; those left waiting are exactly the blocked ones |
| DependencyWorklist.UnresolvedIsBlocked | src/features/dependencies/index.tsx:259-264 | a service keeps a positive count if and only if it is reachable along at least one edge from a cycle or from the skipped empty id |
| DependencyWorklist.EntriesAccounted | src/features/dependencies/index.tsx:249-256 | decrements are accounted for: what a service still waits for and its entries naming processed services make up all its visible entries |
| DependencyWorklist.DepthIsLongest | src/features/dependencies/index.tsx:242-257 | every depth is the length of the longest walk to the service through processed services |
| DependencyWorklist.ResolvedLongest | src/features/dependencies/index.tsx:242-257 | for a resolved service that is its longest dependency path of all |
| DependencyWorklist.OpenIsProcessed | src/features/dependencies/index.tsx:245-264 | the processed services are exactly the unblocked ones with a non-empty id |
| DependencyLayout.MaxDepth | src/features/dependencies/index.tsx:260 | the greatest depth: reached by a service and exceeded by none |
| DependencyLayout.PushUnresolved | src/features/dependencies/index.tsx:261-264 | every service that still waits moves to the layer after the greatest depth, no other moves |
| DependencyLayout.LayersCorrect | src/features/dependencies/index.tsx:259-264 | resolved services stand in the layer of their longest dependency path, all others in one layer after every walk through processed services |
| DependencyLayout.LayeredUnique | src/features/dependencies/index.tsx:238-264 | the layering is determined by the graph, whatever the order of the list and the queue |
| DependencyLayout.EdgesAcrossLayers | src/features/dependencies/index.tsx:259-264 | an edge out of a resolved service leads to a strictly later layer; an edge out of an unresolved one leads to an unresolved one in the same last layer; resolved services come before it |
| LayerGrid.SortIdsSorts | src/features/dependencies/index.tsx:280 | a layer is put into collation order and remains the same ids, repetitions included |
| LayerGrid.SortedLayerMembers | src/features/dependencies/index.tsx:266-280 | a sorted layer holds exactly the services of that layer, each once |
| LayerGrid.GroupLayers | src/features/dependencies/index.tsx:266-270 | the layer table lists under each layer its services in listing order |
| LayerGrid.PlaceLayers | src/features/dependencies/index.tsx:272-296 | every service, and nothing else, is placed at the point that its layer and its rank in the sorted layer give |
| LayerGrid.PositionsDistinct | src/features/dependencies/index.tsx:283-294 | two services never share a point, in either orientation |
| LayerGrid.PartialAcrossSum | src/features/dependencies/index.tsx:281-294 | the sum of the first n positions across a line, in closed form |
| LayerGrid.LineCentred | src/features/dependencies/index.tsx:281-294 | the points of a line add up to zero across it |
| LayerGrid.LayerCentred | src/features/dependencies/index.tsx:272-294 | in every placed layout, the services of each layer stand centred on zero |
| DependencyLayout.MoveToOrigin | src/features/dependencies/index.tsx:299-306 | every position moves by the selected service's own |
| LayerGrid.LayersApart | src/features/dependencies/index.tsx:272-294 | services of later layers, and only those, stand strictly further along |
| LayerGrid.PlacedUnique | src/features/dependencies/index.tsx:272-294 | layers and collation determine every position |
| LayerGrid.PlacedMeasured | src/features/dependencies/index.tsx:272-294 | services of layers l and m stand (m - l) * 310 apart in x, or (m - l) * 190 in y when vertical; layer 0 stands at 0 |
| LayerGrid.PlacedLineMeasured | src/features/dependencies/index.tsx:274-294 | the services of a layer follow each other 130 apart in y, or 250 in x when vertical, later ids further along |
| DependencyLayout.AutoLayout | src/features/dependencies/index.tsx:213-309 | the whole layout: the layering of the graph, every layer on its line, moved to the selected service |
| DependencyLayout.LayoutUnique | src/features/dependencies/index.tsx:213-309 | only one assignment of positions is such a layout |
| DependencyLayout.MoveKeepsShape | src/features/dependencies/index.tsx:298-306 | moving keeps all differences; the selected service ends at (0, 0) |
| DependencyLayout.LayoutCentred | src/features/dependencies/index.tsx:272-306 | in the finished layout all layers are centred on one common axis, which is zero unless a placed service is selected |
| DependencyLayout.LayoutMeasured | src/features/dependencies/index.tsx:272-306 | in the finished layout layers are 310 apart (190 when vertical), neighbours in a layer 130 (250), and layer 0 stands at 0 unless a placed service is selected |
| DependencyLayout.LayoutReadable | src/features/dependencies/index.tsx:213-309 | every service is placed, on a point of its own, each dependency strictly before its dependents, except that the services on or behind a cycle share one line beyond all others |
| DiagnosticWriter.StepSound | runtime/server.js:701-740 | every event keeps the invariant: nothing is un-acknowledged, only accepted lines are added, a failure is for good, and after retirement no native write is submitted |
| DiagnosticWriter.RunSound | runtime/server.js:701-740 | the invariant over every run; the admitted bytes are those of the lines for which `write` returned true |
| DiagnosticWriter.WriterConserves | runtime/server.js:711-737 | until a failure, acknowledged bytes and the queue's unwritten rest make up the accepted lines; after one, acknowledged bytes, and a write still in flight, stay a prefix; one native write at most; one failure report at most |
| DiagnosticWriter.RetiredIff | runtime/server.js:701-740 | between events the promise is resolved if and only if retiring, nothing pending and queue empty |
| DiagnosticWriter.RetiredForGood | runtime/server.js:701-740 | once resolved it stays so: no later event submits a native write or acknowledges a byte |
| DiagnosticWriter.DrainsToRetirement | runtime/server.js:711-724 | a retiring writer whose native writes complete, in whatever way, retires within as many completions as there are unwritten bytes and entries |
| DiagnosticWriter.RefusesOnlyAfterFailure | runtime/server.js:729-738 | told no more than its limits allow and no line after retirement, it refuses no line unless a native write failed |
| DiagnosticWriter.AcceptsWithinLimits | runtime/server.js:729-738 | so it is for any first part of lines that are within the limits |
| WriterHistory.AcceptedIff | runtime/server.js:729-738 | over every run `write` returns true if and only if enabled, not failed, never asked to retire, text of at most 128 units and bytes, fewer than 513 lines accepted, and at most 65536 bytes with this one |
| WriterHistory.FailedIff | runtime/server.js:702-739 | over every run the writer has failed if and only if, while enabled and not failed, a line was offered without room or an awaited native write threw or reported an error, no integer, nothing, or more than it was offered |
| WriterHistory.ProgressCounts | runtime/server.js:717-723 | a report of n bytes, at least one and no more than were offered, makes no writer fail and acknowledges exactly the next n bytes of the line in flight |
| DiagnosticWriter.Writer.constructor | runtime/server.js:692-700 | a new writer is in the machine's initial state |
| DiagnosticWriter.Writer.SettleRetirement | runtime/server.js:701 | resolves exactly when retiring with nothing pending and nothing queued |
| DiagnosticWriter.Writer.FailStop | runtime/server.js:702-710 | the first failure is reported, the queue discarded, retirement settled |
| DiagnosticWriter.Writer.PumpQueue | runtime/server.js:711-727 | submits the head of the queue and follows completions that arrive during the submission, as the machine does |
| DiagnosticWriter.Writer.CountWritten | runtime/server.js:721-722 | the entry in flight moves on by the reported bytes and leaves the queue when it is written out |
| DiagnosticWriter.Writer.Complete | runtime/server.js:716-724 | a first completion advances the entry by the reported bytes or fails the writer, as the machine does |
| DiagnosticWriter.Writer.Report | runtime/server.js:715-719 | a late report counts only for the write that is awaited; a repeated one changes nothing |
| DiagnosticWriter.Writer.Write | runtime/server.js:729-739 | returns whether the line is accepted, and steps the machine |
| DiagnosticWriter.Writer.Retire | runtime/server.js:740 | steps the machine by the retire event |
| BodyReaders.BoundedChunkingInvariant | runtime/server.js:569-614 | for every way of cutting a stream the outcome is the same; it resolves to exactly its bytes if and only if complete, at most 1 MiB, and as long as declared when declared; the declared length of 1 MiB + 1 included |
| BodyReaders.BoundedResolvesOnlyWhole | runtime/server.js:583-613 | over any events it resolves only after buffers up to a complete end, to their concatenation |
| BodyReaders.BoundedOutcome | runtime/server.js:569-607 | the outcome in figures: too large, incomplete, or the bytes, decided by declared length, total and completeness, the declared 1048577 included |
| BodyReaders.BoundedBreaksOff | runtime/server.js:588-600 | a stream that errs, is aborted or delivers no buffer: too large if it was by then, otherwise incomplete or interrupted |
| BodyReaders.BoundedSettles | runtime/server.js:579-587 | what follows the outcome does not change it |
| BodyReaders.BoundedReader.constructor | runtime/server.js:569-577 | an over-long declared body is refused without a buffer; otherwise the buffer is the declared length, at most 1 MiB |
| BodyReaders.BoundedReader.OnData | runtime/server.js:590-600 | copying a chunk stays in bounds, keeps the received prefix in the buffer, and settles as the specification says |
| BodyReaders.BoundedReader.OnEnd | runtime/server.js:601-606 | the end settles as the specification says, from the bytes in the buffer |
| BodyReaders.BoundedReader.OnError | runtime/server.js:589 | an error settles a reader that still reads, and only such a one |
| BodyReaders.BoundedReader.OnAbort | runtime/server.js:588 | so does the abort signal |
| BodyReaders.StrictChunkingInvariant | runtime/server.js:124-161 | for the owner's body and the upstream body alike, the bytes and the end decide, not the chunks |
| BodyReaders.StrictResolvesOnlyWhole | runtime/server.js:141-160 | it resolves only after a complete stream of exactly the expected length, without trailers where they are refused |
| BodyReaders.UpstreamResolvesIff | runtime/server.js:187-217 | the upstream body is handed on, as its very bytes, if and only if complete, at most 8 MiB, and as long as declared when declared |
| BodyReaders.OwnerResolvesIff | runtime/server.js:139-153 | the owner's body is taken if and only if complete, without trailers, and of just the declared length |
| BodyReaders.StrictBreaksOff | runtime/server.js:136-147 | a stream that breaks off gives no body |
| BodyReaders.StrictReader.constructor | runtime/server.js:124-128 | allocates the capacity; an upstream length above it is refused |
| BodyReaders.StrictReader.OnData | runtime/server.js:139-147 | copying stays in bounds and keeps the buffer equal to what was received |
| BodyReaders.StrictReader.OnEnd | runtime/server.js:148-153 | the end settles as the specification says |
| BodyReaders.StrictReader.OnErrorOrAbort | runtime/server.js:136-138 | an error or abort settles a reader that still reads |
| HeaderFraming.FileHeaders | runtime/server.js:49-55 | the table of fields holds under every lower-case name its values in order of arrival, and no empty list |
| HeaderFraming.ScanStrict | runtime/server.js:48-81 | over raw fields, each refusal with its status and code, in the code's order: coding or trailers, a body where none is taken, content type, length, limit |
| HeaderFraming.StrictAcceptsIff | runtime/server.js:56-80 | a length n is accepted if and only if no field announces a coding or trailers, the one content type is the policy's with only spaces and tabs around it, and the one length says n, positive, of at most eight digits, within the limit |
| HeaderFraming.FixedLengthIff | runtime/server.js:83-94 | the other two readers yield n if and only if the one length says n, without codings and trailers and at most 1048576 for the first, without transfer coding for the second |
| HeaderFraming.ScanRejected | runtime/server.js:83-94 | the one-pass scan with its early exit yields n exactly for one length that says n, at most 1 MiB, without codings or trailers |
| HeaderFraming.ScanGeneric | runtime/server.js:558-567 | the ordinary scan yields n exactly for one length that says n, without transfer coding |
| HeaderFraming.DecimalOfNumber | runtime/server.js:74-80 | a canonical length, read and written back, is the same text |
| HeaderFraming.ReadersAgree | runtime/server.js:48-94 | the three readers never disagree on a length; an accepted body length is positive, within the policy, and is forwarded in the text it came in |
| SourceAdmission.LocalKept | runtime/server.js:227-289 | an event of one request keeps its own invariant and neither gives nor takes ownership |
| SourceAdmission.StepSafe | runtime/server.js:793-855 | every event of the server keeps: one holder at most, the flag true exactly while there is one |
| SourceAdmission.RunSafe | runtime/server.js:793-855 | hence over every interleaving of any number of requests |
| SourceAdmission.OneOwner | runtime/server.js:808-853 | flag if and only if a holder; one outgoing object open at most; released only with request, socket, outgoing and incoming closed; a denied request sends nothing upstream |
| SourceAdmission.MemoryBounded | runtime/server.js:124-203 | all requests together keep at most the owner's policy limit plus one 8 MiB response buffer reachable, and nothing while the route is free; a denied request keeps nothing |
| SourceAdmission.UpstreamOnlyWholeAndTimely | runtime/server.js:227-277 | an outgoing request exists only with a body that is the concatenation of a stream ended complete, without trailers, of exactly the declared length, every step less than the idle limit after the last and within the absolute limit, whether or not the timer ever fires |
| SourceHistory.ArrivalsRecorded | runtime/server.js:793-826 | requests are the arrivals before the server closed, one for one and in order, with their fields, policy and time |
| SourceHistory.AdmittedIff | runtime/server.js:808-822 | an arriving request becomes the owner if and only if no earlier one holds the route; a trusted owner reads its body if its fields allow one and drops it otherwise; any other request goes to its end |
| SourceHistory.RefusedSendsNothing | runtime/server.js:819-822 | over every run a request that was denied, is not trusted, or whose fields allow no body, sends nothing and keeps no buffer |
| SourceHistory.WholeBodyForwarded | runtime/server.js:227-277 | over every run, whatever other requests do, a trusted owner whose body comes whole, in time and as its fields allow sends, at its turn, exactly that body |
| SourceHistory.ForwardedOnly | runtime/server.js:227-277 | and nothing else is sent: only at a turn before the client went, only the parts the stream delivered up to a complete end without trailers, and only within both limits, all told by events |
| SourceEndings.TurnIff | runtime/server.js:260-271 | a whole body is sent at its turn if and only if the socket stands, the sender record succeeds, the request was not aborted and neither limit has run out |
| SourceEndings.ReadingStops | runtime/server.js:230-250 | reading stops when the client goes and at the timer's first look after a limit; an earlier look changes nothing |
| SourceEndings.ClientGoneAborts | runtime/server.js:237-246 | a request is aborted when its client goes, and stays aborted |
| SourceEndings.ProgressWatched | runtime/server.js:233-236 | each chunk of the response, or of a body being dropped, starts the idle limit afresh or, too late, aborts |
| SourceEndings.AnsweredIff | runtime/server.js:212-276 | a result counts only if not aborted; the client is answered only after both upstream objects closed, with such a result, before the absolute limit |
| SourceEndings.ReleasedIff | runtime/server.js:843-850 | a request is released if and only if at its end with request and socket closed; the owner's release frees the route |
| SourceAdmission.RouteComesFree | runtime/server.js:843-853 | from every reachable state the owner's endings free the route again, without a timer or a new request |
| SourceAdmission.StepLogSafe | runtime/server.js:756-855 | every event keeps the log orderly and the handler counter equal to the unreleased requests |
| SourceAdmission.LifetimeLinesOrdered | runtime/server.js:771-786 | over every run: numbers 1 to n, n at most 513, an overflow line only as number 513, and retirement the last thing the writer hears, after the server closed and every handler finished |
| SourceEndings.OverflowIff | runtime/server.js:774-781 | lines have overflown if and only if there are 513 of them or a native write has failed |
| SourceEndings.RetiredIff | runtime/server.js:771-773 | the writer has been told to retire if and only if the server has closed and, with diagnostics on, every request was released |
| SourceEndings.SenderRecords | runtime/server.js:823-830 | at most 32 sender records are written, over every run |
| SourceEndings.SenderRecordedIff | runtime/server.js:823-830 | a record is written if and only if diagnostics are on, the facts found are plausible, and fewer than 32 sockets were looked at before |
| SourceAdmission.LifetimeLinesAccepted | runtime/server.js:774-786 | without sender records, the writer's line, byte and total limits refuse no lifetime line, the last one before retirement included, whatever the native side does short of failing |
| SourceEvidence.StepTruthful | runtime/server.js:774-853 | every event keeps the lines a consistent account and, until they overflow, a complete one |
| SourceEvidence.LinesTellTheTruth | runtime/server.js:774-853 | over every run: decisions are numbered 1, 2, 3, ...; the route is given away only when the lines say it is free and denied only when they say it is not; a socket closes once; exactly the owner is released, once, after its socket closed; roles agree; and until overflow the lines tell the state of every request and of the route |
| SourceEvidence.OneOwnerInLines | runtime/server.js:808-853 | lines that are such an account never show two owners at once |
| SourceDiagnostics.ObserveOrderly | runtime/server.js:774-786 | an observed line keeps the numbering, and overflows only as line 513 |
| SourceDiagnostics.WrittenLength | runtime/server.js:782 | a lifetime line has at most 93 bytes |
| SourceDiagnostics.WrittenIs | runtime/server.js:782 | the line field by field, each number and word where it belongs |
| SourceDiagnostics.LongestLineReached | runtime/server.js:782 | and one has exactly that many |
| SourceDiagnostics.SpokenCounts | runtime/server.js:782-785 | what a log makes the writer hear: its number of lines, their total size and that each fits |
| SourceDiagnostics.OrderlyFitsWriter | runtime/server.js:729-737 | an orderly log stays within every limit of the writer |
| GenericLease.LocalKept | runtime/server.js:898-925 | an event of one request keeps its own invariant and its lease |
| GenericLease.StepSafe | runtime/server.js:865-982 | every event keeps the counter equal to the leases held, within 0..8 |
| GenericLease.LeasesConserved | runtime/server.js:865-898 | over every run the counter is the number of leased, unreleased requests; retained buffers never exceed 8 MiB in all |
| LeaseHistory.LeaseGivenIff | runtime/server.js:880-881 | an arriving request gets a lease if and only if fewer than eight earlier ones hold one; the counter then goes up by one |
| LeaseHistory.BuffersHeld | runtime/server.js:576-577 | a leased request keeps a buffer of its declared length, at most 1 MiB, until its release, and any other none |
| GenericLease.StepReturns | runtime/server.js:968-980 | one step lowers the counter by one, and only as the release of a leased request after request and response, and after a failure the socket, closed |
| GenericLease.StepLeases | runtime/server.js:880-980 | each step keeps account of the leases given, counted and gone |
| GenericLease.ReturnedOnce | runtime/server.js:880-980 | over every run: leases given are those counted plus those returned; the counter fell for a request exactly once if it was leased and is released, and never otherwise; every fall is such a release |
| GenericLease.LeaseComesBack | runtime/server.js:925-980 | from every reachable state an unreleased request can be released by events of its own, which gives its lease back and touches no other request |
| GenericLease.SentWholeAndLeased | runtime/server.js:897-925 | a body is sent only under a lease, whole, at most 1 MiB, as long as declared, before the deadline |
| LeaseHistory.WholeBodySent | runtime/server.js:897-925 | over every run a leased, trusted request whose body comes whole, within 1 MiB, as declared and before its deadline sends exactly that body |
| LeaseHistory.RefusedSendsNothing | runtime/server.js:898-904 | a request without a lease, with an unusable target or an over-long declared body sends nothing |
| LeaseHistory.FetchIff | runtime/server.js:905-920 | a body is sent at its turn if and only if trusted, not aborted and before the deadline; otherwise the request fails |
| LeaseHistory.ReadingStops | runtime/server.js:583-613 | reading stops when the client goes, at the timer's first look after the deadline, and when the stream fails; the socket must then close |
| LeaseHistory.Aborts | runtime/server.js:883-897 | a request is aborted when its client goes and by the timer once the deadline has passed |
| LeaseHistory.ExchangeEnds | runtime/server.js:927-944 | an exchange ends without insisting on the socket if and only if answered in time and not aborted |
| LeaseHistory.ReleasedIff | runtime/server.js:968-980 | a request is released if and only if at its end with request and response closed and, after a failure, the socket |
| LogReader.LinesAppend | vite.config.ts:81-87 | appending to a text that ends with a line feed appends lines and changes none |
| LogReader.UnterminatedChanges | vite.config.ts:81-87 | appending one character to any other text changes its last line |
| LogReader.AppendOnlyIff | vite.config.ts:81-87 | hence growth is append-only at the level of lines if and only if the text is empty or ends with a line feed |
| LogReader.Limit | vite.config.ts:112-116 | a finite limit is used as it is within 1..1000 and at the nearer bound beyond; otherwise 100 |
| LogReader.Before | vite.config.ts:118-123 | a finite position is used as it is within the file and at the nearer bound beyond; otherwise the end |
| LogReader.LineRead | vite.config.ts:81-87 | text up to a line feed is one line, without a carriage return just before it; text after the last line feed is a line if there is any |
| LogReader.FirstLine | vite.config.ts:81-87 | so a file's lines are its first line, either ending, and the lines of the rest |
| LogWindow.FetchShows | vite.config.ts:285-306 | an answer is the stretch of the file before the position, redacted line by line, and says whether anything precedes it |
| LogWindow.PolledIs | src/features/logs/service-log-viewer.tsx:621-645 | a poll does nothing, starts afresh with an exact window, or appends exactly the lines between the recorded length and the new one |
| LogWindow.PollExact | src/features/logs/service-log-viewer.tsx:621-645 | a poll keeps an exact window exact, in the append branch and the replace branch; a stale one changes nothing |
| LogWindow.FollowExact | src/features/logs/service-log-viewer.tsx:612-645 | polls delivered in any order, late or lost, keep the window exact; it ends at the greatest length delivered |
| LogWindow.StartsExact | src/features/logs/service-log-viewer.tsx:549-584 | so it is from the first load on, and also when that load failed |
| LogWindow.SessionExact | src/features/logs/service-log-viewer.tsx:457-645 | any mixture of first loads, failures, polls and older lines keeps the window exact while older lines are loaded only at the recorded length |
| LogWindow.SessionExactIff | src/features/logs/service-log-viewer.tsx:457-645 | in every session the window lacks exactly as many lines as the file grew by before loads of older lines since it was last replaced; it is exact if and only if that is none |
| LogWindow.AnsweredExact | src/features/logs/service-log-viewer.tsx:457-645 | the one answer that spoils an exact window is older lines from a file that has grown |
| LogWindow.OlderShows | src/features/logs/service-log-viewer.tsx:480-483 | older lines extend the window to the front without gap or repetition |
| LogWindow.OlderAfterGrowth | src/features/logs/service-log-viewer.tsx:471-483 | after growth the lines in between are lost; the next poll repairs the window if and only if it replaces it |
| LogWindow.GrowthOpensGap | src/features/logs/service-log-viewer.tsx:471-483 | what is missing is exactly the file between the recorded length and the new one |
| LogWindow.GapStays | src/features/logs/service-log-viewer.tsx:621-645 | those very lines stay missing through any polls, until and only until one reports more new lines than a chunk holds |
| LogWindow.PagingBack | src/features/logs/service-log-viewer.tsx:457-495 | on a file of fixed length, k loads of older lines show exactly the last (k + 1) * limit lines, and all in the end |
| LogWindow.ReadsNeeded | src/features/logs/service-log-viewer.tsx:457-495 | reading stops after the length divided by the limit, rounded up |
| LogWindow.PlaceholderStays | vite.config.ts:97-105 | when a window that showed the placeholder for a missing file is exact once the file exists |
| LogWindow.Viewer.constructor | src/features/logs/service-log-viewer.tsx:446-449 | the viewer starts empty |
| LogWindow.Viewer.LoadInitial | src/features/logs/service-log-viewer.tsx:551-578 | the first load replaces the window, its failure empties it |
| LogWindow.Viewer.LoadOlder | src/features/logs/service-log-viewer.tsx:457-483 | older lines go in front, if any are known to exist |
| LogWindow.Viewer.FollowPoll | src/features/logs/service-log-viewer.tsx:621-645 | a poll is ignored, appended or replaces the window |
| RoleClaims.UniqueKeepsOrder | runtime/server.js:389 | removing duplicates keeps the same claims in the order of first occurrence |
| RoleClaims.RolesListed | runtime/server.js:382-391 | at most twenty well-formed roles, the first ones the header lists, all of them if fewer than twenty |
| RoleClaims.NeverOutgrows | runtime/server.js:382-391 | the forwarded list is no longer than the header it came from |
| RoleClaims.SplitJoin | runtime/server.js:386-390 | splitting a joined list gives the list back |
| RoleClaims.ClaimsIdempotent | runtime/server.js:365-391 | a forwarded list, fed back, is forwarded unchanged; neither the 1024 bound nor the twenty-role bound can stop it |
| RoleClaims.SafeHeaderIff | runtime/server.js:365-375 | a header passes if and only if its first value, without the white space around it, is not empty, not too long and free of control characters |
| Common.SpaceIs | runtime/server.js:368 | the white space that trimming removes, by code point |
| RoleClaims.RoleShape | runtime/server.js:388 | a role is a small letter and up to 63 more small letters, digits and hyphens |
| RoleClaims.SplitCuts | runtime/server.js:386 | the header is cut at every comma and nowhere else |
| RoleClaims.NormalIff | runtime/server.js:387 | a piece names a role if and only if, white space around it aside, it spells it in letters of either case |
| RoleClaims.ForwardedRoles | runtime/server.js:382-391 | what is forwarded: at most twenty roles, none twice, each named by a piece of the header, and every such one if fewer than twenty |
| RoleClaims.ForwardedIff | runtime/server.js:382-391 | something is forwarded if and only if the header passes and a piece of it names a role |
| TableUrlState.InitialColumnFilters | src/hooks/use-table-url-state.ts:89-108 | collects, in column order, exactly the columns whose key holds a text that is not blank or a list that is not empty |
| TableUrlState.OnColumnFiltersChange | src/hooks/use-table-url-state.ts:161-191 | the page is forgotten and the columns' keys are rewritten |
| TableUrlState.FiltersInUrl | src/hooks/use-table-url-state.ts:167-190 | each column's key holds the serialised value of its first filter, if that is worth keeping, and nothing otherwise; the page's key holds nothing |
| TableUrlState.FiltersRoundTrip | src/hooks/use-table-url-state.ts:89-191 | filters written and read back are the normalised filters in column order; unrelated keys are untouched |
| TableUrlState.ReencodeFixpoint | src/hooks/use-table-url-state.ts:161-191 | writing back what was read changes nothing |
| TableUrlState.PageRoundTrip | src/hooks/use-table-url-state.ts:113-134 | a page survives if and only if it does not come before the default page; the page size always does |
| TableUrlState.PageInUrl | src/hooks/use-table-url-state.ts:122-134 | the page stands in the URL counted from one, left out up to the default; the size is left out if it is the default; all other keys stay |
| TableUrlState.PageFromUrl | src/hooks/use-table-url-state.ts:113-120 | the page read is one less than the number there, not below zero, or the default |
| TableUrlState.EnsureTarget | src/hooks/use-table-url-state.ts:193-208 | it navigates if and only if the page is beyond a positive count, to the last page or to none, leaving all other keys |
| TableUrlState.EnsureStabilises | src/hooks/use-table-url-state.ts:193-208 | after any number of calls the page is where the first navigation put it; it is in range if and only if the last page is the target or the default page exists |
| DashboardMetrics.KeepFirst | src/features/dashboard/dashboard-home-metrics.ts:38-50 | keeps the first record of every id, no other, in order of appearance |
| DashboardMetrics.FirstWins | src/features/dashboard/dashboard-home-metrics.ts:38-50 | the kept records are those at the positions where their ids first occur, all of them, in increasing order |
| DashboardMetrics.ListDashboardServices | src/features/dashboard/dashboard-home-metrics.ts:35-51 | favourites, then others, then problems, first record wins |
| DashboardMetrics.FirstByIdOnce | src/features/dashboard/dashboard-home-metrics.ts:35-51 | every listed id is kept, each once |
| DashboardMetrics.CountFleet | src/features/dashboard/dashboard-home-metrics.ts:206-242 | the loop counts every bucket, crashed first |
| DashboardMetrics.DeriveFleetMix | src/features/dashboard/dashboard-home-metrics.ts:192-244 | each bucket counts distinct ids, the five add up to the number of distinct ids, crashed is the number of listed ids reported as crashed |
| DashboardMetrics.FleetConserved | src/features/dashboard/dashboard-home-metrics.ts:192-244 | the same for every list of services, however often an id is repeated |
| DashboardMetrics.BucketsAre | src/features/dashboard/dashboard-home-metrics.ts:212-234 | each bucket holds the ids of its own status that are not reported as crashed |
| DashboardMetrics.CrashedIds | src/features/dashboard/dashboard-home-metrics.ts:197-204 | crashed are the ids whose metrics say last crashed and not running |
| DashboardMetrics.UniqueListenPorts | src/features/dashboard/dashboard-home-metrics.ts:128-158 | strictly sorted by port, holding exactly the entries of the endpoints that own their ports |
| DashboardMetrics.FirstListingIff | src/features/dashboard/dashboard-home-metrics.ts:133-155 | a port belongs to the first operator-facing endpoint of a running service that listens on it, in the order of services and endpoints |
| DashboardMetrics.TableUnique | src/features/dashboard/dashboard-home-metrics.ts:128-158 | that determines the table |
| DashboardMetrics.DedupeKeepsPorts | src/features/dashboard/dashboard-home-metrics.ts:35-51 | when records of one id agree, listing every service once first changes no first listing of a port |
| DashboardMetrics.DedupeSameTable | src/features/dashboard/dashboard-home-metrics.ts:128-158 | so the table of ports is the same |

## Left out

Assumptions about callers and surroundings:

- Service ids on the dependency page are distinct. The source would queue a duplicate twice.
- The layout's result map is a plain object; ids that name inherited properties of such an object are not singled out.
- Coordinates are exact numbers and layers are drawn in ascending order; the collation is any total preorder.
- Sockets, `http.request`, `fetch`, the file system and clocks are steps of the environment with a clock that never runs
  backwards. No response event follows a close, and no request arrives after the server closed.
- A native write that throws has written nothing, and the failure listener does not call back into the writer.
- Column search keys are distinct and serialisers invert each other; the page and page-size keys differ.
- A followed log file only grows; one service and one source per run.

Not modelled:

- Texts of sender records, the native addon, what makes its socket facts plausible, fixture loading and SHA-256.
- `resolvePackagedProxyHeaders` is reduced to whether the ingress identity is trusted.
- The route patterns of `sourceAdmissionProxyPolicy` and the timeout tables: a request carries any policy.
- `settleRejectedSourceBody`: counting the dropped bytes; dropping one chunk and the end of dropping are separate steps,
  and the end may come at any time.
- The exchange with the upstream is one phase of `SourceAdmission`; the incoming body is read by the reader of
  `BodyReaders` (`UpstreamFrame`), and a malformed upstream length counts like one that is too long.
- `readBoundedUpstream` and what is answered to the client, on both routes.
- A buffer counts as reachable until its request is released; when the engine reclaims it is not modelled.
- Static files, security headers, forwarded addresses and the rotation lifecycle lines.
- Rounding of lengths above 2^53 in the ordinary reader.
- A failing load of older lines or a failing poll: the state does not change.
- React scheduling: each answer is applied in one step, and no poll is in flight while older lines are loaded.
- `redactLogLine` is any function from a line to a line; log files are given as their decoded text.
- The global filter of the table hook; it has no loop and no decoding.
- How the router treats keys whose value is undefined; the record keeps such a key, and reading it is reading nothing.
- Lower-casing covers the letters A to Z and the Kelvin sign; no other character turns into one that a role or a header
  name compared here may contain.
- `isOperatorListenEndpoint` is reduced to an integer port and whether the label names a service endpoint.
- `buildLogSourceOptions`, log overviews, all page markup, styling and browser specifications.
