# Verified model of the TurnVector benchmark core

The benchmark decides whether an implementation may make a claim. This project models the parts
of it whose correctness is a statement about whole runs or all inputs, and proves those statements:

- **Canonical JSONL** (`Text`, `Json`, `Scanner`, `Spelling`, `CanonicalJsonl`, `Utf8`): a printer and a
  full RFC 8259 reader written out, the theorem that writing and parsing are inverse bijections between
  lists of records and the accepted byte strings, and what those byte strings are, code point by code point.
- **Weighted fair scheduling** (`Scheduling`, `SchedulingRules`, `Schedulers`, `PolicyLane`, `Fairness`,
  `Waiting`): the oracle and the reference driver as two classes, their bisimulation, the rules they follow
  in plain terms, the judge that compares a subject with the oracle, and what the policy guarantees over
  runs: fairness, proportional service, a waiting bound, and the run that shows where the bound ends.
- **Framed relay** (`Framing`, `Relay`, `RelayProgress`): the in-place framer and the event loop, against
  any outcome of select, recv and send, and the loop's end when every registered endpoint is served.
- **Source verification** (`Os`, `Descent`, `CompileLimits`, `Listings`, `Sums`, `ObligationSources`,
  `SourcePaths`, `CatalogLoading`): descriptors against a kernel in which any call may fail, chunked hashing, caps, and
  the rule that looser limits never change an accepted result.
- **Compiler accounting** (`Arena`, `Buffers`): the arena ledger, the one-shot fault injector, the
  scratch slab, the shared hash buffer and the output sink.
- **Fixture-taint interlock** (`Provenance`, `Taint`): a run against lanes that may change the fixture
  selection at any time, and the exact condition under which it is claimable.
- **Smaller loops** (`Drain`, `EventStream`, `CasePlan`, `Subsequence`).

Objects whose methods update fields are classes, and loops are loops with invariants; each is proved
against a specification function or predicate, and the main results are lemmas about those. Outside
behaviour (system calls, sockets, the clock, lane runners, subjects, the server) is a parameter: a script
or function that may say anything.

Three statements one might expect are false of the code, and for each the model gives a run that shows
it and the exact condition under which it holds.

- Waiting is not bounded for every run: two models that take turns to leave and come back starve a third
  (`Waiting.WaitingIsUnboundedWhenUnstable`). It is bounded over a class of runs if and only if the number
  of times models become runnable is (`Waiting.WaitingIsBoundedExactly`).
- A seam that names a fixture after a runner does not always taint the run
  (`Taint.MismatchHidesALaterFixture`). A revalidation taints by a fixture if and only if no lane before
  one bound to it disagrees with the snapshot (`Taint.SeenInOrderExactly`), and `Taint.TaintedExactly` says
  the same of whole runs. The seam always makes the run unclaimable (`Taint.ClaimableExactly`).
- A terminal state is not always last in an accepted event stream (`EventStream.StateAfterTerminal`). It is
  if and only if no event held back by a cancellation is terminal or the last status update held back is
  (`EventStream.TerminalIsLastExactly`).

`dafny verify dfyconfig.toml` checks the project.

## Model

| member | source | states |
|---|---|---|
| `Json.SortKeysNormalises` | turnvector_benchmark/canonical.py:285-286 | Key sorting puts every object at every depth in code-point key order, keeps validity, and only rearranges the members it was given. |
| `Json.CompactIsPrintable` | turnvector_benchmark/canonical.py:285-292 | Every printed value is printable ASCII, so the final ASCII encoding cannot fail and no line break occurs inside a line. |
| `Scanner.ValueReads` | turnvector_benchmark/canonical.py:201-206 | The RFC 8259 reader, started on a printed value followed by any delimiter, returns exactly that value and exactly the rest: escapes, surrogate pairs, unbounded integers, nesting. |
| `Scanner.LoadsInvertsCompact` | turnvector_benchmark/canonical.py:201-206 | Reading a whole printed text gives the value back, for every value without floats or lone surrogates and with unique keys. |
| `Spelling.WritesExactly` | turnvector_benchmark/canonical.py:285-292 | A text writes a clean value, said with literal code points (literals, brackets, digits without a leading zero, the seven short escapes, printable ASCII as itself, lowercase four-digit hex units and surrogate pairs for the rest), exactly when it is what the printer makes of it. |
| `Spelling.SpellingIsUnique` | turnvector_benchmark/canonical.py:217-227 | Two texts that both keep to the one allowed spelling and that the reader takes for the same value are the same text; so upper-case hex, white space and other escapes are never accepted. |
| `Utf8.DecodesExactly` | turnvector_benchmark/canonical.py:198-200 | Bytes decode to a text exactly when they are its UTF-8 bytes, character by character, and the text holds no surrogate. |
| `CanonicalJsonl.FirstDefectIsComplete` | turnvector_benchmark/canonical.py:129-193 | The explicit-stack walk finds nothing exactly when no float, lone surrogate (in a key or a value) or foreign value occurs at any depth. |
| `CanonicalJsonl.RejectNoncanonicalValues` | turnvector_benchmark/canonical.py:129-156 | The loop over the mutable stack decides the same property. |
| `CanonicalJsonl.RejectDuplicateKeys` | turnvector_benchmark/canonical.py:116-122 | The pairs hook refuses exactly the objects with a repeated key and otherwise keeps all pairs. |
| `CanonicalJsonl.SortKeysOfSorted` | turnvector_benchmark/canonical.py:217 | A value already in key order is its own normal form. |
| `CanonicalJsonl.LineRoundTrip` | turnvector_benchmark/canonical.py:196-228 | Encoding never fails on a record, and parsing the encoded line returns the record with its members in key order. |
| `CanonicalJsonl.AcceptedLine` | turnvector_benchmark/canonical.py:196-228 | An accepted line is byte for byte the encoding of the record it yields. |
| `CanonicalJsonl.AcceptedWriting` | turnvector_benchmark/canonical.py:196-228 | A line is accepted for exactly the value it writes: an object, no float or lone surrogate in it, every object's keys in order, said without the printer and the reader. |
| `CanonicalJsonl.AcceptedSpelling` | turnvector_benchmark/canonical.py:196-228 | The same through the reader: a line is accepted exactly when it keeps to the one allowed spelling and is read as such an object. |
| `CanonicalJsonl.KeysAscend` | turnvector_benchmark/canonical.py:285-286 | Keys are in order when each precedes the later ones at the first differing code point, or by ending first, at every depth. |
| `CanonicalJsonl.EncodingIsInjective` | turnvector_benchmark/canonical.py:273-294 | Two records encode to the same line exactly when they are the same dict up to member order. |
| `CanonicalJsonl.EncodingWrites` | turnvector_benchmark/canonical.py:273-294 | Encoding never fails on a record; the line ends in a line feed (0x0A) and before it writes the record with its keys in order, in the one allowed spelling. |
| `CanonicalJsonl.ParseCanonicalJsonlRecords` | turnvector_benchmark/canonical.py:231-270 | The cursor loop over the bytes, with its find, blank-line, limit and final-LF checks, computes the line-by-line specification. |
| `CanonicalJsonl.RecordsRoundTrip` | turnvector_benchmark/canonical.py:231-294 | For every non-empty list of records within the limit, parsing the concatenated lines returns the list, in normal form. |
| `CanonicalJsonl.AcceptedExactly` | turnvector_benchmark/canonical.py:231-270 | A byte string parses to a list if and only if the list is a non-empty list of key-ordered records within the limit and the bytes are the concatenation of their lines; so the empty string, a BOM, CR, blank lines and any other spelling are refused. |
| `CanonicalJsonl.AcceptedFileExactly` | turnvector_benchmark/canonical.py:231-270 | A byte string parses to a list exactly when it is, for each entry of the list in turn, a line that writes it and a byte 0x0A, with at least one line and no more than the limit. |
| `CanonicalJsonl.FilesAreInjective` | turnvector_benchmark/canonical.py:273-294 | Two lists of records are written to the same bytes exactly when they agree up to member order. |
| `Scheduling.MinLedger` | turnvector_benchmark/core.py:432-439 | The scan over a set of models returns the least ledger. |
| `Scheduling.LeastIndexIsFirstLeast` | turnvector_benchmark/core.py:450-469 | The selection key is least at the chosen candidate and strictly greater at every earlier one. |
| `Scheduling.MinCandidate` | turnvector_benchmark/core.py:450-469 | The scan implementing min returns that candidate. |
| `Scheduling.PlannedIsOffered` | turnvector_benchmark/core.py:442-474 | A plan selects an offered, eligible candidate whenever one exists; it is urgent exactly when an urgent one exists, and then selects an urgent one. |
| `Scheduling.SelectionIgnoresOrder` | turnvector_benchmark/core.py:442-474 | With distinct ids, the plan and the next state do not depend on the order candidates are listed in. |
| `SchedulingRules.SelectionRule` | turnvector_benchmark/core.py:442-474 | An urgent plan takes, among all candidates whose obligation leaves no slack, the least obligation minus both bounds, then the least ledger, then the least id; a normal plan takes the least ledger, then the least model, then the least id; there is no plan exactly when none is admitted. |
| `SchedulingRules.AlignmentRule` | turnvector_benchmark/core.py:428-440 | A schedule message makes exactly the admitted candidates' models runnable; those that were keep their ledgers, the others get the least of those or the remembered baseline; nothing else moves, and the plan shows these ledgers. |
| `SchedulingRules.ReceiptRule` | turnvector_benchmark/core.py:476-487 | The change of the selected model's ledger times its weight is the reported service, no other ledger moves, and the baseline is again the least runnable ledger. |
| `SchedulingRules.RefusalRule` | turnvector_benchmark/core.py:476-482 | A receipt is accepted exactly for the pending candidate by id and model, and each refusal has its own condition. |
| `SchedulingRules.StartRule` | turnvector_benchmark/core.py:421-426 | Before the first message every configured model, and no other, has its weight and a ledger of zero. |
| `Oracle.SchedulerOracle.SyncRunnable` | turnvector_benchmark/core.py:428-440 | Updates ledgers, runnable set and baseline to the aligned state and returns the runnable ledgers. |
| `Oracle.SchedulerOracle.Schedule` | turnvector_benchmark/core.py:442-474 | Refused without any change while a plan is pending; otherwise returns the specified plan and moves to the specified state. |
| `Oracle.SchedulerOracle.AcceptReceipt` | turnvector_benchmark/core.py:476-487 | Charges the pending model by service over weight and recomputes the baseline, or refuses a missing or mismatched plan without any change. |
| `Reference.DueCandidates` | drivers/reference_driver.py:63-74 | The driver collects the same urgent candidates, in the same order, as the oracle. |
| `Reference.ReferenceScheduler.HandleSchedule` | drivers/reference_driver.py:46-101 | The second implementation meets the same specification, replies included. |
| `Reference.ReferenceScheduler.HandleReceipt` | drivers/reference_driver.py:103-122 | Likewise for receipts and their refusals. |
| `Bisimulation.AskOracle` | turnvector_benchmark/core.py:442-487 | One message put to the oracle gives the specified reply and next state. |
| `Bisimulation.RunSideBySide` | drivers/reference_driver.py:46-122 | Fed any sequence of messages, valid or not, both implementations give equal replies and refusals throughout. |
| `Bisimulation.PlayIsExchange` | turnvector_benchmark/core.py:442-487 | A fairness turn is a schedule and its receipt, neither refused, so the theorems about runs hold of both schedulers. |
| `PolicyLane.JudgeTurn` | turnvector_benchmark/lane_runner.py:913-998 | One judged turn agrees exactly when the subject's next answers are the specified ones; otherwise the first answer that is not is missing or not comparable, or is a plan or a receipt that compares unequal, and the outcome says which. |
| `PolicyLane.JudgeRepetition` | turnvector_benchmark/lane_runner.py:886-1006 | A repetition fails as malformed exactly when its first deviation cannot be compared; otherwise it counts one selection mismatch exactly for a first deviation in a plan, and one receipt mismatch each for wrong initial ledgers and for a first deviation in a receipt; its trace follows the specified one up to that deviation. |
| `PolicyLane.JudgeScenario` | turnvector_benchmark/lane_runner.py:838-1030 | The selection and receipt metrics are the sums of those counts and the replay metric counts the traces with another digest than the first; all three are zero if and only if every repetition answered as specified. |
| `PolicyLane.DriveReference` | drivers/reference_driver.py:46-122 | The reference scheduler, driven through a whole scenario, produces the specified answers. |
| `PolicyLane.ReferencePassesLane` | turnvector_benchmark/lane_runner.py:838-1030 | Judged against the reference scheduler, every well-formed scenario yields zero mismatches. |
| `PolicyLane.TurnIsPlayed` | turnvector_benchmark/lane_runner.py:913-998 | One judged turn moves the state as one fairness turn does. |
| `PolicyLane.JudgedLedgersAreFair` | turnvector_benchmark/lane_runner.py:886-998 | A faithful repetition of any well-formed scenario is a fairness run from the initial state, so its ledgers obey the fairness bound. |
| `PolicyLane.TemplateAtTime` | turnvector_benchmark/core.py:118-141 | A template's obligation falls due its offset after the clock; it is urgent exactly when its four flags are set and the offset is at most both bounds together. |
| `PolicyLane.TurnRule` | turnvector_benchmark/lane_runner.py:905-998 | A turn's expected answers: the selected candidate's id and the runnable ledgers, and with a selection the ledgers after its model is charged its own template's service over its weight; the clock moves by one step. |
| `PolicyLane.TraceCountsTurns` | turnvector_benchmark/lane_runner.py:901-1000 | The expected trace of a scenario has one record for every turn of every segment. |
| `PolicyLane.ClockAfterTurns` | turnvector_benchmark/lane_runner.py:997 | After k turns of a segment the clock has moved k steps. |
| `Fairness.AlignmentIsLevel` | turnvector_benchmark/core.py:428-440 | After alignment the baseline is the least runnable ledger and not below the old baseline; entering models start exactly at it and continuing ones keep their ledgers. |
| `Fairness.NormalSelectsLeast` | turnvector_benchmark/core.py:460-469 | A normal plan charges a model whose ledger is the baseline. |
| `Fairness.TurnIsFair` | turnvector_benchmark/core.py:442-487 | One turn never lowers the baseline, and only an urgent charge can widen how far a runnable ledger is ahead of it. |
| `Fairness.RunIsFair` | turnvector_benchmark/core.py:442-487 | The same over any run, with the urgent charges summed. |
| `Fairness.FairFromStart` | turnvector_benchmark/core.py:421-487 | From the initial state every runnable ledger stays within the largest normal charge plus all urgent charges of the baseline, which is the least runnable ledger and never negative. |
| `Fairness.LedgerCountsService` | turnvector_benchmark/core.py:483 | While a model stays runnable its ledger moves by exactly the weighted service it receives. |
| `Fairness.ChargeIsService` | turnvector_benchmark/core.py:483 | What a turn charges, times the weight of the model, is the service it reports. |
| `Fairness.ServiceIsProportional` | turnvector_benchmark/core.py:442-487 | From a state where no runnable model is more than the largest charge ahead of the baseline, two models runnable throughout an all-normal run receive weighted service within twice the largest charge of each other. |
| `Fairness.ServiceIsProportionalFromStart` | turnvector_benchmark/core.py:421-487 | Any interval of an all-normal run from the initial state starts in such a state, so the bound holds there with no assumption on the start of the interval. |
| `Waiting.TurnUsesPotential` | turnvector_benchmark/core.py:460-487 | Each normal turn that passes a model over uses up part of a measure of how long it can still wait; each model that becomes runnable adds a bounded amount to it. |
| `Waiting.UnselectedRunIsShort` | turnvector_benchmark/core.py:442-487 | An all-normal run that offers a model throughout and never selects it is no longer than that measure plus one bounded amount for each time a model becomes runnable. |
| `Waiting.WaitingIsBounded` | turnvector_benchmark/core.py:442-487 | With n models runnable at the start, starting spread S, charges of at least c and E entries of models on the way, a model offered throughout an all-normal run is selected within (n-1+E)(floor(S/c)+1)+1 turns; the runnable set may change. |
| `Waiting.WaitingWhileStable` | turnvector_benchmark/core.py:442-487 | While the same n models stay runnable the bound is (n-1)(floor(S/c)+1)+1. |
| `Waiting.WaitingAfterEntry` | turnvector_benchmark/core.py:428-440 | A model that has just become runnable is selected within as many turns as models are offered with it and enter after it, whatever the charges. |
| `Waiting.WaitingIsBoundedExactly` | turnvector_benchmark/core.py:435-436 | Over any class of runs in which a model waits, with models, spread and least charge fixed, waiting is bounded if and only if the number of entries is. |
| `Waiting.WaitingIsUnboundedWhenUnstable` | turnvector_benchmark/core.py:435-436 | Entries do go unbounded: for every length there is an all-normal run from the start, with every charge exactly one and some model becoming runnable in every turn, that offers a model throughout and never selects it; and there is a wait of that length, without spread, of the kind the exact condition speaks of. |
| `Waiting.AllWaitsAreUnbounded` | turnvector_benchmark/core.py:428-487 | The class of all waits with three models, charges of at least one and no spread has no bound, in turns or in entries. |
| `Framing.PopU32beFrames` | fixtures/workers/worker_proxy.py:62-75 | The in-place loop takes every complete frame off the buffer and stops at an incomplete one, or raises with the oversize header at the front. |
| `Framing.HeaderIsBigEndian` | fixtures/workers/worker_proxy.py:65 | The declared size is n exactly when the four bytes are n in base 256, most significant first. |
| `Framing.WrittenFrameIsCut` | fixtures/workers/worker_proxy.py:62-75 | Any payload within the limit behind its size in four bytes, most significant first, is cut off as exactly one frame, and cutting goes on behind it. |
| `Framing.OversizeExactly` | fixtures/workers/worker_proxy.py:66-68 | A buffer is refused at once exactly when its first four bytes come after the limit's four bytes in lexicographic order. |
| `Framing.CutIsComplete` | fixtures/workers/worker_proxy.py:62-75 | Frames and rest joined are the input; every frame is whole and within the bound; the rest is incomplete or oversize, never another frame. |
| `Framing.CutInvertsJoin` | fixtures/workers/worker_proxy.py:62-75 | Cutting a joined list of frames with an incomplete tail gives back that list and tail. |
| `Framing.CutResumes` | fixtures/workers/worker_proxy.py:193-196 | Cutting a stream in two pieces equals cutting it whole. |
| `Framing.FeedIgnoresChunking` | fixtures/workers/worker_proxy.py:193-196 | Any chunking fails exactly when the whole stream has an oversize header; otherwise it gives the same frames and rest, and on failure a beginning of the frames. |
| `Framing.DuplicatedGrows` | fixtures/workers/worker_proxy.py:197-200 | The forwarded stream grows by each frame once, and by the chosen frame twice. |
| `Relay.RelayLoop.FinishHalfClose` | fixtures/workers/worker_proxy.py:127-137 | A write side closes exactly when its shutdown is due and its buffer is empty. |
| `Relay.RelayLoop.RefreshRegistration` | fixtures/workers/worker_proxy.py:139-155 | Interest is read while the source is open and the other buffer is below its limit, write while bytes are pending. |
| `Relay.RelayLoop.WantedExactly` | fixtures/workers/worker_proxy.py:139-155 | An endpoint is read exactly while it is open and the other backlog is below 65,536 bytes or below one largest frame, and written exactly while it has a backlog. |
| `Relay.RelayLoop.ForwardFrames` | fixtures/workers/worker_proxy.py:192-200 | In duplicate mode whole frames go on, the chosen one twice, with the books kept; an oversize header is a fault. |
| `Relay.RelayLoop.Read` | fixtures/workers/worker_proxy.py:174-202 | The read half keeps conservation, half-close and buffer bounds, and faults exactly on a broken socket, a partial frame at end of file, an oversize frame or the crash mode. |
| `Relay.RelayLoop.Write` | fixtures/workers/worker_proxy.py:203-210 | Exactly a prefix of the pending buffer moves to the destination, whatever send takes. |
| `Relay.RelayLoop.HandleEvent` | fixtures/workers/worker_proxy.py:170-212 | One event under the mask select was called with keeps every invariant and leads to exactly the state, or the fault, its outcomes determine. |
| `Relay.BatchKeepsToInterest` | fixtures/workers/worker_proxy.py:157-228 | A batch acts on the interest registered before it: an endpoint not wanted then is not read, and one without a backlog then is sent nothing, even when the other entry of the batch gives it one. |
| `Relay.RelayLoop.HandleBatch` | fixtures/workers/worker_proxy.py:162-212 | One batch keeps every invariant although its second event uses interest computed before the first, and leads to exactly the state or the fault the batch determines. |
| `Relay.RelayLoop.EmptyMapIsFullyRelayed` | fixtures/workers/worker_proxy.py:161 | An empty selector map means both directions are delivered in full and half-closed. |
| `Relay.RelayLoop.EndedInWholeFrames` | fixtures/workers/worker_proxy.py:176-186 | In duplicate mode, once the worker has been read to its end everything it sent was whole frames. |
| `Relay.RelayLoop.Run` | fixtures/workers/worker_proxy.py:159-220 | Over any script of select, recv and send outcomes the loop goes through exactly the states the script determines, stops at its first fault and otherwise only when nothing is registered, at the quiet end after the child has exited, or when the script is used up; each side has received a beginning of what it is owed at every point and everything at a normal end, and the missing-receipt error comes at such an end exactly when too few frames were seen. |
| `RelayProgress.BatchServes` | fixtures/workers/worker_proxy.py:162-212 | A batch in which every registered endpoint is ready meets no fault and takes work off the relay, whichever event comes first. |
| `RelayProgress.ServedRunDrains` | fixtures/workers/worker_proxy.py:161-212 | As many such batches as there are bytes to receive and deliver, and two ends of file, bring both streams through in full. |
| `RelayProgress.RelayStreams` | fixtures/workers/worker_proxy.py:159-220 | So the loop ends by itself within that many batches, with both streams delivered, the duplicated frame included, and both write sides closed. |
| `Descent.OpenChild` | turnvector_benchmark/obligation_sources.py:105-150 | Opens one component without following links, or fails leaving the table alone or the one new descriptor handed back. |
| `Descent.CloseTracked` | turnvector_benchmark/obligation_sources.py:152-165 | Cleanup closes each tracked descriptor once and never the borrowed base. |
| `Descent.DescendStep` | turnvector_benchmark/obligation_sources.py:105-165 | One component keeps the tracked stack accounted for and within its bound. |
| `Descent.Descend` | turnvector_benchmark/obligation_sources.py:94-278 | Under any failures: an error leaves the table as found (less a base given up), success adds exactly the returned descriptor, at most two others are ever open, and without failures it succeeds exactly when the path is reached through real directories. |
| `ObligationSources.ReadExactly` | turnvector_benchmark/obligation_sources.py:281-345 | Chunked reads deliver exactly the requested bytes, whatever the buffer size and the short reads. |
| `ObligationSources.HashFile` | turnvector_benchmark/obligation_sources.py:281-309 | The digest and size of the whole file, refused exactly above the cap. |
| `ObligationSources.HashRange` | turnvector_benchmark/obligation_sources.py:312-345 | The digest of exactly the half-open range, refused exactly when the range is empty or outside the file. |
| `ObligationSources.OpenSource` | turnvector_benchmark/obligation_sources.py:212-278 | Opens a cited file relative to the held root; only the returned descriptor is added. |
| `ObligationSources.OpenCanonicalRoot` | turnvector_benchmark/obligation_sources.py:168-209 | Opens an absolute canonical root component by component, or leaves the table as found. |
| `ObligationSources.CheckPaths` | turnvector_benchmark/obligation_sources.py:393-412 | Accepts exactly the path sets that have UTF-8 bytes and are within the count, single and total byte caps; the checked sum cannot overflow. |
| `ObligationSources.VerifyFiles` | turnvector_benchmark/obligation_sources.py:414-445 | Each cited file verified once, with the byte and file caps. |
| `ObligationSources.VerifySections` | turnvector_benchmark/obligation_sources.py:447-493 | Each section verified with multiplicity, with the section caps. |
| `ObligationSources.RecheckRoot` | turnvector_benchmark/obligation_sources.py:495-509 | The root reopened at the end is the one held, and its descriptor is closed again. |
| `ObligationSources.VerifyObligationSources` | turnvector_benchmark/obligation_sources.py:369-524 | The descriptor table is restored on every path with at most three descriptors open; a summary is given only for a tree that satisfies the plain specification, and without failing calls exactly then; no checked sum overflows. |
| `ObligationSources.RaisingLimitsAccepts` | turnvector_benchmark/compile_limits.py:27-40 | Whatever sources are accepted under a limit vector are accepted under any larger one. |
| `ObligationSources.VerifyUnderLooserLimits` | turnvector_benchmark/obligation_sources.py:369-524 | A summary under some limits, buffer size and read pattern is the same summary under looser limits and any other buffer size and read pattern. |
| `SourcePaths.SplitExactly` | turnvector_benchmark/obligation_sources.py:182-183 | The components of a text are the one list of parts without a slash (0x2F) that gives it back when joined by slashes. |
| `SourcePaths.ContentExactly` | turnvector_benchmark/obligation_sources.py:417-419 | A cited path, given as components between slashes, names the bytes of the file that a walk along the components ends in, each step an entry of a real directory, and names nothing otherwise. |
| `SourcePaths.RootExactly` | turnvector_benchmark/obligation_sources.py:168-209 | A root text is a slash and components between slashes, none of them empty, one dot or two dots, and names exactly the directory the walk along them ends in. |
| `SourcePaths.RootIsAbsolute` | turnvector_benchmark/obligation_sources.py:180-185 | A text that does not begin with a slash names no root, and every other text is a slash and such components. |
| `SourcePaths.SectionBytesAreCited` | turnvector_benchmark/obligation_sources.py:455-474 | The section bytes a summary counts are the length of all cited sections joined, repeats included. |
| `CatalogLoading.LoadsExactly` | turnvector_benchmark/obligation_catalog.py:419-449 | Bytes load to given obligations if and only if they encode records within the caps that decode to them; limits choose whether, never what. |
| `CatalogLoading.LooserLimitsLoadTheSame` | turnvector_benchmark/compile_limits.py:27-40 | What loads under some limits loads to the same obligations under looser ones. |
| `CatalogLoading.SmallerLimitsOnlyReject` | turnvector_benchmark/compile_limits.py:27-40 | Load and verification together: anything a valid smaller vector admits, the frozen one admits with the same obligations. |
| `CompileLimits.CheckedAdd` | turnvector_benchmark/compile_limits.py:80-88 | Succeeds exactly on 64-bit operands with a 64-bit sum, and distinguishes overflow from a bad operand. |
| `CompileLimits.CheckedMul` | turnvector_benchmark/compile_limits.py:91-104 | The quotient test succeeds exactly when the product is 64-bit. |
| `Arena.InjectorFiresOnce` | turnvector_benchmark/authority/compiler_accounting.py:121-129 | Of any number of allocations the injector fails exactly the one with the target ordinal, if it is reached, and no other. |
| `Arena.FaultInjector.BeforeModeledAllocation` | turnvector_benchmark/authority/compiler_accounting.py:121-129 | Each call advances the ordinal once and fails exactly at the target, disarming itself. |
| `Arena.ApplyIsSound` | turnvector_benchmark/authority/compiler_accounting.py:142-185 | One reservation, release or allocation, refused, faulted or not, keeps the charge within the maximum and changes it only when it goes through. |
| `Arena.RunIsConserved` | turnvector_benchmark/authority/compiler_accounting.py:132-185 | Over any run the charge is what was committed less what was released, at most the maximum; the high-water mark is above the maximum exactly when something was refused. |
| `Arena.HighWaterIsLargest` | turnvector_benchmark/authority/compiler_accounting.py:128-193 | Over any run the high-water mark is the largest total that was ever asked for and granted, or refused for its size. |
| `Arena.RetainedArena.ReserveCharge` | turnvector_benchmark/authority/compiler_accounting.py:146-155 | The field updates of a reservation are the specified step. |
| `Arena.RetainedArena.ReleaseCharge` | turnvector_benchmark/authority/compiler_accounting.py:157-161 | The field updates of a release are the specified step. |
| `Arena.RetainedArena.ModeledAllocate` | turnvector_benchmark/authority/compiler_accounting.py:163-185 | Guard, injector, allocator and commit in that order; the charge commits only when all pass. |
| `Arena.RetainedArena.VisitCaseId` | turnvector_benchmark/authority/compiler_accounting.py:195-216 | An id without UTF-8 bytes fails first; a hit costs nothing; a miss charges 16 bytes and the UTF-8 length and interns the id exactly when the charge goes through. |
| `Arena.InterningChargesOnce` | turnvector_benchmark/authority/compiler_accounting.py:195-216 | After any visits, with repeats and faults, the arena has grown by exactly the charges of the ids newly interned. |
| `Arena.InternChargeIs` | turnvector_benchmark/authority/compiler_accounting.py:195-216 | A visit interns an identifier exactly when it is new and has UTF-8 bytes, 16 plus their number still fit and nothing fails, and charges exactly that. |
| `Buffers.PackInverts` | turnvector_benchmark/authority/compiler_accounting.py:264-271 | A 64-bit value packed big-endian reads back as itself. |
| `Buffers.UnpackInverts` | turnvector_benchmark/authority/compiler_accounting.py:264-271 | Every byte string is the packing of its value, so cells and bytes determine each other. |
| `Buffers.CellIsBigEndian` | turnvector_benchmark/authority/compiler_accounting.py:264-271 | A cell's value is its eight bytes weighted from the first, most significant, to the last. |
| `Buffers.PhaseBScratch.Allocate` | turnvector_benchmark/authority/compiler_accounting.py:228-237 | A slab comes back exactly when the guard admits it, the injector does not fire and the allocator does not fail; the arena is charged exactly then. |
| `Buffers.PhaseBScratch.Carve` | turnvector_benchmark/authority/compiler_accounting.py:239-244 | The live region grows by the count or is left alone, never past the slab. |
| `Buffers.PhaseBScratch.ClearCounterBlock` | turnvector_benchmark/authority/compiler_accounting.py:249-253 | All 339 cells are live and read zero. |
| `Buffers.PhaseBScratch.ClearMappingTable` | turnvector_benchmark/authority/compiler_accounting.py:255-262 | Only 46 or 58 owners are accepted; exactly those cells become live and zero, every other cell is kept. |
| `Buffers.PhaseBScratch.GetU64` | turnvector_benchmark/authority/compiler_accounting.py:264-266 | A live index gives the big-endian value of its cell; any other index is an error. |
| `Buffers.PhaseBScratch.SetU64` | turnvector_benchmark/authority/compiler_accounting.py:268-278 | Writes the one cell and frames every other; refuses a dead index or a value outside 64 bits without any change. |
| `Buffers.SharedHashBuffer.AllocatePhaseA` | turnvector_benchmark/authority/compiler_accounting.py:289-305 | A buffer comes back, live, exactly when the guard admits it, the injector does not fire and the allocator does not fail; the arena is charged exactly then. |
| `Buffers.SharedHashBuffer.LogicalRelease` | turnvector_benchmark/authority/compiler_accounting.py:307-311 | The charge minus the live buffer's share never moves; releasing twice is refused. |
| `Buffers.SharedHashBuffer.LogicalReservePhaseD` | turnvector_benchmark/authority/compiler_accounting.py:313-318 | The buffer becomes live exactly when the arena admits its charge; reserving a live one is refused. |
| `Buffers.OutputSink.Open` | turnvector_benchmark/authority/compiler_accounting.py:324-339 | A sink of the declared size exists exactly for sizes within the cap that get past the injector and the allocator. |
| `Buffers.OutputSink.Write` | turnvector_benchmark/authority/compiler_accounting.py:349-363 | A chunk is appended whole, or refused with nothing written. |
| `Buffers.OutputSink.Finish` | turnvector_benchmark/authority/compiler_accounting.py:365-368 | Gives the written bytes exactly when the sink is full. |
| `Buffers.StreamOut` | turnvector_benchmark/authority/compiler_accounting.py:321-368 | A whole session returns the chunks joined exactly when they fit the chunk cap and add up to the declared size. |
| `Provenance.Resolve` | turnvector_benchmark/controller.py:662-688 | A lane runs as a production subject exactly when the seam binds it to nothing; a fixture is one the seam names and the registry knows. |
| `Provenance.FixtureResolvesExactly` | turnvector_benchmark/controller.py:662-688 | A lane runs under a fixture exactly when the seam names an id that is registered under itself as a benchmark fixture and has 1 to 128 characters of a-z, 0-9 and, after the first, . _ and -. |
| `Provenance.TagsSpelled` | turnvector_benchmark/controller.py:130-193 | The two tags are clean and fixture_tainted, code point by code point. |
| `Provenance.ValidateFixtureTaintState` | turnvector_benchmark/controller.py:130-193 | Accepts a tag and ids of any type exactly when they are a taint with an agreeing strictly ascending list of known ids. |
| `Listings.Insert` | turnvector_benchmark/controller.py:711 | Keeps the published ids the ascending listing of the id set. |
| `Listings.ListingIsUnique` | turnvector_benchmark/controller.py:711 | A set has one ascending listing, so this equals sorting the set afresh. |
| `Taint.StatusForResults` | turnvector_benchmark/controller.py:108-119 | The aggregate is the most severe listed status, and passed exactly when no listed failure occurs; a status outside the list counts as passed. |
| `Taint.WorstStatusWins` | turnvector_benchmark/controller.py:108-119 | Among infrastructure_failed, contract_failed, gate_failed, environment_unavailable and unsupported an earlier one present always wins over a later one, and one of them wins when any is present. |
| `Taint.ResolveFullImplementationStatus` | turnvector_benchmark/controller.py:196-231 | An inconsistent state is refused; otherwise not_claimable_fixture holds exactly when tainted or a fixture subject, not_evaluated exactly when neither and the lanes are not all selected, failed exactly when neither, all are selected and the aggregate, the evidence or the source match is not good, and passed exactly when all are. |
| `Taint.LaneController.ApplyFixtureProvenance` | turnvector_benchmark/controller.py:690-711 | Adds the id, taints, keeps the state consistent; an unknown id changes nothing. |
| `Taint.LaneController.ResolveAndApplyPreRunProvenance` | turnvector_benchmark/controller.py:713-730 | Freezes what every lane resolves to and taints with all their ids; succeeds exactly when every lane resolves. |
| `Taint.LaneController.BindAndRevalidateProvenance` | turnvector_benchmark/controller.py:732-765 | Accepts exactly an unchanged selection; a changed one naming a fixture taints before it is refused, as late or as changed. |
| `Taint.LaneController.RevalidateFrozenProvenance` | turnvector_benchmark/controller.py:767-780 | Accepts exactly when every frozen lane still agrees, and taints by the lanes up to the first that does not. |
| `Taint.LaneController.BindAndRun` | turnvector_benchmark/controller.py:946-972 | Revalidation runs whether the runner returns or raises, and its refusal replaces the runner's ending. |
| `Taint.LaneController.RunOneLane` | turnvector_benchmark/controller.py:787-1004 | Every path of a lane ends in the specified status and adds exactly the specified ids: contract_failed after a changed seam however the runner ended, the runner's own ending after an unchanged one. |
| `Taint.LaneEndings` | turnvector_benchmark/controller.py:787-1004 | The status a lane ends in, cause by cause in the order they can occur: setup refusals, a failing enter or exit, a failing opening, a changed seam, the runner's exception, a failing finish, the runner's own status. |
| `Taint.LaneController.Conclude` | turnvector_benchmark/controller.py:497-574 | The invariant check before publication cannot fail, and the report carries the status the state demands. |
| `Taint.LaneController.Run` | turnvector_benchmark/controller.py:418-574 | For any behaviour of the lanes the report is the specified verdict; a run aborts exactly when a lane does not resolve before it. |
| `Taint.ClaimableExactly` | turnvector_benchmark/controller.py:418-574 | A run is claimable if and only if every look at the seam, before the lanes, at each binding and after each runner, found only production subjects, every lane passed, and the settings allow it. |
| `Taint.FullStatusExactly` | turnvector_benchmark/controller.py:196-231 | For every report of a run, each of the four full statuses has its exact condition on the reported ids, the selected lanes, the lane statuses and the settings. |
| `Taint.IdsOnlyGrow` | turnvector_benchmark/controller.py:310-325 | Taint is absorbing: ids bound by the snapshot or by a prefix of the run stay bound to its end. |
| `Taint.SelectedFixtureIsNeverClaimable` | turnvector_benchmark/controller.py:713-730 | A lane bound to a fixture before the run taints it and makes it not claimable, whatever the lanes do. |
| `Taint.SeenInOrderExactly` | turnvector_benchmark/controller.py:767-780 | One revalidation taints by a fixture if and only if some frozen lane is bound to it and every lane before that one agrees. |
| `Taint.TaintedExactly` | turnvector_benchmark/controller.py:690-780 | A fixture is among the reported ids if and only if a selected lane was bound to it before the run, or a dispatched lane at its binding, or, after the runner of a lane whose binding agreed, a lane with no disagreeing lane before it; and the run is tainted exactly when some id is reported. |
| `Taint.MismatchHidesALaterFixture` | turnvector_benchmark/controller.py:767-780 | The converse fails: a concrete run whose seam names a known fixture after a runner ends with a clean taint, because revalidation stops at an earlier mismatch; it is still not claimable. |
| `Taint.OwnerLifecycleIsNeverClaimable` | turnvector_benchmark/owner_lifecycle_fixture.py:130-145 | With the checked-in seam and registry every selection resolves, and one with the owner-lifecycle lane is reported tainted by exactly that fixture. |
| `Drain.Child.KillAndReap` | turnvector_benchmark/source_verification.py:90-112 | Success means the child is reaped; a failing kill or wait is reported, a kill that finds the child gone is not. |
| `Drain.Stream.Take` | turnvector_benchmark/source_verification.py:145-163 | At least one byte is always asked for, so an empty read is the end; no byte is lost and at most one is held beyond the cap. |
| `Drain.DrainBounded` | turnvector_benchmark/source_verification.py:115-178 | In every interleaving each buffer stays within its cap plus one; success returns both complete streams within their caps with the child seen to exit; every error has reaped the child or is a termination failure, and each kind of error has its cause in the turns actually taken. With no deadline, no failing call, both streams within their caps, enough granted reads and an exiting child, it succeeds. |
| `EventStream.AddingKeepsOrder` | turnvector_benchmark/data_plane.py:757-799 | Adding a fitting event keeps outputs contiguous from zero and versions strictly increasing above 1. |
| `EventStream.OutputsAreContiguous` | turnvector_benchmark/data_plane.py:785-799 | In a well-ordered log the first output begins at zero and each later one at the sequence number where the one before it ended. |
| `EventStream.EventLog.AppendEvent` | turnvector_benchmark/data_plane.py:757-799 | The comparison with the last entry accepts exactly the events that fit the whole stream, and returns whether the event is terminal. |
| `EventStream.Client.Cancel` | turnvector_benchmark/data_plane.py:707-728 | Succeeds exactly when the first direct response comes within the read limit and accepts this command, and hands back the earlier events in order. |
| `EventStream.RunGeneration` | turnvector_benchmark/data_plane.py:802-875 | The loop with its cancellation computes the specified generation. |
| `EventStream.GenerationIsWellOrdered` | turnvector_benchmark/data_plane.py:802-875 | Whatever a cancellation interleaves, an accepted stream is well ordered and holds a terminal state unless the client hung up. |
| `EventStream.GenerationGathers` | turnvector_benchmark/data_plane.py:757-875 | An accepted log is made of exactly a beginning of the feed, in its order; each of those events is for this request, every materialized update carries both flags, every output has tokens and a publication id of 32 characters, and terminal marks agree. |
| `EventStream.AcceptedEventsExactly` | turnvector_benchmark/data_plane.py:757-799 | Events are accepted exactly when each is sound by itself and the log they make is well ordered. |
| `EventStream.UndisturbedExactly` | turnvector_benchmark/data_plane.py:852-875 | Without a cancellation or a hang-up a log comes back exactly when a terminal update arrives among the first 100,000 events and everything up to it is accepted. |
| `EventStream.CancelAnsweredExactly` | turnvector_benchmark/data_plane.py:707-728 | A cancellation succeeds exactly when, within 10,000 reads, the first direct response is this command's, accepting, for this request, with a nonzero sequence number. |
| `EventStream.TerminalIsLastExactly` | turnvector_benchmark/data_plane.py:842-875 | In every accepted stream the last state is terminal if and only if no event held back by the cancellation is terminal, or the last status update held back is. |
| `EventStream.StateAfterTerminal` | turnvector_benchmark/data_plane.py:842-850 | A concrete accepted feed whose held-back events put a state after the terminal one. |
| `CasePlan.RankIsABijection` | turnvector_benchmark/lane_contract.py:403-413 | Index tuples and their places in the product determine each other. |
| `CasePlan.RankIsLexicographic` | turnvector_benchmark/lane_contract.py:411 | An earlier place is a lexicographically smaller tuple: the last dimension moves fastest. |
| `CasePlan.BeforeExactly` | turnvector_benchmark/lane_contract.py:411 | Lexicographically smaller means a smaller index at the first that differs. |
| `CasePlan.ProductAt` | turnvector_benchmark/lane_contract.py:411 | Entry k of the product is the combination with place k, so each combination occurs once. |
| `CasePlan.BoundAt` | turnvector_benchmark/lane_contract.py:413 | With distinct dimension ids the parameters give each dimension its own value. |
| `CasePlan.ExpandCasePlan` | turnvector_benchmark/lane_contract.py:403-428 | The plan holds, matrix by matrix in that order, one case for each combination, numbered from 1; the closing loss check never fires. |
| `CasePlan.CaseInFull` | turnvector_benchmark/lane_contract.py:403-428 | The case of a combination: its number is its position, its id is the lane, the matrix and that number between dots with zeros up to four digits, it is diagnostic exactly when its id is listed, and every dimension whose name no later one repeats has the value its index picks. |
| `CasePlan.EveryCaseHasACell` | turnvector_benchmark/lane_contract.py:403-428 | Every position belongs to exactly one combination of one matrix, and there are as many as the sum of the products of the sizes. |
| `CasePlan.CaseIdsAreDistinct` | turnvector_benchmark/lane_contract.py:414 | Different ordinals give different case ids, whatever dots and digits the lane and matrix ids hold. |
| `Subsequence.IsSubsequence` | turnvector_benchmark/lane_runner.py:1718-1720 | The shared-iterator walk is true if and only if a strictly increasing embedding exists. |
| `Subsequence.EmbeddingsCompose` | turnvector_benchmark/lane_runner.py:1903-1937 | Embeddings compose, so what matches a client record that matches a trace matches the trace. |
| `Subsequence.EmbeddingKeepsCounts` | turnvector_benchmark/lane_runner.py:1903-1937 | An accepted client record never shows an item more often than the trace does. |

## Left out

- Relay.RelayLoop.Run: modes that exit before the loop (crash-before-start, timeout, malformed-frame,
  incompatible-handshake), the child's exit code and the closing of sockets are not modelled.
- ObligationSources.VerifyObligationSources: the file system is fixed during a pass and identity is the
  node itself, so inode, mode, owner and mtime comparisons against replacement races are not modelled.
- ObligationSources.RecheckRoot: on a fixed tree the root found again is always the one held, so the refusal of a
  replaced root is never taken.
- CatalogLoading.LoadsExactly: the field-by-field record checks and the readiness algebra, which do not
  look at limits, are one arbitrary function from records to obligations.
- Limit fields that neither the loader nor the source verifier reads.
- PolicyLane.JudgeScenario: answers arrive already parsed; the fraction text form, the trace file and the
  gate comparison over the metrics are not modelled, and a trace digest is an arbitrary function.
- Scheduling.PlannedIsOffered: execution phase, service class and resource mode take no part in selection
  and are not carried.
- Taint.LaneController.Run: artifact writing, Git evidence, thresholds, the subject handshake and
  identity checks appear only as the outcomes they can have.
- Taint.MismatchHidesALaterFixture: exceptions outside Exception, such as an interrupt, are not modelled.
- Drain.DrainBounded: a final wait that raises something other than a timeout is not modelled.
- EventStream.RunGeneration: frame decoding, submission and the timing figures are not modelled.
- Buffers.OutputSink.Open: chunks are byte sequences; objects that do not export bytes are not modelled.
- Non-string object keys and non-JSON Python values other than one opaque kind, in the serializer.
- Python's recursion and integer-digit limits; ledgers are exact reals for exact fractions.
- SHA-256 is an arbitrary function; nothing is claimed about collisions.
- The other arena charge formulas, the accounting counters and the hash-state retention: one checked
  expression each.
- Contract parsers, the command line, reports, oracles of the other lanes, device-executor fixture,
  performance contract: separate membership checks or finite tables.
