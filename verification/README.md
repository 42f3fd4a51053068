# Verified model of the browser replica and its ledgers

This project models, in Dafny, the logic with which the harness's browser client
keeps a faithful copy of the host's state and of its own operations, together
with two pieces of Rust that the client depends on: the presentation crate's form
validator and the demo's tool-job ledger. `dafny verify dfyconfig.toml` checks
all of it.

## What is modelled

- **Previews of streaming output** (`Utf8`, `LiveOutput`, `LiveStreams`,
  `LiveCommits`): text as UTF-16 code units, UTF-8 as in section 3 of RFC 3629,
  the incremental truncation at 64 KiB and the byte count cached per object.
  `Appended` says in code points what an update shows; the byte-level loop is
  proved to produce it.
- **Command ledger** (`OperationId`, `HostCommands`, `Ledger`, `LedgerRuns`,
  `LedgerEvidence`, `LedgerObservations`, `LedgerRetention`, `LedgerStorage`,
  `LedgerReading`, `LedgerSystem`): merging statuses, receipts and local
  observations, compaction, and the two storage slots. `LedgerSystem` is a state
  machine over submitting, learning, saving, reloading and failing storage.
- **Lookup reconciler** (`Lookups`, `LookupRuns`, `LookupProgress`,
  `LookupClient`): the class `CommandLookups` has the closure's fields; its
  methods are proved equal to steps on values, and the invariants range over
  every interleaving. A read's promise chain is three steps: its callback, the
  error callback that a throwing callback leads to, and `finally`.
- **Worker tree** (`WorkerDirectory`, `WorkerAncestors`, `WorkerSelection`,
  `WorkerListing`, `WorkerOmitted`, `WorkerCycles`, `WorkerLevels`,
  `WorkerLayout`): selection under a limit, cycle breaking, breadth-first
  levels, rows, cards and edges.
- **Conversation tree** (`PathIndex`, `ConversationTree`, `ConversationUnique`,
  `ConversationOrder`): the path trie as an arena of cells against a naive prefix
  search, and the iterative stable pre-order, which is proved to be the only one.
  Both trees build on `FunctionalGraph` and `ParentForest`.
- **Event replica** (`Replica`, `ReplicaOutputs`, `Connection`,
  `ConnectionProgress`, `HarnessConnection`): the host is plain maps changed by
  a log of events; the replica is insertion-ordered tables fed by snapshots and
  events. `Connection` keeps the trace of everything it told its owner and the
  socket, and theorems are about that trace.
- **View caches** (`Projector`, `ViewProjector`, `ViewMeaning`, `Selector`,
  `SelectionMeaning`): objects are values with an identity, and `===` compares
  identities only. The sort functions are arbitrary.
- **Forms** (`Forms`, `FormTexts`, `FormValidators`, `FormDrafts`,
  `FormHydration`, `FormFilling`, `FormDraftObjects`): the tree language, both
  validators, the host's draft check and the browser's draft transformations. A
  view is represented by the verdicts the two sides' own view validators give
  it.
- **Timeline** (`Timeline`, `TimelineMeaning`, `TimelineProjection`,
  `TimelineWindow`, `TimelineMerge`), **routes** (`PercentEncoding`,
  `Navigation`, `NavigationMeaning`; percent-encoding as in section 2.1 of RFC
  3986) and the **tool-job ledger** (`ToolJobs`, `ToolJobsStory`,
  `ToolJobsWaiting`, `ToolJobsStore`), the last as a class, by the history of a
  job, as a state machine over concurrent observers and waiters, and as one over
  concurrent saves.
- `JsMap` is the insertion-ordered `Map` all of them use, and `Sequences` a few
  notions about sequences. Keys that the source builds as JSON text of lists of
  strings are datatypes here; such texts are equal exactly when the lists are.

## Where the code differs from what one would expect

Each of these is stated as a lemma; where a condition decides between the two
behaviours, the lemma gives the exact condition.

- A stream that begins with a byte order mark loses that mark and is never shown
  whole (`LiveStreams.StreamLossless`).
- A preview whose counted text begins with U+FEFF keeps it through further
  deltas, while the whole-prefix rule, which the source's comment says is
  preserved, would strip it; the two differ exactly there
  (`LiveOutput.MatchesWholePrefix`, `LiveOutput.BomTextOccurs`).
- The source's comment says that later input cannot fit once a prefix has been
  cut. That is so within one update; a later delta with a narrower code point does
  fit (`LiveStreams.LaterDeltaCanFillGap`). `LiveStreams.StaysExact` says when a
  preview stays as it is, `LiveStreams.PrefixExact` when it is a prefix of what was
  streamed.
- A settled status without receipt keeps an earlier `unconfirmed` receipt, and
  the record is then quarantined by the next reload
  (`LedgerSystem.SettledDecodableExact`, `LedgerSystem.KeptReceiptBlocksReload`).
- An admission reported without envelope, after an `unconfirmed` receipt, keeps
  out the admission's own receipt and the inclusion that comes with it
  (`LedgerObservations.UnnamedAdmission`, `LedgerEvidence.ObservationExact`).
- A row of the old ledger that carries a receipt is imported as a hint with that
  receipt. A weaker host report then leaves a record that the next reload
  quarantines, and a later receipt can replace the envelope it named
  (`LedgerSystem.LosslessExact`, `LedgerSystem.ImportedReceiptLost`,
  `LedgerRuns.EnvelopeKeptExact`).
- The layout's `omitted` counts repeated identities, and living workers shown as
  context, as left out (`WorkerOmitted.RepeatMiscounted`,
  `WorkerOmitted.ContextMiscounted`, `WorkerOmitted.OmittedExact`).
- A terminal ancestor of a shown worker can be missing although there is room: if
  the worker is listed again under another parent and its walk comes back to it,
  what is above the later entry is never met (`WorkerSelection.AncestorMissed`,
  `WorkerAncestors.ShownExact`).
- A lone row named `//` becomes its own parent (`PathIndex.SelfParentExact`).
- A snapshot whose wire `hostRun` is null is never recognised as stale
  (`Connection.RegressionExact`, `Connection.NullRunRegresses`).
- A projector that has once shown output lists shows empty ones, not absent ones,
  when all output maps are gone (`ViewProjector.OutputThenNone`,
  `ViewProjector.ProjectRun`).
- Filling in a draft can open a branch with an old unsuitable answer
  (`FormHydration.FillingCanReject`, `FormHydration.InitialPassesExact`).
- A failed save leaves records delivered without waking their waiters
  (`ToolJobs.FailedSaveForgets`, `ToolJobs.FailureExact`, `ToolJobs.NoLostWakeup`).
- A copy of the tool jobs is written outside the lock, so an older one can be
  written last and stay (`ToolJobsStore.OlderCopyWins`,
  `ToolJobsStore.NeverBackExact`, `ToolJobsStore.LatestStored`).

## Model

| member | source | states |
|---|---|---|
| `LiveOutput.CompletePrefix` | web/src/live-output.ts:21-25 | the search backs up over continuation bytes only and stops at the budget, the end or a byte that is none |
| `LiveOutput.BoundaryUnique` | web/src/live-output.ts:21-25 | on UTF-8 that stop is the end of the longest run of whole code points within the budget |
| `LiveOutput.TakeBytes` | web/src/live-output.ts:47-54 | slicing by UTF-16 units, encoding, cutting, dropping a leading U+FEFF and decoding yields the longest fitting run of code points, and says whether anything was lost; a surrogate pair cut by the slice changes nothing |
| `LiveOutput.RenderItem` | web/src/live-output.ts:37-60 | the byte-level code produces the item the code-point specification `Appended` describes |
| `LiveOutput.AppendOutput` | web/src/live-output.ts:37-63 | the table gets that item under its key and keeps its newest 128 entries |
| `LiveOutput.AppendedSound` | web/src/live-output.ts:37-60 | the cached count is the UTF-8 length of the text, at most 65536, and the text has no lone surrogate |
| `LiveOutput.MatchesWholePrefix` | web/src/live-output.ts:41-54 | encoding only the delta gives what truncating the encoding of (retained text + delta) gives, exactly unless a counted text already begins with U+FEFF |
| `LiveOutput.BomTextOccurs` | web/src/live-output.ts:51-52 | such a text occurs: a first delta of two marks leaves one shown |
| `LiveOutput.OverflowExact` | web/src/live-output.ts:55-56 | overflow is reported exactly when this update, or the host, lost text; earlier losses are not carried forward |
| `LiveStreams.StreamLossless` | web/src/live-output.ts:37-63 | a stream within 64 KiB is shown whole exactly when its first code point is no byte order mark, wherever else marks stand, and then only the host's own overflow flag is reported |
| `LiveStreams.StreamIsText` | web/src/live-output.ts:37-63 | if moreover no delta begins or ends inside a surrogate pair, what is shown is the deltas' texts joined |
| `LiveStreams.StaysExact` | web/src/live-output.ts:43-54 | no later delta of a sequence changes such a preview exactly when each of them is empty or begins too wide |
| `LiveStreams.PrefixExact` | web/src/live-output.ts:43-54 | a stream without leading mark shows a prefix of itself exactly when, once text has been lost, every later delta is empty or begins too wide |
| `LiveStreams.LaterDeltaCanFillGap` | web/src/live-output.ts:43-54 | that can fail: a later, narrower code point fills the gap a wider one left |
| `LiveStreams.EverySizeOccurs` | web/src/live-output.ts:13-14 | previews of every size up to the limit occur |
| `LiveOutput.CommitOutput` | web/src/live-output.ts:64-70 | exactly the items of the committed request and item stop streaming and get the hash, in place |
| `LiveCommits.NextChanges` | web/src/live-output.ts:37-70 | what each event does to each preview: a delta makes it stream, keeps the hash and the tool name unless it brings one; a commit ends exactly the previews of its request and item and leaves their text |
| `LiveCommits.RunTells` | web/src/live-output.ts:37-70 | after every run a preview streams exactly when the last thing said about it was a delta, or a snapshot in which it streams, and it bears the hash of its last commit |
| `LiveCommits.VisibleExact` | web/src/live-output.ts:78-81 | after every run a preview is visible exactly until the very message its last commit named has been fetched for its request |
| `LiveOutput.RunSound` | web/src/live-output.ts:37-77 | in every run of deltas, commits, stops, removals and restored snapshots every cached count is exact and at most 128 previews are held |
| `LiveOutput.SetRevision` | web/src/live-output.ts:71-77 | the revision becomes the newest entry and the newest 128 remain |
| `JsMap.TouchKeepsLatest` | web/src/live-output.ts:71-77 | evicting after every update keeps exactly what one eviction at the end would: the latest `limit` distinct keys in order of last use |
| `Utf8.DecodeEncode` | web/src/live-output.ts:18-19 | decoding undoes encoding |
| `Utf8.FitIsLongest` | web/src/live-output.ts:44-50 | the fitting prefix is the longest one within the budget |
| `Utf8.FitSliced` | web/src/live-output.ts:44-50 | slicing the text to `remaining` UTF-16 units before encoding never changes the fitting prefix |
| `OperationId.CanonicalIdempotent` | web/src/protocol.ts:203-215 | the canonical form of any accepted UUID spelling is itself accepted and canonical |
| `OperationId.CanonicalExact` | web/src/protocol.ts:207-215 | two spellings share a canonical form exactly when their digits agree up to case |
| `OperationId.SpellingsAgree` | web/src/protocol.ts:207-215 | the bare, hyphenated, braced and URN spellings of one UUID have one canonical form |
| `HostCommands.SameHostCommandExact` | web/src/protocol.ts:230-239 | two commands compare equal exactly when they are, but for the spelling of an interrupted round |
| `LedgerRuns.RunAdvances` | web/src/pending-commands.ts:210-276 | over every run of statuses, receipts and observations a settled state stays, authoritative rank never falls, the submission and a known envelope id never change, an inclusion keeps its request id, no issue is forgotten |
| `LedgerEvidence.ReportExact` | web/src/pending-commands.ts:210-245 | a sensible report not outranked is taken over exactly when nothing recorded stands against it: another settled state, another envelope or an irreconcilable receipt; otherwise the record is unchanged but for a complaint, or wholly when a stronger report is recorded |
| `LedgerEvidence.ConflictExact` | web/src/pending-commands.ts:226-244 | two receipts of one operation conflict exactly when the record is settled and their outcomes differ in kind, or no outcome reports both |
| `LedgerEvidence.CombinedExact` | web/src/pending-commands.ts:236 | receipts that go together are kept as the least outcome that reports both |
| `LedgerEvidence.RunKeepsOwn` | web/src/pending-commands.ts:194-269 | in every run the kept receipt is one of the record's own operation and target and answers its own command, down to account, block and mode |
| `LedgerEvidence.ObservationExact` | web/src/pending-commands.ts:248-262 | an observation is recorded exactly when no inclusion is and the record bears the status's envelope: it had it already, or the status is taken over |
| `LedgerEvidence.ClashExact` | web/src/pending-commands.ts:255-259 | a second inclusion is passed over when it is the first again, and recorded as a contradiction when it is another |
| `LedgerObservations.RunIncludes` | web/src/pending-commands.ts:248-262 | in a run of reports that tell one story, the first inclusion reported, whatever comes before and after, is the one recorded at the end, and then nothing is looked up |
| `LedgerObservations.LookupExact` | web/src/pending-commands.ts:60-64 | after such a run a lookup is needed exactly when nothing was reported, or only queueing or dispatching, or an admission without its inclusion |
| `LedgerObservations.UnnamedAdmission` | web/src/pending-commands.ts:226-262 | one story needs admissions to name their envelope: after an unconfirmed receipt a bare one keeps out every inclusion that comes with the admission's receipt |
| `LedgerEvidence.RunNotes` | web/src/pending-commands.ts:271-276 | in every run the last local note of each kind stands, whatever the host reports |
| `LedgerRuns.RunKeepsEnvelope` | web/src/pending-commands.ts:226-245 | a record whose envelope-naming receipt came with settlement keeps that envelope through every run, and every run keeps records so |
| `LedgerRuns.EnvelopeKeptExact` | web/src/pending-commands.ts:226-245 | a named envelope outlives every run exactly when the record is settled; an imported unsettled record can lose it to a later receipt |
| `LedgerRuns.RunConverges` | web/src/pending-commands.ts:183-269 | a fresh record that receives coherent evidence ends in the highest-ranked state reported, queued < dispatching < unconfirmed < settled |
| `LedgerRuns.OrderIndependent` | web/src/pending-commands.ts:183-269 | any permutation and duplication of the same coherent evidence ends in the same state |
| `LedgerRuns.PairOrderExact` | web/src/pending-commands.ts:217-225 | for two fitting reports the order is irrelevant exactly when they agree: settled states are equal, and so are states under different envelopes |
| `LedgerRuns.RivalRefused` | web/src/pending-commands.ts:222-225 | a settled rival, or a report with another envelope, never raises the state |
| `LedgerRetention.CompactExact` | web/src/pending-commands.ts:143-147 | with unique operation keys compaction drops exactly the oldest settled records beyond 128 and keeps the rest in order |
| `LedgerRetention.CompactKeepsUnresolved` | web/src/pending-commands.ts:143-147 | no unresolved record is dropped |
| `LedgerRetention.CompactSubset` | web/src/pending-commands.ts:143-147 | compaction invents nothing and keeps keys unique |
| `LedgerStorage.RetainKeeps` | web/src/pending-commands.ts:161-181 | retaining keeps one record per operation, adds a new one at the end as a local hint, leaves a known one as it is, drops no unresolved one, and refuses exactly wrongly addressed submissions and changed contents under a known id |
| `LedgerStorage.LoadRows` | web/src/pending-commands.ts:125-134 | the row loop fills records and quarantine as the row-by-row specification does |
| `LedgerReading.NothingLost` | web/src/pending-commands.ts:103-139 | reading loses nothing: every row and every unreadable text of the new slot, and of the old one until it has been imported, is a record with the same contents, a noted contradiction with the row in quarantine, or in quarantine as it was |
| `LedgerReading.SaveExact` | web/src/pending-commands.ts:149-159 | a save is refused exactly when either slot cannot be read; otherwise the old slot is left alone and not read again |
| `LedgerSystem.UnresolvedDecodableExact` | web/src/pending-commands.ts:71-101 | an unresolved record reads back exactly when it is addressed, carries no observation and, if authoritative, its receipt supports it |
| `LedgerSystem.ReadBack` | web/src/pending-commands.ts:103-159 | reading a written ledger gives back exactly the decodable records, in order and unchanged |
| `LedgerSystem.QuarantineKept` | web/src/pending-commands.ts:103-159 | what is quarantined before a save is quarantined after it, and the old slot is untouched |
| `LedgerSystem.VisibleWellRead` | web/src/pending-commands.ts:103-139 | whatever the two slots hold, what is read has one record per operation, each with evidence that its authority allows |
| `LedgerSystem.StepSound` | web/src/pending-commands.ts:103-181 | from a ledger whose hints carry no host evidence, each submission, report, save, reload or storage failure keeps it so, keeps every operation unresolved in memory unresolved in storage, and removes no unresolved operation from storage that memory has not settled |
| `LedgerSystem.RunSound` | web/src/pending-commands.ts:103-276 | every run of such steps keeps the ledger sound |
| `LedgerSystem.RunKeepsStored` | web/src/pending-commands.ts:103-276 | an operation unresolved in storage is so after every run in which memory never records it as settled, lost memory and failed saves included |
| `LedgerSystem.ReloadLosesNothing` | web/src/pending-commands.ts:103-181 | from a sound ledger, in every reachable state, a reload loses no unresolved operation |
| `LedgerSystem.LosslessExact` | web/src/pending-commands.ts:82-139 | no run from the stored content ever loses an unresolved operation on a reload exactly when storage refuses access or no hint read from it carries a receipt or an observation |
| `LedgerSystem.ImportedReceiptLost` | web/src/pending-commands.ts:88-101 | a version 1 row with a receipt is such a hint: some run loses it |
| `LedgerSystem.SettledDecodableExact` | web/src/pending-commands.ts:95-98 | a settled record survives a reload exactly when its kept receipt reports its state and envelope |
| `LedgerSystem.KeptReceiptBlocksReload` | web/src/pending-commands.ts:226-245 | it need not: an unconfirmed receipt followed by a bare settled status leaves a record the next reload quarantines; in the other order it survives |
| `LookupClient.CommandLookups.constructor` | web/src/command-lookups.ts:20-25 | a fresh reconciler is sound and idle |
| `LookupClient.CommandLookups.Pump` | web/src/command-lookups.ts:27-63 | due reads start in insertion order while fewer than two are active; then the timer waits for the earliest due entry if a slot is free |
| `LookupClient.CommandLookups.Arm` | web/src/command-lookups.ts:58-62 | the timer is set to the least due time of the waiting entries |
| `LookupClient.CommandLookups.Pause` | web/src/command-lookups.ts:65-72 | the generation moves on and nothing is left pending, active or armed |
| `LookupClient.CommandLookups.Dispose` | web/src/command-lookups.ts:96-99 | as pausing, for good |
| `LookupClient.CommandLookups.Request` | web/src/command-lookups.ts:79-88 | each wanted record of the run is queued, untried and due now, or refreshed in place: its tries and read stay, and its due time too unless the request is forced and no read is out |
| `LookupClient.CommandLookups.Cancel` | web/src/command-lookups.ts:90-93 | waiting entries the ledger no longer needs are dropped, the others keep their order |
| `LookupClient.CommandLookups.Reconcile` | web/src/command-lookups.ts:76-95 | a reconciliation changes run if needed, queues, cancels and pumps, and keeps the invariant; every needed operation that is new, or forced, is then being read, or both slots are taken |
| `LookupClient.CommandLookups.Fire` | web/src/command-lookups.ts:61 | the timer pumps |
| `LookupClient.CommandLookups.Fulfil` | web/src/command-lookups.ts:38-41 | a resolved read calls back with the entry's current record unless superseded |
| `LookupClient.CommandLookups.Reject` | web/src/command-lookups.ts:41-43 | a failed read, or a throwing callback, reports the error unless superseded |
| `LookupClient.CommandLookups.Finish` | web/src/command-lookups.ts:44-56 | the slot is freed and the operation retried later or forgotten, unless the read was superseded |
| `LookupRuns.NextSound` | web/src/command-lookups.ts:20-100 | every step keeps: `active` equals the entries in flight and is at most 2, all entries belong to the current run under their own keys, entries and current reads name each other, the timer is exactly as needed |
| `LookupRuns.RunSound` | web/src/command-lookups.ts:20-100 | so does every interleaving of the steps |
| `LookupRuns.AtMostTwoReads` | web/src/command-lookups.ts:31-36 | the outstanding reads of the current generation number `active`, at most two |
| `LookupRuns.WaitingIsServed` | web/src/command-lookups.ts:58-62 | a waiting entry has a timer no later than its due time or both slots are taken, and no timer is armed without need |
| `LookupRuns.ReconciledSound` | web/src/command-lookups.ts:76-95 | after a reconciliation no due entry waits while a slot is free |
| `LookupRuns.ToldExact` | web/src/command-lookups.ts:38-43 | a read calls back exactly while its generation is current, about its own operation in the current run |
| `LookupRuns.SupersededForever` | web/src/command-lookups.ts:39-45 | a superseded read never calls back in any later run of steps |
| `LookupRuns.PauseSilences` | web/src/command-lookups.ts:65-78 | after a pause, a disposal or a change of run no read that was outstanding calls back in any continuation |
| `LookupRuns.ReconcileCovers` | web/src/command-lookups.ts:79-93 | every wanted operation the ledger still needs is queued afterwards |
| `LookupRuns.ReconcileJustified` | web/src/command-lookups.ts:89-93 | whatever then waits is in the ledger and needed, or was forced |
| `LookupProgress.ReadAtOnce` | web/src/command-lookups.ts:31-38 | after a reconciliation a needed operation that was not queued before, and after a forced one every needed operation, has a read of this generation out, or both slots are taken |
| `LookupProgress.LedgerReadAtOnce` | web/src/command-lookups.ts:76-95 | reconciling with a ledger of one record per operation: each of the run that needs its status and is not queued, or each of the run when forced, is being read, or both slots are taken |
| `LookupProgress.RetryKeepsWaiting` | web/src/command-lookups.ts:79-93 | an unforced reconciliation leaves a needed operation its tries, its due time and its read: ledger writes hurry nothing |
| `LookupProgress.PumpInOrder` | web/src/command-lookups.ts:30-35 | no due entry is overtaken by a later one |
| `LookupProgress.FireExact` | web/src/command-lookups.ts:27-62 | when the timer fires a read starts exactly if its time has come; before that nothing changes |
| `LookupProgress.AnswersOnce` | web/src/command-lookups.ts:38-45 | whatever happens in between, a read answers at most once and fails at most once, after an answer exactly if the callback threw on it |
| `LookupProgress.DisposalIsFinal` | web/src/command-lookups.ts:96-99 | after disposal nothing is queued, timed or read in any continuation |
| `LookupRuns.NeverDroppedEarly` | web/src/command-lookups.ts:50-93 | an operation leaves the queue only by a pause, a disposal, a change of run or because the ledger no longer needs its status |
| `LookupRuns.FinishBacksOff` | web/src/command-lookups.ts:51-54 | an unresolved operation waits 1, 2, 5, 10 and then 30 seconds after its first, second, ... read |
| `WorkerAncestors.WalkAncestors` | web/src/active-worker-tree.ts:60-76 | the walk chooses exactly the terminal actors of its climb, in order, as far as there is room: up the parent links to the worker itself, to one met before or to one not recorded |
| `WorkerSelection.AddPriority` | web/src/active-worker-tree.ts:52-54 | the priority workers in order, each identity at its first place with its last actor |
| `WorkerAncestors.AddAncestors` | web/src/active-worker-tree.ts:58-77 | all walks together choose the terminal actors met, in order of first meeting; the limit cuts that list and nothing else |
| `WorkerAncestors.ShownExact` | web/src/active-worker-tree.ts:56-77 | every present terminal ancestor of the workers is chosen exactly when those met fit within the limit and no terminal actor is hidden above the recorded entry of a worker whose own climb came back to it |
| `WorkerSelection.AncestorsSelected` | web/src/active-worker-tree.ts:50-92 | the same of the priority workers, by the actor list and the limit; the whole selection has those ancestors then too, however full the rest |
| `WorkerSelection.AncestorMissed` | web/src/active-worker-tree.ts:60-69 | such a hidden ancestor: a worker listed as living and as retired under different parents |
| `WorkerAncestors.DistinctHidesNone` | web/src/active-worker-tree.ts:45-48 | with distinct identities none is hidden |
| `WorkerSelection.FillWith` | web/src/active-worker-tree.ts:80-92 | exactly the first new actors for which there is room are appended, in order, each identity once |
| `WorkerSelection.SelectWorkers` | web/src/active-worker-tree.ts:50-92 | the selection is a function of the actor list and the limit: the priority workers, their context, the other active workers and then, if asked for, the recorded ones, each part in order and cut at the limit |
| `WorkerSelection.SelectionFacts` | web/src/active-worker-tree.ts:50-92 | every chosen actor is active (recorded, with history) or a terminal ancestor of a priority worker; the priority ones are always chosen, and below the limit all active ones and, with history, all recorded ones |
| `WorkerListing.OfRunExact` | web/src/active-worker-tree.ts:45-49 | the actors of the run are exactly those listed with it, in order |
| `WorkerListing.ListedShown` | web/src/active-worker-tree.ts:45-92 | by the actors as listed: each chosen one is of the run, living unless context or history; below the limit none is missing; those not context keep the order of listing, and what history adds comes last |
| `WorkerOmitted.OmittedExact` | web/src/active-worker-tree.ts:94-100 | `omitted` is the number of visible workers without a card exactly when no two visible workers share an identity and, without history, no active one is among those the list and the limit give a card for context |
| `WorkerOmitted.OmittedAboveExact` | web/src/active-worker-tree.ts:94-100 | if the ancestors fit and none is hidden, the second half says that no active worker outside the priority ones is recorded last as terminal and above one of them |
| `WorkerOmitted.RepeatMiscounted` | web/src/active-worker-tree.ts:94-100 | a worker listed twice has its card and counts as left out |
| `WorkerOmitted.ContextMiscounted` | web/src/active-worker-tree.ts:94-100 | so does an active one that gets its card as context |
| `WorkerOmitted.DistinctCounted` | web/src/active-worker-tree.ts:94-100 | with distinct identities the counter is right |
| `WorkerLayout.LinkParents` | web/src/active-worker-tree.ts:101-112 | each chosen actor links to its chosen parent; a present parent that was not chosen marks truncation, an absent one an orphan |
| `ParentForest.TracePath` | web/src/active-worker-tree.ts:119-133 | the inner loop collects a chain of fresh keys and tells whether it ended, met settled work or returned to itself |
| `WorkerCycles.BreakCycles` | web/src/active-worker-tree.ts:114-135 | parent links become a forest; exactly one edge of each cycle goes and none elsewhere, the one above the node at which the first key that leads to the cycle enters it |
| `WorkerCycles.CyclesApart` | web/src/active-worker-tree.ts:114-135 | cuts on different traced paths lie on different cycles |
| `ParentForest.GroupChildren` | web/src/active-worker-tree.ts:137-146 | children in order under their parent, roots in order |
| `WorkerLevels.BreadthFirst` | web/src/active-worker-tree.ts:148-159 | every key is visited once at a depth one more than its parent's; level 0 is the roots in order and each further level the children of the one before, in order; the guard against a second visit never fires |
| `WorkerLevels.LevelIsGeneration` | web/src/active-worker-tree.ts:148-159 | the queue, read depth by depth, is the generations of the forest |
| `WorkerLayout.AssignRows` | web/src/active-worker-tree.ts:161-166 | rows number each level from zero, and both maxima are attained |
| `WorkerLayout.DistinctCells` | web/src/active-worker-tree.ts:161-166 | no two workers share depth and row |
| `WorkerLayout.Residue` | web/src/active-worker-tree.ts:167-176 | the loop for disconnected residue finds nothing |
| `WorkerLayout.PlaceCards` | web/src/active-worker-tree.ts:178-202 | one card per chosen worker: its column is its depth, its row its place in its generation; no two overlap, and the canvas is exactly large enough |
| `WorkerLayout.JoinCards` | web/src/active-worker-tree.ts:191-195 | one edge per card with a shown parent, one column to the right of it, and no other |
| `WorkerLayout.LayoutActiveWorkers` | web/src/active-worker-tree.ts:36-204 | for every actor list and limit: at most `limit` cards, each in its cell, none overlapping, on a canvas exactly large enough; children one column right of their parents, all links drawn but one per cycle, lineage marks exact; the cards are exactly the selection above with its ancestor guarantee, `omitted` is right exactly under the condition above, and by the list as given each card is of the run, living unless context or history, none missing below the limit, in listed order |
| `PathIndex.ResolveParentIds` | web/src/selectors.ts:92-119 | the path trie gives each row without an own parent what the naive search gives; an own parent, null included, wins; the last of several rows with one id decides |
| `PathIndex.BuildIndex` | web/src/selectors.ts:96-105 | the trie indexes exactly the rows' paths and marks each with its sole holder or as ambiguous |
| `PathIndex.StepInto` | web/src/selectors.ts:99-102 | following or making one link keeps the trie and reaches the extended path |
| `PathIndex.LookUp` | web/src/selectors.ts:109-116 | the lookup loop finds the longest proper prefix held by exactly one row, else the sole root for other absolute paths, else none |
| `PathIndex.ParentIsLongest` | web/src/selectors.ts:108-116 | an answer is the sole holder of the longest such prefix, or the root or none in its absence, exactly when it is the naive one |
| `PathIndex.PartsExact` | web/src/selectors.ts:99 | a slash divides a path, a name without one is its own part, and slashes at the ends or in a row count for nothing |
| `PathIndex.SoleExact` | web/src/selectors.ts:104 | a path has a sole holder exactly when one row only is there |
| `PathIndex.InferredParentShorter` | web/src/selectors.ts:108-116 | an inferred parent has a shorter path, except for a sole root spelled with several slashes |
| `PathIndex.SelfParentExact` | web/src/selectors.ts:110 | a path makes a row its own parent exactly for that spelling |
| `PathIndex.DoubledRootIsItsOwnParent` | web/src/selectors.ts:110 | such a row: a lone one named `//` |
| `ConversationTree.PathMarks` | web/src/selectors.ts:136-146 | a traced path is cyclic exactly from the repeated node on |
| `ConversationTree.MarkCycles` | web/src/selectors.ts:136-146 | exactly the rows on parent cycles are marked |
| `ConversationTree.EventuallyStops` | web/src/selectors.ts:136-146 | following parents ends at a row without one or on a cycle |
| `ConversationTree.Append` | web/src/selectors.ts:149-161 | the stack loop emits the subtree of its root as one nested block in sibling order |
| `ConversationTree.AllEmitted` | web/src/selectors.ts:162-164 | roots and cycle members reach every row |
| `ConversationTree.OrderRows` | web/src/selectors.ts:147-166 | stable pre-order: every row once, cycle marks exact, off-cycle rows inside their parent's contiguous block one level deeper, siblings in order; rooted blocks come first, in order, then one block per cycle, opened by its first row, in order; the last loop emits nothing |
| `ConversationUnique.StablePreorderUnique` | web/src/selectors.ts:147-166 | for distinct ids there is only one such sequence of rows |
| `ConversationOrder.OrderConversationTree` | web/src/selectors.ts:124-166 | the same from the rows themselves, for distinct ids, with parents as resolved from paths and orphans exactly the rows with a missing parent |
| `Replica.NormalizeShows` | web/src/protocol.ts:70-89 | normalising any listing of the host's maps gives those maps, and of a receipt log the latest receipt of each of the latest 128 operations |
| `Replica.ChangedShows` | web/src/protocol.ts:97-169 | every event changes the replica's tables and receipts as it changes the host's maps and receipt log |
| `Replica.SetCommandReceipt` | web/src/protocol.ts:184-198 | the receipt becomes the newest under its canonical operation and the newest 128 remain |
| `ReplicaOutputs.PreviewsFollow` | web/src/protocol.ts:97-169 | the replica's previews are those of the run of output events: the snapshot's, then every delta, commit, stop and removal of the log in order |
| `ReplicaOutputs.RevisionsFollow` | web/src/protocol.ts:70-169 | its history revisions are the latest of each of the latest 128 requests that the snapshot lists and the log commits to |
| `ReplicaOutputs.ReceiptKeyExact` | web/src/protocol.ts:184-190 | receipts share a place exactly when they are of one operation: the same id, or two spellings of one UUID |
| `Connection.NextCoherent` | web/src/ws-client.ts:24-104 | every step keeps: ready means a current state and no outstanding request, a request is outstanding exactly when flagged and at most one is, a timer guards it, the last delivery is the current state, numbers ascend within a string run |
| `Connection.RunCoherent` | web/src/ws-client.ts:24-126 | so does every run |
| `Connection.RunFromLog` | web/src/ws-client.ts:58-96 | if frames come from one log, then under any loss, repetition or reordering every delivered state shows the host at that state's own sequence number |
| `Connection.NeverFalls` | web/src/ws-client.ts:66 | over any stretch of deliveries naming one run the sequence number never falls |
| `Connection.RegressionExact` | web/src/ws-client.ts:66 | an older snapshot is ignored exactly when its wire run is the run already known |
| `Connection.NullRunRegresses` | web/src/ws-client.ts:66 | a null wire run is never that run, so such a snapshot sets the replica back |
| `Connection.GapAnswered` | web/src/ws-client.ts:73-77 | an event that cannot be applied leaves a request outstanding or the connection given up, and changes no state |
| `ConnectionProgress.EventApplied` | web/src/ws-client.ts:73-80 | the next event of a ready connection is always applied and delivered |
| `ConnectionProgress.SnapshotAdopted` | web/src/ws-client.ts:64-72 | a snapshot that is not older, or is of another run, is always adopted and delivered, and the connection is ready unless the callback throws |
| `ConnectionProgress.OtherFrames` | web/src/ws-client.ts:61-96 | every other frame is told to the owner first; only a malformed one, or a throwing callback, leads to a request |
| `ConnectionProgress.CaughtUp` | web/src/ws-client.ts:58-96 | after a snapshot and any number of the log's next events, every one has been delivered, the connection is ready and the replica shows the host |
| `ConnectionProgress.RunAnnounced` | web/src/ws-client.ts:31-56 | in every run the last phase told is the phase there is, and a loss is told exactly once |
| `ConnectionProgress.EndsExact` | web/src/ws-client.ts:39-54 | a live connection ends exactly by an error, a close, an armed timer running out, a throwing send, or a request that finds the socket closed or throwing |
| `ConnectionProgress.SendExact` | web/src/ws-client.ts:106-110 | what may leave: exactly valid commands to the run last delivered, or old-style text while no run is known, on a ready connection with an open socket |
| `Connection.EndIsFinal` | web/src/ws-client.ts:47-59 | after loss or disposal no continuation delivers, requests or lets a command leave, and the replica stays; after disposal nothing happens at all |
| `HarnessConnection.Harness.constructor` | web/src/ws-client.ts:24-31 | a fresh connection is coherent |
| `HarnessConnection.Harness.OnMessage` | web/src/ws-client.ts:58-96 | one frame, malformed ones and throwing callbacks included |
| `HarnessConnection.Harness.OnOpen` | web/src/ws-client.ts:57 | opening awaits the snapshot |
| `HarnessConnection.Harness.OnError` | web/src/ws-client.ts:97-101 | an error ends the connection |
| `HarnessConnection.Harness.OnClose` | web/src/ws-client.ts:102 | so does closing |
| `HarnessConnection.Harness.OnTimeout` | web/src/ws-client.ts:39-43 | an armed timer always finds its request open and ends the connection |
| `HarnessConnection.Harness.Send` | web/src/ws-client.ts:106-120 | what is sent, refused or unknown, and the state afterwards |
| `HarnessConnection.Harness.Dispose` | web/src/ws-client.ts:121-125 | disposal disarms the timer |
| `Connection.SentToItsRun` | web/src/ws-client.ts:106-110 | in every run over frames of one log a host command leaves only while no request is outstanding, and it names the run the host had at the sequence number of the last delivery |
| `Projector.Reuse` | web/src/integration.ts:12-19 | a row with the source object and dependency it had before is the row object of before, any other a new object; both equal the row that would be created |
| `Projector.ReuseAll` | web/src/integration.ts:91-148 | so for all rows of a table, and the new cache is sound |
| `Projector.GroupDetails` | web/src/integration.ts:60-72 | details are grouped by conversation in request order |
| `Projector.GroupEvidence` | web/src/integration.ts:73-84 | evidence is grouped by request in job order; jobs without a request id, or with an empty one, tell nothing |
| `Projector.ResolveParents` | web/src/integration.ts:85-88 | parents as the path index resolves them, an own null kept apart |
| `ViewProjector.Projection.Project` | web/src/integration.ts:47-159 | for every sequence of states in which equal identities mean equal contents the cached view is the fresh view of the latest state, exactly unless no output map is present and one was before; row objects whose source and dependency stayed are kept |
| `ViewProjector.ProjectRun` | web/src/integration.ts:35-160 | over every run of states each view is the fresh one exactly when some output map is present or none was in any state before |
| `ViewProjector.OutputThenNone` | web/src/integration.ts:48-58 | two calls after which it is not: some output, then none |
| `ViewMeaning.FreshTells` | web/src/integration.ts:60-159 | a fresh view says exactly what the state says: actors, envelopes, jobs and receipts as they are; nodes with their own parent or the one of the longest path, and the details of their requests in order; requests with the evidence of their concluded jobs in order; output lists absent exactly while no map is there |
| `ViewMeaning.RefreshExact` | web/src/integration.ts:73-84 | replacing a job refreshes a request's history page exactly when what the job tells of that request changes; progress of a running job does not |
| `ViewMeaning.JoinedExact` | web/src/integration.ts:71 | joined details have a comma and a blank between them and nowhere else |
| `Selector.Filtered` | web/src/selectors.ts:64-74 | filtering, or handing the array on, yields the rows that meet the context |
| `Selector.SameRows` | web/src/selectors.ts:42-45 | the previous array is returned exactly for the same row objects |
| `Selector.ViewSelector.Select` | web/src/selectors.ts:54-86 | the cached selection has exactly the rows of a fresh one, and arrays whose rows did not change keep their identity |
| `Selector.WhereExact` | web/src/selectors.ts:64-74 | a row is selected exactly when present and meeting the context |
| `SelectionMeaning.ResolveExact` | web/src/selectors.ts:19-36 | a selection is missing exactly when nothing has its identity; its conversation and its names are those of the first actor or conversation that has it |
| `SelectionMeaning.SelectionShown` | web/src/selectors.ts:54-86 | a selection shows, in order, exactly the conversation it is about, its activity, and the messages from or to one of its names that pass every filter given |
| `FormValidators.BrowserAccepts` | web/src/form-model.ts:23-54 | the browser accepts exactly the trees of depth at most 32 with distinct ids across all branches, bounded distinct options and initial values from options or range, whose views it accepts and whose captions fit |
| `FormValidators.BrowserNode` | web/src/form-model.ts:23-51 | its recursion over the shared id set decides that for every subtree |
| `FormValidators.BrowserBranches` | web/src/form-model.ts:38-44 | option and branch form are checked in turn |
| `FormValidators.HostAccepts` | crates/harness-presentation/src/lib.rs:249-369 | the host's tree check accepts exactly the same trees, by its own view verdicts and without a caption limit |
| `FormValidators.HostNode` | crates/harness-presentation/src/lib.rs:270-360 | its recursion decides that for every subtree |
| `FormValidators.HostOptions` | crates/harness-presentation/src/lib.rs:250-269 | options are checked before any branch is entered |
| `FormValidators.IsFormSpec` | web/src/form-model.ts:52-54 | the browser takes version 1 with an accepted tree |
| `FormValidators.ValidateForm` | crates/harness-presentation/src/lib.rs:361-369 | the host takes version 1 of at most 128 KiB serialised with an accepted tree |
| `FormTexts.IntegersAgree` | web/src/form-model.ts:22 | both sides read the same texts as integers: one optional sign and at least one ASCII digit |
| `FormTexts.GoodIdExact` | web/src/form-model.ts:17-21 | an id is good exactly when its UTF-8 encoding has between 1 and 128 bytes |
| `FormValidators.VerdictsAgree` | crates/harness-presentation/src/lib.rs:361-369 | with views both sides judge alike, the host takes exactly the forms the browser takes that are not too large: the size limit makes every caption fit |
| `FormDrafts.ActiveExact` | web/src/form-model.ts:103-122 | restricting keeps exactly the answers of the fields in play |
| `FormDrafts.CheckSame` | crates/harness-presentation/src/lib.rs:370-392 | the host's verdict depends only on those answers |
| `FormDrafts.ActiveKeepsVerdict` | web/src/form-model.ts:103-122 | for every form and draft restricting leaves the host's verdict unchanged and is idempotent |
| `FormHydration.InitialKeeps` | web/src/form-model.ts:80-98 | filling in never overwrites an answer |
| `FormFilling.FillsInExact` | web/src/form-model.ts:80-98 | for distinct ids the filled-in draft is the only one that keeps every answer, answers each field in play as it declares, kind by kind, and has no other answer |
| `FormFilling.FitsExact` | crates/harness-presentation/src/lib.rs:374-388 | the host takes as an answer exactly what the field, were it valid, could have declared initially, and for an integer any text |
| `FormFilling.ReachedExact` | web/src/form-model.ts:88-97 | a branch is entered exactly when the answer, or for a single choice without an answer the initial value, names it, and for a single choice it is the first of its name |
| `FormFilling.ActiveKeepsInPlay` | web/src/form-model.ts:103-122 | restricting keeps exactly the answers to fields that these answers lead to |
| `FormHydration.InitialFrame` | web/src/form-model.ts:80-98 | and touches no id outside the tree |
| `FormHydration.InitialIdempotent` | web/src/form-model.ts:80-98 | with distinct ids filling in twice is filling in once |
| `FormHydration.InitialAllFit` | web/src/form-model.ts:80-98 | in a valid form filling in keeps every answer suitable |
| `FormHydration.InitialPassesExact` | web/src/form-model.ts:80-98 | for a valid form, filling in a draft gives one the host accepts exactly when the draft's answers suit the fields that filling in brings into play |
| `FormHydration.HydratedSound` | web/src/form-model.ts:99-102 | a hydrated draft of a valid form keeps cached over stored answers, is a fixpoint, and passes the host's check exactly when the gathered answers suit the fields so brought into play; with none it always passes |
| `FormHydration.FillingCanReject` | web/src/form-model.ts:88-92 | a draft the host accepts can stop passing when filling in opens a branch with an old unsuitable answer |
| `FormDraftObjects.DraftObject.Initialise` | web/src/form-model.ts:80-98 | for distinct ids the recursion gives every field in play without an answer exactly the initial value it declares, nothing to those that declare none, and changes nothing else |
| `FormDraftObjects.DraftObject.Activate` | web/src/form-model.ts:103-122 | so does the restriction |
| `FormDraftObjects.KeepDraft` | web/src/form-model.ts:76-79 | the draft becomes the newest and the newest 32 remain |
| `TimelineProjection.ProjectTimeline` | web/src/chat-timeline.ts:61-105 | every entry has its row in place, then each in-scope live item no entry claims is shown once, in order of its first preview |
| `Timeline.TimelineUnique` | web/src/chat-timeline.ts:61-105 | there is one such list of rows |
| `TimelineMeaning.TimelineTells` | web/src/chat-timeline.ts:61-105 | every row by the entries themselves: its key is its provider's exactly when no other message has that identity, an activity lists the results of its operation in order, a result names the last invocation of its operation, a live row has all previews of its item |
| `TimelineProjection.GroupLive` | web/src/chat-timeline.ts:62-67 | previews are grouped by item in order, those of the model's origin only |
| `TimelineProjection.CandidatesExact` | web/src/chat-timeline.ts:84 | an item has one candidate group or none |
| `TimelineProjection.Match` | web/src/chat-timeline.ts:84-90 | the matched group is the one under the entry's own key |
| `Timeline.KeysDistinct` | web/src/chat-timeline.ts:81-104 | for distinct sequences row keys are pairwise distinct |
| `Timeline.LiveAccounted` | web/src/chat-timeline.ts:84-103 | a live item is in exactly one row: that of its message, under the preview's own key, exactly when one published message has its provider identity, and else a live row |
| `Timeline.InvocationShown` | web/src/chat-timeline.ts:75-99 | a result's invocation key is the key of the activity row of its invocation, and that row lists the result, among exactly the published results of the operation |
| `TimelineWindow.MergeEntries` | web/src/chat-timeline.ts:31-43 | one entry per sequence, in ascending order |
| `TimelineMerge.MergedExact` | web/src/chat-timeline.ts:31-43 | a sequence is in the result exactly when held or incoming; its entry is the offer newer than all later ones and not older than any form since the last offer of another kind |
| `TimelineMerge.StandsUnique` | web/src/chat-timeline.ts:35-39 | at most one offer is |
| `TimelineMerge.MergedTwice` | web/src/chat-timeline.ts:31-43 | merging the same page a second time changes nothing |
| `TimelineWindow.FormNeverSetBack` | web/src/chat-timeline.ts:35-39 | a history page never sets a retained form back |
| `TimelineWindow.BoundEntries` | web/src/chat-timeline.ts:47-59 | the longest window from the chosen end within 400 entries and 2 MiB, in order; trimmed exactly when shorter |
| `TimelineWindow.TotalReversed` | web/src/chat-timeline.ts:50-57 | the byte total does not depend on the end |
| `PercentEncoding.DecodeOfEncode` | web/src/navigation.ts:25-112 | decoding a component undoes encoding it |
| `Navigation.PathRoundTrip` | web/src/navigation.ts:20-31 | a printed actor path reads back as the absolute spelling of the actor |
| `Navigation.RouteUrl` | web/src/navigation.ts:115-142 | the printed URL carries exactly the route and keeps unrelated parameters, whatever route parameters the base carried |
| `Navigation.RoundTripExact` | web/src/navigation.ts:33-142 | parsing a printed URL returns the route without issue exactly for printable routes: non-empty identities, ids and filters, and a printable path for an absolute actor in chat |
| `Navigation.PrintAndParse` | web/src/navigation.ts:33-142 | printing onto any base and parsing returns a printable route |
| `NavigationMeaning.ParseExact` | web/src/navigation.ts:33-103 | for every URL, printed here or not, parsing gives a route without issue exactly when the URL means it: each key once, path and view agreeing on the screen, one selection complete and not contradicted, the flags and filters as given |
| `NavigationMeaning.IssueExact` | web/src/navigation.ts:13-19 | a URL that means no route is reported, and then selects and filters nothing |
| `NavigationMeaning.PathNamesExact` | web/src/navigation.ts:20-31 | a path names an actor exactly when its segments decode to fit ones |
| `NavigationMeaning.ActorPathExact` | web/src/navigation.ts:105-112 | an actor has a path exactly when it is made of fit segments |
| `ToolJobs.Jobs.Reopen` | crates/harness-demo/src/async_demo.rs:325-337 | any persisted records are taken as they are, the last one of each call |
| `ToolJobs.Jobs.Start` | crates/harness-demo/src/async_demo.rs:195-226 | a new call starts running; a known one is refused and unchanged |
| `ToolJobs.Jobs.Settle` | crates/harness-demo/src/async_demo.rs:228-247 | only a running job settles |
| `ToolJobs.Jobs.Cancel` | crates/harness-demo/src/async_demo.rs:271-288 | only a running job is cancelled; a failed save is ignored |
| `ToolJobs.Jobs.ObserveInput` | crates/harness-demo/src/async_demo.rs:293-323 | settled jobs in the input become delivered; the revision moves exactly when one did and the save succeeded |
| `ToolJobs.Jobs.MarkInterruptedAfterRecovery` | crates/harness-demo/src/async_demo.rs:339-356 | exactly the running jobs become interrupted |
| `ToolJobs.MarkDelivered` | crates/harness-demo/src/async_demo.rs:304-314 | the loop marks exactly the settled undelivered jobs named |
| `ToolJobs.MarkInterrupted` | crates/harness-demo/src/async_demo.rs:340-351 | the loop marks exactly the running jobs |
| `ToolJobsStory.RecordsTell` | crates/harness-demo/src/async_demo.rs:195-356 | after every sequence of operations exactly the calls begun have a record, and it says what the history says: the first begin, the first end after it with its outcome, time and output, and delivered exactly when it settled and was observed later |
| `ToolJobs.RunKeeps` | crates/harness-demo/src/async_demo.rs:195-356 | over every interleaving, from any records, the first terminal outcome is final and nothing is removed; where delivered implied settled and output was present exactly when settled, it stays so |
| `ToolJobs.FailureExact` | crates/harness-demo/src/async_demo.rs:316-321 | a failed save leaves nobody forgotten exactly when every waiter parked on a delivered record at the latest revision has its call with another observer |
| `ToolJobs.NoLostWakeup` | crates/harness-demo/src/async_demo.rs:252-323 | at every point of a run each parked waiter has an undelivered record, an unseen revision or a bump still to come, exactly when every failed save of the run is so covered |
| `ToolJobsWaiting.WaiterGetsThrough` | crates/harness-demo/src/async_demo.rs:249-269 | nobody waits in vain: whoever waits for a delivered job, in a state where nobody is forgotten, gets through by its own steps and those of observers already at work |
| `ToolJobsWaiting.LateAskerPasses` | crates/harness-demo/src/async_demo.rs:252-262 | asking and inspecting lets a waiter through exactly when the job is delivered, and parks it otherwise, at the revision of the moment it asked |
| `ToolJobsWaiting.NobodyEarly` | crates/harness-demo/src/async_demo.rs:249-269 | in every run nobody is through before the delivery |
| `ToolJobsWaiting.RecordsFollow` | crates/harness-demo/src/async_demo.rs:195-356 | whatever the interleaving, the records are those of the operations in the order in which they took the lock |
| `ToolJobs.SuccessCovers` | crates/harness-demo/src/async_demo.rs:252-323 | as it is while saves succeed |
| `ToolJobs.FailedSaveForgets` | crates/harness-demo/src/async_demo.rs:316-321 | after a failed save a waiter can be parked on a delivered record with nothing to come |
| `ToolJobsStore.RunBehind` | crates/harness-demo/src/async_demo.rs:177-182 | in every run of any number of threads, failing saves included, storage holds an earlier state of the ledger, and the latest exactly when nothing changed since the copy last written |
| `ToolJobsStore.NeverBackExact` | crates/harness-demo/src/async_demo.rs:177-182 | storage never goes back over a run exactly when no write is of a copy older than what is stored |
| `ToolJobsStore.LatestStored` | crates/harness-demo/src/async_demo.rs:177-182 | if saves succeed and none is so overtaken, the latest records are stored whenever nobody is still to write |
| `ToolJobsStore.OlderCopyWins` | crates/harness-demo/src/async_demo.rs:177-182 | otherwise they need not be: two calls start, the first copy is written last, and storage lacks the second call |

## Left out

- LiveOutput.AppendOutput: the module-level WeakMap is a `retained` field of the item, absent on objects rebuilt from the wire, by a commit or by a stop; object identity as such is not modelled there.
- LedgerRuns.RunAdvances: a later receipt keeps the earlier one's target when it has none; an explicit null target, which the host does not send (`crates/harness/src/server/ws_protocol/contract_extensions.rs:245`), would erase it in the source.
- LedgerEvidence.ReportExact: stated for records whose kept receipt, if any, is their own, which `LedgerEvidence.RunKeepsOwn` shows of every run; only a row imported with a foreign receipt is not such a record.
- LookupClient.CommandLookups.Reconcile: the clock is read once per step, where the source reads it once per record; no property depends on the difference.
- LookupClient.CommandLookups.Finish: the entry object captured by a read is found again by its key; the invariant shows it is the one in the queue.
- HarnessConnection.Harness.OnMessage: callbacks that call back into the connection while it handles a frame are not modelled, nor is a throwing `phase` callback.
- ViewProjector.Projection.Project: row fields that are copied unchanged are one opaque field; `sortActivity` and the inbox sort are arbitrary functions of the rows' contents, so row identity is stated of the caches, not of places in the view.
- FormValidators.ValidateForm: the serialised size is a number given with the form; the lemma about it uses only that every caption is part of the serialised text.
- FormDrafts.CheckSame: the limits on the number of answers and the serialised size of a draft are not modelled; the host's integer and floating-point answers are one real number.
- FormDraftObjects.DraftObject.Initialise: field ids that name members of `Object.prototype` behave as any other id.
- TimelineProjection.ProjectTimeline: the order of previews inside one live row is an arbitrary function of them.
- TimelineWindow.MergeEntries: the map and the final sort are one list kept sorted.
- Navigation.RoundTripExact: query-string syntax and the URL parser's own path normalisation are the browser's; parameters are key and value pairs, and text has no lone surrogates.
- ToolJobs.Jobs.ObserveInput: the lock is a step and the save's answer a parameter; the wrapping of the revision counter is not modelled.
- ToolJobsStore.RunBehind: a write replaces the stored records at once; what the server's callback publishes after it is not modelled.
- Replica.NormalizeShows: the host's own previews and revisions are not part of its state here; the replica's follow the log (`ReplicaOutputs`), and what previews show is proved in `LiveStreams`.
- Replica.ChangedShows: form and actor-output revision tables, whose eviction depends on a JSON byte length, are not part of the replica.
- Generated wire validators and JSON: frames, rows and forms arrive with the right shapes; what fails validation is one malformed case.
- `web/src/useConversationHistory.ts`: a poll and an older page in flight may interleave, so no contiguous-window invariant holds of it.
- React components, DOM viewport, focus, selection, clipboard, fetch, session and WebSocket plumbing: user interface and I/O.
- `pageRows`, `formatActivityTime`, `formRevisionIsStale` and the diagnostic bounds of blocks: they would only add easy members.
- View contents (`isRichView`, SVG parsing, base64, hashes): foreign syntax; a view is its two verdicts.
- The Rust engine, store, scheduler and the rest of the demo crate: their sources are not part of this model.
