# A verified model of the evidence, identity and decision core

This project models, in Dafny, the parts of the repository whose guarantees span several
functions or a whole run, and proves those guarantees. `dafny verify dfyconfig.toml` checks
everything.

**Evidence delivery** (`Evidence`, `SqliteStores`, `Transcripts`, `Flush`, `RunState`,
`HookCli`, `HookRuns`, `TrialTelemetry`). Hook processes append events to an outbox with an
immutable history and stage observations and context snapshots; a flusher drains the three
queues into a plane that may answer anything; a run-state table records failures. Each SQL
transaction is one atomic act, and a run of the system is any sequence of enabled acts by any
number of processes, any of which may die between two acts. `Database` holds the tables and the
log of exchanges and carries a ghost record of every act, so that what a method does to the
fields is also a step of such a run. `Interleave` lets other processes act between any two
transactions. `Transcripts` specifies, batch by batch, what an undisturbed flush says and does.

**Canonical identity** (`Text`, `StringOrder`, `NumberText`, `Validator`, `CanonicalJson`,
`Normalize`, `CanonicalReader`, `CanonicalTexts`, `FileManifest`, `Base32`, `Ids`, `Sha256`,
`WrittenForms`, `Records`, `WrittenRecords`, `ContextSnapshots`, `BuildIndex`, `IndexDigest`,
`IndexTables`). Strings are sequences of UTF-16 code units. Beside each encoder stands a reader
or a table written from its standard alone, which says which text or which record it produces.
The validator runs over a heap of objects; the serializer follows RFC 8785 sections 3.2.2.2,
3.2.2.3 and 3.2.3; UTF-8 follows RFC 3629 section 3; base32 follows RFC 4648 section 6. SHA-256
is a parameter, and every theorem that needs it assumes only that it does not collide on the
inputs at hand.

**Reproducible decisions** (`Sorting`, `Rank`, `RankTheorems`, `RankMeaning`, `AgentContract`,
`Resolve`, `Attribution`, `AttributionTheorems`, `AttributionRecords`, `Replay`) and **small
machines** (`RateLimit`, `Splice`, `TrialProcess`).

## What the proofs found

Each of these is a theorem of the model. The code is modelled as it is.

- COMPLETE is meant to say that a session end was handled, every boundary drained and nothing
  threw. It does not when something went wrong, a session end was finished and no invocation
  persisted a failure, and in every other run it does (`HookCli.CompleteExactly`, and for hook
  processes that overlap in any way `HookRuns.InterleavedExactly`). A process killed between a
  flush that did not drain and the write that records it is such a run (`HookCli.LostExactly`,
  `HookCli.KillLosesFailure`). Eligibility is still safe, because the final verdict counts what
  is pending (`TrialTelemetry.EligibleMeansDelivered`).
- The UTF-8 comparator ties different strings that hold lone surrogates, so a manifest can
  depend on listing order; the file-set digest cannot, because canonical JSON refuses exactly
  those paths (`FileManifest.ManifestOrderExact`, `FileManifest.ListingOrderLeaks`,
  `FileManifest.HashIgnoresListing`).
- The comment on `spliceMarkedBlock` promises idempotence; it holds on exactly the documents
  without markers or whose first begin precedes their first end (`Splice.IdempotentExactly`).
  After a stray end marker every run appends another block (`Splice.StrayEndGrowsForever`);
  after a stray begin marker the second run deletes the text between it and the appended
  block (`Splice.StrayBeginDeletes`, `Splice.SurvivesExactly`).
- `expand` extends what `resolve` showed exactly when nothing kept beyond the smaller pool
  outranks an item shown; a tie in search rank at the pool cut can break it
  (`Resolve.TieBreaksWidening`).
- `compareReplay` can say "not identical" with an empty list of differences, exactly when the
  payloads differ only in null members (`Replay.ReportExact`, `Replay.NullMemberUnreported`).
- A rate limit below one still lets the first request of each window through, so it acts as
  one (`RateLimit.AtMostTwiceTheLimit` is stated with `Effective`).
- A repeated capability or member is accepted by the tree reader and by the digest and then
  aborts the build on a primary key; nothing else does (`BuildIndex.BuildsExactly`,
  `BuildIndex.RepeatedCapabilityAborts`).
- `body_hash` forgets line endings; that bodies agree byte for byte comes from the verified
  `content_hash` (`BuildIndex.BodiesAgree`).

## Model

| member | source | states |
|---|---|---|
| Evidence.EveryRunSafe | packages/store-sqlite/src/outbox.ts:103-171 | over every interleaving of transactions and every answer of the plane, the outbox is exactly the unacknowledged part of history and every acknowledged row was named in an accepted reply to a batch that held it |
| Evidence.RunKeeps | packages/store-sqlite/src/evidence-documents.ts:151-175 | no recorded row is ever dropped or rewritten and no acknowledgement is ever taken back |
| Evidence.NeverRequeued | packages/store-sqlite/src/outbox.ts:116-134 | an item that has left its queue never comes back, whatever is appended or recorded later |
| Evidence.RecordedForGood | packages/store-sqlite/src/outbox.ts:103-136 | the first recording of an id is what stays recorded under it, in every continuation |
| Evidence.OpenExact | packages/store-sqlite/src/outbox.ts:81-87 | opening makes queue and history consistent if and only if queued rows that are already in history are unacknowledged and equal there, and unacknowledged history is queued |
| Evidence.OpenPreHistory | packages/store-sqlite/src/outbox.ts:81-87 | a database from before the history table opens into a consistent state whose history is its queue |
| SqliteStores.Database.Interleave | packages/store-sqlite/src/outbox.ts:195-204 | any number of other processes may commit any enabled transactions here |
| SqliteStores.SelectOldest | packages/store-sqlite/src/outbox.ts:138-149 | the read returns min(limit, size) distinct pending rows, in order, and none left behind is older |
| SqliteStores.ReadsInOrder | packages/store-sqlite/src/outbox.ts:138-149 | events come by installation, emitter and sequence, observations by time and id, snapshots by id, texts by code point; nothing left behind belongs before what was read |
| SqliteStores.SqliteOutbox.Append | packages/store-sqlite/src/outbox.ts:103-136 | one transaction: a new id enters history and queue, a known id changes nothing; a throw leaves the tables as they were |
| SqliteStores.SqliteOutbox.Acknowledge | packages/store-sqlite/src/outbox.ts:161-171 | one transaction marks and removes exactly the given ids |
| SqliteStores.SqliteOutbox.HistoryForRun | packages/store-sqlite/src/outbox.ts:174-183 | every recorded event of the run, delivered or not, and nothing else |
| SqliteStores.SqliteEvidenceDocuments.RecordObservation | packages/store-sqlite/src/evidence-documents.ts:70-82 | recorded once, unacknowledged; a known id changes nothing |
| SqliteStores.SqliteEvidenceDocuments.RecordContextSnapshot | packages/store-sqlite/src/evidence-documents.ts:88-100 | refused unless its id is the one its content gives, a content that cannot be canonicalized being an exception; otherwise recorded once, unacknowledged; a known id changes nothing |
| ContextSnapshots.ContextSnapshotIdIdentifies | packages/core/src/ids.ts:184-195 | short of a collision, two snapshots get the same id if and only if every field of their content is the same, the change scope as a list |
| WrittenRecords.ContextSnapshotHashes | packages/core/src/ids.ts:184-195 | the id is the digest of exactly the eight named fields |
| SqliteStores.SqliteEvidenceDocuments.Acknowledge | packages/store-sqlite/src/evidence-documents.ts:161-175 | the acknowledged bit is set for exactly the given ids of one queue |
| Flush.Flusher.SafeSend | packages/telemetry/src/flush.ts:229-238 | one attempt: the plane is asked once and its reply logged; a throw reads as unreachable, and so does a queue the plane does not take |
| Flush.Flusher.SendBatch | packages/telemetry/src/flush.ts:188-193 | the same batch again until it is accepted or rejected, at most maxAttempts times; the result is the last reply, and nothing is sent when no attempt is allowed |
| Flush.Flusher.DeliverBatch | packages/telemetry/src/flush.ts:195-223 | the last reply decides: which ids are acknowledged (all that it named, if the batch contained them), and whether and how the drain fails |
| Flush.Flusher.AcknowledgeBatch | packages/telemetry/src/flush.ts:207-223 | the ids an accepted reply named, all of the batch, leave the queue in one transaction; the drain goes on exactly when they are the whole batch |
| Flush.Flusher.Drain | packages/telemetry/src/flush.ts:180-227 | terminates; with no other writer it is a drain as specified batch by batch: each batch the oldest rows pending, sent as often as allowed, acknowledged as the last reply says, until one fails or nothing is left; counts are exact |
| Flush.Flusher.DrainEvidence | packages/telemetry/src/flush.ts:134-168 | observations, then snapshots: with no other writer, staged before = acknowledged + left, events untouched, and a failure leaves something staged |
| Flush.Flusher.Flush | packages/telemetry/src/flush.ts:110-178 | with no other writer, exactly the specified flush of the three queues, its exchanges appended to the log: events first, each queue reached only over empty ones, the cause on the first queue that failed; pending before = acknowledged + remaining; drained if and only if nothing remains, and exactly then it sets no failure. Under any interleaving drained means that everything recorded before was delivered, and a failure has a reply heard since the call as its cause; a throw sets the failure too; also for batchSize 0 and maxAttempts 0 |
| Flush.Flusher.DrainAll | packages/telemetry/src/flush.ts:122-170 | the three drains, stopping at the first that fails: the batches, the exchanges, the counts and the queues they leave |
| Transcripts.FlushInOrder | packages/telemetry/src/flush.ts:126-170 | if no event batch failed all events are acknowledged, otherwise nothing but events was sent and the documents are untouched; snapshots are sent only once no observation is pending |
| Transcripts.FlushReachedInOrder | packages/telemetry/src/flush.ts:126-170 | in the log of a flush events come before observations and observations before snapshots, and whatever comes before a sent queue is empty |
| Flush.Flusher.FailedResult | packages/telemetry/src/flush.ts:246-262 | the failure is sticky before the remaining count is read |
| RunState.SqliteRunStateStore.BeginRun | packages/store-sqlite/src/run-state.ts:77-91 | inserts a row only for a new run id and a new session key; an existing row is untouched |
| RunState.FailedRunsClaimNothing | packages/store-sqlite/src/run-state.ts:104-150 | in every interleaving what is stored for a failed run claims neither completeness nor eligibility |
| RunState.SessionsKeepTheirRun | packages/store-sqlite/src/run-state.ts:77-91 | for every interleaving a session belongs to at most one run and keeps it |
| RunState.SqliteRunStateStore.MarkFlushFailed | packages/store-sqlite/src/run-state.ts:104-114 | sets the failure and clears completeness and eligibility, of that run only |
| RunState.SqliteRunStateStore.FinishRun | packages/store-sqlite/src/run-state.ts:123-150 | writes the terminal state unless the run failed before or fails now |
| RunState.FailureSticks | packages/store-sqlite/src/run-state.ts:116-150 | once a failure is persisted the run reads failed, incomplete and ineligible after any further transactions, stale finishes and repeated begins included |
| RunState.RowReads | packages/store-sqlite/src/run-state.ts:176-190 | what a row reads after any writes: complete if and only if the last finish said so and no write ever failed it |
| RunState.EndReads | packages/store-sqlite/src/run-state.ts:123-150 | the end of a run is the time of its last finish |
| RunState.RowIsItsWrites | packages/store-sqlite/src/run-state.ts:77-150 | after any interleaving a run's row is the fold of the writes to that run alone |
| HookCli.RunHook | packages/adapters/claude-code/src/hook-cli.ts:96-230 | one hook process, dying or throwing anywhere: which run it reached, which writes it made, in order, where they stand among the committed acts, and when it exits 0. If its boundary drained, everything recorded before it began and all it emitted was delivered, whatever others did; undisturbed, it drained if and only if nothing is pending, and queues and log are those of its emissions followed by the specified flush |
| HookCli.EventDecides | packages/adapters/claude-code/src/hook-cli.ts:185-208 | by kind of event: which invocations flush, which finish the run, and what the terminal write claims |
| HookCli.FindRun | packages/adapters/claude-code/src/hook-cli.ts:123-143 | a known session keeps its run; only a session start begins one, with the attested reachability; any other event of an unknown session ends quietly |
| HookCli.EmitAll | packages/adapters/claude-code/src/hook-cli.ts:167-183 | when it returns, every emission was appended under the stamp of this run, in order, whatever other processes did in between, and is in the history |
| HookCli.FlushBoundary | packages/adapters/claude-code/src/hook-cli.ts:187-194 | flushes all three queues: drained means everything recorded before was delivered; undisturbed, drained if and only if nothing is pending, and queues and log are those of the specified flush; a boundary that did not drain is marked failed before anything else is written |
| HookCli.FinishBoundary | packages/adapters/claude-code/src/hook-cli.ts:196-208 | the terminal write carries the earlier failure of the run and of this flush |
| HookCli.HandleError | packages/adapters/claude-code/src/hook-cli.ts:219-226 | after an exception the run is marked failed unless that write fails too |
| HookCli.HookHistoryReads | packages/adapters/claude-code/src/hook-cli.ts:113-227 | for every sequence of invocations of a run: complete if and only if some session end was finished and no failure was persisted; eligible if and only if also attested reachable at the start |
| HookRuns.InterleavedReads | packages/adapters/claude-code/src/hook-cli.ts:96-230 | the same for hook processes that overlap each other and any other process in any way, read off the committed acts |
| HookRuns.VerdictExactly | tools/harness/src/trial-telemetry.ts:84-98 | from the hooks to the final verdict: eligible if and only if some session end got to its final write, no invocation persisted a failure, the run began reachable, and every row of every queue is acknowledged |
| HookRuns.ReportJoins | packages/adapters/claude-code/src/hook-cli.ts:96-230 | what the hook method promises of its report and its places makes it one of the invocations of such a run, whatever is committed later |
| HookCli.CompleteExactly | packages/adapters/claude-code/src/hook-cli.ts:187-226 | complete means a finished session end, every flush drained and nothing thrown, if and only if the run is not one where something went wrong, a session end was finished and no invocation persisted a failure; with or without counting boundaries killed before their flush ended |
| HookRuns.InterleavedExactly | packages/adapters/claude-code/src/hook-cli.ts:187-226 | the same exact condition for every interleaving of the hook processes |
| HookCli.LostExactly | packages/adapters/claude-code/src/hook-cli.ts:193-226 | an invocation that went wrong persists no failure exactly when it was killed or threw with its mark failing too, before the mark for its flush, and without a terminal write that carried an earlier failure |
| HookCli.CompleteMeansClean | packages/adapters/claude-code/src/hook-cli.ts:193-226 | if every invocation that went wrong persisted a failure, whatever was killed elsewhere, complete if and only if a session end was finished, every flush drained and nothing threw; if moreover none was cut off from a write it owed, that session end returned |
| HookCli.KilledEarlyIncomplete | packages/adapters/claude-code/src/hook-cli.ts:185-208 | a run whose processes all end before a session end is never complete |
| HookCli.KillLosesFailure | packages/adapters/claude-code/src/hook-cli.ts:193-194 | the exception happens: a kill between a flush that did not drain and its mark, then a clean session end, reads COMPLETE with no failure persisted |
| TrialTelemetry.EligibleMeansDelivered | tools/harness/src/trial-telemetry.ts:80-98 | if the verdict is eligible, every event, observation and snapshot recorded anywhere in any run of the system was named in an accepted reply to a batch that held it as recorded |
| TrialTelemetry.EligibleMeansQueueDelivered | tools/harness/src/trial-telemetry.ts:80-98 | the same for what was queued before |
| TrialTelemetry.EligibleExactly | tools/harness/src/trial-telemetry.ts:84-94 | eligible if and only if the run began attested reachable, no write ever failed it, its last finish claimed complete and eligible, and every row of every queue is acknowledged |
| TrialTelemetry.EligibleReads | tools/harness/src/trial-telemetry.ts:75-98 | every field of the verdict, from the run row and the three queues |
| TrialTelemetry.EligibleDatabase | tools/harness/src/trial-telemetry.ts:80-94 | on the live database: eligible means every row of every queue was delivered |
| TrialTelemetry.ReadLive | tools/harness/src/trial-telemetry.ts:62-98 | run state, event queue and the two document queues are read one after the other while other processes act in between: eligible if and only if the row read so at its moment and the counts were zero, and then everything recorded before the first read was delivered |
| Validator.AssertCanonicalizableJson | packages/core/src/hashing.ts:64-153 | terminates on every finite object graph, restores `seen` on return and on throw, and returns normally if and only if the graph is acceptable |
| Validator.AcceptanceExact | packages/core/src/hashing.ts:104-149 | acceptable if and only if no cycle and no bad leaf, key or class instance can be reached; shared substructure is fine |
| Validator.RefusalWitness | packages/core/src/hashing.ts:64-153 | every refusal has a path that reaches the fault or closes the cycle |
| Validator.UnfoldValid | packages/core/src/hashing.ts:182-185 | what is accepted is what serialization asks for |
| Validator.UnfoldIgnoresPath | packages/core/src/hashing.ts:122-149 | the value an object stands for does not depend on the path taken to it |
| NumberText.NumberStringFaithful | packages/core/src/hashing.ts:193-196 | two finite numbers get the same text if and only if they denote the same real number (-0 is 0) |
| NumberText.SameNumberIsSameReal | packages/core/src/hashing.ts:193-196 | shortest digits and exponent are the same exactly when the real numbers they denote are |
| CanonicalReader.NumberBack | packages/core/src/hashing.ts:193-196 | read by the layouts of ECMAScript alone (up to 21 digits, at least 0.000001 with a point, an exponent otherwise, no superfluous zero) the text of a number is that number |
| CanonicalReader.ReadsBack | packages/core/src/hashing.ts:182-213 | read by the rules of RFC 8785 alone, with keys refused unless they ascend, a canonical text followed by anything gives the value written and leaves the rest |
| CanonicalTexts.CanonicalExactly | packages/core/src/hashing.ts:182-213 | a text is the canonical form of some value if and only if that reader takes all of it |
| CanonicalTexts.ReadsOnlyWritten | packages/core/src/hashing.ts:182-213 | whatever that reader takes off the front of a text is a valid value whose canonical text stood there |
| CanonicalReader.KeysAscend | packages/core/src/hashing.ts:205-213 | the keys of an object stand in strictly ascending code-unit order |
| CanonicalJson.CanonicalIdentity | packages/core/src/hashing.ts:182-213 | two accepted values get the same canonical string if and only if they are the same JSON value up to member order and the sign of zero |
| CanonicalJson.Unambiguous | packages/core/src/hashing.ts:187-213 | a canonical text can be read off the front of any text in one way |
| CanonicalJson.SerializeWellFormed | packages/core/src/hashing.ts:215-218 | the canonical text is well-formed UTF-16, so encoding it loses nothing |
| CanonicalJson.CanonicalBytesIdentity | packages/core/src/hashing.ts:215-218 | the bytes that are hashed identify the JSON value |
| CanonicalJson.DigestIdentity | packages/core/src/hashing.ts:241-244 | short of a collision on the pair, equal digests mean the same JSON value |
| Text.Utf8Order | packages/core/src/normalize.ts:131-142 | byte order of UTF-8 is code-point order |
| Text.Utf16Order | packages/core/src/normalize.ts:144-159 | where code-unit order and code-point order part: exactly when the first difference sets a code point at or above U+10000 against one in U+E000..U+FFFF |
| Normalize.CompareUtf8Bytes | packages/core/src/normalize.ts:131-142 | the loop computes lexicographic order on the encoded bytes |
| Normalize.CompareUtf16CodeUnits | packages/core/src/normalize.ts:151-159 | the loop computes lexicographic order on code units |
| Normalize.Utf8IsCodePointOrder | packages/core/src/normalize.ts:122-142 | on well-formed strings the comparator is code-point order and ties only equal strings |
| Normalize.ComparatorsDisagree | packages/core/src/normalize.ts:122-159 | when the two comparators disagree, exactly |
| Normalize.Utf8Ties | packages/core/src/normalize.ts:131-142 | the comparator ties two strings if and only if they read alike after lone surrogates become U+FFFD |
| Normalize.LoneSurrogateTies | packages/core/src/normalize.ts:131-142 | two different strings that tie |
| Normalize.AcceptedPath | packages/core/src/normalize.ts:63-85 | accepted if and only if, separators unified, the path is a joining of segments that are neither empty nor "." nor ".." and has no drive letter |
| Normalize.AcceptedAgain | packages/core/src/normalize.ts:54-85 | what was accepted is accepted again unchanged |
| FileManifest.BuildFileManifest | packages/core/src/hashing.ts:265-285 | refuses at the first invalid or repeated path, otherwise the entries sorted by UTF-8 path |
| FileManifest.ManifestIgnoresListing | packages/core/src/hashing.ts:276-284 | one strictly sorted manifest for every listing order of the same files, when no two paths tie |
| FileManifest.ManifestOrderExact | packages/core/src/hashing.ts:283-284 | and only then: with a tie some listing order changes the manifest |
| FileManifest.ListingOrderLeaks | packages/core/src/hashing.ts:283-284 | a listing that is accepted and another order of it that gives another manifest |
| FileManifest.HashIgnoresListing | packages/core/src/hashing.ts:290-294 | the file-set digest ignores listing order on every input, because paths that tie are refused by canonical JSON |
| FileManifest.HashIdentifiesFiles | packages/core/src/hashing.ts:255-294 | short of collisions, equal digests mean the same bytes under the same normalized paths |
| WrittenRecords.ManifestHashes | packages/core/src/hashing.ts:284-294 | what is hashed is an object with the one field files |
| WrittenRecords.EntryHashes | packages/core/src/hashing.ts:280-280 | an entry has the path under path and the digest under sha256, and nothing else |
| Base32.Base32Encode | packages/core/src/hashing.ts:310-328 | the never-masked wrapping 32-bit register computes the RFC 4648 section 6 regrouping of the bits |
| Base32.Base32RoundTrip | packages/core/src/hashing.ts:300-328 | a decoder recovers the bytes; the length is ceil(8n/5) over the alphabet |
| Base32.Base32Injective | packages/core/src/hashing.ts:310-328 | injective across all lengths |
| WrittenForms.Base32Spells | packages/core/src/hashing.ts:300-328 | symbol k is the letter of ABCDEFGHIJKLMNOPQRSTUVWXYZ234567 at the value of bits 5k to 5k+4, with zeros after the last bit |
| Ids.EncodeUlidTime | packages/core/src/ids.ts:61-74 | accepts exactly [0, 2^48-1] and writes the ten base-32 digits |
| Ids.EncodeUlidRandom | packages/core/src/ids.ts:81-97 | accepts exactly ten bytes and writes the sixteen base-32 digits of their big-endian value |
| Ids.TimeTextMonotone | packages/core/src/ids.ts:58-74 | later timestamps sort after earlier ones as text |
| Ids.RandomTextBijective | packages/core/src/ids.ts:76-97 | ten bytes and sixteen symbols: each determines the other |
| WrittenForms.UlidReads | packages/core/src/ids.ts:58-97 | read in 0123456789ABCDEFGHJKMNPQRSTVWXYZ the two parts of a ULID are the timestamp and the big-endian value of the random bytes |
| Ids.MintedIdRecognized | packages/core/src/ids.ts:109-123 | every minted id is recognized under its own prefix and under no other, and never as a deterministic id |
| Ids.MintIdInjective | packages/core/src/ids.ts:100-111 | an id determines prefix, timestamp and randomness |
| Ids.DeterministicIdRecognized | packages/core/src/ids.ts:125-135 | a 32-byte digest gives an id the recognizer accepts under its own prefix only |
| Ids.DeterministicIdIdentity | packages/core/src/hashing.ts:335-337 | short of a collision, equal ids mean the same prefix and the same JSON value |
| WrittenForms.DeterministicIdDecodes | packages/core/src/hashing.ts:335-337 | the part after the underscore decodes to the digest of the UTF-8 bytes of the canonical text |
| Sha256.HexInjective | packages/core/src/hashing.ts:225-227 | the textual digest determines the raw one |
| WrittenForms.HexSpells | packages/core/src/hashing.ts:225-227 | two lower-case hexadecimal digits a byte |
| Sha256.ToLfIdempotent | packages/core/src/hashing.ts:236-239 | text hashing leaves no carriage return and normalizing twice is normalizing once |
| WrittenForms.TextDigestSpells | packages/core/src/hashing.ts:236-239 | sha256: and the hexadecimal digest of the lines of the text ended by LF |
| WrittenForms.ToLfIsLines | packages/core/src/hashing.ts:236-239 | the text is its lines, ended by LF, CR LF or CR, put together again with LF |
| WrittenForms.Utf8Reads | packages/core/src/hashing.ts:215-218 | the bytes decode, by RFC 3629 section 3 and refusing overlong forms, to the scalar values of the text |
| BuildIndex.ReadKnowledgeTree | packages/releases/src/build-index.ts:146-210 | accepts exactly the listings whose records parse, ids are distinct, bodies read and content hashes verify; a refusal names the first entry that fails, of which all before it are sound, and the reason it fails |
| BuildIndex.TreeIgnoresLocation | packages/releases/src/build-index.ts:206-209 | the same directories in any order are accepted alike and give the same tree |
| BuildIndex.Build | packages/releases/src/build-index.ts:305-357 | fills every table as specified, or aborts exactly when a join-table key repeats |
| IndexTables.RowsSay | packages/releases/src/build-index.ts:305-345 | one row per asset, per searchable asset and per set, every column holding the field of the record it is named for |
| IndexTables.CapabilitiesSay | packages/releases/src/build-index.ts:318-321 | an asset has a capability in the index if and only if its record lists it |
| IndexTables.MembersSay | packages/releases/src/build-index.ts:346-346 | a set has a member in the index if and only if its record lists it |
| IndexTables.TagsSay | packages/releases/src/build-index.ts:322-328 | the tags split at spaces are the capabilities in ascending order |
| IndexTables.MetaSays | packages/releases/src/build-index.ts:349-357 | schema version, digest and origin, and bootstrap scores that name every asset once in ascending order |
| BuildIndex.BuildsExactly | packages/releases/src/build-index.ts:305-357 | an accepted tree compiles if and only if no asset repeats a capability and no set repeats a member; the other primary keys cannot repeat |
| BuildIndex.RepeatedCapabilityAborts | packages/releases/src/build-index.ts:305-323 | a listing that the tree reader accepts and that does not compile |
| BuildIndex.DigestPins | packages/releases/src/build-index.ts:219-259 | equal digests pin every record up to the order of its set-valued field |
| WrittenRecords.TreeHashes | packages/releases/src/build-index.ts:248-258 | what is digested is an object of schema_version, assets and solution_sets |
| WrittenRecords.TreeEntryHashes | packages/releases/src/build-index.ts:251-256 | an asset is digested as its normalized record and the hash of its body |
| IndexDigest.DigestExactly | packages/releases/src/build-index.ts:219-259 | short of a collision, two trees have one digest if and only if they hold the same records up to the order of capabilities and members and the same bodies up to line ends |
| BuildIndex.BodiesAgree | packages/releases/src/build-index.ts:177-195 | records with one verified content hash have the same body bytes |
| BuildIndex.DigestCoversIndex | packages/releases/src/build-index.ts:228-259 | if it reaches the index it reaches the digest: two accepted listings with one digest compile to equal rows in every table, up to built_from and authored order inside record_json, or both abort |
| Sorting.SortIgnoresArrival | packages/core/src/hashing.ts:283 | a stable sort gives one result for every arrival order when the comparator separates the elements |
| Sorting.SortStable | packages/resolver/src/rank.ts:157-162 | elements that tie keep their order of arrival |
| Rank.ChampionsOf | packages/resolver/src/rank.ts:38-45 | the loop computes each set's re-checked Champion, the last set of an id winning |
| Rank.ProjectFitOf | packages/resolver/src/rank.ts:19-36 | fits if and only if every condition is observed and allowed; the confirmed part lies in [0, 1] |
| Rank.FitCandidates | packages/resolver/src/rank.ts:83-114 | the three asset filters, and a count of exactly what they drop |
| Rank.KeepChampions | packages/resolver/src/rank.ts:116-146 | keeps outsiders and Champions, reports each set without a Champion once, counts exactly what it drops |
| Rank.RankCandidates | packages/resolver/src/rank.ts:78-188 | the passes compute the specified ranking |
| RankMeaning.KeptExactly | packages/resolver/src/rank.ts:83-146 | ranked if and only if a candidate, not a failed solution, able to do something asked for, contradicted by no observed fact, and outside every known set or the one who speaks for it |
| RankMeaning.SpeaksExactly | packages/resolver/src/rank.ts:38-45 | the Champion of a set is whom the last pinned set of that id names among its own members |
| RankMeaning.ItemsReport | packages/resolver/src/rank.ts:148-179 | an item reports the identity, the confirmed part of the conditions, the set spoken for and the last score entry of the candidate it shows |
| RankMeaning.ItemsInOrder | packages/resolver/src/rank.ts:148-162 | items come by relevance, then by score from the top, then by id |
| RankMeaning.CoverageExactly | packages/resolver/src/rank.ts:130-139 | a set is reported if and only if an admissible candidate belongs to it and nobody speaks for it |
| RankMeaning.CoverageReports | packages/resolver/src/rank.ts:132-137 | an entry gives the size and the problem of the last set of its id |
| RankTheorems.RankIgnoresArrival | packages/resolver/src/rank.ts:69-188 | for distinct ids the whole result is invariant under permutation of candidates and of sets |
| RankTheorems.CutKeepsTheBest | packages/resolver/src/rank.ts:148-165 | items are the first `limit` kept candidates in (rank, score descending, id) order, and items + omitted_count = candidates, negative limits included |
| RankTheorems.ScoresDoNotInterfere | packages/resolver/src/rank.ts:81-188 | any two score snapshots give the same kept set, Champions, coverage and omitted count |
| RankTheorems.ShownChampion | packages/resolver/src/rank.ts:130-145 | an item that claims a set is that set's Champion |
| AgentContract.CheckOneChampionPerSet | packages/core/src/contracts/agent-contract.ts:131-162 | reports an issue if and only if a set appears twice with a Champion or both with one and as unresolved |
| AgentContract.RankedPasses | packages/core/src/contracts/agent-contract.ts:131-162 | a ranking of distinct candidates always passes, whatever the sets say |
| Resolve.ResolveItems | packages/resolver/src/resolve.ts:135-141 | at most min(requested or 5, 50) items, and shown + omitted is the number of hits searched: all 4 * limit of them for a limit up to 12, otherwise 50; no item beyond the search pool is shown |
| Resolve.ExpandItems | packages/resolver/src/resolve.ts:157-166 | at most 50 items of 50 hits for beyond, at most 10 items of 40 hits otherwise; shown + omitted is the number of hits searched |
| Resolve.RankedShows | packages/resolver/src/resolve.ts:94-122 | for every limit and pool: how many items are shown and how many hits are accounted for |
| Resolve.WideningExtendsExactly | packages/resolver/src/resolve.ts:111-122 | the narrower list is a prefix of the wider one if and only if nothing kept beyond its pool outranks an item it shows |
| Resolve.ExpandExtendsResolve | packages/resolver/src/resolve.ts:135-166 | expand extends resolve whenever no search-rank tie straddles the pool cut and resolve's limit is at most expand's |
| Resolve.TieBreaksWidening | packages/resolver/src/resolve.ts:111-113 | the tie condition is needed: an index where expand shows another item first |
| Attribution.StrongestIntegrity | packages/evidence-derivation/src/attribution.ts:306-331 | the loop returns the first grade of the highest rank |
| Attribution.Accumulate | packages/evidence-derivation/src/attribution.ts:202-223 | one accumulator per subject holding exactly its events in order and the highest rung |
| Attribution.DeriveAttribution | packages/evidence-derivation/src/attribution.ts:186-303 | the loops compute the specified outcome, with the order of the four refusals |
| AttributionTheorems.DerivationReplays | packages/evidence-derivation/src/attribution.ts:129-303 | the same events in any order, derived at any other moment, end the same way, and rows pair up as compareReplay-identical |
| AttributionRecords.ForeignRefused | packages/evidence-derivation/src/attribution.ts:187-195 | refused if and only if some event is of another run, and the earliest of them is named |
| AttributionTheorems.RowsPartitionEvents | packages/evidence-derivation/src/attribution.ts:202-301 | the rows, sorted by asset id, partition the contributing events by asset, each row listing its events in D26 order |
| AttributionTheorems.RowsAreMaxima | packages/evidence-derivation/src/attribution.ts:222-331 | exposure and grade are the maxima over the row's events, each earned by one of them; the origin class is the run's |
| AttributionRecords.ExposureByEventType | packages/evidence-derivation/src/attribution.ts:202-223 | the record says applied if and only if some event about the asset is an observe.request, inspected if and only if none is and some is an inspect.request, otherwise exposed |
| AttributionRecords.IntegrityBySource | packages/evidence-derivation/src/attribution.ts:306-331 | the record grades by source: ci before eos before everything else, a source without a grade counting for nothing |
| AttributionRecords.RowExists | packages/evidence-derivation/src/attribution.ts:204-218 | an asset has a row if and only if one of the three types of event names it |
| AttributionRecords.RecordClaims | packages/evidence-derivation/src/attribution.ts:254-293 | id, snapshot hash, subject, events and derivation time of a record; a partial outcome and nothing more; one independence group a run |
| AttributionRecords.FirstEventSpeaks | packages/evidence-derivation/src/attribution.ts:273-288 | trace and revision are those of the first event of the row |
| AttributionRecords.EventsInTurn | packages/evidence-derivation/src/attribution.ts:129-140 | the events of a row stand by installation, emitter, sequence and id |
| AttributionTheorems.MoreEventsOnlyRaise | packages/evidence-derivation/src/attribution.ts:220-223 | more events never lower a rung or a grade and never lose an asset |
| AttributionTheorems.EvidenceIdIdentifies | packages/evidence-derivation/src/attribution.ts:231-237 | short of a collision, an evidence id identifies the exact list of events |
| WrittenRecords.EvidenceIdHashes | packages/core/src/ids.ts:156-163 | the id is the digest of run, deriver, version and snapshot hash |
| WrittenRecords.EventSnapshotHashes | packages/evidence-derivation/src/attribution.ts:151-159 | the snapshot is the ordered event ids and an empty list of external inputs |
| AttributionTheorems.NeverSameId | packages/evidence-derivation/src/attribution.ts:238-247 | for distinct event ids and no collision the shared-identity refusal cannot happen |
| Replay.CompareReplay | packages/core/src/replay.ts:61-86 | what is compared and what is reported |
| Replay.CollectDifferences | packages/core/src/replay.ts:88-122 | the recursion reports exactly the specified differences, in key order |
| Replay.ReplayExact | packages/core/src/replay.ts:33-37 | identical if and only if the records would be the same JSON value had they been derived at the same moment |
| Replay.RestampedAgain | packages/core/src/replay.ts:33-37 | restamping a record with its own stamp gives the same JSON value back |
| Replay.PayloadDecidesId | packages/core/src/replay.ts:61-86 | equal payloads already imply equal evidence ids |
| Replay.DifferencesExact | packages/core/src/replay.ts:88-122 | nothing is reported if and only if the two agree once null members are dropped |
| Replay.DifferencesTell | packages/core/src/replay.ts:88-122 | a difference is reported if and only if it names, by dotted keys, two values that part, with the canonical text of each on its own side |
| Replay.ReportExact | packages/core/src/replay.ts:69-85 | when the report is empty; for records with the same fields, exactly when they are identical |
| Replay.NullMemberUnreported | packages/core/src/replay.ts:104-113 | a member that is null on one side and absent on the other is a difference with an empty report |
| Replay.ReportTells | packages/core/src/replay.ts:61-86 | whether the ids agree, and exactly which differences are listed: the ids under their own name if they differ, and every place where the records part once the derivation time is left out |
| Replay.InputSnapshotHash | packages/core/src/replay.ts:153-171 | refuses the first repeated event id, otherwise the digest of the sorted inputs |
| WrittenRecords.InputSnapshotHashes | packages/core/src/replay.ts:164-170 | what is digested is the external inputs by kind and id and the sorted event ids |
| WrittenRecords.ExternalHashes | packages/core/src/replay.ts:167-167 | an external input is digested as its id, kind and value |
| Replay.SnapshotIgnoresOrder | packages/core/src/replay.ts:164-170 | the order in which inputs were read does not show |
| Replay.SnapshotIdentifies | packages/core/src/replay.ts:153-171 | short of a collision, the hash identifies the multiset of inputs |
| RateLimit.RateLimiter.Allow | supabase/functions/ingest/index.ts:149-158 | one request: the decision and the new windows |
| RateLimit.WindowCount | supabase/functions/ingest/index.ts:149-158 | a window grants a key exactly what its counter says, at most the limit |
| RateLimit.DeniedMeansFull | supabase/functions/ingest/index.ts:151-156 | a key is refused only before its reset and only when its window has granted all it may |
| RateLimit.AtMostTwiceTheLimit | supabase/functions/ingest/index.ts:138-159 | on a clock that never runs backwards no half-open interval of one window length holds more than twice the limit |
| RateLimit.DeniedUntilReset | supabase/functions/ingest/index.ts:151-155 | a denied key is let through at a later time if and only if that is at or after its reset |
| RateLimit.KeysIndependent | supabase/functions/ingest/index.ts:149-158 | a key sees the trace of its own requests |
| Splice.LastWriteWinsExactly | packages/adapters/cli/src/init.ts:241-255 | splice(splice(x,a),b) = splice(x,b) if and only if x has no marker or a first begin before its first end |
| Splice.IdempotentExactly | packages/adapters/cli/src/init.ts:233-255 | regeneration is idempotent on exactly those documents |
| Splice.StrayEndGrows | packages/adapters/cli/src/init.ts:245-250 | a document whose first end marker has no begin before it gains a blank line and a whole block with a run, and is such a document again |
| Splice.StrayEndGrowsForever | packages/adapters/cli/src/init.ts:245-250 | after n runs it has grown by n blocks, for every n |
| Splice.OutsideKept | packages/adapters/cli/src/init.ts:235-255 | one run puts the block where the region was, at the end, or into an empty document, and keeps what is outside: exactly when a region is replaced, up to trailing newlines when a block is appended |
| Splice.StrayBeginDeletes | packages/adapters/cli/src/init.ts:241-250 | the second run on a document with a begin and no end deletes everything from that begin on and puts the block there |
| Splice.SurvivesExactly | packages/adapters/cli/src/init.ts:235-255 | the text of a document without a region survives two runs if and only if it is not a stray begin followed by text that the new block does not repeat |
| TrialProcess.Trial.OnData | tools/harness/src/trial-process.ts:90-103 | counts every chunk, keeps it while the budget lasts, otherwise sets the error and starts the ladder |
| TrialProcess.Trial.OnTimeout | tools/harness/src/trial-process.ts:85-88 | marks the timeout and starts the ladder |
| TrialProcess.Trial.OnEscalation | tools/harness/src/trial-process.ts:79-82 | sends SIGKILL and arms the last timer |
| TrialProcess.Trial.Stop | tools/harness/src/trial-process.ts:76-83 | SIGTERM once |
| TrialProcess.Trial.Settle | tools/harness/src/trial-process.ts:105-119 | resolves once and disarms every timer |
| TrialProcess.Trial.OnError | tools/harness/src/trial-process.ts:121-124 | the spawn error replaces any earlier error and settles |
| TrialProcess.Trial.OnClose | tools/harness/src/trial-process.ts:125 | settles with the status and signal of the child |
| TrialProcess.Trial.OnSettlement | tools/harness/src/trial-process.ts:81 | settles without waiting for the child |
| TrialProcess.LadderAlways | tools/harness/src/trial-process.ts:63-125 | for every order of callbacks: SIGTERM at most once and first, SIGKILL at most once and a grace or more later, at most one resolution |
| TrialProcess.SettledForGood | tools/harness/src/trial-process.ts:105-119 | what was resolved never changes |
| TrialProcess.SettlesInTime | tools/harness/src/trial-process.ts:67-88 | with timers on time nothing is unsettled after timeoutMs + 2 * grace, and until then a timer due in time is armed |
| TrialProcess.OutputAlways | tools/harness/src/trial-process.ts:90-103 | captured output is a prefix of each stream and within the budget, and is all of it unless the error is set |
| TrialProcess.NoSilentTruncation | tools/harness/src/trial-process.ts:94-119 | a result without an error holds everything written before it settled |
| TrialProcess.OutcomeTells | tools/harness/src/trial-process.ts:85-125 | the result carries the status and signal of the callback that settled it, timed out if and only if the deadline fired before, and an overflow if and only if more was written than fits |

## Left out

- SHA-256, Unicode NFC, YAML parsing, UTF-8 decoding of files, schema validation and full-text search are parameters or appear only through their results.
- The shortest-digit search of ECMAScript number printing: a number is given as its shortest digits and exponent; the layout of those digits is modelled.
- The text of error messages, notes and reasons; which refusal happens, and in what order, is modelled.
- Property getters, proxies and sparse arrays in the validated object graph, and lookups of project facts that would find an inherited property.
- NaN as a search rank or a score; search ranks and scores are real numbers.
- SqliteStores.Database.Interleave: other processes perform finitely many acts in one run, so that termination of a flush can be stated; there is no bound on how many.
- Flush.Flusher.Flush: the exact batches, counts and order are stated for a flush that no other process disturbs; under any interleaving it is stated what a drained or a failed result means.
- Flush.Flusher.SafeSend: a reply is any of the three kinds at any time; partial effects on the plane of a batch that it did not accept are not part of this model.
- HookCli.RunHook: the contents of emitted events, their attribute allow-list and session classification are inputs.
- HookCli.HookHistoryReads: chains invocations that do not overlap; `HookRuns.InterleavedReads` states the same for overlapping ones and assumes that nothing but hooks writes to the run.
- TrialTelemetry.ReadTrialTelemetry: reads one state of the tables; `TrialTelemetry.ReadLive` takes the reads one by one.
- BuildIndex.DigestCoversIndex: records are well-formed JSON values; a YAML escape that spells a lone surrogate makes the digest throw before anything is written.
- BuildIndex.Build: `record_json` is the record itself, not its JSON text, and tables are sequences of rows in insertion order.
- BuildIndex.RepeatedCapabilityAborts: its record holds only the fields that reading and the digest look at; the asset schema asks for more, and none of it forbids a repeated capability.
- BuildIndex.ReadKnowledgeTree: takes the listing that the directory walk produced; the walk is not modelled.
- Attribution.DeriveAttribution: the evidence schema is a predicate given as a parameter.
- AttributionTheorems.DerivationReplays: assumes a schema that takes one derivation instant as readily as the other, and strings that can be canonicalized.
- Replay.SnapshotIgnoresOrder: assumes that no two external inputs share kind and id.
- TrialProcess.SettlesInTime: assumes that timers fire on time; without that only the order of the ladder is stated.
- TrialProcess.OutputAlways: output is bytes; decoding them is not part of this model.
- The plane's own storage, the registration of runs, `normalizeIdentifierSet`, `validateSupersession`, score-view ids and the `.mcp.json`, TOML and settings merges.
- Command-line composition, sockets, spawning, file permissions and report rendering.
