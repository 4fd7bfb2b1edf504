# Specwright governance, verified in Dafny

Specwright is a governed runtime: gates and evals decide whether a run may go on, and
every decision must be reconstructable later.  This project models the parts where that
promise is hard to keep and proves what they promise, over all inputs, runs and histories.

- **Gate definition files** (`YamlScan`, `YamlParser`, `YamlLint`, `YamlDocument`,
  `YamlScalars`, `YamlRoundTrip`): the indentation-driven parser as an object with a line
  index, proved against a recursive grammar, and a printer whose output it reads back.
- **The MCP stdio server** (`StdioFramer`, `JsonRpc`): a chunk buffer drained line by line,
  equal to one batch over the whole text, and JSON-RPC 2.0 dispatch.
- **Canonical text and hashes** (`KeyOrder`, `Json`, `CanonicalText`, `StableValue`,
  `Hashing`, `DecisionHash`, `DecisionHashProofs`, `Regression`, `GateVerdict`,
  `Provenance`, `SpecHashDrift`): equal text exactly for equal meaning, what the decision
  hashes of verdicts and the pins of datasets therefore bind, and when a package's spec hash
  has drifted.
- **The snapshot cache** (`RecencyList`, `SnapshotCache`, `CacheRuns`): expiry, re-verification and
  eviction, refining a list of keys in order of last use.
- **Quarantine and idempotent mutations** (`Quarantine`, `Idempotency`): two protocols over
  histories of events and calls, restarts included.
- **Model context** (`Sanitizing`, `ContextPuts`, `ContextContent`, `ModelContext`,
  `GateContext`, `GateContextProofs`): what is removed from a value before a model sees it,
  where each allowed reference ends up, and exactly what the projected contexts of the eval
  runner and the gate engine can still hold.
- **The gate engine and its audit** (`GateEngine`, `GateEngineProofs`, `GateAudit`) and
  **the eval runner with its registry** (`EvalKinds`, `EvalRegistry`, `EvalRunner`,
  `EvalRunnerProofs`): when they advance, repair or pass, and that records reconstruct.
- **Fixture governance, dependency pins and grants** (`FixtureGovernance`,
  `DependencyPins`, `CapabilityGrant`, `Versions`): exact guards, independence of order.

`Wrappers`, `JsText`, `Decimal`, `Concatenation`, `Separators`, `SortedLists` and
`VerdictTerms` hold the shared vocabulary.  `dafny verify dfyconfig.toml` verifies everything.

## Conventions

Code that works by changing things step by step is a method or a class, proved equal to a
recursive specification function; the promises are lemmas about those functions.  Thrown
errors are `Err` or `None` results.

SHA-256 is an arbitrary function from text to text.  It is never assumed to be injective,
which no function to 64 characters can be: a result that needs two texts to hash apart
offers, as its only alternative, an explicit collision between those two texts.

What a part takes from outside (schemas, validators, single-check evaluators,
the broker, the wording of messages, the list of secret names) is a function-valued field
of its `World`, server or policy, so every result holds whatever those functions do.
`localeCompare` is a parameter that is a strict total order.  Numbers are integers.

## Where the code falls short of what it promises

Each item has a lemma with an input, and one that says exactly when the promise holds.

- After a restart the same call need not get its first response: when another run has used
  the key since, it gets a conflict (`Idempotency.RestartCanConflict`), and so it does when a
  failing write damaged its file (`Idempotency.DamageConflicts`).  A call that learns its
  directory only once the run has started invokes the runtime again
  (`Idempotency.LookingFirstIsNeeded`).
  `Idempotency.AtMostOneReturnPerRun` says exactly what answers it.
- A scalar whose text looks like a pair is read as a mapping when it is a sequence item
  (`YamlRoundTrip.QuotedColonItem`, `YamlRoundTrip.ScalarItemReadsExactly`).
- Sanitizing looks below a reference and never at its own segments.  A reference that names a
  secret key puts that key into the context (`ModelContext.SecretRefIsProjected`,
  `ModelContext.SecretKeysExactly`), one that runs through a restricted record puts what it
  reads there (`ModelContext.RedactedContentIsProjected`, `ModelContext.HiddenExactly`,
  `ModelContext.HiddenComesFromRefs`), and one that names a mark makes a context that holds a
  restricted record (`ModelContext.MarkIsProjected`, `ModelContext.RestrictedExactly`).
- The same is true of the gate engine, whose references are paths and names
  (`GateContextProofs.SecretRefIsProjected` and `GateContextProofs.RestrictedContentIsProjected`;
  `GateContextProofs.SecretKeysExactly`, `GateContextProofs.HiddenExactly`,
  `GateContextProofs.HiddenComesFromRefs`, `GateContextProofs.RestrictedExactly`).
- A key `__proto__` of a gate definition file makes no property
  (`YamlRoundTrip.PrototypeIsLost`, `YamlRoundTrip.RoundTripOwnsExactly`).
- Two checks with one id whose rubrics differ only in their reference make a record that its
  own guard rejects (`GateAudit.SharedIdsAreRejected`, `GateAudit.RecordAcceptedExactly`).
- Of two grants with one id, the one that is listed first applies
  (`CapabilityGrant.TiedGrantsDiffer`, `CapabilityGrant.ResolutionIgnoresOrder`).
- Server ids, tool ids or versions with a NUL character can share a map key
  (`Quarantine.NulKeysCanMix`, `Quarantine.IsSharedExactly`), and so can the parts of a
  dependency's hash segment (`DependencyPins.SegmentSharedExactly`).
- At signs can bring two packages under one key of the drift ledger
  (`SpecHashDrift.AtSignsMix`, `SpecHashDrift.AmbiguousExactly`).
  `SpecHashDrift.AnswerIsOwnExactly` says when its answer is right all the same.
- The provenance printer writes nothing for an undefined array item, and `undefined` for an
  undefined property (`Provenance.UndefinedMisleads`, `Provenance.SeparatesExactly`).
- A tool failure without an error code counts toward no threshold
  (`Quarantine.UncodedFailuresCountNothing`, `Quarantine.ResultCountsExactly`).

## Model

| member | source | states |
|---|---|---|
| YamlRoundTrip.RoundTrip | packages/gate-engine/src/lint.ts:72-349 | For every document of non-empty mappings with distinct plain keys, sequences of scalars, inline lists and mappings, and quoted or plain scalars, parsing its two-space block rendering assigns its value, at every nesting depth |
| YamlRoundTrip.RoundTripOwnsExactly | packages/gate-engine/src/lint.ts:203-219 | What the parsed records own as properties is the value of the document, at every depth, exactly when no key is `__proto__` |
| YamlRoundTrip.PrototypeIsLost | packages/gate-engine/src/lint.ts:203-219 | A document of one pair under `__proto__` is read as an empty record |
| YamlRoundTrip.RenderingDeterminesValue | packages/gate-engine/src/lint.ts:72-87 | Two documents with the same rendering have the same value |
| YamlRoundTrip.ScalarItemReadsExactly | packages/gate-engine/src/lint.ts:150-190 | A block sequence of one scalar or inline list reads back as that item exactly when its text does not look like a key/value pair, and else as a mapping of that pair |
| YamlRoundTrip.QuotedColonItem | packages/gate-engine/src/lint.ts:258-268 | A quoted scalar that starts with a plain key and a colon is read, as a sequence item, as a mapping whose key keeps the opening quote and whose value keeps the closing one |
| YamlRoundTrip.PairSplits | packages/gate-engine/src/lint.ts:245-268 | A plain key, a colon and any text split at that colon into the key and the trimmed text |
| YamlScalars.SplitRendered | packages/gate-engine/src/lint.ts:298-335 | Splitting the text of an inline list gives the texts of its items, whatever lists and quotes they hold |
| YamlScalars.ScalarReads | packages/gate-engine/src/lint.ts:270-296 | The text of a scalar or nested inline list reads as its value |
| YamlScalars.StripFlow | packages/gate-engine/src/lint.ts:226-243 | Comment stripping keeps rendered scalars whole, `#` inside quotes included, and goes on after them |
| YamlScan.StripYamlComment | packages/gate-engine/src/lint.ts:226-243 | The loop over the line computes the recursive cut at the first unquoted `#` |
| YamlScan.SplitInline | packages/gate-engine/src/lint.ts:298-335 | The loop over quote and depth computes the recursive splitting at depth-zero commas |
| YamlScan.ItemsAreShorter | packages/gate-engine/src/lint.ts:270-296 | No item of an inline list is longer than the text it came from, so reading nested lists ends |
| YamlParser.SimpleYamlParser.ParseBlock | packages/gate-engine/src/lint.ts:94-106 | The index only grows and the parse is that of the remaining lines by the recursive grammar; mutual recursion ends by lines left and call rank |
| YamlParser.SimpleYamlParser.ParseAll | packages/gate-engine/src/lint.ts:84-86 | A parse that returns has consumed every line, else it fails as the recursive grammar does |
| YamlParser.SimpleYamlParser.ParseMapping | packages/gate-engine/src/lint.ts:115-137 | The loop over pairs equals the recursive mapping, errors included |
| YamlParser.SimpleYamlParser.ParseSequence | packages/gate-engine/src/lint.ts:139-191 | The loop over items equals the recursive sequence, errors included |
| YamlParser.SimpleYamlParser.ParseIndentedChild | packages/gate-engine/src/lint.ts:193-201 | A child is null without deeper lines, else the block at the depth of the next line |
| YamlParser.SimpleYamlParser.ConsumePairText | packages/gate-engine/src/lint.ts:208-219 | A pair without text takes the indented child as its value, else the scalar; a text that is no pair fails |
| YamlLint.ChildConsumes | packages/gate-engine/src/lint.ts:193-201 | Whatever the lines are, a child consumes only lines deeper than its parent |
| YamlLint.PrepareLines | packages/gate-engine/src/lint.ts:76-83 | Given lines are comment-stripped, trimmed at the end, and kept with their indentation when not blank |
| YamlLint.ParseSimpleYaml | packages/gate-engine/src/lint.ts:72-87 | The whole parser on source text equals the recursive reading of its prepared lines |
| StdioFramer.ServeMcpStdio | packages/adapters-mcp/src/stdio.ts:64-95 | For every chunking, the session (state and responses in order) equals the batch session over the concatenated text |
| StdioFramer.DrainInputBuffer | packages/adapters-mcp/src/stdio.ts:163-193 | Draining handles exactly the complete lines of the buffer in order and leaves the pending part |
| StdioFramer.Flush | packages/adapters-mcp/src/stdio.ts:82-91 | What is left at end of input is handled as one last line unless blank |
| StdioFramer.BatchInTwoParts | packages/adapters-mcp/src/stdio.ts:64-95 | Handling the complete lines of a buffer now and the rest later is one batch |
| StdioFramer.LineEndingsDoNotMatter | packages/adapters-mcp/src/stdio.ts:163-180 | White space at the end of a line, as a carriage return, and blank lines do not change what is handled |
| JsonRpc.Dispatch | packages/adapters-mcp/src/stdio.ts:130-161 | Batch and single dispatch compute the specified responses and adapter states |
| JsonRpc.DispatchEntries | packages/adapters-mcp/src/stdio.ts:144-158 | The loop over batch entries pushes the responses of the entries in order |
| JsonRpc.SingleContract | packages/adapters-mcp/src/stdio.ts:195-271 | Every message except notifications and responses is answered under the right id, and only registered requests reach the adapter (sections 4.1 and 5 of the JSON-RPC 2.0 specification) |
| JsonRpc.BatchAnswersInOrder | packages/adapters-mcp/src/stdio.ts:130-161 | A batch answers each entry that needs an answer once, in order, under its id (section 6 of the JSON-RPC 2.0 specification) |
| JsonRpc.BatchIsSequence | packages/adapters-mcp/src/stdio.ts:130-161 | A batch has the effects and answers of its messages sent one by one, and writes nothing when none needs an answer |
| CanonicalText.TextIffMeaning | packages/eval-runner/src/decision-hash.ts:166-240 | Two values have equal canonical text exactly when they mean the same up to object key order at every depth and undefined properties, in either key order (sections 3 to 7 of RFC 8259) |
| CanonicalText.StableTextIffMeaning | packages/eval-runner/src/decision-hash.ts:166-240 | The same for the text that is hashed, where the text of undefined is no other text |
| CanonicalText.PrintPrefix | packages/eval-runner/src/decision-hash.ts:166-168 | No printed value is a proper prefix of another, so printed values followed by text can be told apart |
| CanonicalText.NormalizeMeans | packages/eval-runner/src/decision-hash.ts:174-240 | Sorting keys and dropping undefined properties keeps the meaning |
| CanonicalText.NormalizeTwice | packages/gate-engine/src/decision-hash.ts:77-97 | A value that was normalized once prints the same when normalized again |
| KeyOrder.BeforeIsStrictTotal | packages/gate-engine/src/decision-hash.ts:85-91 | Both key orders, code units and the listing order of records, are strict total orders |
| StableValue.NormalizeStableValue | packages/eval-runner/src/decision-hash.ts:174-240 | The recursion with loops throws exactly on values without canonical text, and else gives the normal form of the same meaning |
| StableValue.NormalizeRecord | packages/eval-runner/src/decision-hash.ts:214-237 | The key loop builds a sorted record of the same meaning, or throws exactly when a value has no canonical text |
| StableValue.LoopTextIsStableText | packages/eval-runner/src/decision-hash.ts:166-240 | Any normal form of the same meaning prints as the specified canonical text |
| StableValue.StableStringify | packages/eval-runner/src/decision-hash.ts:166-172 | The text computed by the loops is the specified canonical text |
| Provenance.DirectIsCanonical | packages/harness-loader/src/provenance.ts:569-582 | The printer that sorts keys while it writes gives the text of sorting first and printing then |
| Provenance.DirectTextIffMeaning | packages/harness-loader/src/provenance.ts:561-582 | Two values without undefined parts have equal provenance text exactly when they mean the same |
| Provenance.SeparatesExactly | packages/harness-loader/src/provenance.ts:569-582 | The text of a value is shared, among values without undefined parts, by exactly those that mean the same if and only if nothing in the value itself is undefined |
| Provenance.UndefinedMisleads | packages/harness-loader/src/provenance.ts:569-582 | An undefined item is not written and an undefined property is: inputs for which equal texts mean different values, and equal meanings have different texts |
| SpecHashDrift.SpecHashDriftLedger.Observe | packages/harness-loader/src/provenance.ts:429-458 | The map of hash lists answers every observation as its history says |
| SpecHashDrift.AnswerIsOwnExactly | packages/harness-loader/src/provenance.ts:426-459 | Over any history, the ledger answers as if it had seen this package and version alone exactly when nothing else under its key showed another hash, or it is new and everything else under its key showed the hash it shows now |
| SpecHashDrift.AmbiguousExactly | packages/harness-loader/src/provenance.ts:434 | A ledger key stands for one package and version exactly when neither has an at sign |
| SpecHashDrift.DriftExactly | packages/harness-loader/src/provenance.ts:426-459 | Over any history, drift is reported exactly when something was seen under the key of this package and version and never with this hash, and both signals list exactly the hashes seen there; if no version has an at sign, that is what was seen of this very version of this package |
| SpecHashDrift.KeysApart | packages/harness-loader/src/provenance.ts:434 | Versions without an at sign keep the packages of one ledger apart, whatever the package ids are |
| SpecHashDrift.AtSignsMix | packages/harness-loader/src/provenance.ts:434 | With an at sign in a version two packages can share a key |
| Hashing.SameHashSameMeaning | packages/eval-runner/src/decision-hash.ts:52-56 | Hashes agree exactly on values of one meaning, or the two texts are an explicit collision |
| DecisionHashProofs.BuiltVerdictRecomputes | packages/eval-runner/src/index.ts:1768-1860 | Every built verdict, normal or failing closed, recomputes to its stored decision hash from its own causation ids |
| DecisionHashProofs.CodecRoundTrip | packages/eval-runner/src/decision-hash.ts:155-164 | The four input hashes come back from among other causation ids exactly when the ids before them can be read, stale hashes included |
| DecisionHash.InputHashesFromCausationIds | packages/eval-runner/src/decision-hash.ts:267-297 | The loop over causation ids assigns the hashes that the recursive reading gives, or throws as it does |
| DecisionHashProofs.DecisionTextBinds | packages/eval-runner/src/decision-hash.ts:95-107 | Decision texts are equal exactly when every bound field and all four input hashes are |
| DecisionHashProofs.DecisionHashBinds | packages/eval-runner/src/decision-hash.ts:109-133 | Two verdicts that recompute to one hash agree on every bound field and input hash, or their texts collide |
| DecisionHashProofs.AlteredVerdictIsRejected | packages/eval-runner/src/decision-hash.ts:109-133 | Changing a bound field of a verdict that recomputes makes recomputation throw, or their texts collide |
| Regression.PinVerifiesSameMeaning | packages/eval-runner/src/datasets.ts:437-477 | A dataset pin verifies every schema-valid manifest of the pinned meaning and no other, or their texts collide |
| Regression.RefineManifest | packages/eval-runner/src/datasets.ts:88-134 | The loop over cases with its growing id set adds no issue exactly when case ids are distinct and each golden verdict is bound to its case |
| Regression.RegressionStatusExactly | packages/eval-runner/src/regression.ts:81-146 | Each regression status is reported under its exact condition, for datasets that the schema accepts |
| Regression.FreshVerdictHasNoDefect | packages/eval-runner/src/regression.ts:81-146 | A fresh verdict with no supplied hashes is never reported as a hash defect |
| Regression.SuppliedHashesRecompute | packages/eval-runner/src/regression.ts:179-209 | Hashes supplied by the caller recompute exactly when they are the verdict's own, or the texts collide |
| Regression.RegressionRunRecomputes | packages/eval-runner/src/index.ts:878-923 | Whatever verdict a regression run returns recomputes, from its own hashes or the supplied ones; a replaced one is a blocking failure that recomputes from its own |
| SnapshotCache.SnapshotCache.Put | packages/harness-loader/src/cache.ts:53-70 | A record that verifies becomes the most recent entry, the recency list is cut to its newest keys, every other kept entry is unchanged; one that does not verify changes nothing |
| SnapshotCache.SnapshotCache.Get | packages/harness-loader/src/cache.ts:72-94 | A hit is the last put of the key, within its time to live and verified again now; an expired or poisoned entry is removed; the exact condition of each outcome |
| SnapshotCache.SnapshotCache.EvictOverflow | packages/harness-loader/src/cache.ts:150-162 | The eviction loop ends and keeps exactly the most recently used keys |
| SnapshotCache.SnapshotCache.Oldest | packages/harness-loader/src/cache.ts:152-155 | The entry with the least access time is the least recently used key |
| SnapshotCache.SnapshotCache.Delete | packages/harness-loader/src/cache.ts:96-98 | Deleting removes the key from the map and the recency list |
| SnapshotCache.SnapshotCache.PoisonForTest | packages/harness-loader/src/cache.ts:108-124 | Only the content of the entry is replaced |
| SnapshotCache.FirstIsOldest | packages/harness-loader/src/cache.ts:150-162 | An entry no later than the first of the recency list is that first entry |
| CacheRuns.StackProperty | packages/harness-loader/src/cache.ts:150-162 | Forgetting the oldest keys before a use or after it comes to the same |
| CacheRuns.RunKeepsNewest | packages/harness-loader/src/cache.ts:53-98 | After any history of puts, hits and removals the cache holds exactly the most recently used of the keys that the last removal left and those used since, in order of last use |
| CacheRuns.RemovalTakesItsKey | packages/harness-loader/src/cache.ts:72-102 | Expiry, poisoning and deletion take their own key and no other, and clearing takes all |
| CacheRuns.RecentKeySurvives | packages/harness-loader/src/cache.ts:53-98 | In any history a key stays after its use as long as it is not taken out and fewer than the maximum of other keys are used |
| CacheRuns.RemovedStaysOut | packages/harness-loader/src/cache.ts:72-102 | What expired, was poisoned or deleted stays out until it is put again |
| CacheRuns.LastPutSurvives | packages/harness-loader/src/cache.ts:53-70 | After any history, removals included, the key just put is present and the size is within the maximum |
| SnapshotCache.SnapshotCache.Clear | packages/harness-loader/src/cache.ts:100-102 | Clearing removes every key |
| Quarantine.QuarantineAfter | packages/adapters-mcp/src/external-quarantine.ts:25-103 | After any history a capability is quarantined exactly when an event since its last lift tripped it: the effect of one more event |
| Quarantine.OnlyLiftsLift | packages/adapters-mcp/src/external-quarantine.ts:42-92 | Success never lifts, uncounted codes change neither quarantine nor failure run, failures never lift |
| Quarantine.OthersUntouched | packages/adapters-mcp/src/external-quarantine.ts:25-103 | An event concerns its own capability only |
| Quarantine.ExternalMcpQuarantineState.RecordErrorCode | packages/adapters-mcp/src/external-quarantine.ts:60-86 | The maps follow the history: a record is made exactly when the event trips the quarantine, with the trigger and the failure count |
| Quarantine.ExternalMcpQuarantineState.RecordSuccess | packages/adapters-mcp/src/external-quarantine.ts:42-49 | Success resets the failure run and leaves the quarantine |
| Quarantine.ExternalMcpQuarantineState.RecordToolCallFailure | packages/adapters-mcp/src/external-quarantine.ts:51-58 | A failure is recorded under its code; one without a code changes neither map |
| Quarantine.ResultCountsExactly | packages/adapters-mcp/src/external-quarantine.ts:51-58 | A failed tool result is counted exactly when it has a code that has a trigger |
| Quarantine.UncodedFailuresCountNothing | packages/adapters-mcp/src/external-quarantine.ts:51-58 | However often a capability fails without a code, neither its quarantine nor its failure run changes |
| Quarantine.ExternalMcpQuarantineState.Lift | packages/adapters-mcp/src/external-quarantine.ts:88-92 | Lifting says whether there was a quarantine and ends it |
| Quarantine.ExternalMcpQuarantineState.RePin | packages/adapters-mcp/src/external-quarantine.ts:94-102 | Re-pinning lifts the old version and names the next one |
| Quarantine.KeysDoNotMix | packages/adapters-mcp/src/external-quarantine.ts:141-143 | Capabilities whose server and tool ids have no NUL never share a map key |
| Quarantine.IsSharedExactly | packages/adapters-mcp/src/external-quarantine.ts:141-143 | A capability shares its map key with another exactly when its server id, tool id or version has a NUL |
| Quarantine.NulKeysCanMix | packages/adapters-mcp/src/external-quarantine.ts:141-143 | With a NUL in an id two capabilities can share one key |
| Quarantine.Execute | packages/adapters-mcp/src/external-capability-adapter.ts:59-184 | The sequence of early returns makes the specified calls and records: a quarantined capability makes no transport call |
| Quarantine.QuarantinedRunMakesNoCalls | packages/adapters-mcp/src/external-capability-adapter.ts:59-70 | Once quarantined, no run of attempts makes a transport call |
| Quarantine.FailingServerIsCalledBoundedly | packages/adapters-mcp/src/external-capability-adapter.ts:59-184 | A server that fails every call in counted ways is called at most as often as the threshold still allows, over any number of attempts |
| Idempotency.AtMostOneReturnPerKey | packages/adapters-mcp/src/index.ts:1882-1944 | In one adapter lifetime, after a call under a key has returned no later call under it invokes the runtime: the same identity gets the first response, others a conflict |
| Idempotency.AtMostOneReturnPerRun | packages/adapters-mcp/src/index.ts:1946-2057 | Across restarts, once a returned call has written or damaged its durable record no later call that looks there invokes the runtime, as long as no call in between writes there without looking; which earlier call answers it, or a conflict, is given exactly |
| Idempotency.RunsOwnDirectory | packages/adapters-mcp/src/index.ts:2120-2146 | After a call that used the directory that its run was started in, no call writes there without looking first |
| Idempotency.LookingFirstIsNeeded | packages/adapters-mcp/src/index.ts:2095-2146 | After a restart, a call that would write where a record is invokes the runtime again exactly when it does not look there first |
| Idempotency.DamageConflicts | packages/adapters-mcp/src/index.ts:2037-2056 | A failing write that damages its file costs the first response: after a restart the same call gets a conflict |
| Idempotency.RestartCanConflict | packages/adapters-mcp/src/index.ts:1946-1955 | After a restart the original call gets a conflict when another run has used the key since |
| Idempotency.ThrowLeavesNoRecord | packages/adapters-mcp/src/index.ts:3934-3965 | A call that throws leaves no record, so the same call may be tried again |
| Idempotency.MemoryHasOrigin | packages/adapters-mcp/src/index.ts:1931-1944 | Every record in memory was stored since the last restart by a call that returned |
| Idempotency.SameIdentitySameCall | packages/adapters-mcp/src/index.ts:2154-2163 | Calls with one identity hash ask for the same tool, operation, arguments, tenant, client and subject, or their identities collide |
| Idempotency.RepeatedMeansFirst | packages/adapters-mcp/src/index.ts:2169-2173 | The answer to a repeated call means exactly what the first response meant |
| Idempotency.FilesDoNotMix | packages/adapters-mcp/src/index.ts:2099-2118 | Different cache keys have different record files |
| Idempotency.McpIdempotency.CallTool | packages/adapters-mcp/src/index.ts:3921-3962 | Check memory, check the durable record, invoke, store: the object follows the specified step, reply and invocation |
| Idempotency.McpIdempotency.CheckMemory | packages/adapters-mcp/src/index.ts:1882-1929 | Hit, conflict or miss by the identity of the record in memory |
| Idempotency.McpIdempotency.CheckDurable | packages/adapters-mcp/src/index.ts:1946-2017 | Hit or conflict by the durable record, conflict when it is damaged, miss when there is none |
| Idempotency.McpIdempotency.Store | packages/adapters-mcp/src/index.ts:1931-2057 | Stores the record in memory, and beside the run what the write leaves: the record, what was there before, or a damaged file |
| Sanitizing.SanitizeIsIdempotent | packages/eval-runner/src/model-assisted.ts:803-849 | Sanitizing changes exactly the values that have a secret key, a restricted record or something undefined at some depth, and never changes its own output; for both sanitizers |
| Sanitizing.SanitizedIsClean | packages/gate-engine/src/index.ts:1526-1559 | What is left has no secret key and no restricted record at any depth; for both sanitizers |
| Sanitizing.EvalSanitizingHides | packages/eval-runner/src/model-assisted.ts:803-849 | A value that was sanitized for a grading model holds, at any depth, no secret key, no record marked as redacted and none with a secret classification |
| Sanitizing.GateSanitizingHides | packages/gate-engine/src/index.ts:1526-1559 | A value that was sanitized for a gate model holds, at any depth, no secret key and no record of a secret or restricted redaction class |
| Sanitizing.RedactionsAreTheRemovals | packages/eval-runner/src/model-assisted.ts:820-841 | The reported positions are exactly the topmost hidden ones |
| Sanitizing.RedactionsAreDistinct | packages/eval-runner/src/model-assisted.ts:820-841 | No removal is reported twice |
| Sanitizing.CleanHasNoRedactions | packages/eval-runner/src/model-assisted.ts:803-849 | Sanitizing its own output reports nothing |
| Sanitizing.SanitizeKeepsTheRest | packages/eval-runner/src/model-assisted.ts:803-849 | Every scalar that is not hidden is kept, in order and under the same keys, and no other |
| ModelContext.SanitizeForModel | packages/eval-runner/src/model-assisted.ts:803-849 | The recursion with loops computes the sanitized value and adds the texts of the removed positions to the list |
| ContextPuts.PutGet | packages/eval-runner/src/model-assisted.ts:766-786 | What was put at a path is read there |
| ContextPuts.PutFrame | packages/eval-runner/src/model-assisted.ts:766-786 | Putting at one path does not change what is read at an incomparable one |
| ModelContext.ReadPathValue | packages/eval-runner/src/model-assisted.ts:788-801 | The loop over segments reads the path |
| ModelContext.ValueForReads | packages/eval-runner/src/model-assisted.ts:708-764 | The dispatch on reference texts is one path reading from one record of target and evidence |
| ModelContext.ProjectGraderContext | packages/eval-runner/src/model-assisted.ts:389-417 | The loop over references builds the specified context and list of removed paths |
| ModelContext.ProjectionIsFaithful | packages/eval-runner/src/model-assisted.ts:389-417 | Projecting pairwise incomparable references leaves at each exactly the sanitized source value, and nothing anywhere else |
| ModelContext.SecretKeysComeFromRefs | packages/eval-runner/src/model-assisted.ts:389-417 | The projected context has no secret key when no reference that contributes something has a secret segment itself, and only then if no reference is at or under another |
| ModelContext.SecretKeysExactly | packages/eval-runner/src/model-assisted.ts:389-417 | For any references, overlapping ones too, the projected context has no secret key exactly when no path that ends in one is left by the put of a reference that runs through it |
| ModelContext.SecretRefIsProjected | packages/eval-runner/src/model-assisted.ts:389-417 | A reference to a secret property of the evidence puts its key and value into the context |
| ModelContext.HiddenExactly | packages/eval-runner/src/model-assisted.ts:389-417 | For any references, overlapping ones too, nothing that lies under a secret key or a restricted record of the target and evidence is read in the context exactly when no such path is left by the put of a reference that runs through it |
| ModelContext.HiddenComesFromRefs | packages/eval-runner/src/model-assisted.ts:389-417 | Nothing hidden is read in the context when no reference that contributes something runs through a secret key or a restricted record, and only then if no reference is at or under another |
| ModelContext.RestrictedExactly | packages/eval-runner/src/model-assisted.ts:389-417 | For any references, the context holds a restricted record exactly when a reference names a marking property, puts a marking scalar there, and no later one touches it |
| ModelContext.RedactedContentIsProjected | packages/eval-runner/src/model-assisted.ts:389-417 | A record marked as redacted leaves nothing when the evidence is sanitized, and a reference to one of its properties puts that property into the context |
| ModelContext.MarkIsProjected | packages/eval-runner/src/model-assisted.ts:389-417 | A reference to the mark of a redacted record makes a context that holds a restricted record |
| GateContext.RedactForModel | packages/gate-engine/src/index.ts:1526-1559 | The recursion with loops computes the sanitized value |
| GateContext.ReadPathValues | packages/gate-engine/src/index.ts:2391-2425 | The loops over segments and current values compute the values along the path, wildcards included |
| GateContext.ReadReference | packages/gate-engine/src/index.ts:1507-1509 | A reference with a path reads the first value along it in the scope, and any other is looked up by name |
| GateContext.ProjectModelContext | packages/gate-engine/src/index.ts:1495-1524 | The loop over references builds the specified context, skipping blank references and those of which nothing is left |
| GateContextProofs.RefReads | packages/gate-engine/src/index.ts:2177-2223 | Every reference, by path with wildcards or by name with its fallbacks, reads one position of the one input record |
| GateContextProofs.ProjectionIsFaithful | packages/gate-engine/src/index.ts:1495-1586 | For any references, whatever scalar or list the context holds is the sanitized value of what the input holds at the position that one reference reads, or below it by the same keys |
| GateContextProofs.SecretKeysExactly | packages/gate-engine/src/index.ts:1495-1586 | For any references, the context has no secret key exactly when no path that ends in one is left by the put of a reference that runs through it |
| GateContextProofs.SecretKeysComeFromRefs | packages/gate-engine/src/index.ts:1495-1586 | The context has no secret key when no reference that contributes something has a secret segment or name, and only then if none puts anything at or under the place of another |
| GateContextProofs.RestrictedExactly | packages/gate-engine/src/index.ts:1495-1586 | For any references, the context holds a restricted record exactly when a reference names a marking property, puts a marking scalar there, and no later one touches it |
| GateContextProofs.HiddenExactly | packages/gate-engine/src/index.ts:1495-1586 | For any references, the context keeps no part that lies under a secret key or a restricted record of the input exactly when no reference of which something is left reads at such a position |
| GateContextProofs.HiddenComesFromRefs | packages/gate-engine/src/index.ts:1495-1586 | The context keeps no hidden part when no reference that contributes something reads at a hidden position, and only then if none puts anything at or under the place of another |
| GateContextProofs.SecretRefIsProjected | packages/gate-engine/src/index.ts:1495-1586 | A path to a secret property of the data puts its key and value into the context |
| GateContextProofs.RestrictedContentIsProjected | packages/gate-engine/src/index.ts:1495-1586 | Of data whose only record is restricted sanitizing leaves nothing; a path to one of its properties puts that property into the context, and a path to its mark makes a restricted record there |
| GateVerdict.SameHashInput | packages/gate-engine/src/decision-hash.ts:27-53 | The hash input of a gate verdict says everything about it except the order of keys in its obligations |
| GateVerdict.DecisionHashBinds | packages/gate-engine/src/decision-hash.ts:55-63 | Two gate verdicts that recompute have one hash exactly when they have the same body, or their texts collide |
| GateEngineProofs.AggregateAdvances | packages/gate-engine/src/index.ts:646-756 | Aggregation gives an advancing instruction and a pass exactly when every evaluation passed |
| GateEngineProofs.GateAdvancesExactly | packages/gate-engine/src/index.ts:450-533 | The synchronous gate advances exactly when its definition resolves, no declared input is missing, it has no model-assisted check and every check passes |
| GateEngineProofs.AsyncGateAdvancesExactly | packages/gate-engine/src/index.ts:535-644 | The asynchronous gate advances exactly when its definition resolves, no declared input is missing and all its checks pass, model-assisted ones too |
| GateEngineProofs.SyncIsAsync | packages/gate-engine/src/index.ts:450-644 | Without model-assisted checks the two entry points agree and the broker is not called |
| GateEngineProofs.BrokerCalls | packages/gate-engine/src/index.ts:589-644 | The broker is not called once a check without a model fails; each call comes from one model-assisted check and carries only its parsed projection |
| GateEngine.RunModelChecks | packages/gate-engine/src/index.ts:613-628 | The loop over model-assisted checks collects their evaluations, calls and broker requests in order |
| GateEngineProofs.ModelCheckFacts | packages/gate-engine/src/index.ts:1116-1299 | A model call has a rubric, and its evaluation fails closed exactly when the call did not succeed |
| GateEngineProofs.BypassFailsTheRun | packages/gate-engine/src/index.ts:674-705 | One evaluation that fails closed fails the run, whatever the failure behaviour says |
| GateEngineProofs.FailedCallFailsTheRun | packages/gate-engine/src/index.ts:1116-1343 | A model call that was attempted and did not succeed fails the run |
| GateEngineProofs.RepairTaskExactly | packages/gate-engine/src/index.ts:1805-1860 | A repair task is created exactly when the action is repair, the count is below the ceiling and the governed tool lists are disjoint; at the ceiling a human is asked, with overlapping lists the run fails |
| GateEngineProofs.RepairLoopIsBounded | packages/gate-engine/src/index.ts:1941-1950 | A host that increments the count after every repair task sees at most the ceiling many, over any run |
| GateEngineProofs.ProducedVerdictsBind | packages/gate-engine/src/index.ts:1961-1981 | Results of any two requests, from either entry point, have one decision hash exactly when their verdicts say the same, or the texts collide |
| GateEngineProofs.FailureIsExplained | packages/gate-engine/src/index.ts:646-756 | Every failing verdict of either entry point has a finding, and its repair task is made from exactly its findings |
| GateAudit.AssertGateAuditReconstructable | packages/gate-engine/src/audit.ts:349-442 | The loops of the guard compute the specified findings for any events and spans |
| GateAudit.SpanDescriptorsFor | packages/gate-engine/src/audit.ts:653-753 | The loops push the root, input, check and tool spans in order |
| GateAudit.CallsAcceptedExactly | packages/gate-engine/src/audit.ts:390-421 | The guard accepts the model calls of a built record exactly when calls with both ids equal share their rubric reference |
| GateAudit.BuiltRecordFindings | packages/gate-engine/src/audit.ts:244-316 | The findings for a built record: the ambiguous calls, and a re-evaluation pass with no linkable prior failure |
| GateAudit.RecordAcceptedExactly | packages/gate-engine/src/audit.ts:349-442 | The record of any evaluation passes the guard, except for the finding of an unlinked re-evaluation pass, if and only if model checks whose calls share both ids declare one rubric reference |
| GateAudit.RecordPassesGuard | packages/gate-engine/src/audit.ts:349-442 | With distinct check ids the record of any evaluation passes the guard, except for one finding raised exactly when a re-evaluation passes with no linkable prior failure |
| GateAudit.CallIdIgnoresRubricRef | packages/gate-engine/src/index.ts:1590-1608 | The call id covers the hash of the rubric but not its reference, so checks with equal ids that differ only there share both ids |
| GateAudit.SharedIdsAreRejected | packages/gate-engine/src/index.ts:1590-1608 | An asynchronous evaluation that reaches two such checks makes a record that its own guard rejects |
| GateAudit.AlteredVerdictIsReported | packages/gate-engine/src/audit.ts:376-388 | In any events, a verdict altered in a hashed field is reported as a hash mismatch, or the texts collide |
| GateAudit.LinkExactly | packages/gate-engine/src/replay-linkage.ts:48-87 | A re-evaluation that follows up a result of the engine is linked exactly when that result failed, to all its findings, whether or not there was a repair task |
| GateAudit.FollowUpPassesGuard | packages/gate-engine/src/replay-linkage.ts:89-114 | Following up a failing result of the engine leaves the guard nothing to report, however the re-evaluation ends |
| EvalKinds.NormalizeKindTwice | packages/eval-runner/src/registry.ts:595-597 | A normalized kind name stays as it is, so a fallback kind may be normalized again |
| EvalRegistry.LintEvalDefinition | packages/eval-runner/src/registry.ts:273-323 | The pushes of lint give the specified issues |
| EvalRegistry.CheckIssuesExactly | packages/eval-runner/src/registry.ts:294-319 | Lint finds no issue with checks exactly when there are some and the runner has an evaluator for each |
| EvalRegistry.RegistryResolvesLinted | packages/eval-runner/src/registry.ts:237-266 | A registry is built exactly from definitions that pass lint with distinct ids, and resolves only those |
| EvalRegistry.SuppliedMeansRegistered | packages/eval-runner/src/registry.ts:325-372 | A supplied definition is used only if it means what the registered one means, or their texts collide |
| EvalRunner.CollectClaims | packages/eval-runner/src/index.ts:1400-1453 | The loop over claims collects the findings and evidence references of the important ones |
| EvalRunnerProofs.CheckPassesExactly | packages/eval-runner/src/index.ts:1280-1517 | A check passes exactly when there is an evaluator for its kind and a target, and the target has every field, section or backed claim that it asks for |
| EvalRunnerProofs.DeterministicPassesExactly | packages/eval-runner/src/index.ts:412-541 | A definition that has checks of its own passes exactly when it has some and the target has what each of them asks for |
| EvalRunnerProofs.SourceFidelityExactly | packages/eval-runner/src/index.ts:1365-1478 | Source fidelity passes exactly when there are claims and every important one refers to evidence that is all there |
| EvalRunnerProofs.AggregateExactly | packages/eval-runner/src/index.ts:464-541 | A failure outweighs a review, which outweighs a pass |
| EvalRunnerProofs.LintExactly | packages/eval-runner/src/registry.ts:292-320 | A definition that is not routed away is left to review exactly when lint finds an issue with its checks and none of them fails |
| EvalRunnerProofs.LintIsSound | packages/eval-runner/src/registry.ts:237-323 | With a registry that was built, a definition of a kind that is not routed away never gets a review verdict |
| EvalRunnerProofs.SyncIsAsync | packages/eval-runner/src/index.ts:313-876 | The two entry points, each with its own order of tests and guards, decide the same on exactly the requests that do not get as far as a model-assisted kind, and there give the same verdict |
| EvalRunnerProofs.ModelAssistedPassesExactly | packages/eval-runner/src/model-assisted.ts:419-521 | A model-assisted definition passes exactly when it is advisory, its other checks pass and the model proposes a pass within its budgets |
| EvalRunnerProofs.BlockingNeverPassesByModel | packages/eval-runner/src/model-assisted.ts:438-474 | A blocking model-assisted definition never passes, whatever the broker answers |
| EvalRunnerProofs.UnresolvedFails | packages/eval-runner/src/index.ts:320-362 | A missing or untrusted definition gives a blocking failure from both entry points |
| EvalRunnerProofs.RunVerdictsRecompute | packages/eval-runner/src/index.ts:1768-1860 | Every verdict of either entry point recomputes from its own causation ids |
| FixtureGovernance.GovernanceExactly | packages/gate-engine/src/fixture-governance.ts:103-216 | Governance reports nothing exactly when declared and actual fixtures are the same and every changed fixture names a well-formed descriptor that lists exactly the fixtures changed under it |
| FixtureGovernance.AssertFixtureGovernance | packages/gate-engine/src/fixture-governance.ts:103-216 | The three loops and the map of changed fixtures give the specified findings in order |
| FixtureGovernance.CompareFixtureEntry | packages/gate-engine/src/fixture-governance.ts:250-296 | The two loops give the specified changes |
| FixtureGovernance.NoChangeExactly | packages/gate-engine/src/fixture-governance.ts:250-296 | There is no change exactly when every path has the same file hash on both sides |
| FixtureGovernance.ValidatesExactly | packages/gate-engine/src/migration-descriptor.ts:51-90 | A descriptor validates exactly when it is well formed and lists the changed fixtures in any order |
| DependencyPins.PinningIgnoresOrder | packages/harness-loader/src/dependency-resolver.ts:305-566 | Permuting the declarations or the resolver output changes neither acceptance nor the resolution, and so none of its hash segments |
| DependencyPins.AcceptedOverall | packages/harness-loader/src/dependency-resolver.ts:229-274 | Dependencies are accepted exactly when declarations agree, the pins do not conflict and each declaration has a matching pin |
| DependencyPins.AcceptedExactly | packages/harness-loader/src/dependency-resolver.ts:343-398 | Declarations are accepted exactly when those of one name agree and, in strict mode, each pins one version and its hash |
| DependencyPins.SegmentsExactly | packages/harness-loader/src/dependency-resolver.ts:305-337 | Lists with the same names, versions and content hashes, each as often and in any order, have equal hash segments; no others do unless NUL characters make single segments ambiguous |
| DependencyPins.SegmentSharedExactly | packages/harness-loader/src/dependency-resolver.ts:334-336 | A segment stands for one name, version and content hash exactly when none of them has a NUL |
| DependencyPins.ResolutionHasOnePinEach | packages/harness-loader/src/dependency-resolver.ts:435-484 | A successful resolution holds as many pins as there are declarations, one that each asks for, and none that no declaration asks for, with the declared hash and the required trust tier |
| DependencyPins.ValidateDeclarations | packages/harness-loader/src/dependency-resolver.ts:343-398 | The loop over declarations and the map of seen names throws exactly the specified fault |
| DependencyPins.VerifyResolvedPins | packages/harness-loader/src/dependency-resolver.ts:401-490 | The map of pins by name and the loop over declarations give the specified resolution or fault |
| CapabilityGrant.GrantedExactly | packages/harness-loader/src/capability-grant.ts:359-400 | A package is granted exactly when each of its six lists is contained in that of the grant |
| CapabilityGrant.OverGrantPartitions | packages/harness-loader/src/capability-grant.ts:359-400 | The over-grant and the permitted part divide the normalized request between them |
| CapabilityGrant.GrantsAreMonotone | packages/harness-loader/src/capability-grant.ts:359-400 | Enlarging a grant never revokes what it granted |
| CapabilityGrant.RegistryGrantSource.constructor | packages/harness-loader/src/capability-grant.ts:213-241 | After every push and stable sort, each package has its grants in the order of their ids, those of one id in the order of listing |
| CapabilityGrant.RegistryGrantSource.ResolveGrant | packages/harness-loader/src/capability-grant.ts:243-253 | Nothing exactly when no grant of the package is malformed or authorizes the version; else the outcome of such a grant under the first id that has one |
| CapabilityGrant.ResolutionIgnoresOrder | packages/harness-loader/src/capability-grant.ts:230-253 | No other order of listing the grants changes what a registry answers if and only if the grants in which the search can end, those under the first id that has one, have one outcome |
| CapabilityGrant.TiedGrantsDiffer | packages/harness-loader/src/capability-grant.ts:230-253 | Of two grants with one id that authorize the same version, the one listed first is resolved |
| Versions.CompareVersions | packages/harness-loader/src/capability-grant.ts:776-790 | The loop gives the first difference of the parts |
| Versions.CompareIsOrder | packages/harness-loader/src/capability-grant.ts:776-794 | Comparison is a total order on versions up to leading zeros |
| Versions.RangeIsConvex | packages/harness-loader/src/capability-grant.ts:725-775 | A range that accepts two versions accepts every well-formed version between them |

## Left out

- Assembly of provenance records and their auditability and coverage checks: field copies and lookups.
- Files, processes, transports, timers, the command line and the decoding of UTF-8 chunks: input and output with no property of their own; the durable idempotency records are a map.
- Concurrent calls: histories of calls do not overlap.
- The observed variant of tool calls, spans beyond those that the audit guard reads, metrics, reports and catalog registration.
- The credential-name lists, `redactEgressValue` and other pattern tables: which names are secret is a parameter.
- Schemas: `parse` is the identity on well-formed values; a schema that matters is a predicate or a parsing function.
- Unpaired surrogates, and the difference between code-unit and code-point order: a text is a sequence of Unicode scalar values.
- Non-integer numbers, and case folding outside ASCII.
- Reads of inherited property names, and records with a `__proto__` key outside gate definition files, which the source language resolves through prototypes; a second `__proto__` key in one YAML mapping after a first one that was null.
- A policy snapshot that is null or lists null, which its type excludes and on which the lookup of a verdict throws; parts of an evaluation input that are not records have no properties.
- The order in which the YAML parser lists integer-like keys: a mapping is a list of pairs in order of first use.
- The SHA-256 function itself, timestamps of spans, and identifiers derived from truncated hashes other than model call ids.
- Single deterministic gate checks (presence, schema, eval, evidence, policy, human review) and the reading of declared inputs: each is a pure lookup with an easy contract, so their results are parameters.
- The own recomputation of missing inputs and unsupported checks in the audit: both are parameters of the record.
- Assignment of nested records in place when a context is projected: the context is a value, which agrees because every sanitized value is a fresh tree that nothing else refers to.
- JSON parsing, the merging of a connection's context into params and result shaping of the JSON-RPC server: functions of the server's configuration.
- The clock of the cache is strictly increasing, so no two accesses happen at the same instant.
- Finding the candidate targets of an eval definition and the paths of its findings: parameters.
- The golden-run and replay guards of datasets beyond the binding rules, and the reading of dataset references.
- Grants whose records have no grant id: the sort of the registry compares them inconsistently.
- Descriptors whose versions are not three-part versions are treated as not well formed.
- Quarantine.ExternalMcpQuarantineState.RecordToolCallFailure: the model records results by their code only, since nothing else of a result is read.
- DependencyPins.SegmentsExactly: that equal segments mean equal pins is said only of pins whose parts a NUL character does not blur; `DependencyPins.SegmentSharedExactly` shows that otherwise one segment already does not tell its pin.
- DependencyPins.VerifyResolvedPins: reviewed pin contents and the fixture-backed resolver are not modelled, because the resolver is an arbitrary function.
