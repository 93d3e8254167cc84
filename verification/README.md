# Statsig Go server SDK: a verified model

A Dafny model of the parts of the SDK that carry state or recursion, with proofs of what they promise. Run
`dafny verify dfyconfig.toml` to check all of it.

| module | what it models |
|---|---|
| `Specs`, `Conditions`, `Strings` | specs, users, results; conditions that look at no other gate; string operations |
| `Versions` | parsing and comparison of version strings |
| `Operators` | the names configurations use for condition types and operators, and what each of them compares and asks |
| `Evaluation` | the mutually recursive evaluator as functions of a fixed world, depth by depth |
| `Answers` | what evaluations answer: first matching rules, rollouts, delegates, defaults, overrides, conditions on gates |
| `Evaluator` | the same evaluator as an object with loops, whose store may change before every lock it takes |
| `DepthLimit` | what the depth counter does: which evaluations hit it, and that all others do not depend on it |
| `Exposures` | soundness and nesting of the exposure trace |
| `Meaning` | a depth-free meaning of a configuration, and that the evaluator computes its only solution |
| `Readings` | that a configuration without circular dependencies has exactly one such meaning |
| `Locality` | evaluation reads only what a spec and its dependencies name |
| `ServerFallback` | exactly when a result asks for the server |
| `ExposureKeys` | de-duplication of exposures, and what it can lose |
| `InitializeResponse` | the client bootstrap response and its agreement with `checkGate` |
| `IdListReplay`, `IdListSync` | replay of ID-list files; one synchronization, and runs of them |
| `IgnoredRanges` | what becomes of lists whose server sends whole files instead of the parts asked for |
| `Segments` | segment checks over the lists that synchronization leaves, and while it runs |
| `IdListWorkers` | the synchronization as interleaved threads over shared list objects |
| `SpecStore`, `Outages` | where the served specs come from; the outage counter |
| `EventLogger` | the event buffer and the batches handed off from it |
| `Transport` | retried requests |

How the source is read:

- A Go panic is an outcome: `Panic(DepthExceeded)`, or `Panic(NilDereference)` where a nil interface, list or map is
  used. The functions of `Evaluation` are about one fixed snapshot of the store, the overrides and the clock. The
  methods of `Evaluator.Evaluator` call `Interfere` wherever the code takes a lock or reads the clock: unless the object is
  `steady`, everything it reads may then have changed. They end under all such changes, their results stay coherent, and
  when things are steady they return what the functions say.
- Code the SDK calls but does not contain (SHA-256, the user-agent and country lookups, regular expressions, float and
  time parsing, `fmt`) is a field of `Lib`, about which nothing is assumed.
- The SDK's one `store` struct is two classes: `SpecStore.Store` for the specs and `IdListWorkers.Store` for the list
  objects. Evaluation reads the latter through `Members`.
- In `IdListWorkers` every thread moves by single steps (a locked lookup, one `Store` or `Delete` of an id, one addition to a
  size, one deletion of a list), and any thread that can move may be the next to move. `Case` and `PhaseOk` say how
  far one name has come; a step may only touch its own name's list.
- A request's answer is an input: `Answer`, `NetworkAnswer`, `AdapterAnswer`, `Exchange`.

Findings about the code that the proofs pin down:

- `cleanExposures` joins its key with bars, so two different exposures can share a key and one is lost. This happens
  exactly between gates of which one name is the other followed by "|true" or "|false", and by nothing or a further
  bar (`CollisionNeedsExtension`, `ExtensionCollides`), and every such pair of names has an evaluation that loses one
  of its exposures (`LosslessExactly`). Other bars do no harm.
- The outage message speaks of a sync that "has failed for" a duration, but a success does not reset the counter
  (`SuccessesDoNotCount`). The failures that reports count are consecutive exactly when successes fall only between
  whole periods of failures (`ReportsUnbrokenExactly`; `ReportAcrossSuccess` is a run where they do not).
- Building the initialize response panics for an experiment that shares parameters with a layer whose default value is a
  JSON null, when the experiment has a value (`ConfigPanics`; `NullDefaultPanics` gives a store where it does).
- A segment check panics against a list whose entries have had no URL, no file or a negative creation time ever since
  it was last not stored (`SegmentCheckOverRuns`; one round with an empty entry is enough, see
  `EmptyEntryMakesChecksPanic`). While a round is running it also panics against a new list with a good entry, from when
  its name is stored until the list of its file takes the placeholder's place (`SegmentCheckInARound`,
  `CheckBeforeFirstFile`).
- The download of a list never looks whether the range it asked for was honoured, though section 14.2 of RFC 9110 lets a
  server ignore it. When the whole file comes to a list that already has a part of it, the ids are right, but the size
  overshoots (`WholeFileExactly`), and the list then stays as it is until the server announces more than that size
  (`StaysAsItIs`). Replication survives a run exactly if that never happens (`RunReplicatesExactly`). Under a server
  that always sends whole files a list is never wrong, only late (`NeverWrongOnlyLate`); in `LateForGood` it is as long
  as its file and still holds an id the file has taken away.
- Evaluating a layer's delegate a second time for the initialize response is redundant (`DelegateTwiceIsOnce`).
- Replaying a file over a beginning of itself is harmless only if the file has its own say on every id the beginning
  mentions (`HarmlessBefore`); a beginning cut inside a line can break this (`CutInsideALine`).
- The initialize response ignores an override of the gate it lists, where `checkGate` obeys it, so that the two agree
  exactly on gates without an override (`PathsAgreeExactly`).

## Model

| member | source | states |
|---|---|---|
| `Versions.ParsesNumerals` | evaluator.go:686-687 | a decimal numeral, signed or not, parses to the number it denotes, clamped to 64 bits |
| `Versions.CompareVersionsHelper` | evaluator.go:666-697 | the loop computes `Compare` on all strings |
| `Versions.CompareMeans` | evaluator.go:672-696 | -1, 1 and 0 exactly when one version precedes, follows or equals the other, parts read as sequences with infinitely many zeros appended |
| `Versions.TotalPreorder` | evaluator.go:688-696 | antisymmetric in sign, total, transitive, and equal versions compare alike with everything |
| `Versions.TrailingZero` | evaluator.go:674-684 | appending ".0" changes no comparison |
| `Versions.OtherTextIsZero` | evaluator.go:686-687 | a part that is no numeral counts as zero |
| `Conditions.VersionOperators` | evaluator.go:409-420 | for usable strings exactly one of lt, eq, gt holds, meaning precedence and equality; lte, gte, neq are their combinations; otherwise all six fail |
| `Conditions.ArrayAny` | evaluator.go:720-729 | true exactly when the target is an array with a matching element |
| `Operators.TypeNames` | evaluator.go:349-395 | the ten names of condition types |
| `Operators.NumberAndTimeNames` | evaluator.go:401-488 | the names of the operators on numbers and times |
| `Operators.VersionNames` | evaluator.go:409-420 | those on versions |
| `Operators.ListNames` | evaluator.go:423-456 | those on lists |
| `Operators.OtherNames` | evaluator.go:457-502 | and the others |
| `Operators.TypeSpelled` | evaluator.go:347-395 | a condition is of the type its name spells, in any case |
| `Operators.OperatorSpelled` | evaluator.go:348-507 | and of the operator |
| `Operators.UnitMeans` | evaluator.go:315-326 | the unit is the user's id, or the custom id of its type under its own, then its lower-case spelling, or nothing |
| `Operators.OwnFieldFirst` | evaluator.go:510-530 | a user's own field comes before all attributes |
| `Operators.AttributesNext` | evaluator.go:532-543 | then custom and after them private attributes, each under the field's own and then its lower-case spelling |
| `Operators.Operands` | evaluator.go:372-395 | the value each type of condition compares, with the lookups by address and user agent where the user has none |
| `Operators.PublicHolds` | evaluator.go:350-351 | a public condition holds |
| `Operators.NumbersCompared` | evaluator.go:401-408 | for two values that read as numbers the four operators are the four orders |
| `Operators.NotNumbers` | evaluator.go:635-642 | what is no number satisfies none of them |
| `Operators.VersionsCompared` | evaluator.go:409-420 | two strings are compared by what comes before their first dashes, lexicographically by parts, and satisfy none of the six operators if that is empty |
| `Operators.NotVersions` | evaluator.go:699-704 | what is no string satisfies none of them |
| `Operators.ListsCompared` | evaluator.go:423-456 | some element of the target, not null, equals, starts, ends or is a part of the value, in any case or exactly; or none does |
| `Operators.OthersCompared` | evaluator.go:457-488 | equality, where nothing equals nothing or an empty text, and the questions handed to the library |
| `Operators.SegmentsCompared` | evaluator.go:489-502 | membership of the value's key, or its opposite; no list means no, and a list without ids panics |
| `Operators.RolloutMeans` | evaluator.go:305-313 | the user is let in by the bucket of 10000 to which the spec's salt, the rule's salt or id, and the unit are hashed |
| `Operators.RolloutGrows` | evaluator.go:305-313 | raising a percentage lets nobody out, 0 lets nobody in and 100 everybody, and users of one unit fare alike |
| `Evaluation.EvalCoherent` | evaluator.go:204-303 | in every result a server fallback excludes a pass, and the undelegated exposures are a prefix of all exposures |
| `Evaluation.EntryPointsCoherent` | evaluator.go:85-154 | the same for gates, configs and layers however they are looked up |
| `DepthLimit.EvalShallower` | evaluator.go:204-284 | an evaluation that does not hit the depth limit has the same outcome at every smaller depth |
| `DepthLimit.GateShallower` | evaluator.go:89-106 | the same for a gate looked up by name |
| `DepthLimit.DepthExact` | evaluator.go:204-303 | the depth panic is raised if and only if some chain of dependencies the evaluation follows (4 per gate, 2 per delegate) outweighs the levels left |
| `DepthLimit.EntriesAgree` | evaluator.go:85-101 | wherever `checkGate` does not hit the limit, evaluation from the initialize response gives the same |
| `DepthLimit.LightStoresNeverPanic` | evaluator.go:205-207 | if all dependency paths of a gate weigh at most 299, `checkGate` never hits the limit |
| `DepthLimit.ChainLimit` | evaluator.go:224-232 | a straight chain of n gates entered at depth d panics if and only if d + 4(n - 1) exceeds 300 |
| `DepthLimit.ChainCapacity` | evaluator.go:44-44 | 75 chained gates are the most for `checkGate`, 76 for the initialize response |
| `Exposures.EvalSound` | evaluator.go:345-371 | every exposure of a result records the value and rule that checking its gate alone gives, and that gate's own full trace comes immediately before it |
| `Exposures.GateSound` | evaluator.go:89-106 | the same for a gate's result |
| `Meaning.MeansUnique` | evaluator.go:221-268 | given the results of gates and delegates, a spec calls for at most one result |
| `Meaning.EvaluatorRefinesReading` | evaluator.go:204-303 | wherever the evaluator returns, at any depth, it returns what every depth-free reading says: the first rule whose conditions all hold, or its delegate, with the traces of all conditions up to and including that rule |
| `Meaning.ComputedIsReading` | evaluator.go:204-303 | where everything named evaluates without a panic such a reading exists, and is the evaluator's own |
| `Readings.ExactlyOneReading` | evaluator.go:204-303 | every configuration without circular dependencies has exactly one reading, also where dependency chains are longer than the evaluator's limit or evaluations panic |
| `Locality.EvalLocal` | evaluator.go:204-303 | snapshots that agree on a scope closed under the names specs mention give identical outcomes, panics included |
| `Locality.GateLocal` | evaluator.go:89-101 | the same for a gate looked up by name; the spec of an overridden gate does not matter |
| `Locality.ConfigOverridesNeverMatter` | evaluator.go:163-175 | replacing all config and layer overrides changes no outcome of `eval`, even through delegation |
| `ServerFallback.UnsupportedMeans` | evaluator.go:394-505 | a condition is left to the server exactly when its type, or the operator its type needs, is none of the known spellings |
| `ServerFallback.FallbackExact` | evaluator.go:224-228 | a result carries the flag if and only if following first-match order through gates and delegates reaches a rule with an unsupported condition; then it does not pass |
| `Answers.GateConditionMeans` | evaluator.go:352-371 | `pass_gate` holds exactly when the named gate passes and `fail_gate` exactly when it does not, both with that gate's exposures and then its own; a fallback is passed on |
| `Answers.NoGateNamed` | evaluator.go:353-356 | neither holds when the target is no string |
| `Answers.RuleAnswer` | evaluator.go:229-268 | the first rule whose conditions all hold, if it has no existing delegate, answers with its id; the user passes if the rollout lets them in; a config's value is then the rule's decoded return value and otherwise the decoded default, a JSON null or malformed text reading as no fields |
| `Answers.DelegateAnswer` | evaluator.go:286-303 | if it has one, the delegate's own evaluation answers, with its value, id, details and pass |
| `Answers.DefaultAnswer` | evaluator.go:269-283 | if no rule matches or the spec is disabled, nobody passes and a config has its default value |
| `Answers.OverriddenOrUnknown` | evaluator.go:89-154 | overrides answer before anything else, and unknown names get an empty answer |
| `Answers.ConfigAnswers` | evaluator.go:112-130 | so a config looked up by name has its first matching rule's return value for the users let in and its default value for all others |
| `Answers.LayerAnswers` | evaluator.go:136-154 | and a layer that delegates has the value of its delegate evaluated alone |
| `Answers.GateOnGate` | evaluator.go:224-268 | what a gate answers whose only rule asks about another gate |
| `Evaluator.Evaluator.CheckGate` | evaluator.go:85-87 | ends and gives a coherent result under any changes to the store; in a steady world the result of `Evaluation.CheckGate` |
| `Evaluator.Evaluator.EvalGate` | evaluator.go:89-106 | the same for any depth |
| `Evaluator.Evaluator.EvalConfig` | evaluator.go:112-130 | the same for configs |
| `Evaluator.Evaluator.EvalLayer` | evaluator.go:136-154 | the same for layers |
| `Evaluator.Evaluator.Eval` | evaluator.go:204-284 | the rule loop: coherent under any changes, and in a steady world the function's outcome |
| `Evaluator.Evaluator.EvalDelegate` | evaluator.go:286-303 | the field-by-field overwriting of the delegate's result gives `Delegated` |
| `Evaluator.Evaluator.EvalRule` | evaluator.go:328-343 | the condition loop, without short-circuit |
| `Evaluator.Evaluator.EvalCondition` | evaluator.go:345-508 | the dispatch, with gate conditions evaluated through `EvalGate` |
| `ExposureKeys.CleanExposures` | client_initialize_response.go:54-65 | the loop with its set of seen keys computes `Clean` |
| `ExposureKeys.CleanKeepsFirsts` | client_initialize_response.go:57-63 | kept are exactly the first occurrences of each key, in their order |
| `ExposureKeys.CleanKeys` | client_initialize_response.go:57-63 | no key is lost and none is kept twice |
| `ExposureKeys.CleanIdempotent` | client_initialize_response.go:54-65 | cleaning twice is cleaning once |
| `ExposureKeys.CleanPrefix` | client_initialize_response.go:54-65 | prefixes stay prefixes |
| `ExposureKeys.CollisionNeedsExtension` | client_initialize_response.go:58-58 | two different exposures with boolean gate values share a key only if one gate name is the other followed by a bar and a value, and by nothing or a further bar |
| `ExposureKeys.ExtensionCollides` | client_initialize_response.go:58-58 | every such pair of gate names has two different exposures that share a key |
| `ExposureKeys.LosslessExactly` | client_initialize_response.go:54-65 | cleaning drops nothing but repetitions from the traces of all evaluations that expose only gates of a set, if and only if no name in it extends another |
| `ExposureKeys.EvaluationLoses` | client_initialize_response.go:83-83 | for every two gate names of which one extends the other, every user and every library, a store and a spec whose evaluation exposes both and loses one |
| `InitializeResponse.MergeMaps` | client_initialize_response.go:67-71 | the union with the second map winning; a panic exactly when something is written into a nil map |
| `InitializeResponse.GateToResponse` | client_initialize_response.go:88-96 | computes `GateResponseFor`, evaluating at depth zero |
| `InitializeResponse.ConfigPanics` | client_initialize_response.go:112-127 | where evaluation returns, a config entry panics if and only if it is an experiment sharing parameters with a layer whose default is a JSON null and has a value of its own to write into it |
| `InitializeResponse.NullDefaultPanics` | client_initialize_response.go:112-127 | for every experiment name, value and layer name a store for which it does, and the experiment is in every client's response |
| `InitializeResponse.ConfigEntryMeans` | client_initialize_response.go:67-131 | a shared value has the config's own keys with its own values, the layer's other keys with their defaults, and no other keys; any other config keeps its own value; the flags are those of the evaluation and the spec |
| `InitializeResponse.LayerEntryMeans` | client_initialize_response.go:132-166 | a layer's entry has the value, rule and exposures of its evaluation, and, if that names a delegate, the delegate's name, parameters and flags |
| `InitializeResponse.DelegateTwiceIsOnce` | client_initialize_response.go:151-164 | evaluating a layer's delegate a second time never panics and tells nothing new: the entry panics if and only if the layer's evaluation does, and its experiment flag is that evaluation's |
| `InitializeResponse.Fill` | client_initialize_response.go:172-195 | for every order of the map: an entry for each wanted name, no other entry, and a panic exactly when some wanted spec panics |
| `InitializeResponse.GetClientInitializeResponse` | client_initialize_response.go:168-207 | the same for the whole response, filtered by the app of the client key and, for gates, by entity; a key of an app sees exactly the specs that list the app, a key of no app sees all, and none sees segments and holdouts, if names do not collide |
| `InitializeResponse.PathsAgree` | client_initialize_response.go:88-96 | each listed gate without an override that `checkGate` can evaluate has, in the response, the value and rule id of `checkGate` and its exposures cleaned |
| `InitializeResponse.PathsAgreeExactly` | client_initialize_response.go:88-96 | unless some rule has the id "override", a listed gate's entry says the same as `checkGate` in value, rule id and cleaned exposures if and only if the gate is not overridden, gates that depend on themselves included |
| `InitializeResponse.OverrideLeavesEntry` | client_initialize_response.go:88-96 | overriding a gate that its own spec does not depend on changes nothing in its entry |
| `InitializeResponse.LayerExposuresNest` | client_initialize_response.go:132-141 | a layer's undelegated exposures are a prefix of its exposures, after cleaning too |
| `IdListReplay.IncrementalReplay` | store.go:482-495 | replaying A then B is replaying A++B whenever A is empty or ends in a newline, through CRLF replacement, split and trim |
| `IdListReplay.LastOpWins` | store.go:483-495 | an id is in afterwards if and only if its last operation adds it, or it has none and was in before |
| `IdListReplay.HarmlessBefore` | store.go:482-495 | replaying something before a whole file leaves the outcome alone, for all ids, if and only if the file mentions every id it mentions |
| `IdListReplay.ReplayOverPrefix` | store.go:482-495 | replaying a whole file over any of its line-ended beginnings gives the whole file's set |
| `IdListReplay.LineSays` | store.go:484-494 | a line adds or removes the id after its sign; white space around it, lines of one character and other lines do not count |
| `IdListReplay.FileSays` | store.go:482-495 | a file says what its lines say, in their order, whether they end in a newline or also a carriage return |
| `IdListReplay.CutInsideALine` | store.go:482-495 | a beginning cut inside a line for which this fails |
| `IdListSync.SyncKeepsWellFormed` | store.go:414-441 | every list is a placeholder or has a file and allocated ids, and no download works on unallocated ids, whatever the server says |
| `IdListSync.SyncNames` | store.go:476-505 | after a synchronization the stored names are exactly the server's minus those whose download was corrupt |
| `IdListSync.SyncAdvances` | store.go:421-498 | a list that stays stored never moves to an older file, and within one file changes only by growing strictly |
| `IdListSync.RunWellFormed` | store.go:396-507 | well-formedness in every state reachable by any run |
| `IdListSync.CreationTimeNeverDecreases` | store.go:421-436 | while a name stays stored its creation time never decreases, over any number of rounds |
| `IdListSync.CreatedWithFile` | store.go:426-436 | over every run where the entries for a file carry the file's own time, each list with a file carries that time |
| `IdListSync.NeverAnOlderFile` | store.go:421-436 | so while a name stays stored, its list never goes back to an older file, even if a stale server offers it one |
| `IdListSync.WhatIsDownloaded` | store.go:413-443 | which entries are taken up, what a list starts over with, and when and from where something is downloaded |
| `IdListSync.WhatIsApplied` | store.go:445-496 | which answers leave a list, delete it or are applied to it |
| `IdListSync.RunReplicates` | store.go:413-498 | over every run against growing files, served honestly or with bodies that read as corrupt, each list with a file holds exactly what replaying the first `size` bytes of it from nothing gives |
| `IgnoredRanges.WholeFileExactly` | store.go:444-496 | a whole file that answers the request for a part gives the whole file's ids and adds its length to the size; the list replicates its file afterwards if and only if it started from nothing and the file ends its last line |
| `IgnoredRanges.RunReplicatesExactly` | store.go:413-498 | over every run where the applied bodies are what was asked for or the whole file, each list replicates its file up to its size after every round if and only if no whole file ever comes to a list that has a part of it, or ends inside a line |
| `IgnoredRanges.StaysAsItIs` | store.go:420-441 | a list does not change over any number of rounds whose entries are invalid, or name its file and announce at most its size, too large as that may be |
| `IgnoredRanges.NeverWrongOnlyLate` | store.go:413-498 | over every run against a server that always sends whole files, each list's ids are those of some line-ended beginning of its file |
| `IgnoredRanges.LateForGood` | store.go:438-496 | three rounds of such a server after which a list is as long as its file and holds an id that the file has taken away |
| `IdListSync.PlaceholderExactly` | store.go:413-436 | over every run, a name is stored as a placeholder if and only if all its entries since it was last not stored had no URL, no file or a negative creation time |
| `IdListSync.CaughtUp` | store.go:482-496 | a list that reached its file's end holds exactly the ids whose last line in the file adds them |
| `IdListSync.RoundCatchesUp` | store.go:444-498 | one round whose entry is good and announces more than the list has, and whose answer is all that is missing, leaves exactly the ids whose last line in the whole file adds them |
| `Segments.SegmentCheckOverRuns` | evaluator.go:489-503 | over the lists any run of synchronizations leaves, a segment check panics if and only if all entries for the name since it was last not stored had no URL, no file or a negative creation time; otherwise it tells membership |
| `Segments.EmptyEntryMakesChecksPanic` | store.go:413-423 | one round with an empty entry makes checks against its list panic |
| `Segments.SegmentCheckInARound` | evaluator.go:489-503 | at every moment of a round, under every schedule, a check panics exactly at certain phases; for a new name with a good entry, from when the name is stored until the list of its file is |
| `Segments.CheckBeforeFirstFile` | store.go:414-436 | for every new name with a good entry a round comes to such a moment |
| `Segments.SegmentCheckTellsFile` | evaluator.go:489-503 | on a list that caught up with its file it tells whether the value's last line in the file adds it |
| `IdListWorkers.Store.Members` | store.go:374-382 | what evaluation reads of the list objects is their abstract contents' ids, `None` for placeholders |
| `IdListWorkers.Sync.SeenEmptyExactly` | store.go:413-498 | at which phases of a round the list stored under a name has no ids |
| `IdListWorkers.Store.SyncIDLists` | store.go:396-507 | for every interleaving and every map order the stored lists end as the function `AfterRound` of the lists before and the answers, and no two names share a list object |
| `IdListWorkers.Sync.Run` | store.go:412-500 | every schedule ends, with all names settled |
| `IdListWorkers.Sync.SomeoneEnabled` | store.go:412-500 | until all names are settled some thread can move |
| `IdListWorkers.Sync.StepKeepsInv` | store.go:413-498 | a step that touches only its own name's list and thread keeps the invariant of all threads |
| `IdListWorkers.Sync.TakeUp` | store.go:413-416 | the lookup, and the placeholder for a new name |
| `IdListWorkers.Sync.Decide` | store.go:420-434 | invalid entries settle at once; another, not older file leads to a fresh list |
| `IdListWorkers.Sync.Size` | store.go:438-443 | a worker is started only for a list the server says is longer |
| `IdListWorkers.Sync.Ask` | store.go:444-480 | the download from the list's own URL and size, and what each kind of answer leads to |
| `IdListWorkers.Sync.ApplyNext` | store.go:482-496 | one line, or at the end the size, on the worker's own list |
| `IdListWorkers.Sync.Delete` | store.go:476-480 | a corrupt body deletes the list stored under the name |
| `IdListWorkers.Sync.Sweep` | store.go:501-505 | drops exactly the names the server does not list |
| `Outages.ReportsOverRun` | store.go:263-277 | over any run, with an interval not above the maximum, n failed polls give (c0 + n) div K reports and leave the counter at (c0 + n) mod K |
| `Outages.EveryFailureReported` | store.go:263-277 | with a longer interval every failed poll is reported |
| `Outages.SuccessesDoNotCount` | store.go:263-277 | over any run the counter and the reports are those of the same run without its successes |
| `Outages.ReportsFillPeriods` | store.go:264-276 | a poll reports if and only if it fails and the failures so far, the cold start's included, fill whole periods |
| `Outages.ReportsUnbrokenExactly` | store.go:263-277 | all reports of a run count consecutive failures if and only if each success before a later report falls where the failures so far fill whole periods |
| `Outages.ReportAcrossSuccess` | store.go:116-116 | with the maximum of two minutes and any interval up to it, a run whose report covers a success |
| `SpecStore.ByNameMeans` | store.go:339-352 | a name is served by the last spec of that name in the response |
| `SpecStore.Store.IndexExperiments` | store.go:354-359 | every experiment is indexed under a layer that lists it, and nothing else is, for every map order |
| `SpecStore.Store.SetConfigSpecs` | store.go:333-372 | all maps and the sync time come from this one response, or, without updates, nothing changes |
| `SpecStore.Store.FetchConfigSpecsFromAdapter` | store.go:235-249 | the reason keeps naming the source of what is served, also when the adapter panics or its text is bad |
| `SpecStore.Store.FetchConfigSpecsFromServer` | store.go:279-312 | the same for the network; only a failed request counts as a failure |
| `SpecStore.Store.HandleSyncError` | store.go:263-277 | a cold-start failure is counted but never resets; later ones are those of `Outages` |
| `SpecStore.Store.Load` | store.go:169-190 | initialization serves the adapter's or bootstrap's response, unless it is missing or of time zero and the network delivers one; one failure is counted exactly when the network is asked and fails |
| `SpecStore.Store.FirstSourceMeans` | store.go:169-186 | what is served first: the adapter's response, or without an adapter the bootstrap values, unless it is missing or its time is zero and the network delivers; and exactly when the network is asked and fails |
| `SpecStore.Store.PollsOfNetwork` | store.go:535-539 | a run of polls without an adapter, or with one that is never to be asked, serves, names and counts what the network answers |
| `SpecStore.Store.PollsOfAdapter` | store.go:535-539 | a run with one that is always to be asked depends only on the adapter's answers and counts no failure |
| `SpecStore.Store.PollForRulesetChanges` | store.go:524-541 | after any run of polls the reason names the source of the last response delivered, which is the one served, and the failures are counted as in `Outages` |
| `EventLogger.EventsConserved` | logger.go:111-119 | under every interleaving the batches in order, then the buffer, are exactly the events logged; batches are non-empty and bounded; the buffer is shorter than the bound |
| `EventLogger.HandsOffWhenFull` | logger.go:111-230 | a batch is handed off exactly when an event fills the bound, or at a flush when something waits |
| `EventLogger.ShortBatchesAreFlushed` | logger.go:111-230 | over every run there are no more batches below the bound than flushes |
| `EventLogger.FullBatches` | logger.go:111-119 | without flushes n events make n div max full batches |
| `EventLogger.Logger.constructor` | logger.go:53-61 | an empty buffer with the configured bound, or 1000 |
| `EventLogger.Logger.LogInternal` | logger.go:111-119 | a locked step of the state machine; arrays handed off before are never written again |
| `EventLogger.Logger.FlushInternal` | logger.go:215-230 | the buffer's array goes to the sender and the buffer gets a new one |
| `EventLogger.Logger.FlushEvents` | logger.go:207-213 | the flush step of the state machine |
| `EventLogger.LayerExposuresOfDelegate` | logger.go:171-205 | what is logged with a layer parameter is a sound beginning of the trace: the exposures from before delegating and, for a parameter of the delegate, all that evaluating the delegate alone exposes |
| `Transport.Retry` | transport.go:129-143 | at most retries + 1 calls, all but the last asked for a retry, the last call's answer is returned, and the pauses slept are those of `Pauses` |
| `Transport.PauseTotal` | transport.go:136-138 | k pauses add up to backoff * (10^k - 1) / 9 as long as they fit 64 bits |
| `Transport.PostRequestInternal` | transport.go:70-98 | nothing is sent in local mode or for input that does not encode; otherwise a delivery as `Retry` makes it |
| `Transport.EventDelivery` | transport.go:61-68 | events are sent again, after 1, 10, 100, ... seconds, exactly until an answer does not ask for it or five retries are used up; delivery succeeds exactly on a 2xx answer that decodes; at most 11111 seconds are slept |

## Left out

- HTTP, JSON, files, stderr, tickers and sleeping: their results are inputs, and sleeping is a list of durations.
- Float rounding: `EvalPassPercent` and the number operators compute over real numbers, and `hash % 10000` is exact.
- Letters and white space outside ASCII in `strings.ToLower` and `strings.TrimSpace`; ID-list files are sequences of
  one-byte characters.
- 64-bit wrap-around of list sizes, sync times and poll durations; the retry pause and version numbers have it.
- A whole evaluation seeing one generation of specs: lookups take the lock one at a time, so it need not. Hence the
  distinction between steady and unsteady evaluators.
- The moment between putting new specs in place and setting the reason, which are two critical sections: `Truthful` is
  stated after each fetch.
- `serverTime` in evaluation details, and the constant fields of the initialize response.
- Diagnostics, sampling rates, the rules-updated callback, saving to the data adapter, the output logger, the error
  boundary and global state.
- The wrappers in client.go, statsig.go and types.go.
- The goroutines that send batches: what they do with a batch is not modelled, only that nothing changes it.
- Servers that answer a range request with something other than what was asked for, the whole file, or a body that reads
  as corrupt; and a mixture of whole files and honest answers past the point where `RunReplicatesExactly` fails.
