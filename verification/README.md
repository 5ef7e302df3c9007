# AI4IA operations scripts: a verified model

AI4IA's operations scripts hold a dozen small algorithms whose correctness is
argued in comments. This project models them in Dafny and proves what
they are relied on for. Services, child processes, clocks and the client library
are abstract: they appear as parameters that may take any value, or as steps a
run may take in any order, so the results hold for every behaviour they can show.

- `MarkerConditions`, `HttpDependencies`: the worklist that finds under which environment markers each locked package is needed
- `SecretMatching`, `NativeMetadata`: matching masked secret rows to their sources by augmenting paths
- `MetadataSemantics`, `MetadataScopes`, `MetadataLaws`, `MetadataMemo`, `MetadataEvaluator`: the bounded, memoising evaluator of deployment template expressions and what each kind of them means
- `PolicyExpressions`, `PolicyGrammar`, `PolicyFaults`, `PolicyScanner`: C# policy expressions as a recursive-descent recogniser, their grammar, what is wrong with the others and where, and the one-pass scanner
- `CatalogPacking`: greedy chunking of the backend catalog into policy fragments
- `BoundedProcess`, `ProcessLaws`: a child process drained by two threads through one bounded queue
- `UsageMetrics`: aggregation of usage metrics and the sizing that consumes it
- `PoolAccounting`, `ProductionBudget`: quota pools asserted by an operator, and the gate for moving capacities within them
- `ImmutableVersions`, `Reconciler`: create-then-activate reconciliation of immutable versions
- `SampleSelection`, `DeletionRecords`, `DeletionScan`, `DeletionVerdict`, `DeletionAssessment`, `DeletionReport`: read-only observation of conversation deletion and its completeness verdict
- `SdkReads`, `AssessmentReader`: the transport that lets an untrusted client library send one exact query per page, and the reader that binds the account on the same wire first
- `MemoryRows`, `MemoryMigration`: the interruptible create-or-verify copy of legacy memories
- `JsonTransport`: the canonical base 64 transport of JSON settings
- `Filters`, `Wrappers`: selections of a list, sizes of sets, options and results

Code that the scripts write as loops over variables or as objects is a method or
a class here, proved against a specification; what the scripts promise is then
proved of the specification. Code that is an expression there is a function here.

The tests, comparisons and tables that a specification shares with the code it
specifies have laws of their own, stated over the fields, characters, numbers and
terms themselves.

Some of what the scripts or their documentation suggest holds only under a
condition. The project says which, with a witness where the condition fails:

- The memo table of the metadata evaluator is keyed by variable and mode alone. A
  variable whose body reads a lambda variable can get a stale value (`StaleTable`),
  and so can one whose value is a lambda, even without free variables, because it
  captures the scope it is met in (`StaleClosure`). When the template's terms
  read no lambda variable of their caller and have lambdas only as the second
  argument of `map` and `filter`, all under literal names, the table changes
  nothing (`MemoTransparent`, `MemoSound`).
- A skill reconcile skips versions without an identifier and may then create a
  second version of the same content (`DuplicateSkill`, `DuplicateExactly`).
- A pool that is cleared only to shrink may have no room for a second copy of a
  deployment before the first move (`ShrinkingFullPool`, `SecondCopy`).
- Two migrated rows of one user that share a target identity, such as rows
  without any identity, stop every complete run if their texts differ
  (`SharedIdentityStops`) and count once if they do not; the per-partition count
  finds exactly these (`CountsFindDuplicates`).
- Whether a query may go out is decided by the last container answer that was a
  layout (`LayoutDecides`), so answers that are none, however many, leave an
  earlier compatible one standing (`UnreadableLayoutsKeepOld`), and a page is
  served although the last answer was unreadable (`StaleLayoutServes`).
- The position reported for an unterminated interpolated string is that of the
  literal or block comment opened last, because the start is not restored when a
  hole closes. It is where the string starts iff nothing was opened in its holes
  (`ReportedAtStart`); `$"{"a"}` before a line end is reported at 3 and not at 0
  (`WrongStart`).

Hashes are injective: where a script compares digests the model compares what they
digest, or takes the digest as a parameter. Case folding, trimming and the
rendering of fields that are never compared are parameters too.

## Model

| member | source | states |
|---|---|---|
| MarkerConditions.SimplifyCovers | scripts/http_dependencies.py:36-41 | Absorption neither adds nor loses any marker set that a condition covers. |
| MarkerConditions.BothCovers | scripts/http_dependencies.py:44-45 | The conjunction covers exactly what both conditions cover. |
| MarkerConditions.ConnectivesMeaning | scripts/http_dependencies.py:36-45 | Under every truth assignment absorption keeps the meaning and conjunction is conjunction of meanings. |
| MarkerConditions.AntichainCanonical | scripts/http_dependencies.py:36-41 | Two simplified conditions that cover each other are equal: an antichain is canonical for its upward closure. |
| MarkerConditions.MergeGrows | scripts/http_dependencies.py:59-61 | A merge that changes a simplified condition covers some marker set that was not covered before. |
| HttpDependencies.ProcessKeepsInvariant | scripts/http_dependencies.py:57-74 | Taking any queued entry, not only the last, keeps the worklist invariant: nothing unsound is recorded, every recorded condition is an antichain, and every edge is accounted for in the queue or the result. |
| HttpDependencies.FinalExact | scripts/http_dependencies.py:57-75 | With the queue empty, a package is listed exactly when some walk reaches it, and its condition covers exactly the marker sets of its walks. |
| HttpDependencies.MinimalIffKept | scripts/http_dependencies.py:57-75 | The recorded clauses are exactly the inclusion-minimal marker sets over all walks from the direct requirements. |
| HttpDependencies.StepShrinks | scripts/http_dependencies.py:57-74 | Every step that changes a condition strictly shrinks the finite set of uncovered (package, marker set) pairs, on cyclic graphs too; with the queue length this is the loop's measure. |
| HttpDependencies.RunSound | scripts/http_dependencies.py:57-74 | The invariant holds after any number of steps in any order of taking entries. |
| HttpDependencies.OrderIndependent | scripts/http_dependencies.py:57-75 | Two complete runs end with the same conditions for the same packages whatever order each takes. |
| HttpDependencies.IndexPackages | scripts/http_dependencies.py:50-54 | Indexes the lock by name, or names a package with two entries. |
| HttpDependencies.PushEdges | scripts/http_dependencies.py:67-73 | Queues one entry per edge with the package's condition and the edge's marker, or refuses a package with an edge of unsupported form. |
| HttpDependencies.TakeEntry | scripts/http_dependencies.py:58-73 | One turn of the loop: the last entry is processed as specified and the loop's measure falls, or a package that is really reached is refused for its real fault. |
| HttpDependencies.Closure | scripts/http_dependencies.py:48-75 | The loop terminates on every lock, accepts exactly the valid ones, returns exactly the reachable packages with their exact conditions, and every refusal names a real fault. |
| HttpDependencies.ExactMeaning | scripts/http_dependencies.py:48-75 | Under every truth assignment an exact condition holds iff the package is reachable along edges whose markers hold. |
| HttpDependencies.ClosureMeaning | scripts/http_dependencies.py:48-75 | The same for a returned closure as a whole: listed with a true condition iff reachable under the assignment. |
| SecretMatching.ViolatorRefutes | scripts/_private_metadata.py:398-410 | Rows with too few candidate targets between them rule out every one-to-one assignment. |
| SecretMatching.SearchViolates | scripts/_private_metadata.py:400-408 | A failed search leaves just such a set of rows. |
| SecretMatching.MatchingAssigns | scripts/_private_metadata.py:398-410 | A matching of all rows is a one-to-one assignment that respects the candidates. |
| SecretMatching.Matcher.Assign | scripts/_private_metadata.py:400-408 | One augmenting search on the shared table: success keeps every matched row matched and adds this one, failure leaves the table as it was and everything reachable exhausted. |
| SecretMatching.Matcher.MatchAll | scripts/_private_metadata.py:398-410 | Succeeds iff a one-to-one assignment exists, for any number of rows; success leaves a valid matching, failure a Hall violator. |
| NativeMetadata.FitsExactly | scripts/_private_metadata.py:384-395 | The rows that fit a secret, written out: of the application, its name shown or masked and at most a mask for its value; of a vault, name, address and identity shown or masked and no value. |
| NativeMetadata.AssignableIffStands | scripts/_private_metadata.py:384-410 | The candidate lists are assignable iff the rows can stand for the expected secrets one to one. |
| NativeMetadata.DistinctnessImplied | scripts/_private_metadata.py:381-383 | When the source's names are distinct, the test for repeated plain names refuses nothing that has an assignment. |
| NativeMetadata.EverySecretStoodFor | scripts/_private_metadata.py:371-410 | In an accepted projection every expected secret is stood for by some row. |
| NativeMetadata.NoValueShown | scripts/_private_metadata.py:388-396 | An accepted projection shows no value. |
| NativeMetadata.ValidateSecrets | scripts/_private_metadata.py:367-410 | Accepts the secret rows exactly when they are a consistent masked projection of the expected secrets, and gives a true reason for any refusal. |
| MetadataScopes.ScopeIrrelevant | scripts/_private_metadata.py:127-204 | In a template of closed terms (no lambda variable of the caller, lambdas only inside map and filter, literal names) a closed term has the same meaning in every scope that agrees on its bound variables, whatever it calls. |
| MetadataScopes.Deeper | scripts/_private_metadata.py:183-201 | Allowing deeper nesting of lookups never changes a value. |
| MetadataScopes.OneMeaning | scripts/_private_metadata.py:127-204 | A term has at most one meaning. |
| MetadataLaws.IfMeans | scripts/_private_metadata.py:151-154 | A condition means what the branch its condition selects means, and nothing when that is no truth value. |
| MetadataLaws.GetMeans | scripts/_private_metadata.py:133-142 | Member access: of an object by a key it has, of a list by an index within it; of an opaque value, opaque. |
| MetadataLaws.ParameterMeans | scripts/_private_metadata.py:182-192 | A secure parameter means the empty text and only if unsupplied with that default; any other what is supplied, before what its default means. |
| MetadataLaws.VariableMeans | scripts/_private_metadata.py:192-201 | A variable means what its body means where it is referred to. |
| MetadataLaws.LambdaMeans | scripts/_private_metadata.py:155-204 | A lambda is its parameter and body with the scope it is met in; a lambda variable what the scope holds. |
| MetadataLaws.CollectMeans | scripts/_private_metadata.py:158-173 | A mapping gives the value of the lambda for every row, in order; a filter keeps in order exactly the rows for which it is true, and means nothing if for one of them it is no truth value. |
| MetadataLaws.ArrayMeans | scripts/_private_metadata.py:113-115 | A list has the values of its items, in order, up to the limit. |
| MetadataLaws.ObjectMeans | scripts/_private_metadata.py:117-125 | An object has just its keys, all different, each with its member's value; the value member of an environment row is evaluated plainly, may not be a secret, and shows only whether the text is empty. |
| MetadataLaws.SecretsMean | scripts/_private_metadata.py:205-217 | The secrets of an application are listed under its name as evaluated plainly. |
| MetadataLaws.StrictMeans | scripts/_private_metadata.py:218-221 | Any other function gets its argument values, unless a secret or an opaque value is among them. |
| MetadataMemo.RunSound | scripts/_private_metadata.py:127-204 | Whatever a run returns, within whatever budget, is the term's meaning: without the table for every template, with a sound table for templates of closed terms, and then the table stays sound. |
| MetadataMemo.Transparent | scripts/_private_metadata.py:127-204 | For templates of closed terms a run with the table does all that it does without, and ends with at least as many steps left. |
| MetadataMemo.MemoTransparent | scripts/_private_metadata.py:193-201 | For templates of closed terms, which excludes variables whose value is a lambda, the memoised evaluator returns what the plain one returns whenever that fits the step budget. |
| MetadataMemo.MemoSound | scripts/_private_metadata.py:193-201 | And under the same condition whatever the memoised evaluator returns is the plain meaning. |
| MetadataMemo.StaleTable | scripts/_private_metadata.py:193-204 | The condition is needed: a template whose variable body reads a lambda variable gets a stale value from the table. |
| MetadataMemo.StaleClosure | scripts/_private_metadata.py:193-204 | So is the ban on lambdas elsewhere: a variable whose value is a lambda without free variables gets the closure over another row. |
| MetadataEvaluator.Evaluator.Evaluate | scripts/_private_metadata.py:127-204 | The evaluator object does exactly what the specified run does to its table, its active set and its remaining steps; it terminates on every template. |
| MetadataEvaluator.Evaluator.AnswerMeans | scripts/_private_metadata.py:95-204 | Over a template of closed terms every answer is what the term means, as the laws above say it, and the table keeps holding what its variables mean. |
| MetadataEvaluator.Evaluator.Continue | scripts/_private_metadata.py:182-204 | One operator applied to evaluated operands, with the guarded lookup of variables and parameter defaults. |
| MetadataEvaluator.Evaluator.EvaluateAll | scripts/_private_metadata.py:113-115 | Elements are evaluated in order, each from the state the one before left. |
| MetadataEvaluator.Evaluator.EvaluateMembers | scripts/_private_metadata.py:111-125 | Members likewise, with the mode their key calls for. |
| MetadataEvaluator.Evaluator.EvaluateRows | scripts/_private_metadata.py:158-173 | The rows of a mapping or a filter, each in the scope of its lambda variable. |
| PolicyScanner.ScanInside | scripts/gen-gateway-policy.py:481-578 | One turn inside a comment or literal leaves the recogniser's verdict on the rest unchanged, or refuses what it refuses. |
| PolicyScanner.ScanToken | scripts/gen-gateway-policy.py:580-625 | In code, the longest literal or comment start is taken, as the recogniser takes it. |
| PolicyScanner.HoleOpens | scripts/gen-gateway-policy.py:512-515 | Pushing the literal's state at a hole is the recogniser's nested call, with the same verdict after it. |
| PolicyScanner.CloseBracket | scripts/gen-gateway-policy.py:614-623 | Popping a frame and its return state is the return from that call; a mismatch is refused by the recogniser too, at the same place. |
| PolicyScanner.AtEnd | scripts/gen-gateway-policy.py:627-639 | The tests after the last character give the recogniser's verdict. |
| PolicyScanner.ValidateExpression | scripts/gen-gateway-policy.py:458-639 | Accepts exactly the short texts without forbidden construct that the recogniser accepts, and refuses the others with the recogniser's own verdict, but for the start of an unterminated literal or comment, which is reported as the one opened last. |
| PolicyFaults.VerdictBlames | scripts/gen-gateway-policy.py:470-639 | The recogniser's verdict names the construct to blame: the last literal or comment that does not close, or an unmatched bracket; all that was opened after it was opened in its holes and is closed. |
| PolicyFaults.ReportedAtStart | scripts/gen-gateway-policy.py:473-609 | An unterminated string is reported where it starts iff no literal or block comment was opened in its holes; otherwise the report names the last of these, which is closed. |
| PolicyFaults.OthersReportedTruly | scripts/gen-gateway-policy.py:473-639 | Every other refusal is reported where it is. |
| PolicyFaults.WrongStart | scripts/gen-gateway-policy.py:512-528 | An interpolated string reported at the start of a closed literal in its hole. |
| PolicyGrammar.Generated | scripts/gen-gateway-policy.py:470-625 | The recogniser reads the text of every grammatical tree, wherever it stands, to its end. |
| PolicyGrammar.CodeTree | scripts/gen-gateway-policy.py:470-625 | Whatever the recogniser reads is the text of a grammatical tree. |
| PolicyGrammar.RecognisedIffGenerated | scripts/gen-gateway-policy.py:470-639 | The accepted texts are exactly those of the grammar of nested brackets, comments, character literals and plain, verbatim and interpolated strings with nested holes. |
| PolicyExpressions.BracketPairs | scripts/gen-gateway-policy.py:611-623 | Two brackets are an expression only as one of the three pairs. |
| PolicyExpressions.OneCharacter | scripts/gen-gateway-policy.py:493-578 | A string or character literal of one character may hold anything but its quote, a backslash or a line end. |
| PolicyExpressions.OneVerbatim | scripts/gen-gateway-policy.py:534-541 | A verbatim string may hold anything but a lone quote. |
| CatalogPacking.SizeIsLength | scripts/gen-gateway-policy.py:378-388 | The running size is the length of the rendered expression. |
| CatalogPacking.CloseChunk | scripts/gen-gateway-policy.py:398-401 | Closing a chunk that the next block would overfill keeps the greedy chunks at least as far along as any fitting split. |
| CatalogPacking.AheadIsFewest | scripts/gen-gateway-policy.py:391-410 | Chunks that are never behind any fitting split are the fewest. |
| CatalogPacking.ChunkCatalog | scripts/gen-gateway-policy.py:391-410 | All blocks in order, in nonempty chunks under the expression limit, in the fewest chunks of any in-order split into single blocks and chunks within the target; refuses iff one block alone is too large. |
| CatalogPacking.FragmentChunks | scripts/gen-gateway-policy.py:413-420 | Refuses only when a block is too large or no such split fits the number of fragments; otherwise pads to that number without changing the blocks. |
| BoundedProcess.StepKeeps | scripts/_capacity_evidence.py:359-459 | Each step of the child, a drain thread, the queue, the consumer or the deadline keeps the invariant on both pipes. |
| BoundedProcess.EveryRun | scripts/_capacity_evidence.py:359-459 | In every interleaving a normal return carries exactly the child's whole standard output in order, within the limit, with both pipes at their end and exit code 0; a size failure is raised only for output that is too large. |
| BoundedProcess.WorkFalls | scripts/_capacity_evidence.py:379-452 | Every step of a thread or of the consumer uses up work that only the child can add. |
| BoundedProcess.NeverStuck | scripts/_capacity_evidence.py:379-452 | Once the child has exited and its pipes are closed, some thread or the consumer can always go on without waiting for the deadline. |
| ProcessLaws.EveryRunBounded | scripts/_capacity_evidence.py:375-396 | At any time at most 16 packets wait, and no thread has read more than one byte beyond its limit, in pieces of at most 8192. |
| ProcessLaws.EveryRunExplained | scripts/_capacity_evidence.py:419-452 | A run ends by the deadline exactly when that came, by a broken pipe only when a read broke, and else by an overflow or by the exit code: a return for 0, a failed read for any other. |
| ProcessLaws.AnyOutputReturned | scripts/_capacity_evidence.py:359-452 | Whatever a child writes within the limits before it exits with code 0, some run returns it, with the warning iff there were diagnostics. |
| UsageMetrics.PointBudget.Consume | scripts/_capacity_evidence.py:843-850 | Takes points from the shared budget, or refuses and says so, exactly when too few are left. |
| UsageMetrics.ReadPoints | scripts/_capacity_evidence.py:935-947 | Accepts a series iff its samples lie in the window, each hour at most once, with proper counts or none; conserves every count, and has one for every hour iff the series does. |
| UsageMetrics.AddSamples | scripts/_capacity_evidence.py:948-953 | Adding samples to the hourly buckets conserves their sums hour by hour, and fails iff an hour overflows. |
| UsageMetrics.AddSeries | scripts/_capacity_evidence.py:934-960 | One more series keeps the buckets equal to the sums of the series read so far, and leaves no code iff it is of the live model, complete and overflows no hour. |
| UsageMetrics.Pigeonhole | scripts/_capacity_evidence.py:944-949 | As many distinct hour stamps as the window has hours are all of its hours. |
| UsageMetrics.MeasuredIsSizable | scripts/_capacity_evidence.py:962-983 | A record marked measured passes every numeric test of its consumer: samples are series times hours, the peak is at most the total and the total at most the peak times the hours, all samples are zero iff the total is, and the first and last hour are covered. |
| UsageMetrics.MeasuredIsTrue | scripts/_capacity_evidence.py:962-983 | And its total and peak are those of the series themselves. |
| UsageMetrics.SummarizeSays | scripts/_capacity_evidence.py:962-983 | What a record says: measured exactly without codes, partial with some, unknown without samples; its counts, total and peak are those read. |
| UsageMetrics.SizableMeans | scripts/_capacity_recommendations.py:299-322 | The numeric demands of the consumer, written out. |
| UsageMetrics.CleanMeans | scripts/_capacity_evidence.py:934-960 | Checking series by series on the way is checking each of them and all of them together: hours only grow. |
| UsageMetrics.ParseMetric | scripts/_capacity_evidence.py:880-983 | One metric of one account: a record for every live deployment, marked measured iff all series have readable dimensions, there is one of the deployment, each of its own is new, of the live model and has one proper count for every hour, and no hour overflows; a measured record is trustworthy in both senses. |
| UsageMetrics.CeilingIsLeast | scripts/_capacity_recommendations.py:324-328 | Ceiling division gives the least capacity that carries a peak hour. |
| UsageMetrics.UsageTarget | scripts/_capacity_recommendations.py:299-328 | The smallest capacity from the floor up that carries the peak, from usable usage over enough hours; or a refusal exactly for unusable or too little usage or a peak beyond the ceiling. |
| PoolAccounting.CheckMembership | scripts/_capacity_evidence.py:1044-1052 | Accepts asserted pools iff no two share a region under one counter or one model, whatever unit or version labels they carry. |
| PoolAccounting.CountedOnce | scripts/_capacity_evidence.py:1038-1052 | So accepted assertions never count one catalog deployment in two pools. |
| PoolAccounting.SetAside | scripts/_capacity_evidence.py:1112-1122 | Setting one row of a pool aside frees at least its capacity. |
| PoolAccounting.QuotedMeans | scripts/_capacity_evidence.py:1102-1107 | A region reports the current value and limit of its only row under the pool's counter, in the asserted unit; with none or several, or another unit, it reports nothing. |
| PoolAccounting.PresentMeans | scripts/_capacity_evidence.py:1112-1122 | A deployment is there iff one row of its region has its name, and that with its model and settled; it holds that row's capacity. |
| PoolAccounting.OfferedMeans | scripts/_capacity_evidence.py:1135-1142 | A version is offered iff one row of its region has the pool's offer, and then with that row's capacity. |
| PoolAccounting.ObserveCounters | scripts/_capacity_evidence.py:1102-1107 | Collects exactly the values that the regions report, and says whether any reports none. |
| PoolAccounting.TheCounter | scripts/_capacity_evidence.py:1102-1111 | The counter is what some region reports and no other contradicts; it is without codes iff every region reports it, and each code says what is wrong. |
| PoolAccounting.CatalogAllocation | scripts/_capacity_evidence.py:1112-1122 | The capacity of the catalog deployments, which fits beside every other row of the pool; clean iff each is there exactly once, settled and as catalogued. |
| PoolAccounting.KnownAllocation | scripts/_capacity_evidence.py:1123-1131 | The capacity of all the pool's rows; clean iff all are settled and reviewed. |
| PoolAccounting.Platforms | scripts/_capacity_evidence.py:1132-1142 | The platform's offers; clean iff every version has its source and exactly one offer in each region. |
| PoolAccounting.RollUp | scripts/_capacity_evidence.py:1078-1159 | Consistent iff inventories, catalog and offers agree with one current value and limit, those of the only row under the counter in every region; then 0 <= catalog allocation <= known allocation <= current <= limit, and headroom + outside + catalog allocation = limit; otherwise every derived number is withheld. |
| ProductionBudget.KnownCapacity | scripts/_production_capacity.py:340-350 | The pool's known capacity, or a refusal iff some row of the pool is not owned, settled and reviewed or the sum leaves the number range. |
| ProductionBudget.PoolRow | scripts/_production_capacity.py:340-350 | Which rows count for a pool, and which of them are sound. |
| ProductionBudget.LiveMeans | scripts/_production_capacity.py:364-376 | The live capacity is that of the inventory's entry under region and folded name, if it is in every way as catalogued, settled and owned. |
| ProductionBudget.TargetMeans | scripts/_production_capacity.py:377-385 | A disabled deployment keeps its capacity; an enabled one goes to the capacity configured for it, and to none without. |
| ProductionBudget.ReadPlan | scripts/_production_capacity.py:353-384 | Live capacity and target of every catalog deployment; a disabled one keeps its capacity. |
| ProductionBudget.CheckIncreaseHeadroom | scripts/_production_capacity.py:304-311 | Accepts iff nothing grows or all increases together fit above the counter with the whole reserve. |
| ProductionBudget.DrawUp | scripts/_production_capacity.py:276-301 | Accepts iff active targets are in range, the replacement reserve covers the largest and the end state leaves the reserve free; the budget's numbers then add up to the limit. |
| ProductionBudget.CheckLivePool | scripts/_production_capacity.py:314-392 | Passes over a pool without enabled members, accepts any other iff its regions agree on one counter and some plan read from the inventory is admitted under it. |
| ProductionBudget.RollCounts | scripts/_production_capacity.py:276-311 | The counter reached after any sequence of moves is that of the set of deployments moved. |
| ProductionBudget.AnyOrder | scripts/_production_capacity.py:276-311 | In every order of moving deployments from live to target the counter stays within the limit, within limit minus reserve throughout whenever some target grows, and ends at proposed plus outside. |
| ProductionBudget.SecondCopy | scripts/_production_capacity.py:276-311 | A second copy of any enabled member fits at the end; it fits throughout every rollout iff some target grows or it fits before the first move. |
| ProductionBudget.ShrinkingFullPool | scripts/_production_capacity.py:304-311 | The condition is needed: a full pool may be cleared to shrink although no second copy fits at first. |
| ImmutableVersions.CanonicalIdempotent | scripts/provision-foundry-toolbox.py:781-793 | Canonicalising twice changes nothing. |
| ImmutableVersions.NullMembersIgnored | scripts/provision-foundry-toolbox.py:781-793 | Two contents are equal to the comparison iff they differ only by null members, at any depth. |
| ImmutableVersions.AddsOnlyNew | scripts/provision-foundry-toolbox.py:685-730 | A run cut off anywhere adds at most one version, and only when no version its search can see holds that content. |
| ImmutableVersions.DuplicateExactly | scripts/provision-foundry-toolbox.py:685-730 | When a run does add content that is already there: for a skill alone, iff the content is not served and every version holding it lacks an identifier. |
| ImmutableVersions.DuplicateSkill | scripts/provision-foundry-toolbox.py:714-730 | A skill for which that happens. |
| ImmutableVersions.FinishedServes | scripts/provision-foundry-toolbox.py:887-934 | A run that finishes leaves the desired content served, and running again changes nothing however far it gets. |
| ImmutableVersions.StuckExactly | scripts/provision-foundry-toolbox.py:685-730 | A run is refused exactly when the active version is not listed or, where the content is not served, the version to reuse has no identifier or a created one gets none. |
| ImmutableVersions.InterruptedCreationRecovers | scripts/provision-foundry-toolbox.py:910-933 | A run cut off between creation and activation leaves nothing that a later one gets stuck on, and no later run for that content adds a version. |
| ImmutableVersions.HistoryKeeps | scripts/provision-foundry-toolbox.py:654-934 | Over every single-writer history of runs with any contents, each cut off after any call, no two versions hold the same canonical content and none is changed or removed; for skills when all versions, old and answered, carry identifiers. |
| ImmutableVersions.Converges | scripts/provision-foundry-toolbox.py:654-934 | After any such history, under the same condition for skills, a run that finishes ends with its content served, and repeating it does nothing. |
| Reconciler.Project.CreateAndActivate | scripts/provision-foundry-toolbox.py:820-857 | Creates a version, then activates it by a second call, and refuses an answer without identifier. |
| Reconciler.Project.EnsureToolbox | scripts/provision-foundry-toolbox.py:887-934 | The toolbox reconcile, call by call, is an attempt of the specified protocol for every point at which it may be cut off; with five calls left it finishes with the content served unless stuck, and says truly whether it added a version. |
| Reconciler.Project.EnsureSkill | scripts/provision-foundry-toolbox.py:685-730 | Likewise for a skill, whose search skips versions without identifier and makes one call for each other up to the one it reuses. |
| SampleSelection.TruncationCommutes | scripts/_deletion_assessment.py:656-659 | Truncating before an insertion loses nothing of what is kept after it. |
| SampleSelection.StreamStep | scripts/_deletion_assessment.py:656-659 | Appending, sorting and truncating the best so far gives the best of all, as sorting everything once would. |
| SampleSelection.FirstAreBest | scripts/_deletion_assessment.py:656-659 | Nothing left out comes before anything kept. |
| DeletionRecords.SummarizeScan | scripts/_deletion_assessment.py:638-676 | validRows + invalidRows = rowsReceived even when the scan stopped mid-page; the samples are exactly the first eight valid distinct rows by priority and index; counts, fence and issues are those of the rows. |
| DeletionRecords.AcceptedOnce | scripts/_deletion_assessment.py:650-653 | No two accepted rows share an identity. |
| DeletionRecords.FenceRule | scripts/_deletion_assessment.py:590-604 | At most one fence is accepted on a surface, and none beside a legacy parent. |
| DeletionRecords.ParentStateMeans | scripts/_deletion_assessment.py:514-567 | What a parent's columns must be for each state: active and initializing by kind, verified and deleting by the tombstone's record of its cleanup, legacy without protocol columns. |
| DeletionRecords.CheckChildMeans | scripts/_deletion_assessment.py:570-611 | What a child's columns must be, for each kind of content. |
| DeletionRecords.FenceOfMeans | scripts/_deletion_assessment.py:674-674 | Open or closed is what the only fence says, missing what a complete scan without one says. |
| DeletionRecords.SamplesTellMost | scripts/_deletion_assessment.py:655-659 | Where rows are left out of the samples, fences come before unsettled uploads before the rest, and earlier rows before later ones. |
| DeletionScan.Budget.Before | scripts/_deletion_assessment.py:325-332 | A call is counted iff time, bytes and calls are left. |
| DeletionScan.Budget.Receive | scripts/_deletion_assessment.py:334-340 | What arrives is counted, and refused iff it exceeds a page or the whole or is late. |
| DeletionScan.ReadPage | scripts/_deletion_assessment.py:370-388 | A page is kept iff it was affordable, in time, within every limit, and ends the scan or leads to a new usable cursor. |
| DeletionScan.ScanPages | scripts/_deletion_assessment.py:364-391 | Completes iff the answers page to an end within all limits, each asked for with the cursor of the one before; then it hands over all their rows, otherwise an issue. |
| DeletionScan.GoodCursorMeans | scripts/_deletion_assessment.py:343-352 | A usable cursor is not empty, at most 4096 bytes long and without control characters. |
| DeletionVerdict.ConcludeMeans | scripts/_deletion_assessment.py:736-776 | The concluded row passes the completeness test iff parent, fences, children, uploads and attachment target all agree. |
| DeletionVerdict.AgreementSays | scripts/_deletion_assessment.py:738-752 | What is concluded of the fences and of the inventory. |
| DeletionVerdict.UploadsSay | scripts/_deletion_assessment.py:753-776 | What is concluded of uploads and children: unresolved, none observed, or children where there may be none. |
| DeletionVerdict.IssuesSay | scripts/_deletion_assessment.py:736-776 | The issues concluded are exactly one for each thing that is wrong. |
| DeletionVerdict.SurfaceMeans | scripts/_deletion_assessment.py:648-676 | A surface that passes was scanned to its end and all its rows are orderly: each passes, under identities of their own, with the fence its state calls for, no unsettled upload, and no child at all for a verified or initializing parent. |
| DeletionVerdict.SurfaceSuffices | scripts/_deletion_assessment.py:648-676 | And every surface scanned to its end with orderly rows passes. |
| DeletionAssessment.NoTicketsAmongMessages | scripts/_deletion_assessment.py:605-610 | No upload ticket is accepted among messages. |
| DeletionAssessment.ReadParent | scripts/_deletion_assessment.py:692-715 | Goes on exactly when the partition, read to its end within the budget, holds one sound parent; otherwise the row is not complete. |
| DeletionAssessment.ReadAgain | scripts/_deletion_assessment.py:726-737 | Says stable exactly when the partition, read to its end within the budget, holds the same parent, still sound. |
| DeletionAssessment.Rests | scripts/_deletion_assessment.py:736-776 | A conversation that was observed rests on agreeing records: partitions paged to their ends, a parent whose columns put it in its state, the same before and after, rows whose columns are acceptable beside it, the one fence its state calls for, and nothing but that fence while it is created or once it is cleaned up. |
| DeletionAssessment.OrderlyMeans | scripts/_deletion_assessment.py:638-676 | Orderly rows, said of their columns. |
| DeletionAssessment.AssessPair | scripts/_deletion_assessment.py:691-776 | The row passes the completeness test iff the answers page to the ends of all four scans within what is left of the budget, with one sound parent both times, orderly children and a settled attachment target; invalid rows make it malformed and end the reading. |
| DeletionReport.CollectRows | scripts/_deletion_assessment.py:899-905 | One row for every member of the cohort, none looked at unless the layout is compatible; then all rows are complete iff every conversation was observed, each with what the ones before it left of the budget. |
| DeletionReport.Collect | scripts/_deletion_assessment.py:835-916 | A collected report passes validation, and calls itself complete iff layout, backup and blob readings allow it and every conversation of the cohort was observed. |
| DeletionReport.ValidateMeans | scripts/_deletion_assessment.py:940-975 | A report passes exactly when seal, counts, completeness and times fit its rows. |
| DeletionReport.AllRest | scripts/_deletion_assessment.py:899-916 | Every conversation of a cohort that was observed rests on agreeing records. |
| DeletionReport.SealedReportsDiffer | scripts/_deletion_assessment.py:943-968 | What passes validation is determined by surroundings, rows and times alone; with an injective digest an accepted edit of these changes the seal. |
| DeletionReport.TallyMeans | scripts/_deletion_assessment.py:956-961 | The classification tally counts exactly the rows of each classification. |
| DeletionReport.CoverageMeans | scripts/_deletion_assessment.py:907-911 | The coverage counts all rows, those read to the end and those with issues. |
| DeletionReport.CompleteCounts | scripts/_deletion_assessment.py:918-966 | An accepted complete report counts every row as fully read, none with issues, none malformed or unavailable. |
| SdkReads.Wire.Request | scripts/_deletion_assessment_sdk.py:65-109 | A request goes out iff calls, bytes and time are left, and its answer is let in iff it is sound and fits a page and the remaining bytes. |
| SdkReads.Wire.Receive | scripts/_deletion_assessment_sdk.py:82-105 | The answer is taken in chunk by chunk and refused as soon as it cannot fit. |
| SdkReads.ReadOnlyTransport.Send | scripts/_deletion_assessment_sdk.py:150-233 | Whatever the library sends, only plain reads and the selected query reach the wire, and the transport's fields stay true to its log. |
| SdkReads.ReadOnlyTransport.LayoutDecides | scripts/_deletion_assessment_sdk.py:173-174 | A query for the selected place is refused for its layout iff the last container answer that was a layout is not a compatible one. |
| SdkReads.ReadOnlyTransport.ScreenReads | scripts/_deletion_assessment_sdk.py:150-166 | A read passes exactly when it is of the account or a container, to the bound endpoint in the pinned version, with nothing in its body. |
| SdkReads.ReadOnlyTransport.ScreenQueries | scripts/_deletion_assessment_sdk.py:167-207 | A query passes exactly when it is the selected one over a compatible layout and the first of its page. |
| SdkReads.ReadOnlyTransport.NoSecondQuery | scripts/_deletion_assessment_sdk.py:193-204 | After it the library is stopped: with the page in hand when it asks with that page's own cursor for what follows an empty page, otherwise as a replay. |
| SdkReads.ExactQueryMeans | scripts/_deletion_assessment_sdk.py:167-192 | The selected query names its owner's or its own partition and just its own identities. |
| SdkReads.LastReadingMeans | scripts/_deletion_assessment_sdk.py:222-224 | The layout that decides is the reading of the last answer that gives one. |
| SdkReads.PageInMeans | scripts/_deletion_assessment_sdk.py:225-232 | A page is the documents an answer carries, at most 25 and as many as it says, with its cursor unless that is empty. |
| AssessmentReader.SdkReader.ReadRecord | scripts/_deletion_assessment_sdk.py:256-262 | A control plane read goes over the library's wire, within its budgets, and binds the account iff its answer identifies it. |
| AssessmentReader.SdkReader.Metadata | scripts/_deletion_assessment_sdk.py:264-296 | Sends no query; binds the account by its record alone; reads no container before that, and then passes on only plain reads. |
| AssessmentReader.AllowedIsLawful | scripts/_deletion_assessment_sdk.py:150-233 | Over the whole life of a reader the log holds control plane reads and, only after one that identified the account, plain reads and exact queries of the cohort over a compatible layout. |
| AssessmentReader.SdkReader.Page | scripts/_deletion_assessment_sdk.py:298-326 | Whatever sequence of sends the library makes, at most one query reaches the wire, exactly the selected one and only after a compatible layout; a returned page is the answer to that query, and a library that sends it once gets its page. |
| AssessmentReader.StaleLayoutServes | scripts/_deletion_assessment_sdk.py:222-224 | A reader whose last container answer was unreadable serves a page all the same. |
| AssessmentReader.PageIsBounded | scripts/_deletion_assessment_sdk.py:82-105 | A page let in has its row count right, at most the page's rows and a usable cursor, and all bodies stay within the page, total and call budgets. |
| SdkReads.UnreadableLayoutsKeepOld | scripts/_deletion_assessment_sdk.py:222-224 | Any number of answers that are no layouts leave the last one that was standing. |
| MemoryMigration.Container.AssertSafe | scripts/migrate-memory-to-cosmos.py:193-209 | Refuses iff some partition holds the runtime's own document. |
| MemoryMigration.Container.CreateOrVerify | scripts/migrate-memory-to-cosmos.py:211-219 | Creates a missing item, accepts a matching one, refuses any other, and never replaces anything. |
| MemoryMigration.Container.Verify | scripts/migrate-memory-to-cosmos.py:221-239 | True iff the item is there as a memory of the same user with the provenance, text hash and dimensions of its source. |
| MemoryMigration.ParseRows | scripts/migrate-memory-to-cosmos.py:60-159 | scanned = valid + quarantined, in row order; an unencodable identity or text, an embedding integer beyond floats, or a timestamp that is present but unreadable ends the run instead. |
| MemoryRows.CarriedExactly | scripts/migrate-memory-to-cosmos.py:65-105 | A row is carried over iff user and text are not blank, its vector is finite and of the right length, its run a text or absent, its stamps readable and its identity and text encodable; its memory has its own identity, user and text. |
| MemoryRows.SetAsideExactly | scripts/migrate-memory-to-cosmos.py:65-94 | A row is quarantined under the hash of its identity with the first thing wrong with it. |
| MemoryRows.FatalExactly | scripts/migrate-memory-to-cosmos.py:65-105 | Which rows end the run. |
| MemoryRows.ItemsMirror | scripts/migrate-memory-to-cosmos.py:108-157 | The items are, in order, one for each row that is carried over: its user and text under the target of its own identity, with the hashes of that identity and text and the length of its vector. |
| MemoryRows.AsideQuarantines | scripts/migrate-memory-to-cosmos.py:149-155 | The quarantine names, in order, every other row by the hash of its identity and its first flaw. |
| MemoryMigration.RunOnlyAdds | scripts/migrate-memory-to-cosmos.py:166-170 | A run changes nothing that was there and adds only its items under their own keys, one for each item it counts as created. |
| MemoryMigration.RunSucceedsWhenCompatible | scripts/migrate-memory-to-cosmos.py:166-170 | A complete run gets through iff all that is already there matches, and so do items that share a free key. |
| MemoryMigration.SharedIdentityStops | scripts/migrate-memory-to-cosmos.py:43-44 | Rows of one user with one target identity and different texts, such as rows without identity, stop every complete run. |
| MemoryMigration.AttemptsOnlyAdd | scripts/migrate-memory-to-cosmos.py:163-170 | Any number of runs over the same rows in any order, each cut off after any write, overwrite nothing. |
| MemoryMigration.SafeSurvives | scripts/migrate-memory-to-cosmos.py:193-209 | Such runs leave the partitions as safe as they were. |
| MemoryMigration.CompleteRunMigrates | scripts/migrate-memory-to-cosmos.py:163-170 | A complete run after them that finishes leaves the initial store plus one document under the key of every item; a further complete run finishes too and creates none. |
| MemoryMigration.AttemptsAreHarmless | scripts/migrate-memory-to-cosmos.py:163-170 | Such runs never change whether a complete run finishes. |
| MemoryMigration.CountsFindDuplicates | scripts/migrate-memory-to-cosmos.py:176-181 | After a complete migration into partitions without legacy items the counts of all partitions agree iff no two items share a key. |
| MemoryMigration.LegacyCounts | scripts/migrate-memory-to-cosmos.py:241-253 | A document that is no memory, or was not migrated from the old store, counts in no partition, and any other in its own alone. |
| MemoryMigration.Apply | scripts/migrate-memory-to-cosmos.py:163-170 | Writes nothing to unsafe partitions; finishes iff safe, uninterrupted and without a mismatch; adds as many documents as it counts created. |
| MemoryMigration.VerifyAll | scripts/migrate-memory-to-cosmos.py:171-185 | Accepts iff every item matches, every partition counts as many legacy items as its source rows and the search finds the sampled items. |
| MemoryMigration.Migrate | scripts/migrate-memory-to-cosmos.py:135-186 | Its items mirror the rows carried over, and its quarantine the others. It finishes iff every row can be read, the writes get through and what is then in the store verifies; scanned = valid + quarantined and, when it writes, valid = created + unchanged; a run that does not write, or cannot read a row, leaves the store as it was. |
| JsonTransport.Utf8RoundTrip | scripts/_json_transport.py:65-72 | Decoding undoes encoding on every text of Unicode scalar values (section 3 of RFC 3629). |
| JsonTransport.DecodedIsScalar | scripts/_json_transport.py:75-88 | Decoding never gives a surrogate. |
| JsonTransport.Utf8Table | scripts/_json_transport.py:65-72 | The table of section 3 of RFC 3629: number of bytes, range of the first, and the bits they carry. |
| JsonTransport.Utf8Strict | scripts/_json_transport.py:75-88 | Whatever bytes are decoded are the encoding of what comes out. |
| JsonTransport.Base64RoundTrip | scripts/_json_transport.py:65-88 | Base 64 decoding undoes encoding (section 4 of RFC 4648). |
| JsonTransport.Alphabet | scripts/_json_transport.py:72-72 | The alphabet of table 1 of RFC 4648. |
| JsonTransport.SameNumber | scripts/_json_transport.py:72-72 | Four digits stand for the same number as the three bytes. |
| JsonTransport.DecodedShape | scripts/_json_transport.py:83-83 | The library decoder accepts only full groups of digits, padded at the end of the last. |
| JsonTransport.RoundTrip | scripts/_json_transport.py:65-88 | Encoding refuses exactly the texts with a surrogate, and decoding undoes it on all others. |
| JsonTransport.DecodesExactlyTheImage | scripts/_json_transport.py:75-88 | Decoding accepts exactly the image of encoding. |
| JsonTransport.OneSpelling | scripts/_json_transport.py:65-72 | No two texts share a transport. |
| JsonTransport.PaddingBitsRefused | scripts/_json_transport.py:80-87 | After any text, nonzero bits under one or two padding characters (section 3.5 of RFC 4648) are refused, although the library decoder accepts them after any full groups. |
| JsonTransport.FitsDeclaredLength | scripts/_json_transport.py:46-50 | Every value within the byte limit fits the declared length, and the longest meet it. |

## Left out

- Calls of the Azure CLI, ARM, Graph, Cosmos, Foundry and HTTP, credentials, argument parsing, file writes and printing: the services are parameters or abstract state.
- Regular expressions and JSON shape checks: records arrive typed, and a record whose shape is wrong carries the code of its flaw.
- Real clocks: a deadline is a step or a flag that may come at any point, and killing the child ends the run.
- The rendering of conditions as PEP 508 markers and of requirement lines (scripts/http_dependencies.py:78-98), a fixed formatting of the proved result.
- The tokenizer and parser of template expressions (scripts/_private_metadata.py:36-93): evaluation starts from parsed terms, and the functions without control flow or lookup are one parameter of the template.
- The environment rows and source descriptor around the secret rows (scripts/_private_metadata.py:275-358 and 411-487), which are comparisons field by field.
- PolicyScanner.ValidateExpression: the search for JObject index initializers is the parameter `forbidden`, because it is one regular expression; line and column of a refusal are its index.
- Selection of backends and residency classes (scripts/gen-gateway-policy.py:232-375), the splitting of XML into nodes (scripts/gen-gateway-policy.py:690-752) and the policy validators, which are long conjunctions of fixed-string checks.
- UsageMetrics.ParseMetric: which codes a partial or unknown record carries, and when the shared point budget or a total beyond the number range ends the whole collection, is left to the specification functions, because the consumer refuses every such record.
- The continuation links of account listings (scripts/_capacity_evidence.py:498-687) and the parsers of deployments, quotas and offers, which pass typed rows on.
- The assembly of recommendations over all pools (scripts/_capacity_recommendations.py:331-419): it combines the modelled sizing and budget pool by pool.
- ProductionBudget.CheckLivePool: models one pool; the loop over pools shares no state between them. Parsing of the policy (scripts/_production_capacity.py:137-251) is not modelled.
- Conversion of manifest keys and model classes (scripts/provision-foundry-toolbox.py:483-518 and 747-778), which rename fields before anything is compared.
- Several reconcilers at once: the protocol assumes one writer, and a service that returns what was stored up to the canonical form.
- DeletionAssessment.AssessPair: takes and returns rows as values; that the script updates report dictionaries in place is not captured.
- DeletionReport.Collect: the layout and retention readings are inputs, as whether each is compatible or known, and the JSON Schema check, the source fingerprint and the query hash of the validation are not modelled.
- The process boundary around the client library (scripts/_deletion_assessment_sdk.py:333-447) and the reader of fixtures (scripts/_deletion_assessment.py:984-1029).
- MemoryMigration.ParseRows: an error of the JSON reader other than malformed text, such as nesting beyond the interpreter's limit, is not modelled.
- MemoryMigration.Migrate: whether a vector search finds a sampled item is the parameter `recall`, because the order of approximate distances is the service's; a missing target is refused before and not modelled.
- Rendering of reports and the remaining scripts of the directory, which are check lists or single decisions.
