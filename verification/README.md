# Roubo: decisions over specs, gates, results and contracts

Roubo keeps each spec's test cases in `test-cases.json`, records what reviewers observed in a results
sidecar beside it, groups cases into verify gates, and files work units against a tracker. This project
models the pure decisions underneath and the steps by which the stores change, and proves what they promise.

**Gates.** A superseded case points at its replacement, possibly in another spec. `LifecycleResolver` walks
the pointers with a visited set and a ten-hop limit. `SupersessionTrail` measures that walk against the plain
relation "k hops from the origin", which has neither. `SuppliedPlans` says what the set of loaded plans does
to an answer. `GateEvaluator` narrows a gate's declared cases and reads a status off them, `GatePipeline`
joins both into one statement of when a gate passes, and `GateOverrides` applies recorded merges and splits.
`Regrouping` proves what each of them keeps and exactly when it loses something, and what no list of fresh ones
can hide; `Overwriting` carries the exact conditions to splits and whole lists, with inputs that meet them and
a check on ids and labels alone that rules them out.

**Results.** `JsonText` is the compact JSON printer and its injectivity; `Canonical` is the canonical text of
a plan and exactly what it forgets. `TestbenchDomain` derives statuses and reconciles results with a plan.
`TestbenchStore` is the sidecar as a class whose writes are split at the point where they wait for the git
identity; `StoreRuns` is about whole interleaved runs, and `StoreGates` about what a passed gate over the
store says of the bodies its results were recorded against. `LifecycleWrite` is the one write into the case
file, guarded by a fingerprint, and what whole histories of clients and outside edits leave in it.

**Work units.** `WorkUnits` is filing order (Kahn's algorithm, lowest input index first) and the blocker
references projected from it.

**Published contracts.** `ContractCompatibility` is the recursive schema diff and the version rule.
`SchemaSoundness` gives schemas a meaning (JSON Schema 2020-12, Validation sections 6.1.1, 6.1.2, 6.1.3 and
6.5.3; Core sections 10.3.1.2, 10.3.2.1 and 10.3.2.3) and proves what a verdict says about instances.

**Plain facts.** `ResolutionFacts`, `GateFacts`, `RegroupingFacts`, `StoreFacts`, `CanonicalFacts` and
`ContractVerdicts` say the same answers once more without the model's own functions: in terms of the supplied
plans and archive records, the cases' fields, the recorded results, the characters of a text and the keywords
of a schema.

`Wrappers`, `PlainObjects`, `Contracts` and `Strings` hold shared types, string order, sorting and
de-duplication. Loops of the source are methods with loops, each proved equal to a function; the lemmas are
about those functions.

## Findings

- An operation whose minted id is already taken replaces what was there, so a failing gate can vanish and
  the rest pass. Two parts with one label do this (`RepeatedLabelHidesAFailure`), and so does a part landing
  on a gate already so named (`TakenIdHidesAFailure`; a colon in a label is enough, `ColonsCollide`).
  `StepLosesExactly` and `RegroupingHidesNothingExactly` are the exact conditions.
- A note or override stamps the present case body without recomputing the status, and a mark on a case that
  has left the plan resets the status under its old stamp; a later reconcile takes either status for current
  (`StatusOutlivesItsBody`, `MarkWhileAwayResetsTheStatus`). `WriteStampsExactly` is the exact condition.
- Every write restamps the whole sidecar with the present plan's hash but only its own case, so marking one
  case after an edit of another lets the other's old pass count (`MarkingOneCaseRefreshesAnother`).
  `EveryPassIsPresentExactly` says when every gate that passes does so on present bodies, and
  `FinishLeavesPassesPresentExactly` when a finishing write leaves it so.
- Reconcile and purge always drop a result's `verification` block (`AuthoredDataKept`), although
  `shared/testbench-contracts.ts:289-291` says it is re-serialized verbatim. The `orphaned` flag is never
  cleared when a case returns to the plan (`PurgeDropsFlagged`).
- `server/lib/gate-evaluator.ts:86-88` says the unresolved list is empty exactly when a gate is passed; it is
  also empty on the rung with no gating cases (`GateAccountsForEveryId`).
- An id nobody recorded, named like a member every object inherits, reads as passed: `InheritedNamePasses`;
  `PassIsGenuineExactly` says a pass is genuine exactly when no such read happens. An unmarked observation of
  such a name counts as marked; `InheritedNamesHarmlessExactly` says when that leaves the status alone.
- A unit that depends on itself is ordered as if it did not, yet once filed lists its own reference as a
  blocker (`SelfDependencyIsProjected`).
- The schema diff never sees a required name outside `properties`, a new property named like an inherited
  member, or a version constant under a root property with an empty name, and calls a new optional property
  additive even where the baseline was open. At one object a non-breaking verdict keeps validity exactly as
  far as the live required names are present (`LeafKeptExactly`), and a newly required one is missed only if
  unlisted or inherited (`MissedOnlyIfUnlistedOrInherited`).

## Model

| member | source | states |
|---|---|---|
| LifecycleResolver.PointerRoundTrip | shared/lifecycle-resolver.ts:200-209 | A slug-qualified pointer reads back as the reference it was written from, and a colon-free one stays in the spec that carries it |
| LifecycleResolver.VisitedKeyInjective | shared/lifecycle-resolver.ts:239-243 | On colon-free slugs, comparing visited keys is comparing references |
| LifecycleResolver.ResolveCase | shared/lifecycle-resolver.ts:259-421 | The loop over visited set, hop counter and chain returns what the recursive walk defines; its fallback branch is unreachable |
| LifecycleResolver.CollectReferencedSlugs | shared/lifecycle-resolver.ts:222-235 | Exactly the other specs the plan's pointers reach, each once, in order of first mention |
| SupersessionTrail.ChainIsTrail | shared/lifecycle-resolver.ts:330-420 | Every reported chain is the unbounded trail itself, ends for the reported reason, and has at most twelve nodes |
| SupersessionTrail.ResolvedExactly | shared/lifecycle-resolver.ts:322-420 | Resolved to a target if and only if one to ten hops reach it live, supplied and unarchived |
| SupersessionTrail.GiveUpExactly | shared/lifecycle-resolver.ts:341-366 | Cycle if and only if a node comes back within eleven hops; depth exceeded if and only if an eleventh hop exists and nothing came back |
| SupersessionTrail.RepeatNeverLive | shared/lifecycle-resolver.ts:322-354 | A trail that returns to a node reaches no live case at any number of hops |
| SupersessionTrail.CycleNeverLive | shared/lifecycle-resolver.ts:344-354 | A reported cycle never hides a live replacement further along |
| SupersessionTrail.LandingDecides | shared/lifecycle-resolver.ts:372-416 | A landing within ten hops that carries no pointer onward decides the whole answer, chain and payload |
| ResolutionFacts.AnswerFacts | shared/lifecycle-resolver.ts:368-416 | The chain is the origin's pointer and then hop after hop between cases of supplied, unarchived plans; short of giving up, exactly one of five plain facts at its end gives the answer: not supplied, archived, no such case, first case retired, first case live |
| ResolutionFacts.AnswerPayload | shared/lifecycle-resolver.ts:344-416 | The case state, spec state and forwarding note each answer reports |
| ResolutionFacts.OwnAnswer | shared/lifecycle-resolver.ts:277-303 | A live or retired origin answers for itself |
| ResolutionFacts.ResolvedPlainly | shared/lifecycle-resolver.ts:332-420 | Resolved to a target if and only if a chain of two to eleven nodes leads there and its first case in a supplied, unarchived plan has no lifecycle |
| ResolutionFacts.ParsedIsPointed | shared/lifecycle-resolver.ts:200-209 | A pointer without a colon names a case of its own spec; otherwise what precedes the first colon is the spec |
| ResolutionFacts.ReferencedPlainly | shared/lifecycle-resolver.ts:225-233 | A case references exactly the other spec its pointer names |
| ResolutionFacts.FindIsFirst | shared/lifecycle-resolver.ts:245-248 | The case found is the first carrying the id |
| SuppliedPlans.ClosedMapSuffices | shared/lifecycle-resolver.ts:213-235 | If every plan's referenced slugs are supplied, no resolution ends for want of a plan |
| SuppliedPlans.MorePlansOnlyExtend | shared/lifecycle-resolver.ts:437-446 | Supplying more plans changes no answer but those cut short, and extends their chains |
| SuppliedPlans.IntermediateNodesAgree | shared/lifecycle-resolver.ts:330-420 | Every intermediate node of a resolved chain resolves to the same target along the rest of the chain |
| GateEvaluator.EvaluateGate | server/lib/gate-evaluator.ts:189-390 | The loops and the ladder compute the gate state defined from the declared ids and their dispositions and outcomes |
| GateEvaluator.Narrow | server/lib/gate-evaluator.ts:216-245 | One walk yields the gating ids, the retired ids and whether the policy dropped any, lifecycle asked first |
| GateEvaluator.Classify | server/lib/gate-evaluator.ts:293-354 | The unresolved ids are the gating ids not cleared; the flags say whether any fails or waits |
| GateEvaluator.FindResult | server/lib/gate-evaluator.ts:306-335 | A status is read at the id, at the chain's live end, or nowhere |
| GateEvaluator.StatusDependsOnSet | server/lib/gate-evaluator.ts:216-389 | Order and repetition of the declared ids never change the status |
| GateEvaluator.UnionTakesTheWorse | server/lib/gate-evaluator.ts:247-389 | The union of two declared sets has the worse of their statuses |
| GateEvaluator.GateAccountsForEveryId | server/lib/gate-evaluator.ts:208-276 | Every declared id is gating, retired or excluded by policy; unresolved ids are gating ones, none exactly when passed or nothing gates, and covered units are listed exactly with them; what an empty set's reason means |
| GateEvaluator.NothingUnresolvedExactly | server/lib/gate-evaluator.ts:247-388 | Nothing is unresolved if and only if no declared id gates, or the results are fresh and clear every id that does |
| GateEvaluator.BetterResultsNeverWorsen | server/lib/gate-evaluator.ts:299-389 | Results at least as good wherever they are read, own or of other specs, never worsen any gate |
| GateEvaluator.ImprovingAResultNeverWorsens | server/lib/gate-evaluator.ts:333-354 | Recording a better result for one case of the spec never worsens any gate |
| GateEvaluator.ImprovingAForeignResultNeverWorsens | server/lib/gate-evaluator.ts:324-332 | Nor does a better result for a case of another spec, or threading in its results at all |
| GatePipeline.ResolutionOfCase | server/lib/gate-evaluator.ts:198-206 | The resolution a gate finds for an id is the resolution of that case of its own plan |
| GatePipeline.DisposedByPlan | server/lib/gate-evaluator.ts:224-245 | With resolutions from the resolver, an id leaves the set exactly when its case is retired, else when outside the policy |
| GatePipeline.ReadWhereItStands | server/lib/gate-evaluator.ts:300-335 | A status is read at the live case the id's pointers lead to, and nowhere if they lead to none |
| GatePipeline.ClearedIsVerified | server/lib/gate-evaluator.ts:300-354 | A gating case is cleared if and only if a non-orphaned effective pass is recorded where it stands, or its name is an inherited one with nothing recorded |
| GatePipeline.PassedExactly | server/lib/gate-evaluator.ts:189-390 | End to end: passed if and only if some id obliges, results exist under the live hash, and every obliging id is verified or slips |
| GatePipeline.PassIsGenuineExactly | server/lib/gate-evaluator.ts:299-354 | A passed gate has every obliging case verified if and only if none of them reads an inherited member |
| GatePipeline.OrdinaryNamesNeverSlip | server/lib/gate-evaluator.ts:306-339 | Where no declared or supplied id is such a name, none does |
| GatePipeline.InheritedNamePasses | server/lib/gate-evaluator.ts:333-354 | A gate declaring only `toString` passes with nothing recorded |
| GateFacts.StatusPlainly | server/lib/gate-evaluator.ts:189-390 | All five statuses in terms of case fields and records: which declared cases oblige (not retired; level 1, level 2 or e2e_flow), where each is read, and what is recorded there with any override in force |
| GateFacts.ListsPlainly | server/lib/gate-evaluator.ts:216-388 | The gating, excluded and unresolved lists, and an emptied gate's reason, in the same terms |
| GateFacts.LowCaseNeverMatters | server/lib/gate-evaluator.ts:151-156 | A case at another level and of another category never changes a status, declared or not |
| GateFacts.PassedOnLiveSpecs | server/lib/gate-evaluator.ts:300-335 | What a superseded case of a passed gate answers for is a live case of a supplied, unarchived spec |
| GateFacts.BareGate | server/lib/gate-evaluator.ts:174-188 | Without plan and lifecycle the declared ids gate verbatim |
| GateFacts.FirstResolutionIsFirst | server/lib/gate-evaluator.ts:198-206 | The first resolution of a repeated origin id is used |
| GateFacts.LastCaseIsLast | server/lib/gate-evaluator.ts:217-217 | The last case of a repeated id is used |
| GateOverrides.ValidateCoversPartition | server/lib/gate-overrides.ts:262-284 | Null if and only if the parts are a true duplicate-free partition; otherwise the reason names a real defect |
| GateOverrides.ValidateGatingSetPartition | server/lib/gate-overrides.ts:295-318 | The same for the parts' gating sets |
| GateOverrides.ApplyMerge | server/lib/gate-overrides.ts:160-192 | Applies exactly when all sources are present in one spec, consuming them; dropped with a justified reason otherwise |
| GateOverrides.ApplySplit | server/lib/gate-overrides.ts:194-249 | Applies exactly when covers and gating sets both partition; dropped with a justified reason otherwise |
| GateOverrides.SortGates | server/lib/gate-overrides.ts:251-252 | The gates of the working map, each once, by slug and then id |
| GateOverrides.ApplyGateOverrides | server/lib/gate-overrides.ts:144-254 | The effective gates are those of the run of all operations, the dropped ones exactly those not applicable in turn, each with a justified reason |
| Strings.Dedupe | server/lib/gate-overrides.ts:53-63 | The distinct values, as the fold over first occurrences defines them |
| Strings.DedupedInOrder | server/lib/gate-overrides.ts:53-63 | They stand in order of first occurrence |
| Regrouping.MergedCarries | server/lib/gate-overrides.ts:82-100 | A merged gate carries exactly the cases, covers and filed leaves of its sources |
| Regrouping.PartsCarry | server/lib/gate-overrides.ts:209-247 | The parts of an accepted split together carry exactly what the source carried |
| Regrouping.HeldAfter | server/lib/gate-overrides.ts:159-249 | After an applied operation a spec holds exactly what survivors carry: gates neither consumed nor landed on, and the last gate put in under each id |
| Regrouping.StepLosesExactly | server/lib/gate-overrides.ts:189-190 | An applied merge or split loses a content of a spec if and only if a gate or part it overwrites carries it and no survivor does; it introduces none |
| Regrouping.StepKeeps | server/lib/gate-overrides.ts:159-249 | One operation adds nothing to a spec, and loses nothing when what it mints is fresh |
| Regrouping.WorstIsTheUnions | server/lib/gate-evaluator.ts:247-389 | The worst status among a spec's gates is the status of all their cases together |
| Regrouping.RegroupingConserves | server/lib/gate-overrides.ts:144-254 | Over any operation list whose minted ids are fresh, each spec's gated cases, covers and filed leaves match the loaded gates; over any list at all, none is introduced |
| Regrouping.RegroupingKeepsTheWorst | server/lib/gate-overrides.ts:144-254 | Over any operation list whose minted ids are fresh, the worst status per spec over the effective gates equals that over the loaded ones |
| Regrouping.NoRegroupingHidesAGate | server/lib/gate-overrides.ts:144-254 | After any operation list whose minted ids are fresh, behind every loaded gate that is not passed stands an effective gate of its spec at least as bad |
| Regrouping.RunGrounded | server/lib/gate-overrides.ts:183-190 | However operations nest, no leaf is synthetic and every gate's cases lie within its leaves' |
| RegroupingFacts.MergedUnitPlainly | server/lib/gate-overrides.ts:82-100 | A merged unit gathers covers, requirements, stories and cases of its sources, each once |
| RegroupingFacts.SplitUnitPlainly | server/lib/gate-overrides.ts:109-132 | A part covers what it is assigned, gates exactly the cases mapped to that, and claims no requirement or story |
| RegroupingFacts.MergeIdOfTwo | server/lib/gate-overrides.ts:65-70 | The merge id of two gates lists the smaller first |
| RegroupingFacts.LePlainly | server/lib/gate-overrides.ts:69-69 | Strings are ordered by the first character at which they differ |
| RegroupingFacts.IndexKeepsLast | server/lib/gate-overrides.ts:152-155 | The last of several loaded gates with one id is kept |
| RegroupingFacts.ListedBySlugThenId | server/lib/gate-overrides.ts:251-252 | The list runs by slug, and within one slug by id |
| Overwriting.SplitKeepsExactly | server/lib/gate-overrides.ts:245-248 | An accepted split keeps all its parts carried if and only if an untouched gate of the spec carries each piece of a replaced part |
| Overwriting.SplitKeepsCasesExactly | server/lib/gate-overrides.ts:209-248 | An accepted split keeps every gated case of its source in the spec if and only if an untouched gate gates each case of a part whose label repeats later |
| Overwriting.SplitKeepsCoversExactly | server/lib/gate-overrides.ts:200-248 | The same for covered units |
| Overwriting.LabelsKeepCoversExactly | server/lib/gate-overrides.ts:200-248 | Where no untouched gate covers any of them, that is if and only if the labels all differ |
| Overwriting.RepeatedLabelHidesAFailure | server/lib/gate-overrides.ts:245-248 | A concrete accepted split with one label twice leaves only passed gates where a failed one stood |
| Overwriting.TakenIdHidesAFailure | server/lib/gate-overrides.ts:72-76 | A concrete accepted split with different labels lands on another gate, loses its case and leaves only passed gates |
| Overwriting.ColonsCollide | server/lib/gate-overrides.ts:72-76 | With a colon in a label, splits of two different gates mint one id |
| Overwriting.RunKeepsExactly | server/lib/gate-overrides.ts:159-249 | Over any list of operations a content is kept if and only if each operation that overwrites a bearer leaves a survivor for it |
| Overwriting.RegroupingHidesNothingExactly | server/lib/gate-overrides.ts:144-254 | The worst status per spec is unchanged under all recorded results if and only if no operation overwrites a gated case without a surviving gate for it |
| Overwriting.MintsApartIsFresh | server/lib/gate-overrides.ts:65-76 | If no id is minted twice over the list and none is a loaded id, every operation mints fresh ids |
| Overwriting.MergeIdForgetsOrder | server/lib/gate-overrides.ts:65-70 | The order of a merge's sources does not show in its id |
| Overwriting.MintedApart | server/lib/gate-overrides.ts:72-76 | Parts of one gate share an id exactly when they share a label |
| WorkUnits.ReverseEdges | scripts/product-dev/work_units.py:530-534 | Each blocker lists its dependents as often as they name it |
| WorkUnits.Release | scripts/product-dev/work_units.py:543-547 | Placing a unit lowers every in-degree to what still waits and reports exactly those that reach zero |
| WorkUnits.TopoOrder | scripts/product-dev/work_units.py:503-559 | Returns the least topological order by input index, and raises if and only if the dependencies have a cycle |
| WorkUnits.StuckIsCyclic | scripts/product-dev/work_units.py:552-558 | Leftover units always contain a cycle |
| WorkUnits.OrderedIsAcyclic | scripts/product-dev/work_units.py:552-559 | Where some order exists no dependency walk closes |
| WorkUnits.GreedyIsLeast | scripts/product-dev/work_units.py:536-550 | Always taking the least free unit gives the least order position by position |
| WorkUnits.LeastIsUnique | scripts/product-dev/work_units.py:508-509 | The output is determined by the input |
| WorkUnits.ValidOrderUnchanged | scripts/product-dev/work_units.py:536-550 | A list already in a valid order comes back as it is |
| WorkUnits.ReorderedIsInOrder | scripts/product-dev/work_units.py:515-526 | The re-emitted list is itself in order, even where ids repeat and another unit becomes the first of its id |
| WorkUnits.ReorderingIsIdempotent | scripts/product-dev/work_units.py:503-559 | Ordering twice is ordering once |
| WorkUnits.CollectRefs | scripts/product-dev/work_units.py:597-609 | The distinct references of known, filed blockers, in order of first mention |
| WorkUnits.ProjectBlockedBy | scripts/product-dev/work_units.py:562-617 | Raises exactly on a cycle; else every unit in the least order, re-emitted with its own fields and ref kept and its blocked-by list as its dependencies are filed |
| WorkUnits.ProjectedReprojects | scripts/product-dev/work_units.py:593-616 | A unit is re-emitted with its id, dependencies, own ref and everything else as it was; its blocked-by list holds exactly the non-empty refs of the first units its dependencies name, each once, by first mention |
| WorkUnits.DepsPlainly | scripts/product-dev/work_units.py:515-526 | A unit waits on exactly the first units of the ids it names, itself aside |
| WorkUnits.RefsAreFiledBefore | scripts/product-dev/work_units.py:599-609 | Every projected reference belongs to a unit emitted earlier, or to the unit itself when it names its own id |
| WorkUnits.SelfDependencyIsProjected | scripts/product-dev/work_units.py:526-609 | A self-dependency is no edge; its ref is projected if and only if the unit names its own id or another dependency carries the same ref |
| JsonText.EscapeCharUnique | shared/testbench-canonicalize.ts:113-115 | An escape determines its character (RFC 8259 section 7) |
| JsonText.StringTailUnique | shared/testbench-canonicalize.ts:113-115 | A quoted string's text determines the string and where it ends (RFC 8259 section 7) |
| JsonText.PrintUnique | shared/testbench-canonicalize.ts:130-135 | A printed value followed by anything that cannot extend it determines the value and the rest (RFC 8259 sections 4 to 7) |
| JsonText.PrintInjective | shared/testbench-canonicalize.ts:130-135 | Equal texts come from equal documents (RFC 8259 sections 4, 5 and 7) |
| Canonical.SqueezeIsWords | shared/testbench-canonicalize.ts:33-35 | The normalised string is its words joined by single spaces |
| Canonical.SqueezedAlike | shared/testbench-canonicalize.ts:29-35 | Two strings normalise alike if and only if their words agree, and normalising is idempotent |
| Canonical.SortedProjections | shared/testbench-canonicalize.ts:98-100 | With distinct ids, sorted and projected lists are equal if and only if their members match up in any order |
| Canonical.CaseTextExact | shared/testbench-canonicalize.ts:83-115 | Case texts are equal if and only if the projections are |
| Canonical.StepsAlike | shared/testbench-canonicalize.ts:45-60 | Projected steps are equal if and only if they say the same words over the same set of observations |
| Canonical.CasesAlike | shared/testbench-canonicalize.ts:83-103 | Projected cases are equal if and only if their bodies are, order, spacing and an empty precondition list forgotten |
| Canonical.PlanTextIsItsBodies | shared/testbench-canonicalize.ts:117-135 | With distinct ids, two plans have one canonical text if and only if they hold the same case bodies |
| Canonical.TextFixesObservations | shared/testbench-canonicalize.ts:105-115 | Cases with one text define the same observations, whatever ids repeat |
| CanonicalFacts.SpacesListed | shared/testbench-canonicalize.ts:33-35 | Which characters are white space |
| CanonicalFacts.StringReadsBack | shared/testbench-canonicalize.ts:113-115 | A quoted string reads back as itself under the escapes of RFC 8259 section 7 |
| CanonicalFacts.DigitsReadBack | shared/testbench-canonicalize.ts:87-87 | A level is written in decimal without a leading zero |
| CanonicalFacts.ProjectedInIdOrder | shared/testbench-canonicalize.ts:131-131 | The projected cases run by id in code-point order |
| CanonicalFacts.StepsInIdOrder | shared/testbench-canonicalize.ts:98-100 | So do a case's steps |
| CanonicalFacts.ObservationsInIdOrder | shared/testbench-canonicalize.ts:52-54 | So do a step's observations |
| CanonicalFacts.ObjectText | shared/testbench-canonicalize.ts:113-135 | An object prints its members between braces, a comma between two |
| CanonicalFacts.ArrayText | shared/testbench-canonicalize.ts:113-135 | An array prints its items between brackets, a comma between two |
| CanonicalFacts.LiteralTexts | shared/testbench-canonicalize.ts:113-135 | Literals, numbers and strings print as RFC 8259 sections 3, 6 and 7 write them |
| CanonicalFacts.EmptyPlanText | shared/testbench-canonicalize.ts:128-134 | The empty case set has the text {"cases":[]} |
| CanonicalFacts.PlanLayout | shared/testbench-canonicalize.ts:130-135 | The plan's one key lists the projected cases |
| CanonicalFacts.CaseLayout | shared/testbench-canonicalize.ts:83-103 | A case's keys and values in fixed order, the optional ones only when they say something |
| CanonicalFacts.StepLayout | shared/testbench-canonicalize.ts:45-60 | A step's and an observation's keys and values in fixed order |
| Strings.SortForgetsOrder | shared/testbench-canonicalize.ts:131-131 | Sorting distinct ids forgets the input order |
| TestbenchDomain.DeriveStatusByCounting | shared/testbench-domain.ts:37-74 | Failed on any fail; else not started, in progress or passed as indexing the marks finds something for none, some or all observations |
| TestbenchDomain.DerivedPlainly | shared/testbench-domain.ts:37-74 | Each of the four derived statuses exactly on its own facts about the marks |
| TestbenchDomain.InheritedNamesHarmlessExactly | shared/testbench-domain.ts:50-73 | The status is the one the own marks give if and only if a fail decides it, no unmarked observation has an inherited name, or some are marked and some found nowhere |
| TestbenchDomain.InheritedNameCountsAsMarked | shared/testbench-domain.ts:50-73 | The smallest case: a lone unmarked observation of such a name derives as passed |
| TestbenchDomain.StatusDependsOnSet | shared/testbench-domain.ts:37-74 | Order and repetition of observation ids never change the status |
| TestbenchDomain.TextFixesStatus | shared/testbench-domain.ts:145-176 | Cases with one canonical text derive one status from the same marks |
| TestbenchDomain.SortIntoBuckets | shared/testbench-domain.ts:125-161 | The two classifying loops fill the four buckets by canonical text and presence |
| TestbenchDomain.RefreshChanged | shared/testbench-domain.ts:170-176 | Exactly the changed copies get the new text and the status recomputed from kept marks |
| TestbenchDomain.FlagRemoved | shared/testbench-domain.ts:178-181 | Exactly the removed copies are flagged |
| TestbenchDomain.Reconcile | shared/testbench-domain.ts:124-190 | The whole reconcile: classification and next results |
| TestbenchDomain.ReconciledPlainly | shared/testbench-domain.ts:139-181 | An unchanged body leaves the record alone, a changed one gets its text and the status its marks give, a case gone is flagged; nothing else moves |
| TestbenchDomain.AddedAndPurgedPlainly | shared/testbench-domain.ts:139-232 | Added are the plan's unrecorded cases; purging keeps exactly the unflagged records |
| TestbenchDomain.PurgeOrphans | shared/testbench-domain.ts:223-232 | Keeps exactly the unflagged entries |
| TestbenchDomain.BucketsPartition | shared/testbench-domain.ts:85-161 | The buckets are disjoint and together exactly the plan's and the recorded ids |
| TestbenchDomain.AuthoredDataKept | shared/testbench-domain.ts:163-217 | Every mark, note and override survives a reconcile; a verification block never does |
| TestbenchDomain.ReconcileIsAFixpoint | shared/testbench-domain.ts:124-190 | A second run finds nothing changed and returns the same results |
| TestbenchDomain.PurgeDropsFlagged | shared/testbench-domain.ts:178-232 | Purging after a reconcile drops exactly the removed and the already flagged cases |
| TestbenchDomain.StampedWith | shared/testbench-domain.ts:145-176 | A stamp is true exactly when the stored status is the one the stamped case gives |
| TestbenchDomain.ReconcileKeepsStamps | shared/testbench-domain.ts:145-176 | Not recomputing unchanged cases is sound: true stamps stay true and every plan case ends with its present status |
| TestbenchStore.Store.BeginWrite | server/lib/testbench-store.ts:453-486 | A write snapshots the plan before its await, unless the case id or an empty note is refused |
| TestbenchStore.Store.FinishWrite | server/lib/testbench-store.ts:486-516 | After its await a write loads, mutates, restamps and persists, leaving every other result alone |
| TestbenchStore.Store.Mutate | server/lib/testbench-store.ts:531-603 | What a mark, a note and an override each do to the loaded result |
| TestbenchStore.Store.ReconcileFile | server/lib/testbench-store.ts:661-700 | A preview returns the classification and writes nothing; a confirm persists the reconciled, perhaps purged, results under the live hash |
| TestbenchStore.Store.ReadFile | server/lib/testbench-store.ts:410-441 | The recorded results, and stale exactly when their hash is not the live plan's |
| StoreRuns.WriteStampsExactly | server/lib/testbench-store.ts:486-512 | Every write: a mark on a plan case leaves a true stamp; on an absent case if and only if the stamped body has no marked observation left; a note on a plan case if and only if the stored status is the present body's; on an absent case if and only if the stamp was true |
| StoreRuns.NoteStampsExactly | server/lib/testbench-store.ts:497-512 | The clause for notes and overrides |
| StoreRuns.UnchangedBodyIsSafe | server/lib/testbench-store.ts:566-603 | With true stamps, a note or override on the very body last stamped is safe |
| StoreRuns.FirstNoteIsSafeExactly | server/lib/testbench-store.ts:495-507 | On no result at all it is safe if and only if no observation of the case is named like an inherited member |
| StoreRuns.FinishKeepsStampsExactly | server/lib/testbench-store.ts:489-516 | From true stamps, a finishing write leaves every stamp true if and only if it is safe |
| StoreRuns.StepKeepsStamps | server/lib/testbench-store.ts:489-516 | One safe edit, write step, reconcile or purge keeps every stamp true |
| StoreRuns.SafeRunsKeepStamps | server/lib/testbench-store.ts:489-516 | So does every safe run, however its writes interleave |
| StoreRuns.SafeRunsExactly | server/lib/testbench-store.ts:489-516 | Where ids are unique at each reconcile, the runs whose stamps are true throughout are exactly the safe ones |
| StoreRuns.ReconcileSettlesStatuses | server/lib/testbench-store.ts:683-699 | After a safe run, a confirmed reconcile leaves every recorded plan case with its present status |
| StoreRuns.NoteFreezesStatus | server/lib/testbench-store.ts:566-578 | Once a note has landed, a reconcile keeps the old status and a read calls it current |
| StoreRuns.StatusOutlivesItsBody | server/lib/testbench-store.ts:499-512 | A concrete run ends with a case recorded passed, read as current, whose observations are only partly marked |
| StoreRuns.MarkWhileAwayResetsTheStatus | server/lib/testbench-store.ts:503-508 | A concrete run marks a case while it is out of the plan and ends not started, read as current, under an unchanged fully passed body |
| StoreRuns.OverlapIsSerial | server/lib/testbench-store.ts:453-516 | While the plan is fixed, any interleaving leaves the sidecar of the run in finish order |
| StoreRuns.MarkStays | server/lib/testbench-store.ts:489-516 | One action that neither finishes a mark of this observation nor purges leaves a recorded mark as it is |
| StoreRuns.MarkSurvivesRuns | server/lib/testbench-store.ts:489-516 | So does any run of such actions |
| StoreRuns.FinishedMarkIsHeld | server/lib/testbench-store.ts:538-544 | A finished mark is in the sidecar as given |
| StoreFacts.FinishTouchesOneCase | server/lib/testbench-store.ts:489-514 | A finished write touches one case's record and stamps time and plan hash |
| StoreFacts.FinishKeepsTheRest | server/lib/testbench-store.ts:495-510 | No write changes a verification block or the orphaned flag; the stamp is the body it saw |
| StoreFacts.AcceptedPlainly | server/lib/testbench-store.ts:465-567 | Accepted if and only if the case id is no prototype key and a note has a visible character |
| StoreFacts.FinishedNoteIsAppended | server/lib/testbench-store.ts:561-578 | A note leaves every earlier one in place and stands last, trimmed, with the status in force before it; marks, status and override stay |
| StoreFacts.NoteSurvivesRuns | server/lib/testbench-store.ts:489-578 | A recorded note stands at its place through every run without a purge |
| StoreFacts.FinishedOverrideHolds | server/lib/testbench-store.ts:592-603 | The status asked for is in force, or the derived one once cleared; marks, notes and derived status stay |
| StoreFacts.OverrideSurvivesRuns | server/lib/testbench-store.ts:489-603 | An override stands until it is written again or a purge |
| StoreFacts.FinishedMarkSetsOne | server/lib/testbench-store.ts:531-549 | A mark sets or removes that one observation's mark and recomputes the status; notes and override stay |
| StoreFacts.ConfirmPlainly | server/lib/testbench-store.ts:683-699 | A confirm stores the reconciled records, orphans dropped when asked, under the live hash and the given time |
| StoreRuns.FinishedReadsStaleExactly | server/lib/testbench-store.ts:484-514 | After a write finishes, a read is stale if and only if the plan it saw no longer has the live canonical text |
| StoreRuns.RunReadsStaleExactly | server/lib/testbench-store.ts:431-514 | After any run, a read is stale if and only if the plan last stamped no longer has the live canonical text |
| StoreRuns.StalenessFollowsTheText | server/lib/testbench-store.ts:131-153 | Edits that keep the canonical text keep the staleness; a confirmed reconcile clears it |
| StoreGates.CurrentWhenHashMatches | server/lib/testbench-store.ts:431-431 | Where the hash tells the truth, a sidecar reading as current for a plan holds only results stamped with its bodies |
| StoreGates.FinishTellsExactly | server/lib/testbench-store.ts:503-512 | After a finished write the hash tells the truth if and only if every other recorded case of its plan was stamped with its body |
| StoreGates.FreshSidecarIsEnough | server/lib/testbench-store.ts:486-512 | Writing over a sidecar that reads as current for the plan the write saw is enough |
| StoreGates.ConfirmTells | server/lib/testbench-store.ts:687-697 | A confirmed reconcile makes the hash tell the truth |
| StoreGates.TruthfulRunsTell | server/lib/testbench-store.ts:489-516 | Over any run of such steps the hash tells the truth |
| StoreGates.TruthfulRunsExactly | server/lib/testbench-store.ts:489-516 | Where ids are unique at each finish and reconcile, the runs after every prefix of which the hash tells the truth are exactly these |
| StoreGates.EveryPassIsPresentExactly | server/lib/gate-evaluator.ts:278-354 | Every gate that passes reads own-spec passes stamped with the present bodies if and only if the results are not fresh or every clean pass where an obliging id stands carries the present text |
| StoreGates.FinishLeavesPassesPresentExactly | server/lib/testbench-store.ts:497-514 | A finishing write leaves it so if and only if its plan no longer has the live text or the other recorded clean passes carried the live texts already |
| StoreGates.PassedOnPresentBodies | server/lib/gate-evaluator.ts:278-354 | After a truthful run, a passed gate passes on results stamped with the bodies the plan now holds |
| StoreGates.PassedOnPresentObservations | server/lib/gate-evaluator.ts:345-353 | After a run both truthful and safe, where an obliging case of a passed gate stands in the own plan it was overridden to passed or its present observations derive as passed |
| StoreGates.MarkingOneCaseRefreshesAnother | server/lib/testbench-store.ts:512-512 | A concrete run in which marking one case lets another's pass on an older body pass its gate |
| LifecycleWrite.IsAtLeast | server/lib/testbench-lifecycle-write.ts:140-157 | True if and only if the two agree number for number up to a place where the minimum has ended or the recorded version has the larger number |
| LifecycleWrite.AtLeastTotal | server/lib/testbench-lifecycle-write.ts:136-157 | Numeric versions compare one way or the other, and each with itself |
| LifecycleWrite.AgainstTheMinimum | server/lib/testbench-lifecycle-write.ts:136-157 | Against 1.2.0 the version itself and anything above passes; a shorter, lower or malformed one does not |
| LifecycleWrite.OneKeyEdited | server/lib/testbench-lifecycle-write.ts:159-165 | Only the `lifecycle` key of the edited case changes, to exactly what was asked |
| LifecycleWrite.EditReads | server/lib/testbench-lifecycle-write.ts:249-251 | The edited case reads as before but for its lifecycle |
| LifecycleWrite.RestoreUndoesExactly | server/lib/testbench-lifecycle-write.ts:249-251 | Record then restore gives the case object back if and only if it carried no lifecycle key |
| LifecycleWrite.CaseFile.SetCaseLifecycle | server/lib/testbench-lifecycle-write.ts:190-284 | The guarded write: the checks in their order, the new content with the case as written, its fingerprint and recorded version, or the error with the file untouched |
| LifecycleWrite.WriteKeepsTheText | server/lib/testbench-lifecycle-write.ts:226-257 | No lifecycle write moves the plan's canonical text |
| LifecycleWrite.RestoreGivesTheDocumentBack | server/lib/testbench-lifecycle-write.ts:182-188 | Record then restore gives the document back, the raised version fields aside, if and only if the case carried no lifecycle key |
| LifecycleWrite.VersionOnlyRaised | server/lib/testbench-lifecycle-write.ts:253-259 | Version and schema identifier change only on a recording into an older file, and then together to 1.2.0; none ends strictly below where it was, and a numeric one ends at least there |
| LifecycleWrite.AcceptedExactly | server/lib/testbench-lifecycle-write.ts:213-222 | A write is accepted if and only if the file is what its client was shown and holds the case; it then leaves its own edit of that document |
| LifecycleWrite.RefusedPlainly | server/lib/testbench-lifecycle-write.ts:200-238 | Each refusal exactly on its own facts, the fingerprint before the contents and the case |
| LifecycleWrite.OthersKeepTheirOrder | server/lib/testbench-lifecycle-write.ts:249-251 | Recording leaves every other key in its place; a new lifecycle key goes last |
| LifecycleWrite.ClearedKeepsTheOrder | server/lib/testbench-lifecycle-write.ts:159-165 | Clearing leaves the other keys in their order |
| LifecycleWrite.ClearedOne | server/lib/testbench-lifecycle-write.ts:163-165 | Of single keys only `lifecycle` is dropped |
| LifecycleWrite.EditedRecord | server/lib/testbench-lifecycle-write.ts:240-251 | An edit leaves every other case its record and its place |
| LifecycleWrite.HistoryIsItsEdits | server/lib/testbench-lifecycle-write.ts:190-284 | Over any history the file is the last outside content with every edit accepted since applied in turn, each to what the one before left |
| LifecycleWrite.HistoryRecords | server/lib/testbench-lifecycle-write.ts:180-184 | Over any history each case carries the record of the last accepted edit to it since the last outside change, else its record there |
| LifecycleWrite.HistoryKeepsTheText | server/lib/testbench-lifecycle-write.ts:226-257 | Over any history only an outside change moves the canonical text |
| LifecycleWrite.UndisturbedSinceStart | server/lib/testbench-lifecycle-write.ts:190-284 | With no outside change those edits apply to the content the history began with |
| LifecycleWrite.RecordStands | server/lib/testbench-lifecycle-write.ts:176-188 | An accepted record stands, outside changes included, until its case is edited again or such a change drops it |
| LifecycleWrite.SecondWriterConflicts | server/lib/testbench-lifecycle-write.ts:213-222 | Of two writes from one view the second conflicts once the first changed the file |
| ContractCompatibility.OrderedInjective | scripts/contract-compatibility.ts:60-67 | Writing keys in sorted order loses nothing |
| ContractCompatibility.SameJsonExact | scripts/contract-compatibility.ts:60-71 | Stable texts agree if and only if the values do |
| ContractCompatibility.DiffNode | scripts/contract-compatibility.ts:92-125 | Files a breaking or an additive reason exactly when some keyword has one, and never withdraws one |
| ContractCompatibility.DiffProperties | scripts/contract-compatibility.ts:127-160 | Files exactly for a property removed, re-required or changed inside, and for each new name by its requiredness |
| ContractCompatibility.DiffAdditionalProperties | scripts/contract-compatibility.ts:162-180 | Files exactly for opening, closing or changing what unlisted properties may be |
| ContractCompatibility.DiffEnum | scripts/contract-compatibility.ts:182-196 | Breaking exactly when a value is lost or a list is not one, additive exactly when only gained |
| ContractCompatibility.ClassifySchemaChange | scripts/contract-compatibility.ts:198-209 | Breaking beats additive beats none |
| ContractVerdicts.EnumVerdict | scripts/contract-compatibility.ts:182-196 | Schemas alike but for their enum lists: breaking if and only if a value is lost, additive if and only if the list changed otherwise |
| ContractVerdicts.EnumVerdictOnInstances | scripts/contract-compatibility.ts:182-196 | Some instance meets the baseline object and not the live one if and only if a lost value passes the other keywords, and then the verdict is breaking |
| ContractVerdicts.BareEnumVerdict | scripts/contract-compatibility.ts:182-196 | Of bare enumerations: breaking if and only if an instance is lost, additive if and only if none is but the list changed |
| ContractVerdicts.OddEnumVerdict | scripts/contract-compatibility.ts:185-188 | With one list missing or no array any difference is breaking |
| ContractVerdicts.ProseVerdict | scripts/contract-compatibility.ts:95-97 | A changed title, description or root identity is no change |
| ContractVerdicts.VersionConstVerdict | scripts/contract-compatibility.ts:144-149 | Nor is a changed constant of the two root version properties |
| ContractVerdicts.NewPropertyVerdict | scripts/contract-compatibility.ts:154-158 | A new property is additive while optional, breaking when required, and unseen under an inherited name |
| ContractVerdicts.RemovedPropertyVerdict | scripts/contract-compatibility.ts:133-137 | A removed property is breaking |
| ContractVerdicts.ChangedPropertyVerdict | scripts/contract-compatibility.ts:150-151 | A changed property has the verdict of its two schemas |
| ContractVerdicts.BooleanPropertyVerdict | scripts/contract-compatibility.ts:151-151 | Unless one of them is no object, where any difference is breaking |
| ContractVerdicts.RequiredVerdict | scripts/contract-compatibility.ts:138-142 | A changed required list is breaking if and only if it says otherwise about a listed property, either way, and no change else |
| ContractVerdicts.ExtrasVerdict | scripts/contract-compatibility.ts:162-180 | Opening unlisted properties is additive, closing them breaking, between schemas it is theirs, and any other difference breaking |
| ContractVerdicts.ItemsVerdict | scripts/contract-compatibility.ts:108-111 | Two item schemas have their own verdict; otherwise any difference is breaking |
| ContractVerdicts.OtherKeywordVerdict | scripts/contract-compatibility.ts:115-121 | Any other keyword breaks on any difference |
| ContractVerdicts.InnerKeywordVerdict | scripts/contract-compatibility.ts:94-97 | Below the root the identity and every constant count; prose still never does |
| ContractVerdicts.VersionPropertyVerdict | scripts/contract-compatibility.ts:144-149 | Of a version property only the constant is let go |
| ContractVerdicts.VersionRule | scripts/contract-compatibility.ts:228-254 | No change passes only at the very version, additions only on a higher minor or major, a break only on a higher major |
| SchemaSoundness.LeafKeptExactly | scripts/contract-compatibility.ts:92-125 | Under a non-breaking diff an instance that meets the baseline object's own keywords meets the live one's if and only if it has the live required names |
| SchemaSoundness.MissedOnlyIfUnlistedOrInherited | scripts/contract-compatibility.ts:137-158 | A newly required name goes unseen only if it is unlisted, or inherited and not a baseline property |
| SchemaSoundness.Sound | scripts/contract-compatibility.ts:92-196 | Under a non-breaking diff at any position, every instance valid under the baseline is valid under live |
| SchemaSoundness.VerdictIsSound | scripts/contract-compatibility.ts:198-209 | Verdict none or additive: what the baseline accepted live accepts, the version constants stripped |
| SchemaSoundness.StrippingWidens | scripts/contract-compatibility.ts:144-151 | Dropping the root version constants only widens a schema |
| SchemaSoundness.NothingReversed | scripts/contract-compatibility.ts:92-196 | A verdict of no change is non-breaking in the other direction too |
| SchemaSoundness.NoChangeIsEquivalence | scripts/contract-compatibility.ts:198-209 | Verdict none: both accept exactly the same instances, the version constants stripped |
| SchemaSoundness.NotBreakingItself | scripts/contract-compatibility.ts:92-196 | Non-breaking change is reflexive over arbitrarily nested schemas |
| SchemaSoundness.NonBreakingComposes | scripts/contract-compatibility.ts:92-196 | Two non-breaking changes in a row make a non-breaking change |
| SchemaSoundness.ReleaseWithoutMajorIsSafe | scripts/contract-compatibility.ts:211-255 | A release let through without a higher major rejects nothing that was accepted, never lowers the version, and keeps it exactly when nothing changed |
| SchemaSoundness.UnlistedRequiredNameGoesUnseen | scripts/contract-compatibility.ts:104-106 | Verdict none although live requires an unlisted name the baseline did not |
| SchemaSoundness.OpenBaselineIsNarrowed | scripts/contract-compatibility.ts:154-158 | Verdict additive although an open baseline accepted the new name with any value |
| SchemaSoundness.InheritedNameGoesUnseen | scripts/contract-compatibility.ts:154-158 | Verdict none although live requires a new property named like an inherited member |
| SchemaSoundness.EmptyNameHidesAConstant | scripts/contract-compatibility.ts:133-152 | Verdict none although a constant under a root property with an empty name changed |

## Left out

- Unicode NFC, sha256, `localeCompare`, the clock, note ids and the git identity are parameters: a function, an injective function where a result needs one, a total preorder, and values supplied when a write finishes.
- Strings are sequences of Unicode scalar values; lone surrogates, and the code-unit order of characters outside the Basic Multilingual Plane, are not modelled.
- Schema validation of files, path safety, HTTP routes, and the fail-open ladder that reads a sidecar: a sidecar is a validated value or absent.
- Display text: titles, descriptions, error messages and the wording of reasons; the collector keeps only whether each list has an entry.
- Side conditions carried openly: case ids unique in a plan, the plan map keyed by the plan's own slug, slugs without a colon, loaded gate ids distinct; minted ids fresh, where the exact condition is not given.
- SchemaSoundness.VerdictIsSound: exact at one object in the required names; over nested schemas its condition is sufficient only, since a gained property under an open baseline is safe when its schema accepts whatever the baseline did, and a broken part is harmless where no instance can reach it, neither of which can be read off the two documents while other keywords are judged by an arbitrary function. Each clause is shown to be needed by a concrete pair.
- GateEvaluator.FindResult: claims nothing about the staleness of another spec's results, which carry no plan hash.
- TestbenchStore.Store.Mutate: a mark on an observation named `__proto__`, which the source's assignment would not store as an entry, is outside the model.
- TestbenchStore.Store.FinishWrite: results are own entries; a write to a case id named like an inherited member, which the source would apply to that member, is outside the model.
- TestbenchDomain.SortIntoBuckets: the removed bucket is a set, so its order is not modelled.
- ContractCompatibility.DiffNode: object key order (schemas are maps), an own `__proto__` key and parsing the version out of `$id` are not modelled; `withoutConst` on a root version property is a position at which `const` is skipped.
- SchemaSoundness.Sound: every keyword other than those named is judged by an arbitrary function of its own value and the instance, so `$ref` and `patternProperties` are outside this reading.
- WorkUnits.TopoOrder: a unit is its input index, standing for object identity; the raised error is one failure without its message (and without the type error sorting mixed missing ids would raise instead), and non-list or non-dict inputs are left out.
- LifecycleWrite.CaseFile.SetCaseLifecycle: the file is a parsed document with a layout token in place of raw bytes; the defensive re-validation of the written text and the order JavaScript gives integer-like keys are not modelled, and level numbers are read by a parameter.
- The gh runner, `file_unit`, `gate_dedup`, `gating_set`, `drift_report`, `cut-list-order` and `deep-merge` would only add easy members beside these.
