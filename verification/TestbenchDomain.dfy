/**
 Derived status, reconcile and purge (shared/testbench-domain.ts): declarative functions, the source's
 loops proved equal to them, and what reconciling keeps, settles and loses.
 */
module TestbenchDomain {
  import opened Wrappers
  import opened Strings
  import opened Contracts
  import opened Canonical
  import opened PlainObjects

  type Results = map<string, CaseResult>
  type Marks = map<string, ObservationMark>

  // ---- Derived status ----

  /** An inherited member carries no result. */
  predicate HasFail(marks: Marks, id: string) {
    id in marks && marks[id].result == Fail
  }

  predicate Failing(ids: seq<string>, marks: Marks) {
    exists id :: id in ids && HasFail(marks, id)
  }

  /** Indexing the marks finds something: the observation's own mark, or a member every object inherits. */
  predicate Found(marks: Marks, id: string) {
    id in marks || id in INHERITED
  }

  predicate AllMarked(ids: seq<string>, marks: Marks) {
    forall id :: id in ids ==> Found(marks, id)
  }

  predicate NoneMarked(ids: seq<string>, marks: Marks) {
    forall id :: id in ids ==> !Found(marks, id)
  }

  /** A single fail decides; otherwise none, some or all of the observations are marked. */
  function DeriveStatus(ids: seq<string>, marks: Marks): CaseStatus {
    if Failing(ids, marks) then Failed
    else if NoneMarked(ids, marks) then NotStarted
    else if AllMarked(ids, marks) then Passed
    else InProgress
  }

  /** The source's loop: one pass that counts the marked ids and notes any fail. */
  method DeriveStatusByCounting(observationIds: seq<string>, marks: Marks) returns (status: CaseStatus)
    ensures status == DeriveStatus(observationIds, marks)
  {
    var total := |observationIds|;
    if total == 0 {
      return NotStarted;
    }
    var markedCount, anyFail := 0, false;
    for k := 0 to total
      invariant 0 <= markedCount <= k
      invariant markedCount == 0 <==> forall i :: 0 <= i < k ==> !Found(marks, observationIds[i])
      invariant markedCount == k <==> forall i :: 0 <= i < k ==> Found(marks, observationIds[i])
      invariant anyFail <==> exists i :: 0 <= i < k && HasFail(marks, observationIds[i])
    {
      if Found(marks, observationIds[k]) {
        markedCount := markedCount + 1;
        if HasFail(marks, observationIds[k]) {
          anyFail := true;
        }
      }
    }
    if anyFail {
      return Failed;
    }
    if markedCount == 0 {
      return NotStarted;
    }
    if markedCount < total {
      return InProgress;
    }
    return Passed;
  }

  /**
   The four derived statuses, each on its own facts: a recorded fail decides; otherwise it is whether
   indexing the marks finds something for none, all or some of the observations.
   */
  lemma DerivedPlainly(ids: seq<string>, marks: Marks)
    ensures var status := DeriveStatus(ids, marks);
            var fails := exists id :: id in ids && id in marks && marks[id].result == Fail;
            && (status == Failed <==> fails)
            && (status == NotStarted <==> forall id :: id in ids ==> id !in marks && id !in INHERITED)
            && (status == Passed
                <==> !fails && ids != [] && forall id :: id in ids ==> id in marks || id in INHERITED)
            && (status == InProgress
                <==> && !fails && (exists id :: id in ids && (id in marks || id in INHERITED))
                     && exists id :: id in ids && id !in marks && id !in INHERITED)
  {
    hide INHERITED;
    assert ids != [] ==> ids[0] in ids;
  }

  /** Only which observations exist matters: not their order, and not how often an id is listed. */
  lemma StatusDependsOnSet(a: seq<string>, b: seq<string>, marks: Marks)
    requires forall id :: id in a <==> id in b
    ensures DeriveStatus(a, marks) == DeriveStatus(b, marks)
  {
  }

  /** The same table over the observations' own marks alone. */
  function DeriveFromOwn(ids: seq<string>, marks: Marks): CaseStatus {
    if Failing(ids, marks) then Failed
    else if forall id :: id in ids ==> id !in marks then NotStarted
    else if forall id :: id in ids ==> id in marks then Passed
    else InProgress
  }

  /**
   Inherited names leave the status as the own marks give it exactly when a fail decides it, no unmarked
   observation has such a name, or some are marked and some are found nowhere.
   */
  lemma InheritedNamesHarmlessExactly(ids: seq<string>, marks: Marks)
    ensures DeriveStatus(ids, marks) == DeriveFromOwn(ids, marks)
       <==> || Failing(ids, marks)
            || (forall id :: id in ids && id !in marks ==> id !in INHERITED)
            || ((exists id :: id in ids && id in marks) && exists id :: id in ids && !Found(marks, id))
  {
    hide INHERITED;
  }

  /** A case whose one observation nobody marked, named like an inherited member, derives as passed. */
  lemma InheritedNameCountsAsMarked(id: string)
    ensures DeriveStatus([id], map[]) == if id in INHERITED then Passed else NotStarted
  {
    assert id in [id];
  }

  /** Two cases with one canonical text derive one status from the same marks. */
  lemma TextFixesStatus(a: Case, b: Case, nfc: Nfc, marks: Marks)
    requires CanonicalizeCase(a, nfc) == CanonicalizeCase(b, nfc)
    ensures DeriveStatus(ObservationIds(a), marks) == DeriveStatus(ObservationIds(b), marks)
  {
    hide CanonicalizeCase, ObservationIds, DeriveStatus;
    forall id ensures id in ObservationIds(a) <==> id in ObservationIds(b) {
      TextFixesObservations(a, b, nfc, id);
    }
    StatusDependsOnSet(ObservationIds(a), ObservationIds(b), marks);
  }

  /** The first plan case of the id, as `find` returns it; none defines no observations. */
  function PlanCaseObservationIds(plan: Plan, caseId: string): seq<string> {
    var found := FindCase(plan.cases, caseId);
    if found.Some? then ObservationIds(found.value) else []
  }

  // ---- Reconcile ----

  function CaseIdOf(c: Case): string { c.id }

  /** The plan's ids, each once, in order of first appearance. */
  function PlanIds(plan: Plan): (ids: seq<string>)
    ensures NoRepeats(ids)
    ensures forall id :: id in ids <==> exists i :: 0 <= i < |plan.cases| && plan.cases[i].id == id
  {
    Deduped(MapSeq(CaseIdOf, plan.cases))
  }

  /** The text a map built case by case holds for an id: the last case's. */
  function PlanCanon(cases: seq<Case>, id: string, nfc: Nfc): (canon: Option<string>)
    ensures canon.Some? <==> exists i :: 0 <= i < |cases| && cases[i].id == id
  {
    if cases == [] then None
    else
      var n := |cases| - 1;
      var earlier := PlanCanon(cases[..n], id, nfc);
      assert forall i :: 0 <= i < n ==> cases[..n][i] == cases[i];
      if cases[n].id == id then Some(CanonicalizeCase(cases[n], nfc)) else earlier
  }

  lemma {:induction false} PlanCanonUnique(cases: seq<Case>, i: nat, nfc: Nfc)
    requires UniqueIds(cases) && i < |cases|
    ensures PlanCanon(cases, cases[i].id, nfc) == Some(CanonicalizeCase(cases[i], nfc))
    decreases |cases|
  {
    hide CanonicalizeCase;
    var n := |cases| - 1;
    if i < n {
      PlanCanonUnique(cases[..n], i, nfc);
    }
  }

  datatype Bucket = Added | Unchanged | Changed | Removed | Elsewhere

  /** Where an id falls; `Elsewhere` is in neither the plan nor the results. */
  function BucketOf(plan: Plan, results: Results, id: string, nfc: Nfc): Bucket {
    var canon := PlanCanon(plan.cases, id, nfc);
    if canon.None? then (if id in results then Removed else Elsewhere)
    else if id !in results then Added
    else if results[id].caseCanon == canon then Unchanged
    else Changed
  }

  datatype Classification = Classification(added: seq<string>, same: seq<string>, changed: seq<string>,
                                           removed: set<string>)

  function Classify(plan: Plan, results: Results, nfc: Nfc): Classification {
    Classification(
      Pick(plan, results, nfc, PlanIds(plan), Added),
      Pick(plan, results, nfc, PlanIds(plan), Unchanged),
      Pick(plan, results, nfc, PlanIds(plan), Changed),
      set id | id in results && BucketOf(plan, results, id, nfc) == Removed)
  }

  function Pick(plan: Plan, results: Results, nfc: Nfc, ids: seq<string>, bucket: Bucket): (picked: seq<string>)
    ensures forall id :: id in picked <==> id in ids && BucketOf(plan, results, id, nfc) == bucket
    ensures (forall id :: id in ids ==> BucketOf(plan, results, id, nfc) != bucket) ==> picked == []
  {
    if ids == [] then []
    else
      var n := |ids| - 1;
      assert ids == ids[..n] + [ids[n]];
      Pick(plan, results, nfc, ids[..n], bucket)
      + if BucketOf(plan, results, ids[n], nfc) == bucket then [ids[n]] else []
  }

  /** The copy reconcile and purge work on: every field except `verification`. */
  function CopyCaseResult(result: CaseResult): CaseResult {
    CaseResult(result.observationMarks, result.derivedStatus, result.statusOverride, result.notes, None,
               result.orphaned, result.caseCanon)
  }

  /** A changed case keeps its marks, notes and override; its snapshot and derived status are new. */
  function Refreshed(plan: Plan, id: string, result: CaseResult, nfc: Nfc): CaseResult {
    result.(caseCanon := PlanCanon(plan.cases, id, nfc),
            derivedStatus := DeriveStatus(PlanCaseObservationIds(plan, id), result.observationMarks))
  }

  function NextResult(plan: Plan, results: Results, id: string, nfc: Nfc): CaseResult
    requires id in results
  {
    var copy := CopyCaseResult(results[id]);
    match BucketOf(plan, results, id, nfc)
    case Removed => copy.(orphaned := true)
    case Changed => Refreshed(plan, id, copy, nfc)
    case _ => copy
  }

  function Reconciled(plan: Plan, results: Results, nfc: Nfc): Results {
    map id | id in results :: NextResult(plan, results, id, nfc)
  }

  function Purged(results: Results): Results {
    map id | id in results && !results[id].orphaned :: CopyCaseResult(results[id])
  }

  method IndexCanon(plan: Plan, nfc: Nfc) returns (canonById: map<string, string>, ids: seq<string>)
    ensures Indexes(canonById, plan, nfc)
    ensures ids == PlanIds(plan)
  {
    hide CanonicalizeCase, Deduped;
    canonById := map[];
    for k := 0 to |plan.cases|
      invariant forall id :: (if id in canonById then Some(canonById[id]) else None)
                  == PlanCanon(plan.cases[..k], id, nfc)
    {
      assert plan.cases[..k + 1][..k] == plan.cases[..k];
      canonById := canonById[plan.cases[k].id := CanonicalizeCase(plan.cases[k], nfc)];
    }
    assert plan.cases[..|plan.cases|] == plan.cases;
    ids := Dedupe(MapSeq(CaseIdOf, plan.cases));
  }

  ghost predicate Indexes(canonById: map<string, string>, plan: Plan, nfc: Nfc) {
    forall id :: (if id in canonById then Some(canonById[id]) else None) == PlanCanon(plan.cases, id, nfc)
  }

  method SortIntoBuckets(plan: Plan, results: Results, nfc: Nfc, canonById: map<string, string>, planIds: seq<string>)
    returns (classification: Classification)
    requires Indexes(canonById, plan, nfc) && planIds == PlanIds(plan)
    ensures classification == Classify(plan, results, nfc)
  {
    hide PlanIds, PlanCanon, Pick, Classify;
    var added, same, changed: seq<string> := [], [], [];
    PickNothing(plan, results, nfc);
    for k := 0 to |planIds|
      invariant added == Pick(plan, results, nfc, planIds[..k], Added)
      invariant same == Pick(plan, results, nfc, planIds[..k], Unchanged)
      invariant changed == Pick(plan, results, nfc, planIds[..k], Changed)
    {
      var id := planIds[k];
      PickNext(plan, results, nfc, planIds, k);
      PlanIdHasCanon(plan, id, nfc);
      if id !in results {
        added := added + [id];
      } else if results[id].caseCanon == Some(canonById[id]) {
        same := same + [id];
      } else {
        changed := changed + [id];
      }
    }
    assert planIds[..|planIds|] == planIds;
    var removed := set id | id in results && id !in canonById;
    classification := Classification(added, same, changed, removed);
    SortedIsClassified(plan, results, nfc, canonById);
  }

  lemma SortedIsClassified(plan: Plan, results: Results, nfc: Nfc, canonById: map<string, string>)
    requires Indexes(canonById, plan, nfc)
    ensures var ids := PlanIds(plan);
            Classify(plan, results, nfc)
            == Classification(Pick(plan, results, nfc, ids, Added), Pick(plan, results, nfc, ids, Unchanged),
                              Pick(plan, results, nfc, ids, Changed), set id | id in results && id !in canonById)
  {
    hide PlanIds, PlanCanon, Pick;
    forall id | id in results ensures BucketOf(plan, results, id, nfc) == Removed <==> id !in canonById {
    }
  }

  lemma PickNext(plan: Plan, results: Results, nfc: Nfc, ids: seq<string>, k: nat)
    requires k < |ids|
    ensures forall bucket :: Pick(plan, results, nfc, ids[..k + 1], bucket)
                          == Pick(plan, results, nfc, ids[..k], bucket)
                             + if BucketOf(plan, results, ids[k], nfc) == bucket then [ids[k]] else []
  {
    hide BucketOf;
    assert ids[..k + 1][..k] == ids[..k];
  }

  lemma PickNothing(plan: Plan, results: Results, nfc: Nfc)
    ensures forall bucket :: Pick(plan, results, nfc, [], bucket) == []
  {
  }

  lemma PlanIdHasCanon(plan: Plan, id: string, nfc: Nfc)
    ensures id in PlanIds(plan) <==> PlanCanon(plan.cases, id, nfc).Some?
  {
  }

  /** Classify, copy, then refresh the changed and flag the removed, as the source's loops do. */
  method Reconcile(plan: Plan, results: Results, nfc: Nfc) returns (classification: Classification, next: Results)
    ensures classification == Classify(plan, results, nfc)
    ensures next == Reconciled(plan, results, nfc)
  {
    hide PlanIds, PlanCanon, Pick, Refreshed, Classify, Reconciled, Indexes, CopyCaseResult, NoRepeats;
    var canonById, planIds := IndexCanon(plan, nfc);
    classification := SortIntoBuckets(plan, results, nfc, canonById, planIds);
    ChangedIsReady(plan, results, nfc, canonById);
    next := map id | id in results :: CopyCaseResult(results[id]);
    next := RefreshChanged(plan, next, nfc, canonById, classification.changed);
    next := FlagRemoved(next, classification.removed);
    ReconciledByBucket(plan, results, nfc);
    assert forall id :: id in results && id in classification.removed ==> id !in classification.changed;
    assert forall id :: id in results ==> next[id] == Reconciled(plan, results, nfc)[id];
  }

  lemma ChangedIsReady(plan: Plan, results: Results, nfc: Nfc, canonById: map<string, string>)
    requires Indexes(canonById, plan, nfc)
    ensures var c := Classify(plan, results, nfc);
            && NoRepeats(c.changed) && c.removed <= results.Keys && (forall id :: id in c.removed ==> id !in c.changed)
            && forall id :: id in c.changed ==>
                 id in results && id in canonById && Some(canonById[id]) == PlanCanon(plan.cases, id, nfc)
  {
    hide PlanIds, PlanCanon, Pick, Refreshed;
    PickDistinct(plan, results, nfc, PlanIds(plan), Changed);
  }

  lemma ReconciledByBucket(plan: Plan, results: Results, nfc: Nfc)
    ensures var c, next := Classify(plan, results, nfc), Reconciled(plan, results, nfc);
            && next.Keys == results.Keys
            && forall id :: id in results ==>
                 next[id] == if id in c.removed then CopyCaseResult(results[id]).(orphaned := true)
                             else if id in c.changed then Refreshed(plan, id, CopyCaseResult(results[id]), nfc)
                             else CopyCaseResult(results[id])
  {
    hide Classify, Refreshed, NextResult, CopyCaseResult;
    forall id | id in results
      ensures NextResult(plan, results, id, nfc)
              == var copy, c := CopyCaseResult(results[id]), Classify(plan, results, nfc);
                 if id in c.removed then copy.(orphaned := true)
                 else if id in c.changed then Refreshed(plan, id, copy, nfc)
                 else copy
    {
      NextByBucket(plan, results, id, nfc);
    }
  }

  lemma NextByBucket(plan: Plan, results: Results, id: string, nfc: Nfc)
    requires id in results
    ensures NextResult(plan, results, id, nfc)
         == (var copy, c := CopyCaseResult(results[id]), Classify(plan, results, nfc);
             if id in c.removed then copy.(orphaned := true)
             else if id in c.changed then Refreshed(plan, id, copy, nfc)
             else copy)
    ensures id in Classify(plan, results, nfc).removed ==> id !in Classify(plan, results, nfc).changed
  {
    hide PlanIds, PlanCanon, Pick, Refreshed;
    PlanIdHasCanon(plan, id, nfc);
  }

  lemma {:induction false} PickDistinct(plan: Plan, results: Results, nfc: Nfc, ids: seq<string>, bucket: Bucket)
    requires NoRepeats(ids)
    ensures NoRepeats(Pick(plan, results, nfc, ids, bucket))
  {
    hide BucketOf;
    if ids != [] {
      var n := |ids| - 1;
      PickDistinct(plan, results, nfc, ids[..n], bucket);
    }
  }

  method RefreshChanged(plan: Plan, copies: Results, nfc: Nfc, canonById: map<string, string>, changed: seq<string>)
    returns (next: Results)
    requires forall id :: id in changed ==> id in canonById && Some(canonById[id]) == PlanCanon(plan.cases, id, nfc)
    requires NoRepeats(changed) && forall id :: id in changed ==> id in copies
    ensures next == map id | id in copies :: if id in changed then Refreshed(plan, id, copies[id], nfc) else copies[id]
  {
    hide DeriveStatus, PlanCanon, PlanCaseObservationIds;
    next := copies;
    for k := 0 to |changed|
      invariant next.Keys == copies.Keys
      invariant forall j :: 0 <= j < k ==> next[changed[j]] == Refreshed(plan, changed[j], copies[changed[j]], nfc)
      invariant forall id :: id in copies && id !in changed ==> next[id] == copies[id]
      invariant forall j :: k <= j < |changed| ==> next[changed[j]] == copies[changed[j]]
    {
      var id := changed[k];
      assert id in changed;
      var status := DeriveStatusByCounting(PlanCaseObservationIds(plan, id), next[id].observationMarks);
      next := next[id := next[id].(caseCanon := Some(canonById[id]), derivedStatus := status)];
    }
  }

  method FlagRemoved(results: Results, removed: set<string>) returns (next: Results)
    requires removed <= results.Keys
    ensures next == map id | id in results :: if id in removed then results[id].(orphaned := true) else results[id]
  {
    next := results;
    var rest := removed;
    while rest != {}
      invariant rest <= removed && next.Keys == results.Keys
      invariant forall id :: id in results
                  ==> next[id] == if id in removed && id !in rest then results[id].(orphaned := true) else results[id]
      decreases rest
    {
      var id :| id in rest;
      next := next[id := next[id].(orphaned := true)];
      rest := rest - {id};
    }
  }

  method PurgeOrphans(results: Results) returns (kept: Results)
    ensures kept == Purged(results)
  {
    kept := map[];
    var rest := results.Keys;
    while rest != {}
      invariant rest <= results.Keys
      invariant kept == map id | id in results && id !in rest && !results[id].orphaned :: CopyCaseResult(results[id])
      decreases rest
    {
      var id :| id in rest;
      if !results[id].orphaned {
        kept := kept[id := CopyCaseResult(results[id])];
      }
      rest := rest - {id};
    }
  }

  // ---- What reconciling does and does not change ----

  /**
   Four disjoint buckets: the plan's ids are exactly the added, unchanged and changed ones, the recorded
   ids exactly the unchanged, changed and removed ones, and no id sits in two.
   */
  lemma BucketsPartition(plan: Plan, results: Results, nfc: Nfc, id: string)
    ensures var c := Classify(plan, results, nfc);
            && (id in PlanIds(plan) <==> id in c.added || id in c.same || id in c.changed)
            && (id in results <==> id in c.same || id in c.changed || id in c.removed)
            && !(id in c.added && id in c.same)
            && !(id in c.added && id in c.changed)
            && !(id in c.same && id in c.changed)
            && !(id in c.removed && id in PlanIds(plan))
  {
    hide PlanCanon, PlanIds, Pick;
    PlanIdHasCanon(plan, id, nfc);
  }

  /**
   What reconciling makes of one record: a case whose body is the stamped one is left alone, any other
   plan case gets its text and the status its marks now give, and a case gone from the plan is flagged.
   */
  lemma ReconciledPlainly(plan: Plan, results: Results, nfc: Nfc, id: string)
    requires UniqueIds(plan.cases) && id in results
    ensures var was, c := results[id].(verification := None), Classify(plan, results, nfc);
            && Reconciled(plan, results, nfc).Keys == results.Keys
            && var now := Reconciled(plan, results, nfc)[id];
            && ((forall p :: p in plan.cases ==> p.id != id) ==> now == was.(orphaned := true) && id in c.removed)
            && forall p :: p in plan.cases && p.id == id ==>
                 var text := Some(CanonicalizeCase(p, nfc));
                 var status := DeriveStatus(ObservationIds(p), was.observationMarks);
                 if was.caseCanon == text then now == was && id in c.same
                 else now == was.(caseCanon := text, derivedStatus := status) && id in c.changed
  {
    hide CanonicalizeCase, DeriveStatus, FindCase, PlanCanon, ObservationIds, PlanIds, Pick;
    PlanCaseCanon(plan, id, nfc);
    PlanIdHasCanon(plan, id, nfc);
    forall p | p in plan.cases && p.id == id ensures FindCase(plan.cases, id) == Some(p) {
      var i :| 0 <= i < |plan.cases| && plan.cases[i] == p;
      FindCaseUnique(plan.cases, i);
    }
  }

  /** A plan case with no record is added; purging keeps exactly the unflagged records, verification dropped. */
  lemma AddedAndPurgedPlainly(plan: Plan, results: Results, nfc: Nfc, id: string)
    ensures id in Classify(plan, results, nfc).added <==> id !in results && exists p :: p in plan.cases && p.id == id
    ensures id in Purged(results) <==> id in results && !results[id].orphaned
    ensures id in Purged(results) ==> Purged(results)[id] == results[id].(verification := None)
  {
    hide PlanCanon, Pick, CanonicalizeCase;
    BucketsPartition(plan, results, nfc, id);
    PlanIdHasCanon(plan, id, nfc);
  }

  /** No mark, note or override is lost or altered; a verification block always is dropped. */
  lemma AuthoredDataKept(plan: Plan, results: Results, nfc: Nfc, id: string)
    requires id in results
    ensures id in Reconciled(plan, results, nfc)
    ensures var was, now := results[id], Reconciled(plan, results, nfc)[id];
            && now.observationMarks == was.observationMarks && now.notes == was.notes
            && now.statusOverride == was.statusOverride
            && (was.orphaned ==> now.orphaned)
            && (now.verification == was.verification <==> was.verification.None?)
  {
    hide PlanCanon, PlanIds, DeriveStatus;
  }

  /** A second run over an unchanged plan finds nothing changed and returns the same results. */
  lemma ReconcileIsAFixpoint(plan: Plan, results: Results, nfc: Nfc)
    ensures var once := Reconciled(plan, results, nfc);
            && Reconciled(plan, once, nfc) == once
            && Classify(plan, once, nfc).changed == []
  {
    hide PlanCanon, PlanIds, DeriveStatus, Pick, NextResult, BucketOf;
    var once := Reconciled(plan, results, nfc);
    forall id ensures BucketOf(plan, once, id, nfc) != Changed
      && (id in results ==> NextResult(plan, once, id, nfc) == once[id]) {
      SettledAfterOne(plan, results, nfc, id);
    }
    assert Reconciled(plan, once, nfc) == once;
  }

  lemma SettledAfterOne(plan: Plan, results: Results, nfc: Nfc, id: string)
    ensures var once := Reconciled(plan, results, nfc);
            && BucketOf(plan, once, id, nfc) != Changed
            && (id in results ==> NextResult(plan, once, id, nfc) == once[id])
  {
    hide PlanCanon, PlanIds, DeriveStatus;
  }

  /**
   Purging what a reconcile returns drops exactly the removed cases and those already flagged, the
   second even when their case is back in the plan: nothing ever clears the flag.
   */
  lemma PurgeDropsFlagged(plan: Plan, results: Results, nfc: Nfc, id: string)
    requires id in results
    ensures id in Purged(Reconciled(plan, results, nfc))
       <==> id in PlanIds(plan) && !results[id].orphaned
    ensures id in Purged(Reconciled(plan, results, nfc))
            ==> Purged(Reconciled(plan, results, nfc))[id] == Reconciled(plan, results, nfc)[id]
  {
    hide PlanCanon, PlanIds, DeriveStatus;
    PlanIdHasCanon(plan, id, nfc);
  }

  // ---- Stamps ----

  /** The stored status is the one the stamped body's observations give the stored marks. */
  ghost predicate StampTrue(result: CaseResult, nfc: Nfc) {
    forall c :: result.caseCanon == Some(CanonicalizeCase(c, nfc))
                ==> result.derivedStatus == DeriveStatus(ObservationIds(c), result.observationMarks)
  }

  ghost predicate AllStampsTrue(results: Results, nfc: Nfc) {
    forall id :: id in results ==> StampTrue(results[id], nfc)
  }

  /** For a result stamped with this very case, the stamp is true exactly when the status is this case's. */
  lemma StampedWith(result: CaseResult, c: Case, nfc: Nfc)
    requires result.caseCanon == Some(CanonicalizeCase(c, nfc))
    ensures StampTrue(result, nfc) <==> result.derivedStatus == DeriveStatus(ObservationIds(c), result.observationMarks)
  {
    hide CanonicalizeCase, ObservationIds, DeriveStatus;
    forall d | result.caseCanon == Some(CanonicalizeCase(d, nfc))
      ensures DeriveStatus(ObservationIds(d), result.observationMarks)
          == DeriveStatus(ObservationIds(c), result.observationMarks)
    {
      TextFixesStatus(d, c, nfc, result.observationMarks);
    }
  }

  lemma PlanCaseCanon(plan: Plan, id: string, nfc: Nfc)
    requires UniqueIds(plan.cases)
    ensures PlanCanon(plan.cases, id, nfc)
         == match FindCase(plan.cases, id) case None => None case Some(c) => Some(CanonicalizeCase(c, nfc))
  {
    hide CanonicalizeCase, FindCase;
    match FindCase(plan.cases, id) {
      case Some(c) =>
        var i :| 0 <= i < |plan.cases| && plan.cases[i] == c;
        PlanCanonUnique(plan.cases, i, nfc);
      case None =>
    }
  }

  /**
   Reconciling keeps every stamp true, and leaves each recorded plan case with the status its present
   body gives: not recomputing the unchanged ones is sound.
   */
  lemma ReconcileKeepsStamps(plan: Plan, results: Results, nfc: Nfc, id: string)
    requires UniqueIds(plan.cases) && id in results && StampTrue(results[id], nfc)
    ensures var now := Reconciled(plan, results, nfc)[id];
            && StampTrue(now, nfc)
            && (FindCase(plan.cases, id).Some?
                ==> now.derivedStatus == DeriveStatus(PlanCaseObservationIds(plan, id), now.observationMarks))
  {
    hide CanonicalizeCase, FindCase, PlanCanon, ObservationIds, DeriveStatus, StampTrue;
    PlanCaseCanon(plan, id, nfc);
    var was, now := results[id], Reconciled(plan, results, nfc)[id];
    if BucketOf(plan, results, id, nfc) != Changed {
      StampReads(was, now, nfc);
    }
    match FindCase(plan.cases, id) {
      case Some(c) => StampedWith(now, c, nfc);
      case None =>
    }
  }

  lemma StampReads(was: CaseResult, now: CaseResult, nfc: Nfc)
    requires now.caseCanon == was.caseCanon && now.derivedStatus == was.derivedStatus
        && now.observationMarks == was.observationMarks
    ensures StampTrue(now, nfc) <==> StampTrue(was, nfc)
  {
    hide CanonicalizeCase, ObservationIds, DeriveStatus;
  }
}
