/**
 The results store under the verify gates: when a gate that passes passes on results recorded against the
 case bodies the plan now holds.
 */
module StoreGates {
  import opened Wrappers
  import opened Contracts
  import opened LifecycleResolver
  import opened Canonical
  import opened Strings
  import opened TestbenchDomain
  import opened TestbenchStore
  import opened StoreRuns
  import GateEvaluator
  import GatePipeline

  function Text(plan: Plan, id: string, nfc: Nfc): Option<string> {
    var c := FindCase(plan.cases, id);
    if c.Some? then Some(CanonicalizeCase(c.value, nfc)) else None
  }

  /** Every recorded result of a case of the plan is stamped with that case's text. */
  ghost predicate Current(results: Results, plan: Plan, nfc: Nfc) {
    forall id :: id in results && Text(plan, id, nfc).Some? ==> results[id].caseCanon == Text(plan, id, nfc)
  }

  /** The sidecar carries the hash of a plan its results are current with. */
  ghost predicate HashTells(s: StoreState, env: Env) {
    s.file.Some? ==>
      exists plan: Plan :: UniqueIds(plan.cases) && s.file.value.planHash == PlanHash(plan, env)
                     && Current(s.file.value.caseResults, plan, env.nfc)
  }

  // ---- One text, one set of current results ----

  lemma SameTextSameCases(p: Plan, q: Plan, id: string, nfc: Nfc)
    requires UniqueIds(p.cases) && UniqueIds(q.cases) && Canonicalize(p, nfc) == Canonicalize(q, nfc)
    ensures Text(p, id, nfc).Some? ==> Text(q, id, nfc) == Text(p, id, nfc)
  {
    hide Canonicalize, CanonicalizeCase, FindCase, SortBy, ProjectCase;
    PlanTextExact(p, q, nfc);
    if c :| c in p.cases && FindCase(p.cases, id) == Some(c) {
      MapContains(ProjectCase(nfc), SortBy(p.cases, CaseKey), ProjectCase(nfc)(c));
      MapContains(ProjectCase(nfc), SortBy(q.cases, CaseKey), ProjectCase(nfc)(c));
      SameElements(SortBy(p.cases, CaseKey), p.cases);
      SameElements(SortBy(q.cases, CaseKey), q.cases);
      var d :| d in q.cases && ProjectCase(nfc)(d) == ProjectCase(nfc)(c);
      CaseKeeps(c, nfc);
      CaseKeeps(d, nfc);
      CaseTextExact(c, d, nfc);
      var i :| 0 <= i < |q.cases| && q.cases[i] == d;
      FindCaseUnique(q.cases, i);
    }
  }

  lemma SameTextSameCurrent(p: Plan, q: Plan, results: Results, nfc: Nfc)
    requires UniqueIds(p.cases) && UniqueIds(q.cases) && Canonicalize(p, nfc) == Canonicalize(q, nfc)
    requires Current(results, p, nfc)
    ensures Current(results, q, nfc)
  {
    hide Canonicalize, Text;
    forall id | id in results && Text(q, id, nfc).Some? ensures results[id].caseCanon == Text(q, id, nfc) {
      SameTextSameCases(q, p, id, nfc);
    }
  }

  /** A sidecar that reads as current for a plan holds only current results of its cases. */
  lemma CurrentWhenHashMatches(s: StoreState, plan: Plan, env: Env)
    requires InjectiveHash(env) && HashTells(s, env) && UniqueIds(plan.cases)
    requires s.file.Some? && s.file.value.planHash == PlanHash(plan, env)
    ensures Current(s.file.value.caseResults, plan, env.nfc)
  {
    hide Canonicalize, Current;
    var p: Plan :| UniqueIds(p.cases) && s.file.value.planHash == PlanHash(p, env)
             && Current(s.file.value.caseResults, p, env.nfc);
    SameTextSameCurrent(p, plan, s.file.value.caseResults, env.nfc);
  }

  // ---- What each step does to it ----

  /** Every other recorded result of a case of the plan the write saw is stamped with that case's text. */
  ghost predicate OthersCurrent(file: Option<ResultsFile>, pending: Pending, env: Env) {
    forall id :: id in Recorded(file) && id != pending.write.caseId && Text(pending.snapshot, id, env.nfc).Some?
                 ==> Recorded(file)[id].caseCanon == Text(pending.snapshot, id, env.nfc)
  }

  /**
   A finished write stamps the whole sidecar with the hash of the plan it saw but only its own case with
   that case's text, so the hash tells the truth exactly when the other results were current already.
   */
  lemma FinishTellsExactly(s: StoreState, ticket: nat, stamp: Stamp, env: Env)
    requires InjectiveHash(env) && ticket in s.inflight && UniqueIds(s.inflight[ticket].snapshot.cases)
    ensures HashTells(Next(s, Finish(ticket, stamp), env), env) <==> OthersCurrent(s.file, s.inflight[ticket], env)
  {
    hide Canonicalize, CanonicalizeCase, FindCase, Mutated, InjectiveHash;
    var pending := s.inflight[ticket];
    var id, after := pending.write.caseId, Next(s, Finish(ticket, stamp), env);
    var results := after.file.value.caseResults;
    assert Text(pending.snapshot, id, env.nfc).Some? ==> results[id].caseCanon == Text(pending.snapshot, id, env.nfc);
    assert Current(results, pending.snapshot, env.nfc) <==> OthersCurrent(s.file, pending, env);
    if HashTells(after, env) {
      CurrentWhenHashMatches(after, pending.snapshot, env);
    }
  }

  /** Writing over a sidecar that reads as current for the plan the write saw is enough. */
  lemma FreshSidecarIsEnough(s: StoreState, ticket: nat, env: Env)
    requires InjectiveHash(env) && HashTells(s, env)
    requires ticket in s.inflight && UniqueIds(s.inflight[ticket].snapshot.cases)
    requires s.file.Some? ==> s.file.value.planHash == PlanHash(s.inflight[ticket].snapshot, env)
    ensures OthersCurrent(s.file, s.inflight[ticket], env)
  {
    hide Text, PlanHash, InjectiveHash, HashTells;
    if s.file.Some? {
      CurrentWhenHashMatches(s, s.inflight[ticket].snapshot, env);
    }
  }

  lemma ConfirmTells(s: StoreState, purge: bool, time: string, env: Env)
    requires UniqueIds(s.plan.cases)
    ensures HashTells(Next(s, Confirm(purge, time), env), env)
  {
    hide Canonicalize, CanonicalizeCase, FindCase, PlanCanon;
    var after := Next(s, Confirm(purge, time), env);
    forall id | id in after.file.value.caseResults && Text(s.plan, id, env.nfc).Some?
      ensures after.file.value.caseResults[id].caseCanon == Text(s.plan, id, env.nfc)
    {
      PlanCaseCanon(s.plan, id, env.nfc);
    }
    assert Current(after.file.value.caseResults, s.plan, env.nfc);
  }

  // ---- Whole runs ----

  ghost predicate TruthfulAction(s: StoreState, a: Action, env: Env) {
    match a
    case Finish(ticket, _) =>
      ticket in s.inflight
      ==> UniqueIds(s.inflight[ticket].snapshot.cases) && OthersCurrent(s.file, s.inflight[ticket], env)
    case Confirm(_, _) => UniqueIds(s.plan.cases)
    case _ => true
  }

  ghost predicate TruthfulRun(s: StoreState, actions: seq<Action>, env: Env) {
    forall k :: 0 <= k < |actions| ==> TruthfulAction(Run(s, actions[..k], env), actions[k], env)
  }

  lemma {:induction false} TruthfulRunsTell(s: StoreState, actions: seq<Action>, env: Env)
    requires InjectiveHash(env) && HashTells(s, env) && TruthfulRun(s, actions, env)
    ensures HashTells(Run(s, actions, env), env)
    decreases |actions|
  {
    hide HashTells, OthersCurrent, Finished, Confirmed, Refused, InjectiveHash;
    if actions != [] {
      var n := |actions| - 1;
      assert forall k :: 0 <= k < n ==> actions[..n][..k] == actions[..k];
      TruthfulRunsTell(s, actions[..n], env);
      var before := Run(s, actions[..n], env);
      assert TruthfulAction(before, actions[n], env);
      match actions[n] {
        case Finish(ticket, stamp) =>
          if ticket in before.inflight {
            FinishTellsExactly(before, ticket, stamp, env);
          }
        case Confirm(purge, time) => ConfirmTells(before, purge, time, env);
        case _ => SameFileTells(before, Run(s, actions, env), env);
      }
    }
  }

  /** Where ids are unique at each finish and reconcile, the hash tells the truth throughout exactly in such runs. */
  lemma {:induction false} TruthfulRunsExactly(s: StoreState, actions: seq<Action>, env: Env)
    requires InjectiveHash(env) && HashTells(s, env)
    requires forall k :: 0 <= k < |actions| ==> IdsUniqueAt(Run(s, actions[..k], env), actions[k])
    ensures TruthfulRun(s, actions, env)
       <==> forall k :: 0 <= k <= |actions| ==> HashTells(Run(s, actions[..k], env), env)
    decreases |actions|
  {
    hide HashTells, OthersCurrent, Run, Next, InjectiveHash;
    if TruthfulRun(s, actions, env) {
      forall k | 0 <= k <= |actions| ensures HashTells(Run(s, actions[..k], env), env) {
        assert forall j :: 0 <= j < k ==> actions[..k][..j] == actions[..j];
        TruthfulRunsTell(s, actions[..k], env);
      }
    }
    if forall k :: 0 <= k <= |actions| ==> HashTells(Run(s, actions[..k], env), env) {
      forall k | 0 <= k < |actions| ensures TruthfulAction(Run(s, actions[..k], env), actions[k], env) {
        var at := Run(s, actions[..k], env);
        assert IdsUniqueAt(at, actions[k]);
        RunNext(s, actions, k, env);
        if actions[k].Finish? && actions[k].ticket in at.inflight {
          FinishTellsExactly(at, actions[k].ticket, actions[k].stamp, env);
        }
      }
    }
  }

  ghost predicate IdsUniqueAt(s: StoreState, a: Action) {
    match a
    case Finish(ticket, _) => ticket in s.inflight ==> UniqueIds(s.inflight[ticket].snapshot.cases)
    case Confirm(_, _) => UniqueIds(s.plan.cases)
    case _ => true
  }

  lemma SameFileTells(s: StoreState, t: StoreState, env: Env)
    requires s.file == t.file && HashTells(s, env)
    ensures HashTells(t, env)
  {
  }

  // ---- The gate over the store ----

  /** A gate of this spec as the store's plan and sidecar give it, other specs' plans and results alongside. */
  ghost predicate Over(rec: GatePipeline.Records, s: StoreState, env: Env) {
    && rec.plan == s.plan && rec.currentPlanHash == PlanHash(s.plan, env)
    && rec.results == if s.file.Some?
      then Some(GateEvaluator.GateResults(s.file.value.caseResults, s.file.value.planHash)) else None
  }

  /** What is read there is an own, clean pass stamped with the case's present text. */
  ghost predicate PassedAsItStands(rec: GatePipeline.Records, ref: PointerRef, nfc: Nfc)
    requires rec.results.Some?
  {
    var entry := GatePipeline.EntryAt(rec, ref);
    GatePipeline.CleanPass(entry) && entry.result.caseCanon == Text(rec.plan, ref.caseId, nfc)
  }

  /** An obliging id stands at this case of the spec's own plan. */
  ghost predicate OwnPlace(rec: GatePipeline.Records, id: string, ref: PointerRef) {
    && GatePipeline.Obliged(rec, id) && GatePipeline.StandsFor(rec, id, ref)
    && ref.slug == rec.plan.specSlug && FindCase(rec.plan.cases, ref.caseId).Some?
  }

  ghost predicate Passes(unit: GateEvaluator.VerifyUnit, rec: GatePipeline.Records) {
    GateEvaluator.Gate(unit, GatePipeline.Threaded(rec)).status == GateEvaluator.GatePassed
  }

  /** Results exist under the live hash, as every pass needs. */
  predicate Fresh(rec: GatePipeline.Records) {
    rec.results.Some? && rec.results.value.planHash == rec.currentPlanHash
  }

  /** Whichever ids a gate declares, where they stand in the own plan it passes on the present bodies. */
  ghost predicate EveryPassIsPresent(rec: GatePipeline.Records, nfc: Nfc) {
    forall unit, id, ref :: Passes(unit, rec) && id in unit.testCaseIds && OwnPlace(rec, id, ref)
      ==> && rec.results.Some?
          && (PassedAsItStands(rec, ref, nfc) || GatePipeline.EntryAt(rec, ref) == GateEvaluator.Inherited)
  }

  ghost predicate CleanPassesArePresent(rec: GatePipeline.Records, nfc: Nfc)
    requires rec.results.Some?
  {
    forall id, ref :: OwnPlace(rec, id, ref) && GatePipeline.CleanPass(GatePipeline.EntryAt(rec, ref))
                      ==> PassedAsItStands(rec, ref, nfc)
  }

  lemma PassReadsCleanly(unit: GateEvaluator.VerifyUnit, rec: GatePipeline.Records, id: string, ref: PointerRef)
    requires UniqueIds(rec.plan.cases) && Passes(unit, rec)
    requires id in unit.testCaseIds && GatePipeline.Obliged(rec, id) && GatePipeline.StandsFor(rec, id, ref)
    ensures Fresh(rec)
    ensures var entry := GatePipeline.EntryAt(rec, ref);
            GatePipeline.CleanPass(entry) || entry == GateEvaluator.Inherited
  {
    hide FindCase, GateEvaluator.Gate, GateEvaluator.SourceResult, GateEvaluator.ResultOutcome, GatePipeline.StandsFor;
    hide GatePipeline.Verified, GatePipeline.Slips, GatePipeline.OutsidePolicy, GatePipeline.CleanPass;
    GatePipeline.PassedExactly(unit, rec);
    GatePipeline.ClearedIsVerified(rec, id);
    GatePipeline.ReadWhereItStands(rec, id);
    GatePipeline.ClearedIsPass(GatePipeline.EntryAt(rec, ref));
  }

  lemma LonePass(rec: GatePipeline.Records, id: string, ref: PointerRef) returns (unit: GateEvaluator.VerifyUnit)
    requires UniqueIds(rec.plan.cases) && Fresh(rec) && OwnPlace(rec, id, ref)
    requires GatePipeline.CleanPass(GatePipeline.EntryAt(rec, ref))
    ensures Passes(unit, rec) && id in unit.testCaseIds
  {
    hide FindCase, GateEvaluator.Gate, GatePipeline.StandsFor, GatePipeline.CleanPass, GatePipeline.Obliged;
    unit := GateEvaluator.VerifyUnit("", [], [], [], [id]);
    assert GatePipeline.Verified(rec, id);
    assert unit.testCaseIds[0] == id;
    GatePipeline.PassedExactly(unit, rec);
  }

  /**
   Every gate that passes does so on present bodies exactly when the results are not fresh, and nothing
   passes, or every clean pass where an obliging case stands in the own plan is stamped with that case's
   present text.
   */
  lemma EveryPassIsPresentExactly(rec: GatePipeline.Records, nfc: Nfc)
    requires UniqueIds(rec.plan.cases)
    ensures EveryPassIsPresent(rec, nfc) <==> (Fresh(rec) ==> CleanPassesArePresent(rec, nfc))
  {
    hide Passes, OwnPlace, GatePipeline.CleanPass, GatePipeline.EntryAt, Text;
    CleanIsNotInherited();
    if EveryPassIsPresent(rec, nfc) && Fresh(rec) {
      forall id, ref | OwnPlace(rec, id, ref) && GatePipeline.CleanPass(GatePipeline.EntryAt(rec, ref))
        ensures PassedAsItStands(rec, ref, nfc)
      {
        var unit := LonePass(rec, id, ref);
      }
    }
    if Fresh(rec) ==> CleanPassesArePresent(rec, nfc) {
      forall unit, id, ref | Passes(unit, rec) && id in unit.testCaseIds && OwnPlace(rec, id, ref)
        ensures && rec.results.Some?
                && (PassedAsItStands(rec, ref, nfc) || GatePipeline.EntryAt(rec, ref) == GateEvaluator.Inherited)
      {
        OwnPlaceParts(rec, id, ref);
        PassReadsCleanly(unit, rec, id, ref);
      }
    }
  }

  lemma OwnPlaceParts(rec: GatePipeline.Records, id: string, ref: PointerRef)
    requires OwnPlace(rec, id, ref)
    ensures GatePipeline.Obliged(rec, id) && GatePipeline.StandsFor(rec, id, ref)
    ensures ref.slug == rec.plan.specSlug && FindCase(rec.plan.cases, ref.caseId).Some?
  {
    hide GatePipeline.Obliged, GatePipeline.StandsFor, FindCase;
  }

  lemma CleanIsNotInherited()
    ensures forall entry :: GatePipeline.CleanPass(entry) ==> entry.Own?
  {
  }

  /** Each clean pass already recorded for another case where an obliging id stands has that case's live text. */
  ghost predicate OtherPassesPresent(s: StoreState, written: string, rec: GatePipeline.Records, env: Env) {
    forall id, ref :: OwnPlace(rec, id, ref) && ref.caseId != written && ref.caseId in Recorded(s.file)
                      && GatePipeline.CleanPass(GateEvaluator.Own(Recorded(s.file)[ref.caseId]))
                      ==> Recorded(s.file)[ref.caseId].caseCanon == Text(s.plan, ref.caseId, env.nfc)
  }

  /**
   A write that finishes leaves every pass on present bodies exactly when the plan it saw no longer has the
   live text, and nothing passes, or the other recorded clean passes were on present bodies already.
   */
  lemma FinishLeavesPassesPresentExactly(s: StoreState, ticket: nat, stamp: Stamp, env: Env, rec: GatePipeline.Records)
    requires InjectiveHash(env) && ticket in s.inflight
    requires UniqueIds(s.plan.cases) && UniqueIds(s.inflight[ticket].snapshot.cases)
    requires Over(rec, Next(s, Finish(ticket, stamp), env), env)
    ensures EveryPassIsPresent(rec, env.nfc)
       <==> || Canonicalize(s.inflight[ticket].snapshot, env.nfc) != Canonicalize(s.plan, env.nfc)
            || OtherPassesPresent(s, s.inflight[ticket].write.caseId, rec, env)
  {
    hide EveryPassIsPresent, OwnPlace, GatePipeline.CleanPass, Canonicalize, Text, Mutated;
    var pending := s.inflight[ticket];
    var id := pending.write.caseId;
    EveryPassIsPresentExactly(rec, env.nfc);
    assert Fresh(rec) <==> Canonicalize(pending.snapshot, env.nfc) == Canonicalize(s.plan, env.nfc);
    if Fresh(rec) {
      WrittenIsPresent(s, ticket, stamp, env);
      forall any, ref | OwnPlace(rec, any, ref)
        ensures var entry := GatePipeline.EntryAt(rec, ref);
                && (ref.caseId == id ==> entry.Own? && entry.result.caseCanon == Text(s.plan, id, env.nfc))
                && (ref.caseId != id ==> entry == GateEvaluator.Read(Recorded(s.file), ref.caseId))
      {
        OwnPlaceParts(rec, any, ref);
        TextOfPlanned(s.plan, ref.caseId, env.nfc);
      }
      CleanIsNotInherited();
      ReadOwn(Recorded(s.file));
    }
  }

  lemma ReadOwn(results: Results)
    ensures forall id :: GateEvaluator.Read(results, id).Own?
                         <==> id in results && GateEvaluator.Read(results, id) == GateEvaluator.Own(results[id])
    ensures forall id :: id in results ==> GateEvaluator.Read(results, id) == GateEvaluator.Own(results[id])
  {
  }

  lemma TextOfPlanned(plan: Plan, id: string, nfc: Nfc)
    ensures Text(plan, id, nfc).Some? <==> FindCase(plan.cases, id).Some?
  {
    hide CanonicalizeCase;
  }

  /** The finished write's own case is stamped with its live text when the plan it saw has the live plan's text. */
  lemma WrittenIsPresent(s: StoreState, ticket: nat, stamp: Stamp, env: Env)
    requires ticket in s.inflight && UniqueIds(s.plan.cases) && UniqueIds(s.inflight[ticket].snapshot.cases)
    requires Canonicalize(s.inflight[ticket].snapshot, env.nfc) == Canonicalize(s.plan, env.nfc)
    ensures var id := s.inflight[ticket].write.caseId;
            Text(s.plan, id, env.nfc).Some?
            ==> Recorded(Next(s, Finish(ticket, stamp), env).file)[id].caseCanon == Text(s.plan, id, env.nfc)
  {
    hide Canonicalize, CanonicalizeCase, FindCase, Mutated;
    SameTextSameCases(s.plan, s.inflight[ticket].snapshot, s.inflight[ticket].write.caseId, env.nfc);
  }

  /**
   After a truthful run, a gate that passes does so on present bodies: wherever an obliging case stands in
   the spec's own plan, the pass read there is stamped with the body that plan now holds. Only a name
   every object inherits can be read otherwise.
   */
  lemma PassedOnPresentBodies(s: StoreState, actions: seq<Action>, env: Env, unit: GateEvaluator.VerifyUnit,
                              rec: GatePipeline.Records, id: string, ref: PointerRef)
    requires InjectiveHash(env) && HashTells(s, env) && TruthfulRun(s, actions, env)
    requires Over(rec, Run(s, actions, env), env) && UniqueIds(rec.plan.cases)
    requires Passes(unit, rec) && id in unit.testCaseIds && OwnPlace(rec, id, ref)
    ensures rec.results.Some?
    ensures PassedAsItStands(rec, ref, env.nfc) || GatePipeline.EntryAt(rec, ref) == GateEvaluator.Inherited
  {
    hide Run, TruthfulRun, PlanHash, InjectiveHash, FindCase, CanonicalizeCase, Passes;
    hide GatePipeline.Obliged, GatePipeline.StandsFor, GatePipeline.CleanPass;
    var at := Run(s, actions, env);
    TruthfulRunsTell(s, actions, env);
    PassReadsCleanly(unit, rec, id, ref);
    CurrentWhenHashMatches(at, at.plan, env);
    CleanIsRecorded(rec, ref);
  }

  /**
   After a run both truthful and safe, where an obliging case of a passed gate stands in the own plan, a
   reviewer overrode it to passed or the present body's observations derive as passed.
   */
  lemma PassedOnPresentObservations(s: StoreState, actions: seq<Action>, env: Env, unit: GateEvaluator.VerifyUnit,
                                    rec: GatePipeline.Records, id: string, ref: PointerRef)
    requires InjectiveHash(env) && HashTells(s, env) && TruthfulRun(s, actions, env)
    requires StampsTrue(s, env) && SafeRun(s, actions, env)
    requires Over(rec, Run(s, actions, env), env) && UniqueIds(rec.plan.cases)
    requires Passes(unit, rec) && id in unit.testCaseIds && OwnPlace(rec, id, ref)
    ensures rec.results.Some?
    ensures var entry := GatePipeline.EntryAt(rec, ref);
            || entry == GateEvaluator.Inherited
            || (&& entry.Own?
                && var override, observed := entry.result.statusOverride, PlanCaseObservationIds(rec.plan, ref.caseId);
                   if override.Some? then override.value.status == Passed
                   else DeriveStatus(observed, entry.result.observationMarks) == Passed)
  {
    hide Run, SafeRun, TruthfulRun, PlanHash, InjectiveHash, HashTells, FindCase, CanonicalizeCase, Passes;
    hide GatePipeline.Obliged, GatePipeline.StandsFor, DeriveStatus, ObservationIds, StampTrue;
    PassedOnPresentBodies(s, actions, env, unit, rec, id, ref);
    SafeRunsKeepStamps(s, actions, env);
    if GatePipeline.EntryAt(rec, ref) != GateEvaluator.Inherited {
      CleanIsRecorded(rec, ref);
      StampedWith(GatePipeline.EntryAt(rec, ref).result, FindCase(rec.plan.cases, ref.caseId).value, env.nfc);
    }
  }

  lemma CleanIsRecorded(rec: GatePipeline.Records, ref: PointerRef)
    requires rec.results.Some? && ref.slug == rec.plan.specSlug
    ensures var entry, own := GatePipeline.EntryAt(rec, ref), rec.results.value.caseResults;
            GatePipeline.CleanPass(entry) ==> ref.caseId in own && entry.result == own[ref.caseId]
  {
  }

  // ---- A run that is not truthful ----

  const OTHER := ONE_OBSERVATION.(id := "A")
  const AS_MARKED := Plan("spec", [ONE_OBSERVATION, OTHER])
  const AS_EDITED := Plan("spec", [TWO_OBSERVATIONS, OTHER])
  const MARK_OTHER := Mark("A", "O1", Some(Pass))

  /** Case C is marked, its body is edited, then the other case is marked. */
  function MarkEditMarkOther(stamp: Stamp): seq<Action> {
    Alone(MARK_IT, stamp) + [EditPlan(AS_EDITED)] + Alone(MARK_OTHER, stamp)
  }

  lemma AfterMarkingOther(stamp: Stamp, env: Env) returns (at: StoreState)
    ensures at == Run(StoreState(AS_MARKED, None, map[]), MarkEditMarkOther(stamp), env)
    ensures at.plan == AS_EDITED && at.file.Some? && at.file.value.planHash == PlanHash(AS_EDITED, env)
    ensures "C" in Recorded(at.file)
    ensures Recorded(at.file)["C"] == Written(None, Pending(MARK_IT, AS_MARKED), stamp, env)
  {
    hide Run, Written, PlanHash;
    var start, first := StoreState(AS_MARKED, None, map[]), Alone(MARK_IT, stamp);
    var once := Finished(None, Pending(MARK_IT, AS_MARKED), stamp, env);
    var twice := Finished(Some(once), Pending(MARK_OTHER, AS_EDITED), stamp, env);
    at := StoreState(AS_EDITED, Some(twice), map[]);
    RunAlone(AS_MARKED, None, MARK_IT, stamp, env);
    RunSnoc(start, first, EditPlan(AS_EDITED), env);
    RunAppend(start, first + [EditPlan(AS_EDITED)], Alone(MARK_OTHER, stamp), env);
    RunAlone(AS_EDITED, Some(once), MARK_OTHER, stamp, env);
  }

  /**
   Marking case A after an edit of case C makes C's old pass read as current: C's gate passes, though the
   pass was recorded against another body and the present one has an observation nobody marked.
   */
  lemma MarkingOneCaseRefreshesAnother(stamp: Stamp, env: Env, unit: GateEvaluator.VerifyUnit,
                                       rec: GatePipeline.Records)
    requires unit.testCaseIds == ["C"]
    requires Over(rec, Run(StoreState(AS_MARKED, None, map[]), MarkEditMarkOther(stamp), env), env)
    ensures GateEvaluator.Gate(unit, GatePipeline.Threaded(rec)).status == GateEvaluator.GatePassed
    ensures rec.results.Some? && "C" in rec.results.value.caseResults
    ensures rec.results.value.caseResults["C"].caseCanon != Text(rec.plan, "C", env.nfc)
  {
    hide Run, Written, PlanHash, CanonicalizeCase, ObservationIds, GateEvaluator.Gate;
    var at := AfterMarkingOther(stamp, env);
    FirstMarkPasses(AS_MARKED, stamp, env);
    assert FindCase(AS_EDITED.cases, "C") == Some(TWO_OBSERVATIONS);
    SmallCaseObservations();
    if CanonicalizeCase(ONE_OBSERVATION, env.nfc) == CanonicalizeCase(TWO_OBSERVATIONS, env.nfc) {
      TextFixesObservations(ONE_OBSERVATION, TWO_OBSERVATIONS, env.nfc, "O2");
    }
    var ref := PointerRef("spec", "C");
    assert GatePipeline.StandsFor(rec, "C", ref) && GatePipeline.CleanPass(GatePipeline.EntryAt(rec, ref));
    assert GatePipeline.Obliged(rec, "C") && GatePipeline.Verified(rec, "C");
    assert unit.testCaseIds[0] in unit.testCaseIds;
    GatePipeline.PassedExactly(unit, rec);
  }
}
