/**
 The status of a gate read off the plan's cases, the supplied plans and the recorded results alone: which
 declared cases oblige, where each is read, and what the readings make of the gate.
 */
module GateFacts {
  import opened Wrappers
  import opened Contracts
  import opened LifecycleResolver
  import opened SupersessionTrail
  import opened SuppliedPlans
  import opened GateEvaluator
  import opened GatePipeline
  import opened ResolutionFacts
  import opened PlainObjects

  // ---- Which declared cases oblige ----

  ghost predicate RetiredCaseOf(rec: Records, id: string) {
    exists c :: c in rec.plan.cases && c.id == id && c.lifecycle.Some? && c.lifecycle.value.Retired?
  }

  /** A case of the plan that is neither at level 1 or 2 nor an end-to-end flow. */
  ghost predicate LowCaseOf(rec: Records, id: string) {
    exists c :: c in rec.plan.cases && c.id == id && c.level != 1 && c.level != 2 && c.category != "e2e_flow"
  }

  ghost predicate Owes(rec: Records, id: string) {
    !RetiredCaseOf(rec, id) && !LowCaseOf(rec, id)
  }

  // ---- Where a case is read, and what is read there ----

  ghost predicate IsAt(rec: Records, id: string, at: PointerRef) {
    var inputs := Inputs(rec.inputs.plans[rec.plan.specSlug := rec.plan], rec.inputs.specLifecycles);
    if exists c :: c in rec.plan.cases && c.id == id && c.lifecycle.Some? && c.lifecycle.value.Superseded? then
      exists c :: && c in rec.plan.cases && c.id == id && c.lifecycle.Some? && c.lifecycle.value.Superseded?
                  && LeadsTo(rec.plan.specSlug, c, inputs, at)
    else
      at == PointerRef(rec.plan.specSlug, id)
  }

  /** The results of the spec a case lives in: the gate's own, or those threaded in. */
  ghost predicate Threads(rec: Records, slug: string, results: map<string, CaseResult>)
    requires rec.results.Some?
  {
    if slug == rec.plan.specSlug then results == rec.results.value.caseResults
    else slug in rec.resultsBySlug && results == rec.resultsBySlug[slug]
  }

  ghost predicate InForce(result: CaseResult, status: CaseStatus) {
    if result.statusOverride.Some? then result.statusOverride.value.status == status else result.derivedStatus == status
  }

  /** Passed in force and not orphaned; or nothing recorded under a name every object inherits. */
  ghost predicate ClearAt(rec: Records, at: PointerRef)
    requires rec.results.Some?
  {
    exists results: map<string, CaseResult> :: Threads(rec, at.slug, results)
      && if at.caseId in results then !results[at.caseId].orphaned && InForce(results[at.caseId], Passed)
         else at.caseId in INHERITED
  }

  ghost predicate FailsAt(rec: Records, at: PointerRef)
    requires rec.results.Some?
  {
    exists results: map<string, CaseResult> :: Threads(rec, at.slug, results) && at.caseId in results
      && !results[at.caseId].orphaned
      && (InForce(results[at.caseId], Failed) || InForce(results[at.caseId], Blocked))
  }

  ghost predicate Clear(rec: Records, id: string)
    requires rec.results.Some?
  {
    exists at :: IsAt(rec, id, at) && ClearAt(rec, at)
  }

  ghost predicate Fails(rec: Records, id: string)
    requires rec.results.Some?
  {
    exists at :: IsAt(rec, id, at) && FailsAt(rec, at)
  }

  ghost predicate FreshResults(rec: Records) {
    rec.results.Some? && rec.results.value.planHash == rec.currentPlanHash
  }

  // ---- The model's predicates are these facts ----

  lemma OnlyCase(cases: seq<Case>, id: string, c: Case)
    requires UniqueIds(cases) && c in cases && c.id == id
    ensures FindCase(cases, id) == Some(c)
    ensures forall d :: d in cases && d.id == id ==> d == c
  {
    hide FindCase;
    var i :| 0 <= i < |cases| && cases[i] == c;
    FindCaseUnique(cases, i);
    forall d | d in cases && d.id == id ensures d == c {
      var j :| 0 <= j < |cases| && cases[j] == d;
      FindCaseUnique(cases, j);
    }
  }

  lemma OwesIsObliged(rec: Records, id: string)
    requires UniqueIds(rec.plan.cases)
    ensures RetiredInPlan(rec, id) <==> RetiredCaseOf(rec, id)
    ensures OutsidePolicy(rec, id) <==> LowCaseOf(rec, id)
    ensures Obliged(rec, id) <==> Owes(rec, id)
  {
    hide FindCase;
    if c :| c in rec.plan.cases && c.id == id {
      OnlyCase(rec.plan.cases, id, c);
    }
  }

  lemma IsAtIsStandsFor(rec: Records, id: string, at: PointerRef)
    requires UniqueIds(rec.plan.cases)
    ensures IsAt(rec, id, at) <==> StandsFor(rec, id, at)
  {
    hide FindCase, LeadsTo, LiveAfter;
    if c :| c in rec.plan.cases && c.id == id {
      OnlyCase(rec.plan.cases, id, c);
      if IsSuperseded(c) {
        LeadsIsLiveAfter(rec.plan.specSlug, c, WithPlan(rec.plan, rec.inputs), at);
      }
    }
  }

  lemma ReadingMeans(rec: Records, at: PointerRef)
    requires rec.results.Some?
    ensures ResultOutcome(EntryAt(rec, at)) == Cleared <==> ClearAt(rec, at)
    ensures ResultOutcome(EntryAt(rec, at)) == Failing <==> FailsAt(rec, at)
  {
    if at.slug == rec.plan.specSlug {
      assert Threads(rec, at.slug, rec.results.value.caseResults);
    } else if at.slug in rec.resultsBySlug {
      assert Threads(rec, at.slug, rec.resultsBySlug[at.slug]);
    }
  }

  lemma OutcomeMeans(rec: Records, id: string)
    requires UniqueIds(rec.plan.cases) && rec.results.Some? && Owes(rec, id)
    ensures CaseOutcome(Threaded(rec), id) == Cleared <==> Clear(rec, id)
    ensures CaseOutcome(Threaded(rec), id) == Failing <==> Fails(rec, id)
  {
    hide StandsFor, IsAt, SourceResult, EntryAt, ClearAt, FailsAt;
    OwesIsObliged(rec, id);
    ReadWhereItStands(rec, id);
    forall at ensures IsAt(rec, id, at) <==> StandsFor(rec, id, at) {
      IsAtIsStandsFor(rec, id, at);
    }
    forall at
      ensures ResultOutcome(EntryAt(rec, at)) == Cleared <==> ClearAt(rec, at)
      ensures ResultOutcome(EntryAt(rec, at)) == Failing <==> FailsAt(rec, at)
    {
      ReadingMeans(rec, at);
    }
  }

  lemma DisposedPlainly(rec: Records, id: string)
    requires UniqueIds(rec.plan.cases)
    ensures Dispose(Threaded(rec), id) == Gates <==> Owes(rec, id)
    ensures Dispose(Threaded(rec), id) == RetiredAway <==> RetiredCaseOf(rec, id)
    ensures Dispose(Threaded(rec), id) == PolicyExcluded <==> LowCaseOf(rec, id) && !RetiredCaseOf(rec, id)
  {
    hide Dispose, RetiredInPlan, OutsidePolicy, RetiredCaseOf, LowCaseOf;
    DisposedByPlan(rec, id);
    OwesIsObliged(rec, id);
  }

  // ---- The whole table ----

  ghost predicate SomeOwe(unit: VerifyUnit, rec: Records) {
    exists id :: id in unit.testCaseIds && Owes(rec, id)
  }

  /** The five statuses, each exactly on its own facts. */
  lemma StatusPlainly(unit: VerifyUnit, rec: Records)
    requires UniqueIds(rec.plan.cases)
    ensures var status := Gate(unit, Threaded(rec)).status;
            && (status == NoGatingCases <==> !SomeOwe(unit, rec))
            && (status == GateStale <==> SomeOwe(unit, rec) && !FreshResults(rec))
            && (status == GateFailed
                <==> FreshResults(rec) && exists id :: id in unit.testCaseIds && Owes(rec, id) && Fails(rec, id))
            && (status == GatePassed
                <==> && SomeOwe(unit, rec) && FreshResults(rec)
                     && forall id :: id in unit.testCaseIds && Owes(rec, id) ==> Clear(rec, id))
            && (status == GatePending
                <==> && FreshResults(rec)
                     && (forall id :: id in unit.testCaseIds && Owes(rec, id) ==> !Fails(rec, id))
                     && exists id :: id in unit.testCaseIds && Owes(rec, id) && !Clear(rec, id))
  {
    hide Gate, Dispose, CaseOutcome, Owes, Clear, Fails, ResolvePlan;
    var ctx, ids := Threaded(rec), IdSet(unit.testCaseIds);
    StatusDependsOnSet(unit, ctx);
    forall id ensures Dispose(ctx, id) == Gates <==> Owes(rec, id) {
      DisposedPlainly(rec, id);
    }
    assert forall id :: id in ids <==> id in unit.testCaseIds;
    assert SomeOwe(unit, rec) <==> HasGating(ctx, ids);
    if rec.results.Some? {
      forall id | Owes(rec, id)
        ensures CaseOutcome(ctx, id) == Cleared <==> Clear(rec, id)
        ensures CaseOutcome(ctx, id) == Failing <==> Fails(rec, id)
        ensures CaseOutcome(ctx, id) == Waiting <==> CaseOutcome(ctx, id) != Cleared && CaseOutcome(ctx, id) != Failing
      {
        OutcomeMeans(rec, id);
      }
      assert SomeWith(ctx, ids, Failing) <==> exists id :: id in unit.testCaseIds && Owes(rec, id) && Fails(rec, id);
    }
  }

  /** The lists a gate state carries, and what an empty gate names as its cause. */
  lemma ListsPlainly(unit: VerifyUnit, rec: Records)
    requires UniqueIds(rec.plan.cases)
    ensures var s := Gate(unit, Threaded(rec));
            && (forall id :: id in s.gatingCaseIds <==> id in unit.testCaseIds && Owes(rec, id))
            && (forall id :: id in s.lifecycleExcludedCaseIds <==> id in unit.testCaseIds && RetiredCaseOf(rec, id))
            && (forall id :: id in s.unresolvedCaseIds
                             <==> && id in unit.testCaseIds && Owes(rec, id)
                                  && (FreshResults(rec) ==> !Clear(rec, id)))
            && var retired := exists id :: id in unit.testCaseIds && RetiredCaseOf(rec, id);
               var low := exists id :: id in unit.testCaseIds && LowCaseOf(rec, id) && !RetiredCaseOf(rec, id);
               var empty := !SomeOwe(unit, rec);
               && (s.emptyReason == Some(Mixed) <==> empty && retired && low)
               && (s.emptyReason == Some(ByLifecycle) <==> empty && retired && !low)
               && (s.emptyReason == Some(ByPolicy) <==> empty && !retired && low)
  {
    hide Dispose, CaseOutcome, Owes, Clear, RetiredCaseOf, LowCaseOf, ResolvePlan, Select;
    var ctx, s := Threaded(rec), Gate(unit, Threaded(rec));
    var gating, retired := GatingIds(ctx, unit.testCaseIds), RetiredIds(ctx, unit.testCaseIds);
    forall id
      ensures Dispose(ctx, id) == Gates <==> Owes(rec, id)
      ensures Dispose(ctx, id) == RetiredAway <==> RetiredCaseOf(rec, id)
      ensures Dispose(ctx, id) == PolicyExcluded <==> LowCaseOf(rec, id) && !RetiredCaseOf(rec, id)
    {
      DisposedPlainly(rec, id);
    }
    assert gating == [] <==> !SomeOwe(unit, rec) by {
      if gating != [] {
        assert gating[0] in gating;
      }
    }
    assert retired == [] <==> forall id :: id in unit.testCaseIds ==> !RetiredCaseOf(rec, id) by {
      if retired != [] {
        assert retired[0] in retired;
      }
    }
    if rec.results.Some? {
      forall id | Owes(rec, id) ensures CaseOutcome(ctx, id) == Cleared <==> Clear(rec, id) {
        OutcomeMeans(rec, id);
      }
      ClearOrUnresolved(ctx, gating);
    }
  }

  /** A case at any other level and of any other category never changes a gate's status, declared or not. */
  lemma LowCaseNeverMatters(with: VerifyUnit, without: VerifyUnit, rec: Records, id: string)
    requires UniqueIds(rec.plan.cases)
    requires exists c :: c in rec.plan.cases && c.id == id && c.level !in {1, 2} && c.category != "e2e_flow"
    requires forall other :: other != id ==> (other in with.testCaseIds <==> other in without.testCaseIds)
    ensures Gate(with, Threaded(rec)).status == Gate(without, Threaded(rec)).status
  {
    hide Gate, Threaded, Clear, Fails, RetiredCaseOf;
    assert LowCaseOf(rec, id);
    StatusPlainly(with, rec);
    StatusPlainly(without, rec);
    assert !Owes(rec, id);
    assert forall other :: Owes(rec, other) ==> (other in with.testCaseIds <==> other in without.testCaseIds);
  }

  /** In a passed gate, what a superseded obliging case answers for lives in a supplied, unarchived spec. */
  lemma PassedOnLiveSpecs(unit: VerifyUnit, rec: Records, c: Case)
    requires UniqueIds(rec.plan.cases) && Gate(unit, Threaded(rec)).status == GatePassed
    requires c in rec.plan.cases && c.id in unit.testCaseIds && Owes(rec, c.id)
    requires c.lifecycle.Some? && c.lifecycle.value.Superseded?
    ensures rec.results.Some?
    ensures exists at, target :: && IsAt(rec, c.id, at) && ClearAt(rec, at)
                                 && (at.slug in rec.inputs.plans || at.slug == rec.plan.specSlug)
                                 && at.slug !in rec.inputs.specLifecycles
                                 && Names(WithPlan(rec.plan, rec.inputs), at, target) && target.lifecycle.None?
  {
    hide Gate, Threaded, Owes, ClearAt, Hops;
    StatusPlainly(unit, rec);
    var at :| IsAt(rec, c.id, at) && ClearAt(rec, at);
    var d :| && d in rec.plan.cases && d.id == c.id && d.lifecycle.Some? && d.lifecycle.value.Superseded?
             && LeadsTo(rec.plan.specSlug, d, WithPlan(rec.plan, rec.inputs), at);
    var target :| Names(WithPlan(rec.plan, rec.inputs), at, target) && target.lifecycle.None?;
  }

  /** Where resolutions repeat an origin id the first is used; where cases repeat an id, the last. */
  lemma {:induction false} FirstResolutionIsFirst(resolutions: seq<Resolution>, i: nat)
    requires i < |resolutions|
    requires forall j :: 0 <= j < i ==> resolutions[j].origin.caseId != resolutions[i].origin.caseId
    ensures FirstResolution(resolutions, resolutions[i].origin.caseId) == Some(resolutions[i])
    decreases |resolutions|
  {
    var n := |resolutions| - 1;
    if i < n {
      FirstResolutionIsFirst(resolutions[..n], i);
    } else {
      forall r | r in resolutions[..n] ensures r.origin.caseId != resolutions[i].origin.caseId {
        var j :| 0 <= j < n && resolutions[j] == r;
      }
    }
  }

  lemma {:induction false} LastCaseIsLast(cases: seq<Case>, i: nat)
    requires i < |cases| && forall j :: i < j < |cases| ==> cases[j].id != cases[i].id
    ensures LastCase(cases, cases[i].id) == Some(cases[i])
    decreases |cases|
  {
    if i < |cases| - 1 {
      LastCaseIsLast(cases[..|cases| - 1], i);
    }
  }

  /** Without a plan and a lifecycle view every declared id gates as it is, in the order declared. */
  lemma BareGate(unit: VerifyUnit, ctx: Context)
    requires ctx.plan == None && ctx.lifecycle == None
    ensures Gate(unit, ctx).gatingCaseIds == unit.testCaseIds && Gate(unit, ctx).lifecycleExcludedCaseIds == []
  {
    hide CaseOutcome, Select;
    AllKept(unit.testCaseIds, id => Dispose(ctx, id) == Gates);
    NoneKept(unit.testCaseIds, id => Dispose(ctx, id) == RetiredAway);
  }

  lemma {:induction false} AllKept(ids: seq<string>, keep: string -> bool)
    requires forall id :: keep(id)
    ensures Select(ids, keep) == ids
  {
    if ids != [] {
      AllKept(ids[..|ids| - 1], keep);
    }
  }

  lemma {:induction false} NoneKept(ids: seq<string>, keep: string -> bool)
    requires forall id :: !keep(id)
    ensures Select(ids, keep) == []
  {
    if ids != [] {
      NoneKept(ids[..|ids| - 1], keep);
    }
  }
}
