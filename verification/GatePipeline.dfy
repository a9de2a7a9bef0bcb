/**
 Resolver and evaluator together, as the gates route threads them: when a gate reads as passed, said
 without resolutions, outcomes or rungs.
 */
module GatePipeline {
  import opened Wrappers
  import opened Contracts
  import opened LifecycleResolver
  import opened SupersessionTrail
  import opened SuppliedPlans
  import opened GateEvaluator
  import opened PlainObjects

  /** What a gate of this plan is evaluated against. */
  datatype Records = Records(
    plan: Plan,
    inputs: Inputs,
    results: Option<GateResults>,
    currentPlanHash: string,
    resultsBySlug: map<string, map<string, CaseResult>>)

  function Threaded(rec: Records): Context {
    Context(rec.results, rec.currentPlanHash, Some(rec.plan),
            Some(GateLifecycle(ResolvePlan(rec.plan, rec.inputs), rec.resultsBySlug)))
  }

  predicate RetiredInPlan(rec: Records, id: string) {
    var c := FindCase(rec.plan.cases, id);
    c.Some? && c.value.lifecycle.Some? && c.value.lifecycle.value.Retired?
  }

  predicate OutsidePolicy(rec: Records, id: string) {
    var c := FindCase(rec.plan.cases, id);
    c.Some? && !CaseGatesByDefaultPolicy(c.value.level, c.value.category)
  }

  /** Declared, and neither retired nor outside the default policy. */
  predicate Obliged(rec: Records, id: string) {
    !RetiredInPlan(rec, id) && !OutsidePolicy(rec, id)
  }

  predicate CleanPass(entry: Entry) {
    entry.Own? && !entry.result.orphaned && EffectiveStatus(entry.result) == Passed
  }

  /** What the results of the spec a case lives in hold for it. */
  function EntryAt(rec: Records, at: PointerRef): Entry
    requires rec.results.Some?
  {
    if at.slug == rec.plan.specSlug then Read(rec.results.value.caseResults, at.caseId)
    else if at.slug in rec.resultsBySlug then Read(rec.resultsBySlug[at.slug], at.caseId)
    else Absent
  }

  /** The live case a declared id answers for: itself, or the one its pointers lead to within ten hops. */
  ghost predicate StandsFor(rec: Records, id: string, at: PointerRef) {
    match FindCase(rec.plan.cases, id)
    case Some(c) =>
      if IsSuperseded(c) then
        exists k :: 1 <= k <= MAX_SUPERSESSION_DEPTH
          && LiveAfter(rec.plan.specSlug, c, WithPlan(rec.plan, rec.inputs), k, at)
      else at == PointerRef(rec.plan.specSlug, id)
    case None => at == PointerRef(rec.plan.specSlug, id)
  }

  ghost predicate Verified(rec: Records, id: string)
    requires rec.results.Some?
  {
    exists at :: StandsFor(rec, id, at) && CleanPass(EntryAt(rec, at))
  }

  /** Nothing is recorded where the id is read, but its name is one every object inherits. */
  ghost predicate Slips(rec: Records, id: string)
    requires rec.results.Some?
  {
    exists at :: StandsFor(rec, id, at) && EntryAt(rec, at) == Inherited
  }

  lemma ResolutionOfCase(plan: Plan, inputs: Inputs, id: string)
    requires UniqueIds(plan.cases)
    ensures FirstResolution(ResolvePlan(plan, inputs), id)
         == match FindCase(plan.cases, id)
            case None => None
            case Some(c) => Some(Resolve(plan.specSlug, c, WithPlan(plan, inputs)))
  {
    hide FirstResolution, FindCase, Resolve;
    var rs := ResolvePlan(plan, inputs);
    match FirstResolution(rs, id) {
      case Some(r) =>
        var i :| 0 <= i < |rs| && rs[i] == r;
        FindCaseUnique(plan.cases, i);
      case None =>
        forall c | c in plan.cases ensures c.id != id {
          var i :| 0 <= i < |plan.cases| && plan.cases[i] == c;
          assert rs[i] in rs;
        }
    }
  }

  lemma LastIsOnly(cases: seq<Case>, id: string)
    requires UniqueIds(cases)
    ensures LastCase(cases, id) == FindCase(cases, id)
  {
    hide LastCase, FindCase;
    match LastCase(cases, id) {
      case Some(c) =>
        var i :| 0 <= i < |cases| && cases[i] == c;
        FindCaseUnique(cases, i);
      case None =>
    }
  }

  lemma DisposedByPlan(rec: Records, id: string)
    requires UniqueIds(rec.plan.cases)
    ensures Dispose(Threaded(rec), id)
         == if RetiredInPlan(rec, id) then RetiredAway else if OutsidePolicy(rec, id) then PolicyExcluded else Gates
  {
    hide FirstResolution, LastCase, FindCase, ResolvePlan, Walk;
    ResolutionOfCase(rec.plan, rec.inputs, id);
    LastIsOnly(rec.plan.cases, id);
    match FindCase(rec.plan.cases, id) {
      case Some(c) => ResolvedStatus(rec.plan.specSlug, c, WithPlan(rec.plan, rec.inputs));
      case None =>
    }
  }

  lemma ResolvedStatus(slug: string, c: Case, inputs: Inputs)
    ensures var status := Resolve(slug, c, inputs).status;
            && (status == RetiredOrigin <==> c.lifecycle.Some? && c.lifecycle.value.Retired?)
            && (status == Live <==> c.lifecycle.None?)
  {
    hide Walk, Land;
    if IsSuperseded(c) {
      ChainIsTrail(slug, c, inputs);
    }
  }

  lemma ClearedIsPass(entry: Entry)
    ensures ResultOutcome(entry) == Cleared <==> CleanPass(entry) || entry == Inherited
    ensures ResultOutcome(Absent) == Waiting
  {
  }

  /** Reading a case through its resolution is reading it where it stands, and nowhere when it stands for none. */
  lemma ReadWhereItStands(rec: Records, id: string)
    requires UniqueIds(rec.plan.cases) && rec.results.Some? && !RetiredInPlan(rec, id)
    ensures forall at :: StandsFor(rec, id, at) ==> SourceResult(Threaded(rec), id) == EntryAt(rec, at)
    ensures (forall at :: !StandsFor(rec, id, at)) ==> SourceResult(Threaded(rec), id) == Absent
  {
    hide FirstResolution, FindCase, ResolvePlan, Resolve, Read, Trail, Land, OriginMatches, LiveAfter;
    ResolutionOfCase(rec.plan, rec.inputs, id);
    if FindCase(rec.plan.cases, id).None? {
      assert StandsFor(rec, id, PointerRef(rec.plan.specSlug, id));
    } else {
      var c := FindCase(rec.plan.cases, id).value;
      var slug, inputs := rec.plan.specSlug, WithPlan(rec.plan, rec.inputs);
      var r := Resolve(slug, c, inputs);
      ResolvedStatus(slug, c, inputs);
      if IsSuperseded(c) {
        PlanCaseMatches(rec.plan, rec.inputs, id);
        assert r.origin.slug == slug by { OriginOf(slug, c, inputs); }
        forall at ensures r.resolvedTo == Some(at) <==> StandsFor(rec, id, at) {
          ResolvedExactly(slug, c, inputs, at);
        }
        ResolvedExactly(slug, c, inputs, OriginRef(slug, c));
      } else {
        assert StandsFor(rec, id, PointerRef(slug, id));
      }
    }
  }

  lemma ClearedIsVerified(rec: Records, id: string)
    requires UniqueIds(rec.plan.cases) && rec.results.Some? && !RetiredInPlan(rec, id)
    ensures CaseOutcome(Threaded(rec), id) == Cleared <==> Verified(rec, id) || Slips(rec, id)
    ensures !(Verified(rec, id) && Slips(rec, id))
  {
    hide StandsFor, EntryAt, SourceResult, ResultOutcome, CleanPass;
    ReadWhereItStands(rec, id);
    ClearedIsPass(SourceResult(Threaded(rec), id));
    CleanIsOwn();
  }

  lemma CleanIsOwn()
    ensures !CleanPass(Inherited)
  {
  }

  lemma OriginOf(slug: string, c: Case, inputs: Inputs)
    ensures Resolve(slug, c, inputs).origin == OriginRef(slug, c)
  {
  }

  lemma PlanCaseMatches(plan: Plan, inputs: Inputs, id: string)
    requires UniqueIds(plan.cases) && FindCase(plan.cases, id).Some?
    ensures OriginMatches(plan.specSlug, FindCase(plan.cases, id).value, WithPlan(plan, inputs))
  {
    hide FindCase;
    var c := FindCase(plan.cases, id).value;
    var i :| 0 <= i < |plan.cases| && plan.cases[i] == c;
    PlanOriginsMatch(plan, inputs, i);
  }

  /**
   A gate passes exactly when something obliges it, results exist under the live hash, and every obliging
   case is verified or slips. So it never passes on an unresolvable pointer, an orphaned or missing
   result, a stale plan, or an empty set.
   */
  lemma PassedExactly(unit: VerifyUnit, rec: Records)
    requires UniqueIds(rec.plan.cases)
    ensures Gate(unit, Threaded(rec)).status == GatePassed
       <==> (&& rec.results.Some? && rec.results.value.planHash == rec.currentPlanHash
             && (exists id :: id in unit.testCaseIds && Obliged(rec, id))
             && (forall id :: id in unit.testCaseIds && Obliged(rec, id) ==> Verified(rec, id) || Slips(rec, id)))
  {
    hide Gate, CaseOutcome, Dispose, Verified, Slips, RetiredInPlan, OutsidePolicy, ResolvePlan;
    var ctx := Threaded(rec);
    StatusDependsOnSet(unit, ctx);
    forall id ensures Dispose(ctx, id) == Gates <==> Obliged(rec, id) {
      DisposedByPlan(rec, id);
    }
    if rec.results.Some? {
      forall id | Obliged(rec, id) ensures CaseOutcome(ctx, id) == Cleared <==> Verified(rec, id) || Slips(rec, id) {
        ClearedIsVerified(rec, id);
      }
      forall id ensures CaseOutcome(ctx, id) == Cleared
        <==> CaseOutcome(ctx, id) != Waiting && CaseOutcome(ctx, id) != Failing {
      }
      if exists id :: id in unit.testCaseIds && Obliged(rec, id) {
        var id :| id in unit.testCaseIds && Obliged(rec, id);
        assert id in IdSet(unit.testCaseIds) && Dispose(ctx, id) == Gates;
      }
    }
  }

  /** A pass means every obliging case is verified exactly when none of them slips. */
  lemma PassIsGenuineExactly(unit: VerifyUnit, rec: Records)
    requires UniqueIds(rec.plan.cases) && Gate(unit, Threaded(rec)).status == GatePassed
    ensures rec.results.Some?
    ensures (forall id :: id in unit.testCaseIds && Obliged(rec, id) ==> Verified(rec, id))
       <==> (forall id :: id in unit.testCaseIds && Obliged(rec, id) ==> !Slips(rec, id))
  {
    hide Gate, Verified, Slips, OutsidePolicy;
    PassedExactly(unit, rec);
    forall id | id in unit.testCaseIds && Obliged(rec, id) ensures !(Verified(rec, id) && Slips(rec, id)) {
      ClearedIsVerified(rec, id);
    }
  }

  /** Ids that are never such a name, declared or in a supplied plan, cannot slip. */
  lemma OrdinaryNamesNeverSlip(rec: Records, id: string)
    requires UniqueIds(rec.plan.cases) && rec.results.Some? && id !in INHERITED
    requires var plans := WithPlan(rec.plan, rec.inputs).plans;
             forall slug, c :: slug in plans && c in plans[slug].cases ==> c.id !in INHERITED
    ensures !Slips(rec, id)
  {
    hide Trail, Read, INHERITED;
    forall at | StandsFor(rec, id, at) ensures EntryAt(rec, at) != Inherited {
      assert at.caseId !in INHERITED by {
        if FindCase(rec.plan.cases, id).Some? && IsSuperseded(FindCase(rec.plan.cases, id).value) {
          assert Land(at, WithPlan(rec.plan, rec.inputs)) == OnLiveCase;
          LiveIsSupplied(at, WithPlan(rec.plan, rec.inputs));
        }
      }
      OnlyInheritedNames(rec, at);
    }
  }

  lemma LiveIsSupplied(at: PointerRef, inputs: Inputs)
    requires Land(at, inputs) == OnLiveCase
    ensures at.slug in inputs.plans && exists c :: c in inputs.plans[at.slug].cases && c.id == at.caseId
  {
  }

  lemma OnlyInheritedNames(rec: Records, at: PointerRef)
    requires rec.results.Some?
    ensures EntryAt(rec, at) == Inherited ==> at.caseId in INHERITED
  {
  }

  /** A gate declaring only `toString`, with nothing recorded at all, reads as passed. */
  lemma InheritedNamePasses(unit: VerifyUnit, rec: Records)
    requires unit.testCaseIds == ["toString"] && rec.plan.cases == []
    requires rec.results == Some(GateResults(map[], rec.currentPlanHash))
    ensures Gate(unit, Threaded(rec)).status == GatePassed && !Verified(rec, "toString")
  {
    hide Gate;
    assert StandsFor(rec, "toString", PointerRef(rec.plan.specSlug, "toString"));
    assert Obliged(rec, "toString") && Slips(rec, "toString");
    assert "toString" in unit.testCaseIds;
    PassedExactly(unit, rec);
  }
}
