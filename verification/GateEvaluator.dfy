/**
 The verify-gate evaluator (server/lib/gate-evaluator.ts).

 `Gate` is the whole answer as a function of the declared ids, `EvaluateGate` the source's loops
 proved equal to it, and `StatusOf` the status read off the *set* of declared ids alone.
 */
module GateEvaluator {
  import opened Wrappers
  import opened Contracts
  import opened LifecycleResolver
  import opened PlainObjects

  /** The fields the gate code reads; an absent `covers` is the empty list, as every reader takes it. */
  datatype VerifyUnit = VerifyUnit(
    id: string,
    covers: seq<string>,
    requirementIds: seq<string>,
    userStoryIds: seq<string>,
    testCaseIds: seq<string>)

  datatype GateStatus = NoGatingCases | GatePassed | GatePending | GateFailed | GateStale

  datatype EmptyReason = ByPolicy | ByLifecycle | Mixed

  datatype GateState = GateState(
    status: GateStatus,
    unresolvedCaseIds: seq<string>,
    gatingCaseIds: seq<string>,
    coveringUnitIds: seq<string>,
    emptyReason: Option<EmptyReason>,
    lifecycleExcludedCaseIds: seq<string>)

  datatype GateResults = GateResults(caseResults: map<string, CaseResult>, planHash: string)

  datatype GateLifecycle = GateLifecycle(
    resolutions: seq<Resolution>,
    resultsBySlug: map<string, map<string, CaseResult>>)

  /** Everything but the gate: recorded results, live hash, plan and threaded lifecycle. */
  datatype Context = Context(
    results: Option<GateResults>,
    currentPlanHash: string,
    plan: Option<Plan>,
    lifecycle: Option<GateLifecycle>)

  // ---- Narrowing ----

  predicate CaseGatesByDefaultPolicy(level: nat, category: string) {
    level == 1 || level == 2 || category == "e2e_flow"
  }

  /** First entry wins for a repeated origin id. */
  function FirstResolution(resolutions: seq<Resolution>, id: string): (r: Option<Resolution>)
    ensures r.Some? ==> r.value in resolutions && r.value.origin.caseId == id
    ensures r.None? <==> forall x :: x in resolutions ==> x.origin.caseId != id
  {
    if resolutions == [] then None
    else
      var n := |resolutions| - 1;
      assert resolutions == resolutions[..n] + [resolutions[n]];
      var earlier := FirstResolution(resolutions[..n], id);
      if earlier.None? && resolutions[n].origin.caseId == id then Some(resolutions[n]) else earlier
  }

  /** Last entry wins, as in a map built from the cases in order. */
  function LastCase(cases: seq<Case>, id: string): (c: Option<Case>)
    ensures c.Some? ==> c.value in cases && c.value.id == id
    ensures c.None? <==> forall x :: x in cases ==> x.id != id
  {
    if cases == [] then None
    else
      var n := |cases| - 1;
      assert cases == cases[..n] + [cases[n]];
      if cases[n].id == id then Some(cases[n]) else LastCase(cases[..n], id)
  }

  function Resolutions(ctx: Context): seq<Resolution> {
    if ctx.lifecycle.Some? then ctx.lifecycle.value.resolutions else []
  }

  datatype Disposition = Gates | RetiredAway | PolicyExcluded

  /** Which rule, if any, drops a declared id; lifecycle is asked before policy. */
  function Dispose(ctx: Context, id: string): Disposition {
    var resolution := FirstResolution(Resolutions(ctx), id);
    if resolution.Some? && resolution.value.status == RetiredOrigin then RetiredAway
    else if ctx.plan.None? then Gates
    else
      match LastCase(ctx.plan.value.cases, id)
      case None => Gates
      case Some(c) => if CaseGatesByDefaultPolicy(c.level, c.category) then Gates else PolicyExcluded
  }

  // ---- Reading one gating case ----

  datatype Outcome = Cleared | Waiting | Failing

  /**
   What indexing the recorded results by an id finds: nothing, the id's own entry, or, for an unrecorded
   id named like a member every object inherits, that member, which carries neither flag nor status.
   */
  datatype Entry = Absent | Own(result: CaseResult) | Inherited

  function Read(results: map<string, CaseResult>, id: string): Entry {
    if id in results then Own(results[id]) else if id in INHERITED then Inherited else Absent
  }

  /** An inherited member is not absent, not orphaned and of no status, so nothing holds it back. */
  function ResultOutcome(entry: Entry): Outcome {
    match entry
    case Absent => Waiting
    case Inherited => Cleared
    case Own(result) =>
      if result.orphaned then Waiting
      else
        match EffectiveStatus(result)
        case Passed => Cleared
        case Failed => Failing
        case Blocked => Failing
        case _ => Waiting
  }

  /**
   Where the id's status is read from: its own result, its chain's live end, or nowhere. An
   unresolved pointer and a landing whose results were not threaded in both read nothing.
   */
  function SourceResult(ctx: Context, id: string): Entry
    requires ctx.results.Some?
  {
    var own := ctx.results.value.caseResults;
    match FirstResolution(Resolutions(ctx), id)
    case None => Read(own, id)
    case Some(r) =>
      if r.status == Unresolved then Absent
      else if r.status != Resolved then Read(own, id)
      else if r.resolvedTo.None? then Absent
      else if r.resolvedTo.value.slug == r.origin.slug then Read(own, r.resolvedTo.value.caseId)
      else if r.resolvedTo.value.slug !in ctx.lifecycle.value.resultsBySlug then Absent
      else Read(ctx.lifecycle.value.resultsBySlug[r.resolvedTo.value.slug], r.resolvedTo.value.caseId)
  }

  function CaseOutcome(ctx: Context, id: string): Outcome
    requires ctx.results.Some?
  {
    ResultOutcome(SourceResult(ctx, id))
  }

  // ---- The whole answer ----

  function Select(ids: seq<string>, keep: string -> bool): (kept: seq<string>)
    ensures forall id :: id in kept <==> id in ids && keep(id)
    ensures |kept| <= |ids|
  {
    if ids == [] then []
    else
      var n := |ids| - 1;
      assert ids == ids[..n] + [ids[n]];
      Select(ids[..n], keep) + if keep(ids[n]) then [ids[n]] else []
  }

  function GatingIds(ctx: Context, ids: seq<string>): seq<string> {
    Select(ids, id => Dispose(ctx, id) == Gates)
  }

  function RetiredIds(ctx: Context, ids: seq<string>): seq<string> {
    Select(ids, id => Dispose(ctx, id) == RetiredAway)
  }

  function UnresolvedIds(ctx: Context, gating: seq<string>): seq<string>
    requires ctx.results.Some?
  {
    Select(gating, id => CaseOutcome(ctx, id) != Cleared)
  }

  predicate IsStale(ctx: Context) {
    ctx.results.None? || ctx.results.value.planHash != ctx.currentPlanHash
  }

  function WhyEmpty(retired: bool, policy: bool): Option<EmptyReason> {
    if retired && policy then Some(Mixed)
    else if retired then Some(ByLifecycle)
    else if policy then Some(ByPolicy)
    else None
  }

  function Gate(unit: VerifyUnit, ctx: Context): GateState {
    var gating := GatingIds(ctx, unit.testCaseIds);
    var retired := RetiredIds(ctx, unit.testCaseIds);
    if gating == [] then
      var policy := exists id :: id in unit.testCaseIds && Dispose(ctx, id) == PolicyExcluded;
      GateState(NoGatingCases, [], [], [], WhyEmpty(retired != [], policy), retired)
    else if IsStale(ctx) then
      GateState(GateStale, gating, gating, unit.covers, None, retired)
    else
      var unresolved := UnresolvedIds(ctx, gating);
      if exists id :: id in gating && CaseOutcome(ctx, id) == Failing then
        GateState(GateFailed, unresolved, gating, unit.covers, None, retired)
      else if exists id :: id in gating && CaseOutcome(ctx, id) == Waiting then
        GateState(GatePending, unresolved, gating, unit.covers, None, retired)
      else
        GateState(GatePassed, [], gating, [], None, retired)
  }

  lemma SelectStep(ids: seq<string>, keep: string -> bool, k: nat)
    requires k < |ids|
    ensures Select(ids[..k + 1], keep) == Select(ids[..k], keep) + if keep(ids[k]) then [ids[k]] else []
  {
    assert ids[..k + 1][..k] == ids[..k];
  }

  lemma SelectNothing(keep: string -> bool)
    ensures Select([], keep) == []
  {
  }

  method IndexResolutions(resolutions: seq<Resolution>) returns (byId: map<string, Resolution>)
    ensures forall id :: Lookup(byId, id) == FirstResolution(resolutions, id)
  {
    byId := map[];
    for k := 0 to |resolutions|
      invariant forall id :: Lookup(byId, id) == FirstResolution(resolutions[..k], id)
    {
      assert resolutions[..k + 1][..k] == resolutions[..k];
      if resolutions[k].origin.caseId !in byId {
        byId := byId[resolutions[k].origin.caseId := resolutions[k]];
      }
    }
    assert resolutions[..|resolutions|] == resolutions;
  }

  function Lookup<T>(m: map<string, T>, id: string): Option<T> {
    if id in m then Some(m[id]) else None
  }

  method IndexCases(cases: seq<Case>) returns (byId: map<string, Case>)
    ensures forall id :: Lookup(byId, id) == LastCase(cases, id)
  {
    byId := map[];
    for k := 0 to |cases|
      invariant forall id :: Lookup(byId, id) == LastCase(cases[..k], id)
    {
      assert cases[..k + 1][..k] == cases[..k];
      byId := byId[cases[k].id := cases[k]];
    }
    assert cases[..|cases|] == cases;
  }

  /** Both loops of the source: one walk that narrows and attributes, one that classifies. */
  method EvaluateGate(unit: VerifyUnit, ctx: Context) returns (state: GateState)
    ensures state == Gate(unit, ctx)
  {
    hide FirstResolution, LastCase, Dispose, CaseOutcome, ResultOutcome, Select;
    var resolutionById := IndexResolutions(Resolutions(ctx));
    var caseById := map[];
    if ctx.plan.Some? {
      caseById := IndexCases(ctx.plan.value.cases);
    }
    var ids := unit.testCaseIds;
    var gating, retired, droppedByPolicy := Narrow(ctx, ids, resolutionById, caseById);
    if |gating| == 0 {
      return GateState(NoGatingCases, [], [], [], WhyEmpty(|retired| > 0, droppedByPolicy), retired);
    }
    if ctx.results.None? || ctx.results.value.planHash != ctx.currentPlanHash {
      return GateState(GateStale, gating, gating, unit.covers, None, retired);
    }
    var unresolved, anyFailed, anyPending := Classify(ctx, gating, resolutionById);
    if anyFailed {
      return GateState(GateFailed, unresolved, gating, unit.covers, None, retired);
    }
    if anyPending {
      return GateState(GatePending, unresolved, gating, unit.covers, None, retired);
    }
    return GateState(GatePassed, [], gating, [], None, retired);
  }

  method Narrow(ctx: Context, ids: seq<string>, resolutionById: map<string, Resolution>, caseById: map<string, Case>)
    returns (gating: seq<string>, retired: seq<string>, droppedByPolicy: bool)
    requires forall id :: Lookup(resolutionById, id) == FirstResolution(Resolutions(ctx), id)
    requires ctx.plan.Some? ==> forall id :: Lookup(caseById, id) == LastCase(ctx.plan.value.cases, id)
    ensures gating == GatingIds(ctx, ids) && retired == RetiredIds(ctx, ids)
    ensures droppedByPolicy <==> exists id :: id in ids && Dispose(ctx, id) == PolicyExcluded
  {
    hide FirstResolution, LastCase, Select, Dispose;
    gating, retired, droppedByPolicy := [], [], false;
    SelectNothing(id => Dispose(ctx, id) == Gates);
    SelectNothing(id => Dispose(ctx, id) == RetiredAway);
    for k := 0 to |ids|
      invariant gating == GatingIds(ctx, ids[..k]) && retired == RetiredIds(ctx, ids[..k])
      invariant droppedByPolicy <==> exists i :: 0 <= i < k && Dispose(ctx, ids[i]) == PolicyExcluded
    {
      var id := ids[k];
      SelectStep(ids, id => Dispose(ctx, id) == Gates, k);
      SelectStep(ids, id => Dispose(ctx, id) == RetiredAway, k);
      var disposition := DispositionOf(ctx, id, resolutionById, caseById);
      match disposition {
        case RetiredAway => retired := retired + [id];
        case PolicyExcluded => droppedByPolicy := true;
        case Gates => gating := gating + [id];
      }
    }
    assert ids[..|ids|] == ids;
  }

  method DispositionOf(ctx: Context, id: string, resolutionById: map<string, Resolution>, caseById: map<string, Case>)
    returns (disposition: Disposition)
    requires forall id :: Lookup(resolutionById, id) == FirstResolution(Resolutions(ctx), id)
    requires ctx.plan.Some? ==> forall id :: Lookup(caseById, id) == LastCase(ctx.plan.value.cases, id)
    ensures disposition == Dispose(ctx, id)
  {
    hide FirstResolution, LastCase;
    assert Lookup(resolutionById, id) == FirstResolution(Resolutions(ctx), id);
    if id in resolutionById && resolutionById[id].status == RetiredOrigin {
      return RetiredAway;
    }
    if ctx.plan.Some? {
      assert Lookup(caseById, id) == LastCase(ctx.plan.value.cases, id);
      if id in caseById && !CaseGatesByDefaultPolicy(caseById[id].level, caseById[id].category) {
        return PolicyExcluded;
      }
    }
    return Gates;
  }

  method Classify(ctx: Context, gating: seq<string>, resolutionById: map<string, Resolution>)
    returns (unresolved: seq<string>, anyFailed: bool, anyPending: bool)
    requires ctx.results.Some?
    requires forall id :: Lookup(resolutionById, id) == FirstResolution(Resolutions(ctx), id)
    ensures unresolved == UnresolvedIds(ctx, gating)
    ensures anyFailed <==> exists id :: id in gating && CaseOutcome(ctx, id) == Failing
    ensures anyPending <==> exists id :: id in gating && CaseOutcome(ctx, id) == Waiting
  {
    hide FirstResolution, Select, SourceResult;
    SelectNothing(id => CaseOutcome(ctx, id) != Cleared);
    unresolved, anyFailed, anyPending := [], false, false;
    for k := 0 to |gating|
      invariant unresolved == UnresolvedIds(ctx, gating[..k])
      invariant anyFailed <==> exists i :: 0 <= i < k && CaseOutcome(ctx, gating[i]) == Failing
      invariant anyPending <==> exists i :: 0 <= i < k && CaseOutcome(ctx, gating[i]) == Waiting
    {
      var id := gating[k];
      SelectStep(gating, id => CaseOutcome(ctx, id) != Cleared, k);
      var entry := FindResult(ctx, id, resolutionById);
      if entry.Absent? || (entry.Own? && entry.result.orphaned) {
        anyPending := true;
        unresolved := unresolved + [id];
      } else if entry.Own? {
        var status := EffectiveStatus(entry.result);
        if status == Failed || status == Blocked {
          anyFailed := true;
          unresolved := unresolved + [id];
        } else if status == NotStarted || status == InProgress {
          anyPending := true;
          unresolved := unresolved + [id];
        }
      }
    }
    assert gating[..|gating|] == gating;
  }

  method FindResult(ctx: Context, id: string, resolutionById: map<string, Resolution>) returns (entry: Entry)
    requires ctx.results.Some?
    requires forall id :: Lookup(resolutionById, id) == FirstResolution(Resolutions(ctx), id)
    ensures entry == SourceResult(ctx, id)
  {
    hide FirstResolution;
    assert Lookup(resolutionById, id) == FirstResolution(Resolutions(ctx), id);
    var caseResults := ctx.results.value.caseResults;
    entry := Absent;
    if id in resolutionById && resolutionById[id].status == Unresolved {
      return;
    } else if id in resolutionById && resolutionById[id].status == Resolved {
      var target := resolutionById[id].resolvedTo;
      if target.None? {
        return;
      }
      if target.value.slug == resolutionById[id].origin.slug {
        entry := Read(caseResults, target.value.caseId);
      } else if target.value.slug in ctx.lifecycle.value.resultsBySlug {
        entry := Read(ctx.lifecycle.value.resultsBySlug[target.value.slug], target.value.caseId);
      }
    } else {
      entry := Read(caseResults, id);
    }
  }

  // ---- The status as a function of the declared set ----

  /** The ladder of the source, worst last; a stale context makes every non-empty gate stale. */
  function Rank(status: GateStatus): nat {
    match status
    case NoGatingCases => 0
    case GatePassed => 1
    case GatePending => 2
    case GateFailed => 3
    case GateStale => 4
  }

  ghost predicate HasGating(ctx: Context, ids: set<string>) {
    exists id :: id in ids && Dispose(ctx, id) == Gates
  }

  ghost predicate SomeWith(ctx: Context, ids: set<string>, outcome: Outcome)
    requires ctx.results.Some?
  {
    exists id :: id in ids && Dispose(ctx, id) == Gates && CaseOutcome(ctx, id) == outcome
  }

  ghost function StatusOf(ctx: Context, ids: set<string>): GateStatus {
    if !HasGating(ctx, ids) then NoGatingCases
    else if IsStale(ctx) then GateStale
    else if SomeWith(ctx, ids, Failing) then GateFailed
    else if SomeWith(ctx, ids, Waiting) then GatePending
    else GatePassed
  }

  ghost function IdSet(ids: seq<string>): set<string> {
    set id | id in ids
  }

  /** Order and repetition of the declared ids never change the status. */
  lemma StatusDependsOnSet(unit: VerifyUnit, ctx: Context)
    ensures Gate(unit, ctx).status == StatusOf(ctx, IdSet(unit.testCaseIds))
  {
    hide Dispose, CaseOutcome, Select;
    var gating := GatingIds(ctx, unit.testCaseIds);
    if gating != [] {
      assert gating[0] in gating;
    }
  }

  /** The union of two declared sets has the worse of the two statuses. */
  lemma UnionTakesTheWorse(ctx: Context, a: set<string>, b: set<string>)
    ensures var ra, rb := Rank(StatusOf(ctx, a)), Rank(StatusOf(ctx, b));
            Rank(StatusOf(ctx, a + b)) == if ra < rb then rb else ra
  {
    hide Dispose, CaseOutcome;
    assert HasGating(ctx, a + b) <==> HasGating(ctx, a) || HasGating(ctx, b) by {
      assert forall id :: id in a + b <==> id in a || id in b;
    }
    if !IsStale(ctx) {
      forall outcome: Outcome
        ensures SomeWith(ctx, a + b, outcome) <==> SomeWith(ctx, a, outcome) || SomeWith(ctx, b, outcome)
      {
        assert forall id :: id in a + b <==> id in a || id in b;
      }
    }
  }

  // ---- The lists of the answer ----

  /**
   Every declared id is gating, excluded by lifecycle or excluded by policy; the unresolved ids are gating
   ones, none exactly on the rungs with nothing left to verify, and the covered units ride along with
   them; an empty set names what emptied it.
   */
  lemma GateAccountsForEveryId(unit: VerifyUnit, ctx: Context)
    ensures var s := Gate(unit, ctx);
            && (forall id :: id in unit.testCaseIds ==>
                  (id in s.gatingCaseIds || id in s.lifecycleExcludedCaseIds || Dispose(ctx, id) == PolicyExcluded))
            && (forall id :: id in s.gatingCaseIds ==> id in unit.testCaseIds && id !in s.lifecycleExcludedCaseIds)
            && (forall id :: id in s.lifecycleExcludedCaseIds
                 ==> id in unit.testCaseIds && Dispose(ctx, id) == RetiredAway)
            && (forall id :: id in s.unresolvedCaseIds ==> id in s.gatingCaseIds)
            && (s.status == GateStale ==> s.unresolvedCaseIds == s.gatingCaseIds)
            && (s.unresolvedCaseIds == [] <==> s.status in {GatePassed, NoGatingCases})
            && s.coveringUnitIds == (if s.unresolvedCaseIds == [] then [] else unit.covers)
            && (s.status == NoGatingCases <==> s.gatingCaseIds == [])
            && (s.emptyReason.None? <==> s.status != NoGatingCases || unit.testCaseIds == [])
            && (s.emptyReason == Some(ByPolicy)
                ==> forall id :: id in unit.testCaseIds ==> Dispose(ctx, id) == PolicyExcluded)
            && (s.emptyReason == Some(ByLifecycle)
                ==> forall id :: id in unit.testCaseIds ==> Dispose(ctx, id) == RetiredAway)
  {
    hide Dispose, CaseOutcome, Select;
    var s := Gate(unit, ctx);
    var ids := unit.testCaseIds;
    forall id | id in ids
      ensures id in GatingIds(ctx, ids) || id in RetiredIds(ctx, ids) || Dispose(ctx, id) == PolicyExcluded
    {
      assert Dispose(ctx, id) == Gates || Dispose(ctx, id) == RetiredAway || Dispose(ctx, id) == PolicyExcluded;
    }
    if s.status in {GateFailed, GatePending} {
      var id :| id in s.gatingCaseIds && CaseOutcome(ctx, id) != Cleared;
      assert id in s.unresolvedCaseIds;
    }
    if ids != [] {
      assert ids[0] in ids;
      assert ids[0] in GatingIds(ctx, ids) || ids[0] in RetiredIds(ctx, ids) || Dispose(ctx, ids[0]) == PolicyExcluded;
    }
  }

  /**
   Nothing is left unresolved exactly when no declared id gates, or the results are fresh and clear each
   one that does.
   */
  lemma NothingUnresolvedExactly(unit: VerifyUnit, ctx: Context)
    ensures Gate(unit, ctx).unresolvedCaseIds == []
       <==> (forall id :: id in unit.testCaseIds ==> Dispose(ctx, id) != Gates)
            || (!IsStale(ctx)
                && forall id :: id in unit.testCaseIds && Dispose(ctx, id) == Gates ==> CaseOutcome(ctx, id) == Cleared)
  {
    hide Dispose, CaseOutcome, Select;
    var ids := unit.testCaseIds;
    var gating := GatingIds(ctx, ids);
    assert forall id :: id in gating <==> id in ids && Dispose(ctx, id) == Gates;
    if gating == [] {
      assert forall id :: id in ids ==> id !in gating;
    } else {
      assert gating[0] in gating;
      if !IsStale(ctx) {
        ClearOrUnresolved(ctx, gating);
      }
    }
  }

  lemma ClearOrUnresolved(ctx: Context, gating: seq<string>)
    requires ctx.results.Some?
    ensures UnresolvedIds(ctx, gating) == [] <==> forall id :: id in gating ==> CaseOutcome(ctx, id) == Cleared
    ensures (exists id :: id in gating && CaseOutcome(ctx, id) == Failing)
            || (exists id :: id in gating && CaseOutcome(ctx, id) == Waiting)
            || forall id :: id in gating ==> CaseOutcome(ctx, id) == Cleared
  {
    hide CaseOutcome, Select;
    var unresolved := UnresolvedIds(ctx, gating);
    if unresolved != [] {
      assert unresolved[0] in unresolved;
    }
    if id :| id in gating && CaseOutcome(ctx, id) != Cleared {
      assert id in unresolved;
      assert CaseOutcome(ctx, id) == Failing || CaseOutcome(ctx, id) == Waiting;
    }
  }

  // ---- Improving a result ----

  function Badness(outcome: Outcome): nat {
    match outcome
    case Cleared => 0
    case Waiting => 1
    case Failing => 2
  }

  function WithResult(ctx: Context, id: string, result: CaseResult): Context
    requires ctx.results.Some?
  {
    ctx.(results := Some(ctx.results.value.(caseResults := ctx.results.value.caseResults[id := result])))
  }

  /** What a context reads for a landing in another spec: nothing when that spec's results are not threaded in. */
  function ReadForeign(ctx: Context, slug: string, id: string): Entry {
    if ctx.lifecycle.Some? && slug in ctx.lifecycle.value.resultsBySlug
    then Read(ctx.lifecycle.value.resultsBySlug[slug], id)
    else Absent
  }

  /** The same plan, resolutions and freshness, with every result read, own or foreign, at least as good. */
  ghost predicate NoWorse(before: Context, after: Context)
    requires before.results.Some? && after.results.Some?
  {
    && after.plan == before.plan && Resolutions(after) == Resolutions(before)
    && (IsStale(after) ==> IsStale(before))
    && (forall id :: Badness(ResultOutcome(Read(after.results.value.caseResults, id)))
                     <= Badness(ResultOutcome(Read(before.results.value.caseResults, id))))
    && forall slug, id :: Badness(ResultOutcome(ReadForeign(after, slug, id)))
                          <= Badness(ResultOutcome(ReadForeign(before, slug, id)))
  }

  lemma NoWorseReading(before: Context, after: Context, id: string)
    requires before.results.Some? && after.results.Some? && NoWorse(before, after)
    ensures Badness(CaseOutcome(after, id)) <= Badness(CaseOutcome(before, id))
  {
    hide FirstResolution, ResultOutcome, Read;
    var resolution := FirstResolution(Resolutions(before), id);
    if resolution.Some? && resolution.value.status == Resolved && resolution.value.resolvedTo.Some? {
      var at := resolution.value.resolvedTo.value;
      var was, now := ReadForeign(before, at.slug, at.caseId), ReadForeign(after, at.slug, at.caseId);
      assert Badness(ResultOutcome(now)) <= Badness(ResultOutcome(was));
    }
  }

  /** Better results, wherever they are read, never make any gate worse. */
  lemma BetterResultsNeverWorsen(unit: VerifyUnit, before: Context, after: Context)
    requires before.results.Some? && after.results.Some? && NoWorse(before, after)
    ensures Rank(Gate(unit, after).status) <= Rank(Gate(unit, before).status)
  {
    hide Gate, CaseOutcome, LastCase, FirstResolution, ResultOutcome, Read, ReadForeign;
    StatusDependsOnSet(unit, before);
    StatusDependsOnSet(unit, after);
    forall id ensures Dispose(after, id) == Dispose(before, id) {
    }
    forall id ensures Badness(CaseOutcome(after, id)) <= Badness(CaseOutcome(before, id)) {
      NoWorseReading(before, after, id);
    }
  }

  /** Recording a better result for one case never makes any gate worse. */
  lemma ImprovingAResultNeverWorsens(unit: VerifyUnit, ctx: Context, id: string, result: CaseResult)
    requires ctx.results.Some?
    requires Badness(ResultOutcome(Own(result))) <= Badness(ResultOutcome(Read(ctx.results.value.caseResults, id)))
    ensures Rank(Gate(unit, WithResult(ctx, id, result)).status) <= Rank(Gate(unit, ctx).status)
  {
    hide Gate, ResultOutcome;
    BetterResultsNeverWorsen(unit, ctx, WithResult(ctx, id, result));
  }

  function WithForeignResult(ctx: Context, slug: string, id: string, result: CaseResult): Context
    requires ctx.lifecycle.Some?
  {
    var bySlug := ctx.lifecycle.value.resultsBySlug;
    var results := if slug in bySlug then bySlug[slug] else map[];
    ctx.(lifecycle := Some(ctx.lifecycle.value.(resultsBySlug := bySlug[slug := results[id := result]])))
  }

  /** Nor does a better result for a case of another spec, or threading in that spec's results at all. */
  lemma ImprovingAForeignResultNeverWorsens(unit: VerifyUnit, ctx: Context, slug: string, id: string,
                                            result: CaseResult)
    requires ctx.results.Some? && ctx.lifecycle.Some?
    requires Badness(ResultOutcome(Own(result))) <= Badness(ResultOutcome(ReadForeign(ctx, slug, id)))
    ensures Rank(Gate(unit, WithForeignResult(ctx, slug, id, result)).status) <= Rank(Gate(unit, ctx).status)
  {
    hide Gate, INHERITED, EffectiveStatus;
    BetterResultsNeverWorsen(unit, ctx, WithForeignResult(ctx, slug, id, result));
  }
}
