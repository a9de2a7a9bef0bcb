/**
 What merges and splits that mint fresh ids cannot change: which cases a spec gates, which filed gates
 stand behind them, and the worst status among its gates; and exactly when one operation loses something.
 */
module Regrouping {
  import opened Wrappers
  import opened Strings
  import opened GateEvaluator
  import opened GateOverrides

  /** The three things a gate carries that regrouping must not lose. */
  datatype Content = CaseGated(id: string) | UnitCovered(wu: string) | LeafFiled(leaf: VerifyUnit)

  predicate Carries(g: LoadedGate, content: Content) {
    match content
    case CaseGated(id) => id in g.unit.testCaseIds
    case UnitCovered(wu) => wu in g.unit.covers
    case LeafFiled(leaf) => leaf in Leaves(g)
  }

  /** Some gate of the spec carries it. */
  ghost predicate Holds(byId: Gates, slug: string, content: Content) {
    exists key :: key in byId && byId[key].slug == slug && Carries(byId[key], content)
  }

  // ---- What a merge or split puts in place of its sources ----

  lemma FlatMapHas<S, T(!new)>(xs: seq<S>, f: S -> seq<T>, x: T)
    ensures x in FlatMap(xs, f) <==> exists i :: 0 <= i < |xs| && x in f(xs[i])
  {
    hide Flatten;
    var parts := seq(|xs|, i requires 0 <= i < |xs| => f(xs[i]));
    if i :| 0 <= i < |xs| && x in f(xs[i]) {
      assert x in parts[i];
    }
  }

  ghost predicate SomeSource(byId: Gates, ids: seq<string>, content: Content)
    requires AllPresent(byId, ids)
  {
    exists key :: key in ids && Carries(byId[key], content)
  }

  lemma SourceIndex(byId: Gates, ids: seq<string>, content: Content)
    requires AllPresent(byId, ids)
    ensures SomeSource(byId, ids, content) <==> exists i :: 0 <= i < |ids| && Carries(Sources(byId, ids)[i], content)
  {
    if SomeSource(byId, ids, content) {
      var key :| key in ids && Carries(byId[key], content);
      var i :| 0 <= i < |ids| && ids[i] == key;
      assert Carries(Sources(byId, ids)[i], content);
    }
  }

  /** A merged gate carries exactly what its sources carried. */
  lemma MergedCarries(byId: Gates, ids: seq<string>, content: Content)
    requires ids != [] && AllPresent(byId, ids)
    ensures Carries(MergedGate(byId, ids), content) <==> SomeSource(byId, ids, content)
  {
    hide FlatMap, MintMergeGateId;
    var sources := Sources(byId, ids);
    SourceIndex(byId, ids, content);
    match content {
      case CaseGated(id) =>
        FlatMapHas(Units(sources), TestCaseIdsOf, id);
        assert forall i :: 0 <= i < |ids|
                 ==> (id in TestCaseIdsOf(Units(sources)[i]) <==> Carries(sources[i], content));
      case UnitCovered(wu) =>
        FlatMapHas(Units(sources), CoversOf, wu);
        assert forall i :: 0 <= i < |ids| ==> (wu in CoversOf(Units(sources)[i]) <==> Carries(sources[i], content));
      case LeafFiled(leaf) =>
        FlatMapHas(sources, (g: LoadedGate) => Leaves(g), leaf);
    }
  }

  /** The gates a split sets, one per unit. */
  function PartGate(source: LoadedGate, unit: VerifyUnit): LoadedGate {
    LoadedGate(source.slug, unit, Some(Leaves(source)))
  }

  ghost predicate SomePart(source: LoadedGate, units: seq<VerifyUnit>, content: Content) {
    exists i :: 0 <= i < |units| && Carries(PartGate(source, units[i]), content)
  }

  /** The parts of an accepted split together carry exactly what the source carried. */
  lemma PartsCarry(byId: Gates, gateId: string, parts: seq<SplitPart>, caseMap: CaseMap, content: Content)
    requires SplitApplies(byId, gateId, parts, caseMap) && parts != []
    ensures Carries(byId[gateId], content) <==> SomePart(byId[gateId], PartUnits(gateId, parts, caseMap), content)
  {
    hide Flatten, FlatMap, MintSplitGateId, Deduped;
    var source, units := byId[gateId], PartUnits(gateId, parts, caseMap);
    match content {
      case CaseGated(id) =>
        assert id in Flatten(CaseIds(units)) <==> exists i :: 0 <= i < |units| && id in CaseIds(units)[i];
        assert forall i :: 0 <= i < |units|
                 ==> (id in CaseIds(units)[i] <==> Carries(PartGate(source, units[i]), content));
      case UnitCovered(wu) =>
        assert wu in Flatten(PartCovers(parts)) <==> exists i :: 0 <= i < |parts| && wu in PartCovers(parts)[i];
        assert forall i :: 0 <= i < |units|
                 ==> (wu in PartCovers(parts)[i] <==> Carries(PartGate(source, units[i]), content));
      case LeafFiled(leaf) =>
        assert Carries(PartGate(source, units[0]), content) <==> Carries(source, content);
    }
  }

  // ---- Carrying it across the working map ----

  /** Which unit set last under a key stands. */
  function LastUnit(units: seq<VerifyUnit>, key: string): (last: Option<nat>)
    ensures last.Some? ==> last.value < |units| && units[last.value].id == key
    ensures last.Some? ==> forall j :: last.value < j < |units| ==> units[j].id != key
    ensures last.None? <==> forall i :: 0 <= i < |units| ==> units[i].id != key
  {
    if units == [] then None
    else
      var n := |units| - 1;
      if units[n].id == key then Some(n)
      else
        var earlier := LastUnit(units[..n], key);
        assert forall i :: 0 <= i < n ==> units[..n][i] == units[i];
        earlier
  }

  lemma {:induction false} PutPartsAt(base: Gates, source: LoadedGate, units: seq<VerifyUnit>, key: string)
    ensures var after, last := PutParts(base, source, units), LastUnit(units, key);
            if last.Some? then key in after && after[key] == PartGate(source, units[last.value])
            else (key in after <==> key in base) && (key in base ==> after[key] == base[key])
  {
    if units != [] {
      PutPartsAt(base, source, units[..|units| - 1], key);
    }
  }

  /** The part labels mint different ids, none of them taken by another gate. */
  ghost predicate PartsFresh(byId: Gates, gateId: string, units: seq<VerifyUnit>) {
    && (forall i, j :: 0 <= i < j < |units| ==> units[i].id != units[j].id)
    && forall i :: 0 <= i < |units| ==> units[i].id == gateId || units[i].id !in byId
  }

  /** The gates an applied operation puts in, in order, each under its own unit's id. */
  ghost function PutIn(byId: Gates, op: Op, caseMap: CaseMap): seq<LoadedGate>
    requires Applies(byId, op, caseMap)
  {
    match op
    case Merge(gateIds) => [MergedGate(byId, Deduped(gateIds))]
    case Split(gateId, parts) =>
      var units := PartUnits(gateId, parts, caseMap);
      seq(|units|, i requires 0 <= i < |units| => PartGate(byId[gateId], units[i]))
  }

  predicate Consumes(op: Op, key: string) {
    match op
    case Merge(gateIds) => key in gateIds
    case Split(gateId, _) => key == gateId
  }

  ghost predicate LandedOn(put: seq<LoadedGate>, key: string) {
    exists i :: 0 <= i < |put| && put[i].unit.id == key
  }

  /** No gate put in later takes the same id. */
  ghost predicate LastPut(put: seq<LoadedGate>, i: nat)
    requires i < |put|
  {
    forall j :: i < j < |put| ==> put[j].unit.id != put[i].unit.id
  }

  ghost predicate Bears(g: LoadedGate, slug: string, content: Content) {
    g.slug == slug && Carries(g, content)
  }

  /** A gate the operation neither consumes nor lands on carries it. */
  ghost predicate UntouchedCarries(byId: Gates, op: Op, put: seq<LoadedGate>, slug: string, content: Content) {
    exists key :: key in byId && !Consumes(op, key) && !LandedOn(put, key) && Bears(byId[key], slug, content)
  }

  /** So does such a gate, or the last gate put in under its id. */
  ghost predicate SurvivorCarries(byId: Gates, op: Op, put: seq<LoadedGate>, slug: string, content: Content) {
    || UntouchedCarries(byId, op, put, slug, content)
    || exists i :: 0 <= i < |put| && LastPut(put, i) && Bears(put[i], slug, content)
  }

  /** A gate the operation lands on without consuming it, or one put in and then replaced, carries it. */
  ghost predicate OverwrittenCarries(byId: Gates, op: Op, put: seq<LoadedGate>, slug: string, content: Content) {
    || (exists key :: key in byId && !Consumes(op, key) && LandedOn(put, key) && Bears(byId[key], slug, content))
    || exists i :: 0 <= i < |put| && !LastPut(put, i) && Bears(put[i], slug, content)
  }

  /** What each key holds after the operation. */
  lemma AppliedAt(byId: Gates, op: Op, caseMap: CaseMap, key: string)
    requires Applies(byId, op, caseMap)
    ensures var put, after := PutIn(byId, op, caseMap), Apply(byId, op, caseMap);
            && (key in after <==> LandedOn(put, key) || (key in byId && !Consumes(op, key)))
            && (key in after && !LandedOn(put, key) ==> after[key] == byId[key])
            && (LandedOn(put, key) ==>
                  exists i :: 0 <= i < |put| && put[i].unit.id == key && LastPut(put, i) && after[key] == put[i])
  {
    hide MintSplitGateId, PutParts, IsPartition, Carries, FlatMap, Deduped, MintMergeGateId;
    var put, after := PutIn(byId, op, caseMap), Apply(byId, op, caseMap);
    match op {
      case Merge(gateIds) =>
        assert put[0].unit.id == MintMergeGateId(Deduped(gateIds));
        assert LastPut(put, 0);
      case Split(gateId, parts) =>
        var units := PartUnits(gateId, parts, caseMap);
        PutPartsAt(Remove(byId, [gateId]), byId[gateId], units, key);
        assert forall i :: 0 <= i < |units| ==> put[i] == PartGate(byId[gateId], units[i]);
        var last := LastUnit(units, key);
        if last.Some? {
          assert LastPut(put, last.value);
        }
    }
  }

  /** After an operation a spec holds what its survivors carry. */
  lemma HeldAfter(byId: Gates, op: Op, caseMap: CaseMap, slug: string, content: Content)
    requires Applies(byId, op, caseMap)
    ensures Holds(Apply(byId, op, caseMap), slug, content)
       <==> SurvivorCarries(byId, op, PutIn(byId, op, caseMap), slug, content)
  {
    hide Applies, Apply, PutIn, Carries, Consumes, LandedOn, LastPut;
    var put, after := PutIn(byId, op, caseMap), Apply(byId, op, caseMap);
    if Holds(after, slug, content) {
      var key :| key in after && after[key].slug == slug && Carries(after[key], content);
      AppliedAt(byId, op, caseMap, key);
    }
    if key :| key in byId && !Consumes(op, key) && !LandedOn(put, key) && Bears(byId[key], slug, content) {
      AppliedAt(byId, op, caseMap, key);
    }
    if i :| 0 <= i < |put| && LastPut(put, i) && Bears(put[i], slug, content) {
      AppliedAt(byId, op, caseMap, put[i].unit.id);
      OneLastPut(put, i);
      assert after[put[i].unit.id] == put[i];
    }
  }

  lemma OneLastPut(put: seq<LoadedGate>, i: nat)
    requires i < |put| && LastPut(put, i)
    ensures LandedOn(put, put[i].unit.id)
    ensures forall j :: 0 <= j < |put| && put[j].unit.id == put[i].unit.id && LastPut(put, j) ==> j == i
  {
  }

  /** What goes in carries together what the consumed gates did. */
  lemma PutInCarries(byId: Gates, op: Op, caseMap: CaseMap, slug: string, content: Content)
    requires Applies(byId, op, caseMap)
    ensures var put := PutIn(byId, op, caseMap);
            (exists i :: 0 <= i < |put| && Bears(put[i], slug, content))
            <==> exists key :: key in byId && Consumes(op, key) && Bears(byId[key], slug, content)
  {
    hide Carries, BuildMergedUnit, FlatMap, IsPartition, PartUnits;
    var put := PutIn(byId, op, caseMap);
    match op {
      case Merge(gateIds) =>
        var ids := Deduped(gateIds);
        MergedCarries(byId, ids, content);
        assert ids[0] in ids && put[0] == MergedGate(byId, ids) && put[0].slug == byId[ids[0]].slug;
        assert forall key :: key in ids ==> byId[key].slug == put[0].slug;
      case Split(gateId, parts) =>
        PartsCarry(byId, gateId, parts, caseMap, content);
        var units := PartUnits(gateId, parts, caseMap);
        assert forall i :: 0 <= i < |units| ==> put[i] == PartGate(byId[gateId], units[i]);
    }
  }

  /** Before it, the spec held what survivors and overwritten gates carry between them. */
  lemma HeldBefore(byId: Gates, op: Op, caseMap: CaseMap, slug: string, content: Content)
    requires Applies(byId, op, caseMap)
    ensures var put := PutIn(byId, op, caseMap);
            Holds(byId, slug, content)
            <==> SurvivorCarries(byId, op, put, slug, content) || OverwrittenCarries(byId, op, put, slug, content)
  {
    hide Applies, PutIn, Carries, Consumes, LandedOn, LastPut;
    var put := PutIn(byId, op, caseMap);
    PutInCarries(byId, op, caseMap, slug, content);
    if Holds(byId, slug, content) {
      var key :| key in byId && byId[key].slug == slug && Carries(byId[key], content);
      assert Bears(byId[key], slug, content);
      if Consumes(op, key) {
        var i :| 0 <= i < |put| && Bears(put[i], slug, content);
        assert LastPut(put, i) || !LastPut(put, i);
      }
    }
  }

  /**
   An applied operation loses a content of a spec exactly when a gate it overwrites carries it and no
   survivor does; it introduces none.
   */
  lemma StepLosesExactly(byId: Gates, op: Op, caseMap: CaseMap, slug: string, content: Content)
    requires Applies(byId, op, caseMap)
    ensures Holds(Apply(byId, op, caseMap), slug, content) ==> Holds(byId, slug, content)
    ensures var put := PutIn(byId, op, caseMap);
            Holds(byId, slug, content) && !Holds(Apply(byId, op, caseMap), slug, content)
            <==> OverwrittenCarries(byId, op, put, slug, content) && !SurvivorCarries(byId, op, put, slug, content)
  {
    hide Holds, Applies, Apply, PutIn, SurvivorCarries, OverwrittenCarries;
    HeldAfter(byId, op, caseMap, slug, content);
    HeldBefore(byId, op, caseMap, slug, content);
  }

  /** Nothing an operation mints lands on a gate it does not consume, and split labels differ. */
  ghost predicate Fresh(byId: Gates, op: Op, caseMap: CaseMap) {
    match op
    case Merge(gateIds) =>
      var id := MintMergeGateId(Deduped(gateIds));
      id in gateIds || id !in byId
    case Split(gateId, parts) => PartsFresh(byId, gateId, PartUnits(gateId, parts, caseMap))
  }

  ghost predicate FreshRun(start: Gates, ops: seq<Op>, caseMap: CaseMap) {
    forall k :: 0 <= k < |ops| ==> FreshAt(start, ops, caseMap, k)
  }

  ghost predicate FreshAt(start: Gates, ops: seq<Op>, caseMap: CaseMap, k: nat)
    requires k < |ops|
  {
    var at := Run(start, ops[..k], caseMap);
    Applies(at, ops[k], caseMap) ==> Fresh(at, ops[k], caseMap)
  }

  /** Fresh ids land on nothing and replace nothing. */
  lemma FreshOverwritesNothing(byId: Gates, op: Op, caseMap: CaseMap, slug: string, content: Content)
    requires Applies(byId, op, caseMap) && Fresh(byId, op, caseMap)
    ensures !OverwrittenCarries(byId, op, PutIn(byId, op, caseMap), slug, content)
  {
    hide Bears, MintMergeGateId, Deduped, PartUnits, PutIn, Applies;
    PutInIds(byId, op, caseMap);
  }

  lemma PutInIds(byId: Gates, op: Op, caseMap: CaseMap)
    requires Applies(byId, op, caseMap)
    ensures var put := PutIn(byId, op, caseMap);
            match op
            case Merge(gateIds) => |put| == 1 && put[0].unit.id == MintMergeGateId(Deduped(gateIds))
            case Split(gateId, parts) =>
              var units := PartUnits(gateId, parts, caseMap);
              |put| == |units| == |parts| && forall i :: 0 <= i < |put| ==> put[i] == PartGate(byId[gateId], units[i])
  {
    hide MintMergeGateId, Deduped, FlatMap, IsPartition, BuildSplitUnit;
  }

  /** One operation never adds anything to a spec, and loses nothing when what it mints is fresh. */
  lemma StepKeeps(byId: Gates, op: Op, caseMap: CaseMap, slug: string, content: Content)
    ensures Holds(Apply(byId, op, caseMap), slug, content) ==> Holds(byId, slug, content)
    ensures (Applies(byId, op, caseMap) ==> Fresh(byId, op, caseMap)) && Holds(byId, slug, content)
            ==> Holds(Apply(byId, op, caseMap), slug, content)
  {
    hide Holds, Applies, PutIn, Fresh, SurvivorCarries, OverwrittenCarries;
    if Applies(byId, op, caseMap) {
      StepLosesExactly(byId, op, caseMap, slug, content);
      if Fresh(byId, op, caseMap) {
        FreshOverwritesNothing(byId, op, caseMap, slug, content);
      }
    }
  }

  lemma SplitNeedsSource(byId: Gates, gateId: string, parts: seq<SplitPart>, caseMap: CaseMap)
    ensures SplitApplies(byId, gateId, parts, caseMap) ==> gateId in byId
  {
    hide IsPartition;
  }

  // ---- The worst status of a spec ----

  ghost function SlugCases(byId: Gates, slug: string): set<string> {
    set key, id | key in byId && byId[key].slug == slug && id in byId[key].unit.testCaseIds :: id
  }

  lemma SlugCasesHold(byId: Gates, slug: string, id: string)
    ensures id in SlugCases(byId, slug) <==> Holds(byId, slug, CaseGated(id))
  {
    if Holds(byId, slug, CaseGated(id)) {
      var key :| key in byId && byId[key].slug == slug && Carries(byId[key], CaseGated(id));
      assert id in byId[key].unit.testCaseIds;
    }
    if id in SlugCases(byId, slug) {
      var key :| key in byId && byId[key].slug == slug && id in byId[key].unit.testCaseIds;
      assert Carries(byId[key], CaseGated(id));
    }
  }

  /** `worst` bounds the rank of every gate of the spec and is reached, or is the rank of having none. */
  ghost predicate IsWorst(byId: Gates, slug: string, ctx: Context, worst: nat) {
    && (forall key :: key in byId && byId[key].slug == slug ==> Rank(Gate(byId[key].unit, ctx).status) <= worst)
    && (worst == Rank(NoGatingCases)
        || exists key :: key in byId && byId[key].slug == slug && Rank(Gate(byId[key].unit, ctx).status) == worst)
  }

  lemma MemberBelowUnion(byId: Gates, slug: string, ctx: Context, key: string)
    requires key in byId && byId[key].slug == slug
    ensures Rank(Gate(byId[key].unit, ctx).status) <= Rank(StatusOf(ctx, SlugCases(byId, slug)))
  {
    hide Gate, StatusOf;
    StatusDependsOnSet(byId[key].unit, ctx);
    MoreCasesNoBetter(ctx, IdSet(byId[key].unit.testCaseIds), SlugCases(byId, slug));
  }

  lemma UnionReached(byId: Gates, slug: string, ctx: Context)
    requires StatusOf(ctx, SlugCases(byId, slug)) != NoGatingCases
    ensures exists key :: key in byId && byId[key].slug == slug
                          && Gate(byId[key].unit, ctx).status == StatusOf(ctx, SlugCases(byId, slug))
  {
    hide Gate, Dispose, CaseOutcome;
    var all := SlugCases(byId, slug);
    var id :| id in all && Dispose(ctx, id) == Gates
              && (IsStale(ctx) || StatusOf(ctx, all) == GatePassed
                  || CaseOutcome(ctx, id) == if StatusOf(ctx, all) == GateFailed then Failing else Waiting);
    var key :| key in byId && byId[key].slug == slug && id in byId[key].unit.testCaseIds;
    var own := IdSet(byId[key].unit.testCaseIds);
    StatusDependsOnSet(byId[key].unit, ctx);
    assert id in own && own <= all;
  }

  /** A spec's worst status is the status of all its declared cases together. */
  lemma WorstIsTheUnions(byId: Gates, slug: string, ctx: Context, worst: nat)
    ensures IsWorst(byId, slug, ctx, worst) <==> worst == Rank(StatusOf(ctx, SlugCases(byId, slug)))
  {
    hide Gate, StatusOf, SlugCases;
    var union := StatusOf(ctx, SlugCases(byId, slug));
    forall key | key in byId && byId[key].slug == slug ensures Rank(Gate(byId[key].unit, ctx).status) <= Rank(union) {
      MemberBelowUnion(byId, slug, ctx, key);
    }
    if union != NoGatingCases {
      UnionReached(byId, slug, ctx);
    }
  }

  // ---- Whole runs ----

  lemma {:induction false} RunKeeps(start: Gates, ops: seq<Op>, caseMap: CaseMap, slug: string, content: Content)
    ensures Holds(Run(start, ops, caseMap), slug, content) ==> Holds(start, slug, content)
    ensures FreshRun(start, ops, caseMap) && Holds(start, slug, content)
        ==> Holds(Run(start, ops, caseMap), slug, content)
    decreases |ops|
  {
    hide Holds, Carries, Apply, Applies, Fresh, WellFormed;
    if ops != [] {
      var n := |ops| - 1;
      RunKeeps(start, ops[..n], caseMap, slug, content);
      StepKeeps(Run(start, ops[..n], caseMap), ops[n], caseMap, slug, content);
      if FreshRun(start, ops, caseMap) {
        FreshPrefix(start, ops, caseMap);
        assert FreshAt(start, ops, caseMap, n);
      }
    }
  }

  lemma FreshPrefix(start: Gates, ops: seq<Op>, caseMap: CaseMap)
    requires ops != [] && FreshRun(start, ops, caseMap)
    ensures FreshRun(start, ops[..|ops| - 1], caseMap)
  {
    hide Apply, Applies, Fresh, Run, WellFormed;
    var n := |ops| - 1;
    forall k | 0 <= k < n ensures FreshAt(start, ops[..n], caseMap, k) {
      assert FreshAt(start, ops, caseMap, k);
      assert ops[..n][..k] == ops[..k];
    }
  }

  // ---- From working maps to lists ----

  ghost predicate DistinctIds(loaded: seq<LoadedGate>) {
    forall i, j :: 0 <= i < j < |loaded| ==> loaded[i].unit.id != loaded[j].unit.id
  }

  ghost predicate SameGates(gates: seq<LoadedGate>, byId: Gates) {
    forall g :: g in gates <==> exists key :: key in byId && byId[key] == g
  }

  lemma {:induction false} IndexHolds(loaded: seq<LoadedGate>)
    requires DistinctIds(loaded)
    ensures SameGates(loaded, Index(loaded))
    ensures KeyedById(Index(loaded))
    decreases |loaded|
  {
    if loaded != [] {
      var n := |loaded| - 1;
      IndexHolds(loaded[..n]);
      var last, before, after := loaded[n], Index(loaded[..n]), Index(loaded);
      assert loaded == loaded[..n] + [last];
      forall key | key in before ensures key != last.unit.id {
        assert before[key] in loaded[..n];
      }
      assert after == before[last.unit.id := last];
      forall g | g in loaded ensures exists key :: key in after && after[key] == g {
        if g == last {
          assert after[last.unit.id] == g;
        } else {
          var key :| key in before && before[key] == g;
          assert after[key] == g;
        }
      }
      forall key | key in after ensures after[key] in loaded {
        if key != last.unit.id {
          assert before[key] in loaded[..n];
        }
      }
      assert SameGates(loaded, after);
    }
  }

  ghost predicate ListHolds(gates: seq<LoadedGate>, slug: string, content: Content) {
    exists g :: g in gates && g.slug == slug && Carries(g, content)
  }

  /** As `IsWorst`, over a list. */
  ghost predicate WorstAmong(gates: seq<LoadedGate>, slug: string, ctx: Context, worst: nat) {
    && (forall g :: g in gates && g.slug == slug ==> Rank(Gate(g.unit, ctx).status) <= worst)
    && (worst == Rank(NoGatingCases)
        || exists g :: g in gates && g.slug == slug && Rank(Gate(g.unit, ctx).status) == worst)
  }

  lemma ListAndMapAgree(gates: seq<LoadedGate>, byId: Gates, slug: string, ctx: Context, worst: nat, content: Content)
    requires SameGates(gates, byId)
    ensures ListHolds(gates, slug, content) <==> Holds(byId, slug, content)
    ensures WorstAmong(gates, slug, ctx, worst) <==> IsWorst(byId, slug, ctx, worst)
  {
    hide Carries, Gate;
    assert forall key :: key in byId ==> byId[key] in gates;
  }

  /**
   Regrouping that mints fresh ids keeps every spec's gated cases, covered work units and filed leaves,
   exactly. Without that condition it can only lose them, never introduce one.
   */
  lemma RegroupingConserves(loaded: seq<LoadedGate>, ops: seq<Op>, caseMap: CaseMap, le: (string, string) -> bool,
                            gates: seq<LoadedGate>, slug: string, content: Content)
    requires DistinctIds(loaded) && Lists(gates, Run(Index(loaded), ops, caseMap), le)
    ensures ListHolds(gates, slug, content) ==> ListHolds(loaded, slug, content)
    ensures FreshRun(Index(loaded), ops, caseMap)
            ==> (ListHolds(gates, slug, content) <==> ListHolds(loaded, slug, content))
  {
    hide Holds, ListHolds, Run, FreshRun, IsWorst, WorstAmong, Carries, Index, Sorted, WellFormed;
    var start := Index(loaded);
    var anyCtx := Context(None, "", None, None);
    IndexHolds(loaded);
    ListAndMapAgree(loaded, start, slug, anyCtx, 0, content);
    ListAndMapAgree(gates, Run(start, ops, caseMap), slug, anyCtx, 0, content);
    RunKeeps(start, ops, caseMap, slug, content);
  }

  /** A larger set of declared cases is never in a better state. */
  lemma MoreCasesNoBetter(ctx: Context, fewer: set<string>, more: set<string>)
    requires fewer <= more
    ensures Rank(StatusOf(ctx, fewer)) <= Rank(StatusOf(ctx, more))
  {
    hide StatusOf;
    UnionTakesTheWorse(ctx, fewer, more);
    assert fewer + more == more;
  }

  /** The worst status among a spec's gates survives any list of merges and splits that mints fresh ids. */
  lemma RegroupingKeepsTheWorst(loaded: seq<LoadedGate>, ops: seq<Op>, caseMap: CaseMap, le: (string, string) -> bool,
                                gates: seq<LoadedGate>, slug: string, ctx: Context, worst: nat)
    requires DistinctIds(loaded) && FreshRun(Index(loaded), ops, caseMap)
    requires Lists(gates, Run(Index(loaded), ops, caseMap), le)
    ensures WorstAmong(gates, slug, ctx, worst) <==> WorstAmong(loaded, slug, ctx, worst)
  {
    hide Holds, ListHolds, Run, FreshRun, IsWorst, WorstAmong, Carries, Index, Sorted, WellFormed, StatusOf, SlugCases;
    var start, end := Index(loaded), Run(Index(loaded), ops, caseMap);
    IndexHolds(loaded);
    ListAndMapAgree(loaded, start, slug, ctx, worst, CaseGated(""));
    ListAndMapAgree(gates, end, slug, ctx, worst, CaseGated(""));
    WorstIsTheUnions(start, slug, ctx, worst);
    WorstIsTheUnions(end, slug, ctx, worst);
    forall id ensures id in SlugCases(start, slug) <==> id in SlugCases(end, slug) {
      SlugCasesHold(start, slug, id);
      SlugCasesHold(end, slug, id);
      RunKeeps(start, ops, caseMap, slug, CaseGated(id));
    }
    assert SlugCases(start, slug) == SlugCases(end, slug);
  }

  /** None that mints fresh ids hides a gate that is not passed: some gate of its spec stays as bad or worse. */
  lemma NoRegroupingHidesAGate(loaded: seq<LoadedGate>, ops: seq<Op>, caseMap: CaseMap, le: (string, string) -> bool,
                               gates: seq<LoadedGate>, g: LoadedGate, ctx: Context)
    requires DistinctIds(loaded) && FreshRun(Index(loaded), ops, caseMap)
    requires Lists(gates, Run(Index(loaded), ops, caseMap), le)
    requires g in loaded && Gate(g.unit, ctx).status !in {GatePassed, NoGatingCases}
    ensures exists e :: e in gates && e.slug == g.slug
              && Rank(Gate(e.unit, ctx).status) >= Rank(Gate(g.unit, ctx).status)
  {
    hide Holds, ListHolds, Run, FreshRun, IsWorst, Carries, Index, Sorted, WellFormed, StatusOf, SlugCases, Gate;
    var start := Index(loaded);
    IndexHolds(loaded);
    var worst := Rank(StatusOf(ctx, SlugCases(start, g.slug)));
    WorstIsTheUnions(start, g.slug, ctx, worst);
    ListAndMapAgree(loaded, start, g.slug, ctx, worst, CaseGated(""));
    RegroupingKeepsTheWorst(loaded, ops, caseMap, le, gates, g.slug, ctx, worst);
  }

  // ---- What stands behind a synthetic gate ----

  /** Every leaf is a loaded unit of the gate's own spec, and the leaves gate all the gate's cases. */
  ghost predicate Grounded(g: LoadedGate, loaded: seq<LoadedGate>) {
    && (forall leaf :: leaf in Leaves(g) ==> LoadedAs(leaf, g.slug, loaded))
    && forall id :: id in g.unit.testCaseIds ==> exists leaf :: leaf in Leaves(g) && id in leaf.testCaseIds
  }

  ghost predicate LoadedAs(leaf: VerifyUnit, slug: string, loaded: seq<LoadedGate>) {
    exists e :: e in loaded && e.unit == leaf && e.slug == slug
  }

  ghost predicate AllGrounded(byId: Gates, loaded: seq<LoadedGate>) {
    forall key :: key in byId ==> Grounded(byId[key], loaded)
  }

  lemma MergedGrounded(byId: Gates, ids: seq<string>, loaded: seq<LoadedGate>)
    requires ids != [] && MergeApplies(byId, ids) && AllGrounded(byId, loaded)
    ensures Grounded(MergedGate(byId, ids), loaded)
  {
    hide FlatMap, MintMergeGateId, BuildMergedUnit, LoadedAs;
    var merged := MergedGate(byId, ids);
    assert ids[0] in ids && merged.slug == byId[ids[0]].slug;
    forall leaf | leaf in Leaves(merged) ensures LoadedAs(leaf, merged.slug, loaded) {
      MergedCarries(byId, ids, LeafFiled(leaf));
      var key :| key in ids && Carries(byId[key], LeafFiled(leaf));
      assert Grounded(byId[key], loaded);
    }
    forall id | id in merged.unit.testCaseIds ensures exists leaf :: leaf in Leaves(merged) && id in leaf.testCaseIds {
      MergedCarries(byId, ids, CaseGated(id));
      var key :| key in ids && Carries(byId[key], CaseGated(id));
      assert Grounded(byId[key], loaded);
      var leaf :| leaf in Leaves(byId[key]) && id in leaf.testCaseIds;
      MergedCarries(byId, ids, LeafFiled(leaf));
      assert Carries(byId[key], LeafFiled(leaf));
    }
  }

  lemma PartGrounded(byId: Gates, gateId: string, parts: seq<SplitPart>, caseMap: CaseMap, i: nat,
                     loaded: seq<LoadedGate>)
    requires SplitApplies(byId, gateId, parts, caseMap) && i < |parts| && Grounded(byId[gateId], loaded)
    ensures Grounded(PartGate(byId[gateId], PartUnits(gateId, parts, caseMap)[i]), loaded)
  {
    hide BuildSplitUnit, LoadedAs, IsPartition;
    var units := PartUnits(gateId, parts, caseMap);
    var part := PartGate(byId[gateId], units[i]);
    forall id | id in part.unit.testCaseIds ensures id in byId[gateId].unit.testCaseIds {
      PartsCarry(byId, gateId, parts, caseMap, CaseGated(id));
      assert Carries(PartGate(byId[gateId], units[i]), CaseGated(id));
    }
  }

  lemma StepGrounded(byId: Gates, op: Op, caseMap: CaseMap, loaded: seq<LoadedGate>)
    requires AllGrounded(byId, loaded)
    ensures AllGrounded(Apply(byId, op, caseMap), loaded)
  {
    hide Grounded, MintMergeGateId, MergedGate, PartUnits, PutParts, MergeApplies, SplitApplies;
    if Applies(byId, op, caseMap) {
      match op {
        case Merge(gateIds) =>
          AllThere(byId, Deduped(gateIds));
          MergedGrounded(byId, Deduped(gateIds), loaded);
        case Split(gateId, parts) =>
          SplitNeedsSource(byId, gateId, parts, caseMap);
          var units := PartUnits(gateId, parts, caseMap);
          var after := Apply(byId, op, caseMap);
          forall key | key in after ensures Grounded(after[key], loaded) {
            PutPartsAt(Remove(byId, [gateId]), byId[gateId], units, key);
            var last := LastUnit(units, key);
            if last.Some? {
              PartUnitsLength(gateId, parts, caseMap);
              PartGrounded(byId, gateId, parts, caseMap, last.value, loaded);
            }
          }
      }
    }
  }

  lemma PartUnitsLength(gateId: string, parts: seq<SplitPart>, caseMap: CaseMap)
    ensures |PartUnits(gateId, parts, caseMap)| == |parts|
  {
  }

  /** However gates are nested and renested, no leaf is synthetic and none gates a case its leaves do not. */
  lemma {:induction false} RunGrounded(loaded: seq<LoadedGate>, ops: seq<Op>, caseMap: CaseMap)
    requires DistinctIds(loaded) && forall g :: g in loaded ==> g.mergedFrom.None?
    ensures AllGrounded(Run(Index(loaded), ops, caseMap), loaded)
    decreases |ops|
  {
    hide Apply, Index, WellFormed;
    if ops == [] {
      IndexHolds(loaded);
      var start := Index(loaded);
      forall key | key in start ensures Grounded(start[key], loaded) {
        assert start[key] in loaded;
        assert start[key].unit in Leaves(start[key]);
      }
    } else {
      var n := |ops| - 1;
      RunGrounded(loaded, ops[..n], caseMap);
      StepGrounded(Run(Index(loaded), ops[..n], caseMap), ops[n], caseMap, loaded);
    }
  }
}
