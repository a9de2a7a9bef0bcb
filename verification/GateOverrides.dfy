/**
 The gate-override transform (server/lib/gate-overrides.ts): recorded merge and split operations
 applied over the loaded gates. `Apply` says declaratively what one operation does to the working map;
 the methods are the source's loops over it.
 */
module GateOverrides {
  import opened Wrappers
  import opened Strings
  import opened GateEvaluator

  datatype LoadedGate = LoadedGate(slug: string, unit: VerifyUnit, mergedFrom: Option<seq<VerifyUnit>>)

  datatype SplitPart = SplitPart(partLabel: string, coversWorkUnitIds: seq<string>)

  datatype OpShape = Merge(gateIds: seq<string>) | Split(gateId: string, parts: seq<SplitPart>)

  /** What the override document's schema guarantees of an operation. */
  predicate WellFormed(op: OpShape) {
    match op
    case Merge(gateIds) => |gateIds| >= 2
    case Split(_, parts) =>
      && |parts| >= 2
      && forall p :: p in parts ==> p.partLabel != "" && p.coversWorkUnitIds != []
  }

  type Op = op: OpShape | WellFormed(op) witness Merge(["", ""])

  datatype DropReason =
    | UnknownGates(ids: seq<string>)
    | AcrossSpecs(slugs: seq<string>)
    | NotInCovers(wu: string)
    | AssignedTwice(wu: string)
    | Unassigned(wus: seq<string>)
    | InTwoParts(tc: string)
    | CasesLost(tcs: seq<string>)
    | CasesAdded(tcs: seq<string>)

  datatype DroppedOp = DroppedOp(op: Op, reason: DropReason)

  type CaseMap = map<string, seq<string>>

  // ---- Minting and building ----

  function MintMergeGateId(sourceGateIds: seq<string>): string {
    "MERGED:" + Join(SortBy(sourceGateIds, (s: string) => s), "+")
  }

  function MintSplitGateId(sourceGateId: string, partLabel: string): string {
    "SPLIT:" + sourceGateId + ":" + partLabel
  }

  function FlatMap<S, T(!new)>(xs: seq<S>, f: S -> seq<T>): seq<T> {
    Flatten(seq(|xs|, i requires 0 <= i < |xs| => f(xs[i])))
  }

  function CoversOf(u: VerifyUnit): seq<string> {
    u.covers
  }

  function TestCaseIdsOf(u: VerifyUnit): seq<string> {
    u.testCaseIds
  }

  function BuildMergedUnit(id: string, sources: seq<VerifyUnit>): VerifyUnit {
    VerifyUnit(
      id,
      Deduped(FlatMap(sources, CoversOf)),
      Deduped(FlatMap(sources, (u: VerifyUnit) => u.requirementIds)),
      Deduped(FlatMap(sources, (u: VerifyUnit) => u.userStoryIds)),
      Deduped(FlatMap(sources, TestCaseIdsOf)))
  }

  function CasesOf(caseMap: CaseMap, wu: string): seq<string> {
    if wu in caseMap then caseMap[wu] else []
  }

  function BuildSplitUnit(gateId: string, part: SplitPart, caseMap: CaseMap): VerifyUnit {
    VerifyUnit(
      MintSplitGateId(gateId, part.partLabel),
      part.coversWorkUnitIds,
      [],
      [],
      Deduped(FlatMap(part.coversWorkUnitIds, wu => CasesOf(caseMap, wu))))
  }

  function Leaves(g: LoadedGate): seq<VerifyUnit> {
    if g.mergedFrom.Some? then g.mergedFrom.value else [g.unit]
  }

  // ---- The partition validators ----

  /** Every id of `whole` sits in exactly one place among the parts, and nothing else does. */
  ghost predicate IsPartition(whole: seq<string>, parts: seq<seq<string>>) {
    NoRepeats(Flatten(parts)) && forall x :: x in whole <==> x in Flatten(parts)
  }

  /** A reported error names a real defect of the would-be partition. */
  ghost predicate CoversDefect(whole: seq<string>, parts: seq<seq<string>>, reason: DropReason) {
    match reason
    case NotInCovers(wu) => wu in Flatten(parts) && wu !in whole
    case AssignedTwice(wu) => multiset(Flatten(parts))[wu] > 1
    case Unassigned(wus) => wus != [] && forall wu :: wu in wus <==> wu in whole && wu !in Flatten(parts)
    case _ => false
  }

  ghost predicate GatingDefect(whole: seq<string>, parts: seq<seq<string>>, reason: DropReason) {
    match reason
    case InTwoParts(tc) => multiset(Flatten(parts))[tc] > 1
    case CasesLost(tcs) => tcs != [] && forall tc :: tc in tcs <==> tc in whole && tc !in Flatten(parts)
    case CasesAdded(tcs) => tcs != [] && forall tc :: tc in tcs <==> tc !in whole && tc in Flatten(parts)
    case _ => false
  }

  function Without(ids: seq<string>, drop: set<string>): seq<string> {
    Select(ids, id => id !in drop)
  }

  /** The elements placed once the scan stands at position `a` of part `i`. */
  ghost function Placed(parts: seq<seq<string>>, i: nat, a: nat): seq<string>
    requires i < |parts| && a <= |parts[i]|
  {
    Flatten(parts[..i]) + parts[i][..a]
  }

  lemma FlattenStep<T(!new)>(parts: seq<seq<T>>, i: nat)
    requires i < |parts|
    ensures Flatten(parts[..i + 1]) == Flatten(parts[..i]) + parts[i]
  {
    assert parts[..i + 1][..i] == parts[..i];
  }

  lemma {:induction false} FlattenPrefix<T(!new)>(parts: seq<seq<T>>, i: nat)
    requires i <= |parts|
    ensures Flatten(parts[..i]) <= Flatten(parts)
    decreases |parts| - i
  {
    if i < |parts| {
      FlattenStep(parts, i);
      FlattenPrefix(parts, i + 1);
    } else {
      assert parts[..i] == parts;
    }
  }

  lemma CountedTwice(s: seq<string>, i: nat, j: nat)
    requires i < j < |s| && s[i] == s[j]
    ensures multiset(s)[s[i]] > 1 && !NoRepeats(s)
  {
    assert s == s[..j] + s[j..];
    assert s[..j][i] in multiset(s[..j]) && s[j..][0] in multiset(s[j..]);
  }

  /** Meeting an element already placed means the flattened parts hold it twice. */
  lemma PlacedTwice(parts: seq<seq<string>>, i: nat, a: nat)
    requires i < |parts| && a < |parts[i]| && parts[i][a] in Placed(parts, i, a)
    ensures multiset(Flatten(parts))[parts[i][a]] > 1
    ensures !NoRepeats(Flatten(parts))
  {
    hide Flatten;
    FlattenStep(parts, i);
    FlattenPrefix(parts, i + 1);
    var here := |Flatten(parts[..i])| + a;
    var earlier :| 0 <= earlier < here && Placed(parts, i, a)[earlier] == parts[i][a];
    assert Flatten(parts[..i + 1])[here] == parts[i][a] == Flatten(parts[..i + 1])[earlier];
    CountedTwice(Flatten(parts), earlier, here);
  }

  method ValidateCoversPartition(sourceCovers: seq<string>, partsCovers: seq<seq<string>>)
    returns (error: Option<DropReason>)
    ensures error.None? <==> IsPartition(sourceCovers, partsCovers)
    ensures error.Some? ==> CoversDefect(sourceCovers, partsCovers, error.value)
  {
    hide Flatten, Select;
    var allowed := set wu | wu in sourceCovers;
    var placed: set<string> := {};
    FlattenNothing(partsCovers);
    for i := 0 to |partsCovers|
      invariant forall x :: x in placed <==> x in Flatten(partsCovers[..i])
      invariant NoRepeats(Flatten(partsCovers[..i])) && forall x :: x in placed ==> x in allowed
    {
      var part := partsCovers[i];
      FlattenStep(partsCovers, i);
      FlattenPrefix(partsCovers, i + 1);
      for a := 0 to |part|
        invariant forall x :: x in placed <==> x in Placed(partsCovers, i, a)
        invariant NoRepeats(Placed(partsCovers, i, a)) && forall x :: x in placed ==> x in allowed
      {
        var wu := part[a];
        if wu !in allowed {
          assert wu in Flatten(partsCovers[..i + 1]);
          return Some(NotInCovers(wu));
        }
        if wu in placed {
          PlacedTwice(partsCovers, i, a);
          return Some(AssignedTwice(wu));
        }
        assert Placed(partsCovers, i, a + 1) == Placed(partsCovers, i, a) + [wu];
        placed := placed + {wu};
      }
      assert part[..|part|] == part;
    }
    assert partsCovers[..|partsCovers|] == partsCovers;
    var unassigned := Without(sourceCovers, placed);
    assert forall wu :: wu in unassigned <==> wu in sourceCovers && wu !in placed;
    if |unassigned| > 0 {
      assert unassigned[0] in unassigned;
      return Some(Unassigned(Deduped(unassigned)));
    }
    return None;
  }

  lemma FlattenNothing<T(!new)>(parts: seq<seq<T>>)
    ensures Flatten(parts[..0]) == []
  {
  }

  method ValidateGatingSetPartition(sourceGatingSet: seq<string>, partsTestCaseIds: seq<seq<string>>)
    returns (error: Option<DropReason>)
    ensures error.None? <==> IsPartition(sourceGatingSet, partsTestCaseIds)
    ensures error.Some? ==> GatingDefect(sourceGatingSet, partsTestCaseIds, error.value)
  {
    hide Flatten, Select;
    var placed: set<string> := {};
    var assignedOrder: seq<string> := [];
    FlattenNothing(partsTestCaseIds);
    for i := 0 to |partsTestCaseIds|
      invariant assignedOrder == Flatten(partsTestCaseIds[..i])
      invariant (forall x :: x in placed <==> x in assignedOrder) && NoRepeats(assignedOrder)
    {
      var part := partsTestCaseIds[i];
      FlattenStep(partsTestCaseIds, i);
      for a := 0 to |part|
        invariant assignedOrder == Placed(partsTestCaseIds, i, a)
        invariant (forall x :: x in placed <==> x in assignedOrder) && NoRepeats(assignedOrder)
      {
        var tc := part[a];
        if tc in placed {
          PlacedTwice(partsTestCaseIds, i, a);
          return Some(InTwoParts(tc));
        }
        placed := placed + {tc};
        assignedOrder := assignedOrder + [tc];
      }
      assert part[..|part|] == part;
    }
    assert partsTestCaseIds[..|partsTestCaseIds|] == partsTestCaseIds;
    var source := set tc | tc in sourceGatingSet;
    var lost := Without(Deduped(sourceGatingSet), placed);
    assert forall tc :: tc in lost <==> tc in sourceGatingSet && tc !in placed;
    if |lost| > 0 {
      assert lost[0] in lost;
      return Some(CasesLost(Deduped(lost)));
    }
    var added := Without(assignedOrder, source);
    assert forall tc :: tc in added <==> tc in placed && tc !in sourceGatingSet;
    if |added| > 0 {
      assert added[0] in added;
      return Some(CasesAdded(Deduped(added)));
    }
    return None;
  }

  // ---- One operation ----

  type Gates = map<string, LoadedGate>

  predicate AllPresent(byId: Gates, ids: seq<string>) {
    forall id :: id in ids ==> id in byId
  }

  predicate MergeApplies(byId: Gates, ids: seq<string>) {
    && AllPresent(byId, ids)
    && forall a, b :: a in ids && b in ids ==> byId[a].slug == byId[b].slug
  }

  function Sources(byId: Gates, ids: seq<string>): seq<LoadedGate>
    requires AllPresent(byId, ids)
  {
    seq(|ids|, i requires 0 <= i < |ids| => byId[ids[i]])
  }

  function Units(gates: seq<LoadedGate>): seq<VerifyUnit> {
    seq(|gates|, i requires 0 <= i < |gates| => gates[i].unit)
  }

  /** The one gate a merge puts in place of its sources, carrying their filed leaves flattened. */
  function MergedGate(byId: Gates, ids: seq<string>): LoadedGate
    requires ids != [] && AllPresent(byId, ids)
  {
    var sources := Sources(byId, ids);
    LoadedGate(sources[0].slug, BuildMergedUnit(MintMergeGateId(ids), Units(sources)),
               Some(FlatMap(sources, g => Leaves(g))))
  }

  function PartUnits(gateId: string, parts: seq<SplitPart>, caseMap: CaseMap): seq<VerifyUnit> {
    seq(|parts|, i requires 0 <= i < |parts| => BuildSplitUnit(gateId, parts[i], caseMap))
  }

  function PartCovers(parts: seq<SplitPart>): seq<seq<string>> {
    seq(|parts|, i requires 0 <= i < |parts| => parts[i].coversWorkUnitIds)
  }

  function CaseIds(units: seq<VerifyUnit>): seq<seq<string>> {
    seq(|units|, i requires 0 <= i < |units| => units[i].testCaseIds)
  }

  ghost predicate SplitApplies(byId: Gates, gateId: string, parts: seq<SplitPart>, caseMap: CaseMap) {
    && gateId in byId
    && IsPartition(byId[gateId].unit.covers, PartCovers(parts))
    && IsPartition(byId[gateId].unit.testCaseIds, CaseIds(PartUnits(gateId, parts, caseMap)))
  }

  /** Set one gate per unit, in order: a later unit with the same id replaces an earlier one. */
  function PutParts(base: Gates, source: LoadedGate, units: seq<VerifyUnit>): Gates {
    if units == [] then base
    else
      var n := |units| - 1;
      PutParts(base, source, units[..n])[units[n].id := LoadedGate(source.slug, units[n], Some(Leaves(source)))]
  }

  function Remove(byId: Gates, ids: seq<string>): Gates {
    map key | key in byId && key !in ids :: byId[key]
  }

  ghost predicate Applies(byId: Gates, op: Op, caseMap: CaseMap) {
    match op
    case Merge(gateIds) => MergeApplies(byId, Deduped(gateIds))
    case Split(gateId, parts) => SplitApplies(byId, gateId, parts, caseMap)
  }

  /** An operation that does not apply is dropped and changes nothing. */
  ghost function Apply(byId: Gates, op: Op, caseMap: CaseMap): Gates
  {
    if !Applies(byId, op, caseMap) then byId
    else
      match op
      case Merge(gateIds) =>
        var ids := Deduped(gateIds);
        Remove(byId, ids)[MintMergeGateId(ids) := MergedGate(byId, ids)]
      case Split(gateId, parts) =>
        PutParts(Remove(byId, [gateId]), byId[gateId], PartUnits(gateId, parts, caseMap))
  }

  ghost function Run(byId: Gates, ops: seq<Op>, caseMap: CaseMap): Gates
    decreases |ops|
  {
    if ops == [] then byId
    else
      var n := |ops| - 1;
      Apply(Run(byId, ops[..n], caseMap), ops[n], caseMap)
  }

  /** The operations that did not apply when their turn came. */
  ghost function Skipped(byId: Gates, ops: seq<Op>, caseMap: CaseMap): seq<Op>
    decreases |ops|
  {
    if ops == [] then []
    else
      var n := |ops| - 1;
      Skipped(byId, ops[..n], caseMap) + if Applies(Run(byId, ops[..n], caseMap), ops[n], caseMap) then [] else [ops[n]]
  }

  /** The working map a fold over the loaded gates builds; a repeated id keeps the last entry. */
  function Index(loaded: seq<LoadedGate>): Gates {
    if loaded == [] then map[]
    else
      var n := |loaded| - 1;
      Index(loaded[..n])[loaded[n].unit.id := loaded[n]]
  }

  ghost predicate Justified(byId: Gates, op: Op, caseMap: CaseMap, reason: DropReason) {
    match op
    case Merge(gateIds) =>
      (match reason
       case UnknownGates(ids) => ids != [] && forall id :: id in ids <==> id in gateIds && id !in byId
       case AcrossSpecs(slugs) =>
         && |slugs| > 1 && NoRepeats(slugs)
         && forall slug :: slug in slugs <==> exists id :: id in gateIds && id in byId && byId[id].slug == slug
       case _ => false)
    case Split(gateId, parts) =>
      if gateId !in byId then reason == UnknownGates([gateId])
      else
        || CoversDefect(byId[gateId].unit.covers, PartCovers(parts), reason)
        || GatingDefect(byId[gateId].unit.testCaseIds, CaseIds(PartUnits(gateId, parts, caseMap)), reason)
  }

  method ApplyMerge(byId: Gates, gateIds: seq<string>, caseMap: CaseMap)
    returns (next: Gates, reason: Option<DropReason>)
    requires |gateIds| >= 2
    ensures next == Apply(byId, Merge(gateIds), caseMap)
    ensures reason.None? <==> Applies(byId, Merge(gateIds), caseMap)
    ensures reason.Some? ==> Justified(byId, Merge(gateIds), caseMap, reason.value)
  {
    hide Select, Deduped, MintMergeGateId, BuildMergedUnit, FlatMap, Applies, Justified, Apply, MergeApplies;
    var sourceIds := Dedupe(gateIds);
    var missing := Select(sourceIds, gid => gid !in byId);
    if |missing| > 0 {
      assert missing[0] in missing;
      MergeUnknown(byId, gateIds, caseMap, missing);
      DroppedChangesNothing(byId, Merge(gateIds), caseMap);
      return byId, Some(UnknownGates(missing));
    }
    forall gid | gid in sourceIds ensures gid in byId {
      assert gid !in missing;
    }
    var present := Sources(byId, sourceIds);
    var slugs := Dedupe(SlugsOf(present));
    SlugsOfSources(byId, sourceIds, slugs);
    if |slugs| > 1 {
      MergeAcross(byId, gateIds, caseMap, slugs);
      AcrossJustified(byId, gateIds, caseMap, slugs);
      DroppedChangesNothing(byId, Merge(gateIds), caseMap);
      return byId, Some(AcrossSpecs(slugs));
    }
    MergeReady(byId, sourceIds, slugs);
    MergedMap(byId, gateIds, caseMap);
    var id := MintMergeGateId(sourceIds);
    var unit := BuildMergedUnit(id, Units(present));
    var mergedFrom := FlatMap(present, g => Leaves(g));
    next := byId;
    for k := 0 to |sourceIds|
      invariant next == Remove(byId, sourceIds[..k])
    {
      assert sourceIds[..k + 1] == sourceIds[..k] + [sourceIds[k]];
      next := map key | key in next && key != sourceIds[k] :: next[key];
    }
    assert sourceIds[..|sourceIds|] == sourceIds;
    next := next[id := LoadedGate(present[0].slug, unit, Some(mergedFrom))];
    reason := None;
  }

  function SlugsOf(gates: seq<LoadedGate>): seq<string> {
    seq(|gates|, i requires 0 <= i < |gates| => gates[i].slug)
  }

  lemma DroppedChangesNothing(byId: Gates, op: Op, caseMap: CaseMap)
    ensures !Applies(byId, op, caseMap) ==> Apply(byId, op, caseMap) == byId
  {
    hide Applies;
  }

  lemma MergeUnknown(byId: Gates, gateIds: seq<string>, caseMap: CaseMap, missing: seq<string>)
    requires |gateIds| >= 2 && missing != []
    requires forall id :: id in missing <==> id in Deduped(gateIds) && id !in byId
    ensures !Applies(byId, Merge(gateIds), caseMap)
    ensures Justified(byId, Merge(gateIds), caseMap, UnknownGates(missing))
  {
    hide Deduped;
    assert missing[0] in missing;
  }

  lemma MergeAcross(byId: Gates, gateIds: seq<string>, caseMap: CaseMap, slugs: seq<string>)
    requires |gateIds| >= 2 && AllPresent(byId, Deduped(gateIds)) && |slugs| > 1 && NoRepeats(slugs)
    requires forall slug :: slug in slugs <==> exists id :: id in Deduped(gateIds) && byId[id].slug == slug
    ensures !Applies(byId, Merge(gateIds), caseMap)
  {
    hide Deduped, Applies;
    assert slugs[0] != slugs[1] && slugs[0] in slugs && slugs[1] in slugs;
    var a :| a in Deduped(gateIds) && byId[a].slug == slugs[0];
    var b :| b in Deduped(gateIds) && byId[b].slug == slugs[1];
    DifferentSlugs(byId, gateIds, caseMap, a, b);
  }

  lemma AcrossJustified(byId: Gates, gateIds: seq<string>, caseMap: CaseMap, slugs: seq<string>)
    requires |gateIds| >= 2 && AllPresent(byId, Deduped(gateIds)) && |slugs| > 1 && NoRepeats(slugs)
    requires forall slug :: slug in slugs <==> exists id :: id in Deduped(gateIds) && byId[id].slug == slug
    ensures Justified(byId, Merge(gateIds), caseMap, AcrossSpecs(slugs))
  {
    hide Deduped, NoRepeats;
    forall slug ensures slug in slugs <==> exists id :: id in gateIds && id in byId && byId[id].slug == slug {
      if id :| id in gateIds && id in byId && byId[id].slug == slug {
        assert id in Deduped(gateIds);
      }
    }
  }

  lemma DifferentSlugs(byId: Gates, gateIds: seq<string>, caseMap: CaseMap, a: string, b: string)
    requires |gateIds| >= 2 && AllPresent(byId, Deduped(gateIds))
    requires a in Deduped(gateIds) && b in Deduped(gateIds) && byId[a].slug != byId[b].slug
    ensures !Applies(byId, Merge(gateIds), caseMap)
  {
    hide Deduped;
  }

  lemma MergeReady(byId: Gates, ids: seq<string>, slugs: seq<string>)
    requires AllPresent(byId, ids) && |slugs| <= 1
    requires forall slug :: slug in slugs <==> exists id :: id in ids && byId[id].slug == slug
    ensures MergeApplies(byId, ids)
  {
    forall a, b | a in ids && b in ids ensures byId[a].slug == byId[b].slug {
      assert byId[a].slug in slugs && byId[b].slug in slugs;
    }
  }

  lemma MergedMap(byId: Gates, gateIds: seq<string>, caseMap: CaseMap)
    requires |gateIds| >= 2 && MergeApplies(byId, Deduped(gateIds))
    ensures Applies(byId, Merge(gateIds), caseMap)
    ensures var ids := Deduped(gateIds);
            ids != [] && Apply(byId, Merge(gateIds), caseMap)
              == Remove(byId, ids)[MintMergeGateId(ids) := MergedGate(byId, ids)]
  {
    hide Deduped, MintMergeGateId, MergedGate, Remove, MergeApplies;
    AllThere(byId, Deduped(gateIds));
  }

  lemma AllThere(byId: Gates, ids: seq<string>)
    ensures MergeApplies(byId, ids) ==> AllPresent(byId, ids)
  {
  }

  lemma SlugsOfSources(byId: Gates, ids: seq<string>, slugs: seq<string>)
    requires AllPresent(byId, ids)
    requires var present := Sources(byId, ids);
             slugs == Deduped(SlugsOf(present))
    ensures forall slug :: slug in slugs <==> exists id :: id in ids && byId[id].slug == slug
  {
    hide Deduped;
    var present := Sources(byId, ids);
    var all := SlugsOf(present);
    forall slug ensures slug in all <==> exists id :: id in ids && byId[id].slug == slug {
      if slug in all {
        var i :| 0 <= i < |all| && all[i] == slug;
        assert ids[i] in ids;
      }
      if id :| id in ids && byId[id].slug == slug {
        var i :| 0 <= i < |ids| && ids[i] == id;
        assert all[i] == slug;
      }
    }
  }

  method ApplySplit(byId: Gates, gateId: string, parts: seq<SplitPart>, caseMap: CaseMap)
    returns (next: Gates, reason: Option<DropReason>)
    requires WellFormed(Split(gateId, parts))
    ensures next == Apply(byId, Split(gateId, parts), caseMap)
    ensures reason.None? <==> Applies(byId, Split(gateId, parts), caseMap)
    ensures reason.Some? ==> Justified(byId, Split(gateId, parts), caseMap, reason.value)
  {
    hide IsPartition, CoversDefect, GatingDefect, BuildSplitUnit;
    if gateId !in byId {
      return byId, Some(UnknownGates([gateId]));
    }
    var source := byId[gateId];
    var partitionError := ValidateCoversPartition(source.unit.covers, PartCovers(parts));
    if partitionError.Some? {
      return byId, partitionError;
    }
    var partUnits := PartUnits(gateId, parts, caseMap);
    var gatingError := ValidateGatingSetPartition(source.unit.testCaseIds, CaseIds(partUnits));
    if gatingError.Some? {
      return byId, gatingError;
    }
    var splitFrom := Leaves(source);
    next := map key | key in byId && key != gateId :: byId[key];
    for k := 0 to |partUnits|
      invariant next == PutParts(Remove(byId, [gateId]), source, partUnits[..k])
    {
      assert partUnits[..k + 1][..k] == partUnits[..k];
      next := next[partUnits[k].id := LoadedGate(source.slug, partUnits[k], Some(splitFrom))];
    }
    assert partUnits[..|partUnits|] == partUnits;
    reason := None;
  }

  // ---- The whole list ----

  ghost function Ops(dropped: seq<DroppedOp>): seq<Op> {
    seq(|dropped|, i requires 0 <= i < |dropped| => dropped[i].op)
  }

  /** A locale order on strings, of which only totality and transitivity are used. */
  ghost predicate TotalPreorder(le: (string, string) -> bool) {
    && (forall a, b :: le(a, b) || le(b, a))
    && (forall a, b, c :: le(a, b) && le(b, c) ==> le(a, c))
  }

  predicate GateLe(a: LoadedGate, b: LoadedGate, le: (string, string) -> bool) {
    if le(a.slug, b.slug) && le(b.slug, a.slug) then le(a.unit.id, b.unit.id) else le(a.slug, b.slug)
  }

  ghost predicate Sorted(gates: seq<LoadedGate>, le: (string, string) -> bool) {
    forall i, j :: 0 <= i < j < |gates| ==> GateLe(gates[i], gates[j], le)
  }

  /** The working map's gates, each once, by slug and then by id. */
  ghost predicate Lists(gates: seq<LoadedGate>, byId: Gates, le: (string, string) -> bool) {
    && |gates| == |byId|
    && (forall g :: g in gates <==> exists key :: key in byId && byId[key] == g)
    && Sorted(gates, le)
  }

  ghost predicate KeyedById(byId: Gates) {
    forall key :: key in byId ==> byId[key].unit.id == key
  }

  method SortGates(byId: Gates, le: (string, string) -> bool) returns (gates: seq<LoadedGate>)
    requires TotalPreorder(le)
    ensures Lists(gates, byId, le)
  {
    gates := [];
    var rest := byId.Keys;
    while rest != {}
      invariant rest <= byId.Keys && |gates| == |byId| - |rest|
      invariant forall g :: g in gates <==> exists key :: key in byId && key !in rest && byId[key] == g
      invariant Sorted(gates, le)
      decreases rest
    {
      var key :| key in rest;
      var p := 0;
      while p < |gates| && GateLe(gates[p], byId[key], le)
        invariant p <= |gates| && forall i :: 0 <= i < p ==> GateLe(gates[i], byId[key], le)
      {
        p := p + 1;
      }
      ghost var before := gates;
      gates := gates[..p] + [byId[key]] + gates[p..];
      forall i, j | 0 <= i < j < |gates| ensures GateLe(gates[i], gates[j], le) {
        assert j > p ==> gates[j] == before[j - 1];
        assert i == p < j ==> GateLe(byId[key], before[p], le);
      }
      forall g ensures g in gates <==> g in before || g == byId[key] {
        assert before == before[..p] + before[p..];
      }
      rest := rest - {key};
    }
  }

  lemma RunNext(byId: Gates, ops: seq<Op>, k: nat, caseMap: CaseMap)
    requires k < |ops|
    ensures Run(byId, ops[..k + 1], caseMap) == Apply(Run(byId, ops[..k], caseMap), ops[k], caseMap)
    ensures Skipped(byId, ops[..k + 1], caseMap)
         == Skipped(byId, ops[..k], caseMap)
            + if Applies(Run(byId, ops[..k], caseMap), ops[k], caseMap) then [] else [ops[k]]
  {
    hide Apply, Applies, WellFormed;
    assert ops[..k + 1][..k] == ops[..k];
  }

  /** `reason` explains why operation `k` did not apply to the map the earlier ones left. */
  ghost predicate DroppedAt(start: Gates, ops: seq<Op>, caseMap: CaseMap, k: nat, d: DroppedOp)
    requires k < |ops|
  {
    d.op == ops[k] && Justified(Run(start, ops[..k], caseMap), ops[k], caseMap, d.reason)
  }

  method ApplyOne(byId: Gates, op: Op, caseMap: CaseMap) returns (next: Gates, reason: Option<DropReason>)
    ensures next == Apply(byId, op, caseMap)
    ensures reason.None? <==> Applies(byId, op, caseMap)
    ensures reason.Some? ==> Justified(byId, op, caseMap, reason.value)
  {
    hide Apply, Applies, Justified;
    match op {
      case Merge(gateIds) => next, reason := ApplyMerge(byId, gateIds, caseMap);
      case Split(gateId, parts) => next, reason := ApplySplit(byId, gateId, parts, caseMap);
    }
  }

  /** The whole transform: index, apply or drop each operation in turn, list what is left. */
  method ApplyGateOverrides(loaded: seq<LoadedGate>, ops: seq<Op>, caseMap: CaseMap, le: (string, string) -> bool)
    returns (gates: seq<LoadedGate>, dropped: seq<DroppedOp>)
    requires TotalPreorder(le)
    ensures Lists(gates, Run(Index(loaded), ops, caseMap), le)
    ensures Ops(dropped) == Skipped(Index(loaded), ops, caseMap)
    ensures forall d :: d in dropped ==> exists k :: 0 <= k < |ops| && DroppedAt(Index(loaded), ops, caseMap, k, d)
  {
    hide Apply, Applies, Justified, WellFormed, TotalPreorder, Lists;
    var byId: Gates := map[];
    for k := 0 to |loaded|
      invariant byId == Index(loaded[..k])
    {
      assert loaded[..k + 1][..k] == loaded[..k];
      byId := byId[loaded[k].unit.id := loaded[k]];
    }
    assert loaded[..|loaded|] == loaded;
    ghost var start := byId;
    dropped := [];
    for k := 0 to |ops|
      invariant byId == Run(start, ops[..k], caseMap)
      invariant Ops(dropped) == Skipped(start, ops[..k], caseMap)
      invariant forall d :: d in dropped ==> exists j :: 0 <= j < k && DroppedAt(start, ops, caseMap, j, d)
    {
      RunNext(start, ops, k, caseMap);
      var next, reason := ApplyOne(byId, ops[k], caseMap);
      if reason.Some? {
        var d := DroppedOp(ops[k], reason.value);
        assert DroppedAt(start, ops, caseMap, k, d);
        assert Ops(dropped + [d]) == Ops(dropped) + [ops[k]];
        dropped := dropped + [d];
      }
      byId := next;
    }
    assert ops[..|ops|] == ops;
    gates := SortGates(byId, le);
  }
}
