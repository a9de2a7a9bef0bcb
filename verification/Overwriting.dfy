/**
 When regrouping does lose something: an operation whose minted id is already taken, by another gate or by
 an earlier part of the same split, replaces what was there. The exact conditions, per split, per run and
 per spec, inputs that meet them, and a check on ids and labels alone that rules them out.
 */
module Overwriting {
  import opened Wrappers
  import opened Contracts
  import opened Strings
  import opened GateEvaluator
  import opened GateOverrides
  import opened Regrouping
  import opened PlainObjects

  // ---- One split ----

  /** A later part of the same label takes the part's id. */
  ghost predicate Replaced(parts: seq<SplitPart>, i: nat)
    requires i < |parts|
  {
    exists j :: i < j < |parts| && parts[j].partLabel == parts[i].partLabel
  }

  lemma PartsDisjoint(parts: seq<seq<string>>, i: nat, j: nat, x: string)
    requires NoRepeats(Flatten(parts)) && i < j < |parts|
    ensures !(x in parts[i] && x in parts[j])
  {
    hide Flatten;
    if x in parts[i] && x in parts[j] {
      var a :| 0 <= a < |parts[j]| && parts[j][a] == x;
      assert parts[..j][i] == parts[i];
      assert x in Placed(parts, j, a);
      PlacedTwice(parts, j, a);
    }
  }

  lemma ReplacedIsNotLast(byId: Gates, gateId: string, parts: seq<SplitPart>, caseMap: CaseMap, i: nat)
    requires WellFormed(Split(gateId, parts)) && Applies(byId, Split(gateId, parts), caseMap) && i < |parts|
    ensures var put := PutIn(byId, Split(gateId, parts), caseMap);
            |put| == |parts| && (LastPut(put, i) <==> !Replaced(parts, i))
  {
    hide WellFormed, Applies, PutIn, MintSplitGateId, FlatMap, Deduped;
    PutInIds(byId, Split(gateId, parts), caseMap);
    var put := PutIn(byId, Split(gateId, parts), caseMap);
    forall j | i < j < |parts| ensures put[i].unit.id == put[j].unit.id <==> parts[i].partLabel == parts[j].partLabel {
      MintedApart(gateId, parts[i].partLabel, parts[j].partLabel);
    }
  }

  /**
   What an accepted split keeps of its source, when each part carries its own piece and the pieces do not
   overlap: all of it exactly when an untouched gate of the spec carries every piece of a replaced part.
   */
  lemma SplitKeepsExactly(byId: Gates, gateId: string, parts: seq<SplitPart>, caseMap: CaseMap,
                          pieces: seq<seq<string>>, content: string -> Content)
    requires WellFormed(Split(gateId, parts)) && SplitApplies(byId, gateId, parts, caseMap)
    requires |pieces| == |parts| && NoRepeats(Flatten(pieces))
    requires var units := PartUnits(gateId, parts, caseMap);
             forall i, x :: 0 <= i < |units|
               ==> (Carries(PartGate(byId[gateId], units[i]), content(x)) <==> x in pieces[i])
    ensures var op: Op := Split(gateId, parts);
            var put, slug := PutIn(byId, op, caseMap), byId[gateId].slug;
            (forall x :: x in Flatten(pieces) ==> Holds(Apply(byId, op, caseMap), slug, content(x)))
            <==> (forall i, x :: 0 <= i < |parts| && Replaced(parts, i) && x in pieces[i]
                    ==> UntouchedCarries(byId, op, put, slug, content(x)))
  {
    hide WellFormed, SplitApplies, Apply, PutIn, Holds, Carries, UntouchedCarries, Replaced, Flatten, NoRepeats,
      PartUnits, LastPut;
    var op: Op := Split(gateId, parts);
    SplitNeedsSource(byId, gateId, parts, caseMap);
    var put, slug := PutIn(byId, op, caseMap), byId[gateId].slug;
    PutInIds(byId, op, caseMap);
    forall i | 0 <= i < |parts| ensures LastPut(put, i) <==> !Replaced(parts, i) {
      ReplacedIsNotLast(byId, gateId, parts, caseMap, i);
    }
    forall x ensures Holds(Apply(byId, op, caseMap), slug, content(x))
                <==> UntouchedCarries(byId, op, put, slug, content(x))
                     || exists k :: 0 <= k < |parts| && !Replaced(parts, k) && x in pieces[k] {
      HeldAfter(byId, op, caseMap, slug, content(x));
    }
    forall i, k, x | 0 <= i < |parts| && 0 <= k < |parts| && x in pieces[i] && x in pieces[k] ensures i == k {
      if i < k {
        PartsDisjoint(pieces, i, k, x);
      } else if k < i {
        PartsDisjoint(pieces, k, i, x);
      }
    }
    InSomePiece(pieces);
  }

  lemma InSomePiece(pieces: seq<seq<string>>)
    ensures forall x :: x in Flatten(pieces) <==> exists i :: 0 <= i < |pieces| && x in pieces[i]
  {
  }

  /**
   An accepted split keeps every gated case of its source in the spec exactly when an untouched gate of
   the spec gates each case of a part whose label repeats later.
   */
  lemma SplitKeepsCasesExactly(byId: Gates, gateId: string, parts: seq<SplitPart>, caseMap: CaseMap)
    requires WellFormed(Split(gateId, parts)) && SplitApplies(byId, gateId, parts, caseMap)
    ensures var op: Op := Split(gateId, parts);
            var put, slug, units := PutIn(byId, op, caseMap), byId[gateId].slug, PartUnits(gateId, parts, caseMap);
            (forall id :: id in byId[gateId].unit.testCaseIds ==> Holds(Apply(byId, op, caseMap), slug, CaseGated(id)))
            <==> (forall i, id :: 0 <= i < |parts| && Replaced(parts, i) && id in units[i].testCaseIds
                    ==> UntouchedCarries(byId, op, put, slug, CaseGated(id)))
  {
    hide Apply, PutIn, Holds, UntouchedCarries, Replaced, Flatten, NoRepeats, BuildSplitUnit;
    var units, content := PartUnits(gateId, parts, caseMap), (id: string) => CaseGated(id);
    assert forall i :: 0 <= i < |parts| ==> CaseIds(units)[i] == units[i].testCaseIds;
    SplitKeepsExactly(byId, gateId, parts, caseMap, CaseIds(units), content);
    assert forall id :: content(id) == CaseGated(id);
  }

  /** The same for covered work units. */
  lemma SplitKeepsCoversExactly(byId: Gates, gateId: string, parts: seq<SplitPart>, caseMap: CaseMap)
    requires WellFormed(Split(gateId, parts)) && SplitApplies(byId, gateId, parts, caseMap)
    ensures var op: Op := Split(gateId, parts);
            var put, slug := PutIn(byId, op, caseMap), byId[gateId].slug;
            (forall wu :: wu in byId[gateId].unit.covers ==> Holds(Apply(byId, op, caseMap), slug, UnitCovered(wu)))
            <==> (forall i, wu :: 0 <= i < |parts| && Replaced(parts, i) && wu in parts[i].coversWorkUnitIds
                    ==> UntouchedCarries(byId, op, put, slug, UnitCovered(wu)))
  {
    hide Apply, PutIn, Holds, UntouchedCarries, Replaced, NoRepeats, FlatMap, Deduped, MintSplitGateId, Flatten;
    var pieces, content := PartCovers(parts), (wu: string) => UnitCovered(wu);
    assert forall i :: 0 <= i < |parts| ==> pieces[i] == parts[i].coversWorkUnitIds;
    SplitKeepsExactly(byId, gateId, parts, caseMap, pieces, content);
    assert forall wu :: content(wu) == UnitCovered(wu);
  }

  /** Where no untouched gate of the spec covers any of them, that is when the labels all differ. */
  lemma LabelsKeepCoversExactly(byId: Gates, gateId: string, parts: seq<SplitPart>, caseMap: CaseMap)
    requires WellFormed(Split(gateId, parts)) && SplitApplies(byId, gateId, parts, caseMap)
    requires var op: Op := Split(gateId, parts);
             forall wu :: wu in byId[gateId].unit.covers
               ==> !UntouchedCarries(byId, op, PutIn(byId, op, caseMap), byId[gateId].slug, UnitCovered(wu))
    ensures var op: Op := Split(gateId, parts);
            (forall wu :: wu in byId[gateId].unit.covers
               ==> Holds(Apply(byId, op, caseMap), byId[gateId].slug, UnitCovered(wu)))
            <==> forall i :: 0 <= i < |parts| ==> !Replaced(parts, i)
  {
    hide Apply, PutIn, Holds, UntouchedCarries, Replaced, NoRepeats, PartUnits, Flatten;
    SplitKeepsCoversExactly(byId, gateId, parts, caseMap);
    var pieces := PartCovers(parts);
    InSomePiece(pieces);
    forall i, wu | 0 <= i < |parts| && wu in parts[i].coversWorkUnitIds ensures wu in byId[gateId].unit.covers {
      assert wu in pieces[i];
    }
    if i :| 0 <= i < |parts| && Replaced(parts, i) {
      assert parts[i] in parts;
      var wu := parts[i].coversWorkUnitIds[0];
      assert wu in byId[gateId].unit.covers;
    }
  }

  /** Different labels of one gate mint different ids. */
  lemma MintedApart(gateId: string, a: string, b: string)
    ensures MintSplitGateId(gateId, a) == MintSplitGateId(gateId, b) <==> a == b
  {
    var n := |"SPLIT:" + gateId + ":"|;
    assert MintSplitGateId(gateId, a)[n..] == a && MintSplitGateId(gateId, b)[n..] == b;
  }

  /** The order a merge lists its sources in does not show in the id it mints. */
  lemma MergeIdForgetsOrder(ids: seq<string>, reordered: seq<string>)
    requires forall id :: id in ids <==> id in reordered
    ensures MintMergeGateId(Deduped(ids)) == MintMergeGateId(Deduped(reordered))
  {
    SortForgetsOrder(Deduped(ids), Deduped(reordered), (s: string) => s);
  }

  /** A colon in a label lets two splits of different gates mint one id. */
  lemma ColonsCollide(gateId: string, a: string, b: string, c: string)
    ensures MintSplitGateId(MintSplitGateId(gateId, a), b + ":" + c)
         == "SPLIT:SPLIT:" + gateId + ":" + a + ":" + b + ":" + c
    ensures MintSplitGateId("SPLIT:" + gateId + ":" + a + ":" + b, c)
         == "SPLIT:SPLIT:" + gateId + ":" + a + ":" + b + ":" + c
  {
  }

  // ---- Whole runs ----

  /** Operation `k`, if it applies, leaves a survivor for this content wherever it overwrites a bearer. */
  ghost predicate KeptAt(start: Gates, ops: seq<Op>, caseMap: CaseMap, k: nat, slug: string, content: Content)
    requires k < |ops|
  {
    var at := Run(start, ops[..k], caseMap);
    Applies(at, ops[k], caseMap) && OverwrittenCarries(at, ops[k], PutIn(at, ops[k], caseMap), slug, content)
    ==> SurvivorCarries(at, ops[k], PutIn(at, ops[k], caseMap), slug, content)
  }

  lemma {:induction false} RunKeepsExactly(start: Gates, ops: seq<Op>, caseMap: CaseMap, slug: string, content: Content)
    ensures Holds(Run(start, ops, caseMap), slug, content)
       <==> Holds(start, slug, content) && forall k :: 0 <= k < |ops| ==> KeptAt(start, ops, caseMap, k, slug, content)
    decreases |ops|
  {
    hide Holds, Apply, Applies, PutIn, OverwrittenCarries, SurvivorCarries, WellFormed;
    if ops != [] {
      var n := |ops| - 1;
      var before := Run(start, ops[..n], caseMap);
      RunKeepsExactly(start, ops[..n], caseMap, slug, content);
      forall k | 0 <= k < n
        ensures KeptAt(start, ops[..n], caseMap, k, slug, content) <==> KeptAt(start, ops, caseMap, k, slug, content)
      {
        assert ops[..n][..k] == ops[..k];
      }
      assert (forall k :: 0 <= k < |ops| ==> KeptAt(start, ops, caseMap, k, slug, content))
        <==> (forall k :: 0 <= k < n ==> KeptAt(start, ops[..n], caseMap, k, slug, content))
             && KeptAt(start, ops, caseMap, n, slug, content);
      DroppedChangesNothing(before, ops[n], caseMap);
      if Applies(before, ops[n], caseMap) {
        StepLosesExactly(before, ops[n], caseMap, slug, content);
      }
    }
  }

  function Recorded(status: CaseStatus): CaseResult {
    CaseResult(map[], status, None, [], None, false, None)
  }

  /** Results in which one case failed and nothing else is recorded. */
  function OnlyFailed(id: string): Context {
    Context(Some(GateResults(map[id := Recorded(Failed)], "h")), "h", None, None)
  }

  lemma FailureShows(id: string, cases: set<string>)
    ensures StatusOf(OnlyFailed(id), cases) == GateFailed <==> id in cases
  {
    hide INHERITED;
    var ctx := OnlyFailed(id);
    assert forall other :: Dispose(ctx, other) == Gates;
    assert forall other :: CaseOutcome(ctx, other) == Failing <==> other == id;
  }

  /**
   A list of operations hides nothing of a spec, whatever results are recorded, exactly when no operation
   overwrites a gate gating one of its loaded cases without leaving a gate of the spec that gates it.
   */
  lemma RegroupingHidesNothingExactly(loaded: seq<LoadedGate>, ops: seq<Op>, caseMap: CaseMap,
                                      le: (string, string) -> bool,
                                      gates: seq<LoadedGate>, slug: string)
    requires DistinctIds(loaded) && Lists(gates, Run(Index(loaded), ops, caseMap), le)
    ensures (forall ctx, worst :: WorstAmong(gates, slug, ctx, worst) <==> WorstAmong(loaded, slug, ctx, worst))
       <==> (forall id, k :: ListHolds(loaded, slug, CaseGated(id)) && 0 <= k < |ops|
                             ==> KeptAt(Index(loaded), ops, caseMap, k, slug, CaseGated(id)))
  {
    hide Holds, ListHolds, Run, IsWorst, WorstAmong, Carries, Index, Sorted, WellFormed, StatusOf, SlugCases, KeptAt;
    var start, end := Index(loaded), Run(Index(loaded), ops, caseMap);
    IndexHolds(loaded);
    forall ctx, worst
      ensures WorstAmong(loaded, slug, ctx, worst) <==> worst == Rank(StatusOf(ctx, SlugCases(start, slug)))
      ensures WorstAmong(gates, slug, ctx, worst) <==> worst == Rank(StatusOf(ctx, SlugCases(end, slug)))
    {
      ListAndMapAgree(loaded, start, slug, ctx, worst, CaseGated(""));
      ListAndMapAgree(gates, end, slug, ctx, worst, CaseGated(""));
      WorstIsTheUnions(start, slug, ctx, worst);
      WorstIsTheUnions(end, slug, ctx, worst);
    }
    forall id
      ensures id in SlugCases(start, slug) <==> ListHolds(loaded, slug, CaseGated(id))
      ensures id in SlugCases(end, slug)
         <==> id in SlugCases(start, slug) && forall k :: 0 <= k < |ops|
                                                ==> KeptAt(start, ops, caseMap, k, slug, CaseGated(id))
    {
      SlugCasesHold(start, slug, id);
      SlugCasesHold(end, slug, id);
      ListAndMapAgree(loaded, start, slug, OnlyFailed(id), 0, CaseGated(id));
      RunKeepsExactly(start, ops, caseMap, slug, CaseGated(id));
    }
    if forall ctx, worst :: WorstAmong(gates, slug, ctx, worst) <==> WorstAmong(loaded, slug, ctx, worst) {
      forall id | id in SlugCases(start, slug) ensures id in SlugCases(end, slug) {
        FailureShows(id, SlugCases(start, slug));
        FailureShows(id, SlugCases(end, slug));
        assert WorstAmong(loaded, slug, OnlyFailed(id), Rank(GateFailed));
      }
    } else {
      assert SlugCases(start, slug) != SlugCases(end, slug);
    }
  }

  // ---- A check on ids and labels alone ----

  /** The ids an operation would mint, applied or not. */
  function MintedBy(op: Op): seq<string> {
    match op
    case Merge(gateIds) => [MintMergeGateId(Deduped(gateIds))]
    case Split(gateId, parts) =>
      seq(|parts|, i requires 0 <= i < |parts| => MintSplitGateId(gateId, parts[i].partLabel))
  }

  function AllMinted(ops: seq<Op>): seq<string> {
    if ops == [] then []
    else
      var n := |ops| - 1;
      AllMinted(ops[..n]) + MintedBy(ops[n])
  }

  /** No id is minted twice over the whole list, and none is that of a loaded gate. */
  ghost predicate MintsApart(loaded: seq<LoadedGate>, ops: seq<Op>) {
    && NoRepeats(AllMinted(ops))
    && forall g :: g in loaded ==> g.unit.id !in AllMinted(ops)
  }

  lemma MintedKeys(byId: Gates, op: Op, caseMap: CaseMap, key: string)
    ensures key in Apply(byId, op, caseMap) ==> key in byId || key in MintedBy(op)
    ensures && Applies(byId, op, caseMap) && NoRepeats(MintedBy(op))
            && (forall minted :: minted in MintedBy(op) ==> minted !in byId)
            ==> Fresh(byId, op, caseMap)
  {
    hide Applies, Apply, PutIn, MintMergeGateId, MintSplitGateId, Deduped, FlatMap;
    DroppedChangesNothing(byId, op, caseMap);
    if Applies(byId, op, caseMap) {
      AppliedAt(byId, op, caseMap, key);
      PutInIds(byId, op, caseMap);
      var put, minted := PutIn(byId, op, caseMap), MintedBy(op);
      assert forall i :: 0 <= i < |put| ==> put[i].unit.id == minted[i] && minted[i] in minted;
      if op.Split? {
        var units := PartUnits(op.gateId, op.parts, caseMap);
        assert forall i :: 0 <= i < |units| ==> units[i].id == minted[i];
      }
    }
  }

  lemma {:induction false} RunKeys(loaded: seq<LoadedGate>, ops: seq<Op>, caseMap: CaseMap, key: string)
    ensures key in Run(Index(loaded), ops, caseMap)
        ==> (exists g :: g in loaded && g.unit.id == key) || key in AllMinted(ops)
    decreases |ops|
  {
    hide Apply, MintedBy, WellFormed, Index;
    if ops == [] {
      IndexKeys(loaded, key);
    } else {
      var n := |ops| - 1;
      RunKeys(loaded, ops[..n], caseMap, key);
      MintedKeys(Run(Index(loaded), ops[..n], caseMap), ops[n], caseMap, key);
    }
  }

  lemma {:induction false} IndexKeys(loaded: seq<LoadedGate>, key: string)
    ensures key in Index(loaded) ==> exists g :: g in loaded && g.unit.id == key
    decreases |loaded|
  {
    if loaded != [] {
      var n := |loaded| - 1;
      IndexKeys(loaded[..n], key);
      assert loaded == loaded[..n] + [loaded[n]];
    }
  }

  lemma {:induction false} MintedPrefix(ops: seq<Op>, k: nat)
    requires k < |ops|
    ensures AllMinted(ops[..k]) + MintedBy(ops[k]) <= AllMinted(ops)
    decreases |ops|
  {
    hide MintedBy, WellFormed;
    var n := |ops| - 1;
    if k < n {
      MintedPrefix(ops[..n], k);
      assert ops[..n][..k] == ops[..k];
    }
  }

  /** Then every operation that applies mints fresh ids, so nothing is lost. */
  lemma MintsApartIsFresh(loaded: seq<LoadedGate>, ops: seq<Op>, caseMap: CaseMap)
    requires MintsApart(loaded, ops)
    ensures FreshRun(Index(loaded), ops, caseMap)
  {
    hide Run, Apply, Applies, Fresh, MintedBy, AllMinted, Index, WellFormed;
    forall k | 0 <= k < |ops| ensures FreshAt(Index(loaded), ops, caseMap, k) {
      var at, earlier, minted := Run(Index(loaded), ops[..k], caseMap), AllMinted(ops[..k]), MintedBy(ops[k]);
      MintedPrefix(ops, k);
      ApartInside(earlier, minted, AllMinted(ops));
      forall id | id in minted ensures id !in at {
        RunKeys(loaded, ops[..k], caseMap, id);
      }
      MintedKeys(at, ops[k], caseMap, "");
    }
  }

  lemma ApartInside(a: seq<string>, b: seq<string>, all: seq<string>)
    requires a + b <= all && NoRepeats(all)
    ensures NoRepeats(b) && forall id :: id in b ==> id !in a && id in all
  {
    assert forall i :: 0 <= i < |a| ==> all[i] == a[i];
    assert forall j :: 0 <= j < |b| ==> all[|a| + j] == b[j];
  }

  // ---- Inputs that lose something ----

  const TWO_CASE_GATE := LoadedGate("spec", VerifyUnit("G", ["W1", "W2"], [], [], ["T1", "T2"]), None)
  const ONE_CASE_EACH: CaseMap := map["W1" := ["T1"], "W2" := ["T2"]]

  /** The gate split in two, the first part labelled A. */
  function TwoParts(second: string): seq<SplitPart> {
    [SplitPart("A", ["W1"]), SplitPart(second, ["W2"])]
  }

  lemma SplitUnitOfOne(gateId: string, part: SplitPart, caseMap: CaseMap, wu: string, tc: string)
    requires part.coversWorkUnitIds == [wu] && wu in caseMap && caseMap[wu] == [tc]
    ensures BuildSplitUnit(gateId, part, caseMap).id == MintSplitGateId(gateId, part.partLabel)
    ensures BuildSplitUnit(gateId, part, caseMap).testCaseIds == [tc]
  {
    var lists := seq(1, i requires 0 <= i < 1 => CasesOf(caseMap, part.coversWorkUnitIds[i]));
    assert lists == [[tc]];
    assert Flatten([[tc]]) == Flatten([]) + [tc];
    assert Deduped([tc]) == Deduped([]) + [tc];
  }

  lemma TwoPartUnits(label2: string) returns (first: VerifyUnit, second: VerifyUnit)
    ensures PartUnits("G", TwoParts(label2), ONE_CASE_EACH) == [first, second]
    ensures first.id == "SPLIT:G:A" && second.id == "SPLIT:G:" + label2
    ensures first.testCaseIds == ["T1"] && second.testCaseIds == ["T2"]
  {
    hide BuildSplitUnit, FlatMap;
    var parts := TwoParts(label2);
    var units := PartUnits("G", parts, ONE_CASE_EACH);
    SplitUnitOfOne("G", parts[0], ONE_CASE_EACH, "W1", "T1");
    SplitUnitOfOne("G", parts[1], ONE_CASE_EACH, "W2", "T2");
    first, second := units[0], units[1];
  }

  lemma TwoPartsApply(byId: Gates, label2: string)
    requires "G" in byId && byId["G"] == TWO_CASE_GATE && label2 != ""
    ensures WellFormed(Split("G", TwoParts(label2)))
    ensures Applies(byId, Split("G", TwoParts(label2)), ONE_CASE_EACH)
  {
    hide PartUnits, Flatten;
    var parts := TwoParts(label2);
    var first, second := TwoPartUnits(label2);
    assert CaseIds(PartUnits("G", parts, ONE_CASE_EACH)) == [["T1"], ["T2"]];
    assert PartCovers(parts) == [["W1"], ["W2"]];
    TwoSingletons("T1", "T2");
    TwoSingletons("W1", "W2");
    assert parts == [parts[0], parts[1]];
  }

  lemma TwoSingletons(a: string, b: string)
    requires a != b
    ensures Flatten([[a], [b]]) == [a, b] && NoRepeats([a, b])
  {
    assert [[a]][..0] == [];
    assert Flatten([[a]]) == Flatten([]) + [a];
    assert [[a], [b]][..1] == [[a]];
  }

  lemma PutInTwo(byId: Gates, label2: string) returns (first: LoadedGate, second: LoadedGate)
    requires "G" in byId && byId["G"] == TWO_CASE_GATE && label2 != ""
    requires WellFormed(Split("G", TwoParts(label2))) && Applies(byId, Split("G", TwoParts(label2)), ONE_CASE_EACH)
    ensures PutIn(byId, Split("G", TwoParts(label2)), ONE_CASE_EACH) == [first, second]
    ensures first.unit.id == "SPLIT:G:A" && second.unit.id == "SPLIT:G:" + label2
    ensures first.unit.testCaseIds == ["T1"] && second.unit.testCaseIds == ["T2"]
  {
    hide Applies, PutIn, PartUnits, WellFormed, TwoParts;
    PutInIds(byId, Split("G", TwoParts(label2)), ONE_CASE_EACH);
    var a, b := TwoPartUnits(label2);
    first, second := PartGate(TWO_CASE_GATE, a), PartGate(TWO_CASE_GATE, b);
    assert PutIn(byId, Split("G", TwoParts(label2)), ONE_CASE_EACH)[1] == second;
  }

  /** Case `id` failed; T2, and T1 unless it is the one, passed. */
  function FailedBeside(id: string): Context {
    Context(Some(GateResults(map["T1" := Recorded(Passed), "T2" := Recorded(Passed)][id := Recorded(Failed)], "h")),
            "h", None, None)
  }

  lemma StatusOfOne(unit: VerifyUnit, id: string)
    requires id != "T2" && |unit.testCaseIds| > 0
    requires forall tc :: tc in unit.testCaseIds ==> tc in {"T1", "T2", id}
    ensures Gate(unit, FailedBeside(id)).status == if id in unit.testCaseIds then GateFailed else GatePassed
  {
    hide Gate, INHERITED;
    var ctx := FailedBeside(id);
    StatusDependsOnSet(unit, ctx);
    assert unit.testCaseIds[0] in IdSet(unit.testCaseIds);
    assert forall tc :: tc in unit.testCaseIds ==> CaseOutcome(ctx, tc) == if tc == id then Failing else Cleared;
    if id in unit.testCaseIds {
      assert id in IdSet(unit.testCaseIds);
    }
  }

  /** With one label twice the failing first part is replaced, and the one gate left reads as passed. */
  lemma RepeatedLabelHidesAFailure()
    ensures var byId, op := map["G" := TWO_CASE_GATE], Split("G", TwoParts("A"));
            && WellFormed(op) && Applies(byId, op, ONE_CASE_EACH)
            && Gate(TWO_CASE_GATE.unit, FailedBeside("T1")).status == GateFailed
            && Holds(byId, "spec", CaseGated("T1")) && !Holds(Apply(byId, op, ONE_CASE_EACH), "spec", CaseGated("T1"))
            && forall key :: key in Apply(byId, op, ONE_CASE_EACH)
                 ==> Gate(Apply(byId, op, ONE_CASE_EACH)[key].unit, FailedBeside("T1")).status == GatePassed
  {
    hide Gate, Apply, Applies, PutIn, WellFormed, TwoParts;
    var byId := map["G" := TWO_CASE_GATE];
    TwoPartsApply(byId, "A");
    var op: Op := Split("G", TwoParts("A"));
    var after := Apply(byId, op, ONE_CASE_EACH);
    var first, second := PutInTwo(byId, "A");
    StatusOfOne(TWO_CASE_GATE.unit, "T1");
    assert Carries(byId["G"], CaseGated("T1"));
    var put := PutIn(byId, op, ONE_CASE_EACH);
    assert put[0].unit.id == put[1].unit.id && !LastPut(put, 0);
    forall key | key in after
      ensures after[key] == second
    {
      AppliedAt(byId, op, ONE_CASE_EACH, key);
    }
    StatusOfOne(second.unit, "T1");
  }

  const STRANGER := LoadedGate("spec", VerifyUnit("SPLIT:G:A", [], [], [], ["T9"]), None)

  /** With two labels the split still lands on a gate already called what the first part will be. */
  lemma TakenIdHidesAFailure()
    ensures var byId: Gates, op := map["G" := TWO_CASE_GATE, "SPLIT:G:A" := STRANGER], Split("G", TwoParts("B"));
            && WellFormed(op) && Applies(byId, op, ONE_CASE_EACH)
            && Gate(STRANGER.unit, FailedBeside("T9")).status == GateFailed
            && Holds(byId, "spec", CaseGated("T9")) && !Holds(Apply(byId, op, ONE_CASE_EACH), "spec", CaseGated("T9"))
            && forall key :: key in Apply(byId, op, ONE_CASE_EACH)
                 ==> Gate(Apply(byId, op, ONE_CASE_EACH)[key].unit, FailedBeside("T9")).status == GatePassed
  {
    hide Gate, Apply, Applies, PutIn, WellFormed, TwoParts;
    var byId := map["G" := TWO_CASE_GATE, "SPLIT:G:A" := STRANGER];
    TwoPartsApply(byId, "B");
    var op: Op := Split("G", TwoParts("B"));
    var after := Apply(byId, op, ONE_CASE_EACH);
    var first, second := PutInTwo(byId, "B");
    StatusOfOne(STRANGER.unit, "T9");
    assert Carries(byId["SPLIT:G:A"], CaseGated("T9"));
    forall key | key in after
      ensures after[key] == first || after[key] == second
    {
      AppliedAt(byId, op, ONE_CASE_EACH, key);
      assert PutIn(byId, op, ONE_CASE_EACH)[0].unit.id == "SPLIT:G:A";
    }
    StatusOfOne(first.unit, "T9");
    StatusOfOne(second.unit, "T9");
  }
}
