/**
 What a merge and a split build, field by field, and the ids they mint: read off the sources, the parts and
 the case map.
 */
module RegroupingFacts {
  import opened Wrappers
  import opened Strings
  import opened GateEvaluator
  import opened GateOverrides
  import opened Regrouping

  // ---- The units built ----

  /** Without repeats, exactly what the sources list under this field. */
  ghost predicate Gathers(out: seq<string>, sources: seq<VerifyUnit>, field: VerifyUnit -> seq<string>) {
    && (forall i, j :: 0 <= i < j < |out| ==> out[i] != out[j])
    && forall x :: x in out <==> exists i :: 0 <= i < |sources| && x in field(sources[i])
  }

  /** A merged unit gathers covers, requirements, stories and cases from its sources alike. */
  lemma MergedUnitPlainly(id: string, sources: seq<VerifyUnit>)
    ensures var u := BuildMergedUnit(id, sources);
            && u.id == id
            && Gathers(u.covers, sources, (s: VerifyUnit) => s.covers)
            && Gathers(u.requirementIds, sources, (s: VerifyUnit) => s.requirementIds)
            && Gathers(u.userStoryIds, sources, (s: VerifyUnit) => s.userStoryIds)
            && Gathers(u.testCaseIds, sources, (s: VerifyUnit) => s.testCaseIds)
  {
    hide Deduped, FlatMap;
    DedupedGathers(sources, CoversOf);
    DedupedGathers(sources, TestCaseIdsOf);
    DedupedGathers(sources, (u: VerifyUnit) => u.requirementIds);
    DedupedGathers(sources, (u: VerifyUnit) => u.userStoryIds);
  }

  lemma DedupedGathers(sources: seq<VerifyUnit>, field: VerifyUnit -> seq<string>)
    ensures Gathers(Deduped(FlatMap(sources, field)), sources, field)
  {
    hide FlatMap;
    forall x ensures x in FlatMap(sources, field) <==> exists i :: 0 <= i < |sources| && x in field(sources[i]) {
      FlatMapHas(sources, field, x);
    }
  }

  /** A split part covers what it is assigned and gates the cases mapped to that; it claims nothing else. */
  lemma SplitUnitPlainly(gateId: string, part: SplitPart, caseMap: CaseMap)
    ensures var u := BuildSplitUnit(gateId, part, caseMap);
            && u.id == "SPLIT:" + gateId + ":" + part.partLabel
            && u.covers == part.coversWorkUnitIds && u.requirementIds == [] && u.userStoryIds == []
            && (forall i, j :: 0 <= i < j < |u.testCaseIds| ==> u.testCaseIds[i] != u.testCaseIds[j])
            && forall tc :: tc in u.testCaseIds
                            <==> exists wu :: wu in part.coversWorkUnitIds && wu in caseMap && tc in caseMap[wu]
  {
    hide Deduped, FlatMap;
    var covers, cases := part.coversWorkUnitIds, (wu: string) => CasesOf(caseMap, wu);
    var u := BuildSplitUnit(gateId, part, caseMap);
    assert u.testCaseIds == Deduped(FlatMap(covers, wu => CasesOf(caseMap, wu)));
    forall tc ensures tc in u.testCaseIds <==> exists wu :: wu in covers && wu in caseMap && tc in caseMap[wu] {
      FlatMapHas(covers, wu => CasesOf(caseMap, wu), tc);
      if wu :| wu in covers && wu in caseMap && tc in caseMap[wu] {
        var i :| 0 <= i < |covers| && covers[i] == wu;
        assert tc in CasesOf(caseMap, covers[i]);
      }
    }
  }

  // ---- The ids minted ----

  /** The merge id of two gates lists them smaller first. */
  lemma MergeIdOfTwo(a: string, b: string)
    requires a != b
    ensures MintMergeGateId([a, b]) == "MERGED:" + if Le(a, b) then a + "+" + b else b + "+" + a
    ensures MintMergeGateId([a]) == "MERGED:" + a
  {
    hide Le;
    var key := (s: string) => s;
    assert [a, b][1..] == [b] && [b][1..] == [] && [a][1..] == [];
    assert SortBy([b], key) == Insert(b, SortBy([], key), key) == [b];
    assert SortBy([a], key) == Insert(a, SortBy([], key), key) == [a];
    assert SortBy([a, b], key) == Insert(a, [b], key);
    if Le(a, b) {
      assert Insert(a, [b], key) == [a] + [b] == [a, b];
      assert Join([a, b], "+") == a + "+" + Join([b], "+") == a + "+" + b;
    } else {
      assert Insert(a, [b], key) == [b] + Insert(a, [], key) == [b, a];
      assert [b, a][1..] == [a];
      assert Join([b, a], "+") == b + "+" + Join([a], "+") == b + "+" + a;
    }
  }

  /** The order is decided by the first character at which two strings differ; a proper prefix comes first. */
  lemma {:induction false} LePlainly(a: string, b: string)
    ensures Le(a, b)
       <==> || a <= b
            || exists k :: 0 <= k < |a| && k < |b| && a[..k] == b[..k] && a[k] < b[k]
  {
    if a != [] && b != [] {
      assert a == [a[0]] + a[1..] && b == [b[0]] + b[1..];
      if a[0] == b[0] {
        LePlainly(a[1..], b[1..]);
        if k :| 0 <= k < |a[1..]| && k < |b[1..]| && a[1..][..k] == b[1..][..k] && a[1..][k] < b[1..][k] {
          assert a[..k + 1] == [a[0]] + a[1..][..k] && b[..k + 1] == [b[0]] + b[1..][..k];
          assert a[k + 1] < b[k + 1];
        }
        if k :| 0 <= k < |a| && k < |b| && a[..k] == b[..k] && a[k] < b[k] {
          assert a[1..][..k - 1] == a[..k][1..] && b[1..][..k - 1] == b[..k][1..];
          assert a[1..][k - 1] < b[1..][k - 1];
        }
      } else if a[0] < b[0] {
        assert a[..0] == b[..0];
      } else {
        assert forall k :: 0 < k <= |a| && k <= |b| ==> a[..k][0] != b[..k][0];
      }
    }
  }

  // ---- The working map and the list ----

  /** Where loaded ids repeat, the last gate of an id is the one kept. */
  lemma {:induction false} IndexKeepsLast(loaded: seq<LoadedGate>, i: nat)
    requires i < |loaded| && forall j :: i < j < |loaded| ==> loaded[j].unit.id != loaded[i].unit.id
    ensures loaded[i].unit.id in Index(loaded) && Index(loaded)[loaded[i].unit.id] == loaded[i]
    decreases |loaded|
  {
    var n := |loaded| - 1;
    if i < n {
      assert forall j :: i < j < n ==> loaded[..n][j] == loaded[j];
      IndexKeepsLast(loaded[..n], i);
    }
  }

  /** The list runs by slug, and within one slug by id. */
  lemma ListedBySlugThenId(gates: seq<LoadedGate>, byId: Gates, le: (string, string) -> bool, i: nat, j: nat)
    requires TotalPreorder(le) && Lists(gates, byId, le) && i < j < |gates|
    ensures le(gates[i].slug, gates[j].slug)
    ensures le(gates[j].slug, gates[i].slug) ==> le(gates[i].unit.id, gates[j].unit.id)
  {
  }
}
