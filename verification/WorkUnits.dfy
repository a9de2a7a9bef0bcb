/**
 Filing order over work units (`_topo_order` and `project_blocked_by` in
 scripts/product-dev/work_units.py). A unit is named by its input index, which stands for the
 object identity the source keys its tables on.
 */
module WorkUnits {
  import opened Wrappers
  import opened Strings

  datatype Tracker = Tracker(ref: Option<string>, blockedByRefs: seq<string>)

  /** The fields the ordering reads; the rest of a unit rides along in `other`. */
  datatype Unit = Unit(id: Option<string>, dependsOn: seq<string>, tracker: Option<Tracker>, other: string)

  // ---- The dependency graph ----

  /** `by_id`: the first unit wins for a repeated id, and a unit without an id is not known. */
  function Known(units: seq<Unit>, id: string): (at: Option<nat>)
    ensures at.Some? ==> at.value < |units| && units[at.value].id == Some(id)
    ensures at.Some? ==> forall i :: 0 <= i < at.value ==> units[i].id != Some(id)
    ensures at.None? <==> forall i :: 0 <= i < |units| ==> units[i].id != Some(id)
  {
    if units == [] then None
    else
      var n := |units| - 1;
      var earlier := Known(units[..n], id);
      assert forall i :: 0 <= i < n ==> units[..n][i] == units[i];
      if earlier.None? && units[n].id == Some(id) then Some(n) else earlier
  }

  /** The blockers a list of ids names for unit `i`: dangling ids and `i` itself drop out, repeats stay. */
  function Blockers(units: seq<Unit>, i: nat, ids: seq<string>): (bs: seq<nat>)
    ensures forall b :: b in bs <==> b != i && exists d :: d in ids && Known(units, d) == Some(b)
    ensures forall b :: b in bs ==> b < |units|
  {
    if ids == [] then []
    else
      var n := |ids| - 1;
      assert ids == ids[..n] + [ids[n]];
      var at := Known(units, ids[n]);
      var earlier := Blockers(units, i, ids[..n]);
      assert ids[n] in ids && forall d :: d in ids[..n] ==> d in ids;
      earlier + if at.Some? && at.value != i then [at.value] else []
  }

  function Deps(units: seq<Unit>, i: nat): (bs: seq<nat>)
    requires i < |units|
    ensures forall b :: b in bs ==> b < |units| && b != i
  {
    Blockers(units, i, units[i].dependsOn)
  }

  /** The first unit carrying the id stands here. */
  ghost predicate FirstUnit(units: seq<Unit>, id: string, b: nat) {
    b < |units| && units[b].id == Some(id) && forall a :: 0 <= a < b ==> units[a].id != Some(id)
  }

  lemma KnownIsFirst(units: seq<Unit>, id: string, b: nat)
    ensures Known(units, id) == Some(b) <==> FirstUnit(units, id, b)
  {
    hide Known;
  }

  /** A unit waits on exactly the first units of the ids it names, itself aside. */
  lemma DepsPlainly(units: seq<Unit>, i: nat, b: nat)
    requires i < |units|
    ensures b in Deps(units, i) <==> b != i && exists d :: d in units[i].dependsOn && FirstUnit(units, d, b)
  {
    hide Known, FirstUnit, Blockers;
    forall d ensures Known(units, d) == Some(b) <==> FirstUnit(units, d, b) {
      KnownIsFirst(units, d, b);
    }
  }

  /** A walk along dependencies that comes back to where it started. */
  ghost predicate IsCycle(units: seq<Unit>, walk: seq<nat>) {
    && |walk| >= 2 && walk[0] == walk[|walk| - 1]
    && (forall k :: 0 <= k < |walk| ==> walk[k] < |units|)
    && forall k :: 0 <= k < |walk| - 1 ==> walk[k + 1] in Deps(units, walk[k])
  }

  ghost predicate Cyclic(units: seq<Unit>) {
    exists walk :: IsCycle(units, walk)
  }

  // ---- What an order must be ----

  /** Everything unit `i` waits on has been placed. */
  ghost predicate Unblocked(units: seq<Unit>, i: nat, placed: seq<nat>)
    requires i < |units|
  {
    forall b :: b in Deps(units, i) ==> b in placed
  }

  /** Distinct units, each after everything it depends on. */
  ghost predicate IsFiling(units: seq<Unit>, order: seq<nat>) {
    && NoRepeats(order)
    && (forall p :: 0 <= p < |order| ==> order[p] < |units|)
    && forall p :: 0 <= p < |order| ==> Unblocked(units, order[p], order[..p])
  }

  /** A filing of every unit. */
  ghost predicate IsTopological(units: seq<Unit>, order: seq<nat>) {
    IsFiling(units, order) && |order| == |units|
  }

  ghost predicate LexLess(a: seq<nat>, b: seq<nat>) {
    exists k :: 0 <= k < |a| && k < |b| && a[..k] == b[..k] && a[k] < b[k]
  }

  /** The least topological order by input index, compared position by position. */
  ghost predicate IsLeast(units: seq<Unit>, order: seq<nat>) {
    && IsTopological(units, order)
    && forall other :: IsTopological(units, other) ==> order == other || LexLess(order, other)
  }

  // ---- Kahn's algorithm ----

  function InsertNat(x: nat, sorted: seq<nat>): (r: seq<nat>)
    ensures multiset(r) == multiset{x} + multiset(sorted)
  {
    if sorted == [] || x <= sorted[0] then [x] + sorted
    else
      assert sorted == [sorted[0]] + sorted[1..];
      [sorted[0]] + InsertNat(x, sorted[1..])
  }

  function SortNats(xs: seq<nat>): (r: seq<nat>)
    ensures multiset(r) == multiset(xs)
  {
    if xs == [] then []
    else
      assert xs == [xs[0]] + xs[1..];
      InsertNat(xs[0], SortNats(xs[1..]))
  }

  ghost predicate Ascending(xs: seq<nat>) {
    forall i, j :: 0 <= i < j < |xs| ==> xs[i] < xs[j]
  }

  lemma {:induction false} InsertAscending(x: nat, sorted: seq<nat>)
    requires Ascending(sorted) && x !in sorted
    ensures Ascending(InsertNat(x, sorted))
  {
    if sorted != [] && x > sorted[0] {
      InsertAscending(x, sorted[1..]);
      var rest := InsertNat(x, sorted[1..]);
      forall k | 0 <= k < |rest| ensures sorted[0] < rest[k] {
        assert rest[k] in multiset(rest);
        assert rest[k] == x || rest[k] in multiset(sorted[1..]);
      }
    }
  }

  lemma {:induction false} SortAscending(xs: seq<nat>)
    requires NoRepeats(xs)
    ensures Ascending(SortNats(xs)) && forall x :: x in SortNats(xs) <==> x in xs
  {
    if xs != [] {
      SortAscending(xs[1..]);
      InsertAscending(xs[0], SortNats(xs[1..]));
    }
    SameElements(xs, SortNats(xs));
  }

  /** How many entries of `bs` are not yet placed, repeats counted: the in-degree still standing. */
  function Waiting(bs: seq<nat>, placed: seq<nat>): nat {
    if bs == [] then 0
    else
      var n := |bs| - 1;
      Waiting(bs[..n], placed) + if bs[n] in placed then 0 else 1
  }

  lemma {:induction false} WaitingZero(bs: seq<nat>, placed: seq<nat>)
    ensures Waiting(bs, placed) == 0 <==> forall b :: b in bs ==> b in placed
  {
    if bs != [] {
      var n := |bs| - 1;
      WaitingZero(bs[..n], placed);
      assert bs == bs[..n] + [bs[n]];
    }
  }

  lemma {:induction false} WaitingStep(bs: seq<nat>, placed: seq<nat>, u: nat)
    requires u !in placed
    ensures Waiting(bs, placed) == Waiting(bs, placed + [u]) + multiset(bs)[u]
  {
    if bs != [] {
      var n := |bs| - 1;
      WaitingStep(bs[..n], placed, u);
      assert bs == bs[..n] + [bs[n]];
    }
  }

  lemma {:induction false} WaitingNothingPlaced(bs: seq<nat>)
    ensures Waiting(bs, []) == |bs|
  {
    if bs != [] {
      WaitingNothingPlaced(bs[..|bs| - 1]);
    }
  }

  /** `dependents[b]` names each unit as often as its dependencies name `b`. */
  ghost predicate Reversed(units: seq<Unit>, dependents: seq<seq<nat>>) {
    && |dependents| == |units|
    && (forall b, i :: 0 <= b < |units| && i in dependents[b] ==> i < |units|)
    && forall b, i :: 0 <= b < |units| && 0 <= i < |units| ==> multiset(dependents[b])[i] == multiset(Deps(units, i))[b]
  }

  /** Unit `u`, as often as `bs` names `b`. */
  function Times(u: nat, b: nat, bs: seq<nat>): seq<nat> {
    if bs == [] then []
    else
      var n := |bs| - 1;
      Times(u, b, bs[..n]) + if bs[n] == b then [u] else []
  }

  /** The units naming `b` among the first ones, in order, each as often as it does. */
  function Naming(deps: seq<seq<nat>>, b: nat): seq<nat> {
    if deps == [] then []
    else
      var n := |deps| - 1;
      Naming(deps[..n], b) + Times(n, b, deps[n])
  }

  lemma {:induction false} TimesCounts(u: nat, b: nat, bs: seq<nat>, i: nat)
    ensures multiset(Times(u, b, bs))[i] == if i == u then multiset(bs)[b] else 0
  {
    if bs != [] {
      var n := |bs| - 1;
      TimesCounts(u, b, bs[..n], i);
      assert bs == bs[..n] + [bs[n]];
    }
  }

  lemma {:induction false} NamingCounts(deps: seq<seq<nat>>, b: nat, i: nat)
    ensures multiset(Naming(deps, b))[i] == if i < |deps| then multiset(deps[i])[b] else 0
  {
    if deps != [] {
      var n := |deps| - 1;
      NamingCounts(deps[..n], b, i);
      TimesCounts(n, b, deps[n], i);
    }
  }

  method ReverseEdges(units: seq<Unit>, deps: seq<seq<nat>>) returns (dependents: seq<seq<nat>>)
    requires |deps| == |units| && forall i :: 0 <= i < |units| ==> deps[i] == Deps(units, i)
    ensures Reversed(units, dependents)
  {
    hide Blockers, Known, Deps, Reversed;
    dependents := seq(|units|, _ => []);
    for u := 0 to |units|
      invariant |dependents| == |units|
      invariant forall b :: 0 <= b < |units| ==> dependents[b] == Naming(deps[..u], b)
    {
      assert deps[..u + 1][..u] == deps[..u];
      for q := 0 to |deps[u]|
        invariant |dependents| == |units|
        invariant forall b :: 0 <= b < |units| ==> dependents[b] == Naming(deps[..u], b) + Times(u, b, deps[u][..q])
      {
        assert deps[u][..q + 1][..q] == deps[u][..q];
        var d := deps[u][q];
        assert d in deps[u];
        dependents := dependents[d := dependents[d] + [u]];
      }
      assert deps[u][..|deps[u]|] == deps[u];
    }
    assert deps[..|units|] == deps;
    NamingReverses(units, deps, dependents);
  }

  lemma NamingReverses(units: seq<Unit>, deps: seq<seq<nat>>, dependents: seq<seq<nat>>)
    requires |deps| == |units| && forall i :: 0 <= i < |units| ==> deps[i] == Deps(units, i)
    requires |dependents| == |units| && forall b :: 0 <= b < |units| ==> dependents[b] == Naming(deps, b)
    ensures Reversed(units, dependents)
  {
    hide Deps, Naming;
    forall b, i: nat | 0 <= b < |units|
      ensures multiset(dependents[b])[i] == if i < |deps| then multiset(deps[i])[b] else 0
    {
      NamingCounts(deps, b, i);
    }
    forall b, i | 0 <= b < |units| && i in dependents[b] ensures i < |units| {
      assert i in multiset(dependents[b]);
      NamingCounts(deps, b, i);
    }
  }

  /** The state of the main loop: what is placed, what waits, and that the queue is exactly what is free. */
  ghost predicate KahnState(units: seq<Unit>, ordered: seq<nat>, indeg: seq<nat>, ready: seq<nat>) {
    && IsFiling(units, ordered)
    && |indeg| == |units|
    && (forall i :: 0 <= i < |units| ==> indeg[i] == Waiting(Deps(units, i), ordered))
    && Ascending(ready)
    && forall i :: i in ready <==> 0 <= i < |units| && i !in ordered && indeg[i] == 0
  }

  /** Each choice was the least unit that was free at the time. */
  ghost predicate Greedy(units: seq<Unit>, ordered: seq<nat>) {
    forall p, i :: 0 <= p < |ordered| && 0 <= i < |units| && i !in ordered[..p] && Unblocked(units, i, ordered[..p])
      ==> ordered[p] <= i
  }

  lemma FreeIsReady(units: seq<Unit>, ordered: seq<nat>, indeg: seq<nat>, ready: seq<nat>, i: nat)
    requires KahnState(units, ordered, indeg, ready) && i < |units| && i !in ordered
    ensures i in ready <==> Unblocked(units, i, ordered)
  {
    WaitingZero(Deps(units, i), ordered);
  }

  /** Taking the head of the queue is greedy and keeps the order a filing. */
  lemma TakeHead(units: seq<Unit>, ordered: seq<nat>, indeg: seq<nat>, ready: seq<nat>)
    requires KahnState(units, ordered, indeg, ready) && Greedy(units, ordered) && ready != []
    ensures IsFiling(units, ordered + [ready[0]]) && Greedy(units, ordered + [ready[0]])
  {
    hide Deps, Waiting, Unblocked;
    var u, n := ready[0], |ordered|;
    var longer := ordered + [u];
    assert u in ready;
    FreeIsReady(units, ordered, indeg, ready, u);
    assert longer[..n] == ordered;
    forall p | 0 <= p < |longer| ensures Unblocked(units, longer[p], longer[..p]) {
      if p < n {
        assert longer[..p] == ordered[..p];
      }
    }
    forall p, i | 0 <= p < |longer| && 0 <= i < |units| && i !in longer[..p] && Unblocked(units, i, longer[..p])
      ensures longer[p] <= i
    {
      if p < n {
        assert longer[..p] == ordered[..p];
      } else {
        FreeIsReady(units, ordered, indeg, ready, i);
        var at :| 0 <= at < |ready| && ready[at] == i;
      }
    }
  }

  /** Release everything that waited on `u`: the source's inner loop. */
  method Release(units: seq<Unit>, dependents: seq<nat>, before: seq<nat>, ghost placed: seq<nat>, ghost u: nat)
    returns (indeg: seq<nat>, newly: seq<nat>)
    requires |before| == |units| && u !in placed
    requires forall i :: i in dependents ==> i < |units|
    requires forall i :: 0 <= i < |units| ==> before[i] == Waiting(Deps(units, i), placed)
    requires forall i :: 0 <= i < |units| ==> multiset(dependents)[i] == multiset(Deps(units, i))[u]
    ensures |indeg| == |units| && forall i :: 0 <= i < |units| ==> indeg[i] == Waiting(Deps(units, i), placed + [u])
    ensures NoRepeats(newly)
    ensures forall i :: i in newly <==> 0 <= i < |units| && before[i] > 0 && indeg[i] == 0
  {
    hide Deps, Waiting;
    indeg, newly := before, [];
    forall i | 0 <= i < |units| ensures before[i] == Waiting(Deps(units, i), placed + [u]) + multiset(dependents)[i] {
      WaitingStep(Deps(units, i), placed, u);
    }
    assert dependents[0..] == dependents;
    for q := 0 to |dependents|
      invariant |indeg| == |units|
      invariant forall i :: 0 <= i < |units|
                  ==> indeg[i] == Waiting(Deps(units, i), placed + [u]) + multiset(dependents[q..])[i]
      invariant forall i :: 0 <= i < |units| ==> indeg[i] <= before[i]
      invariant NoRepeats(newly)
      invariant forall i :: i in newly <==> 0 <= i < |units| && before[i] > 0 && indeg[i] == 0
    {
      var dep := dependents[q];
      assert dependents[q..] == [dep] + dependents[q + 1..];
      assert dep in dependents && multiset(dependents[q..])[dep] > 0;
      indeg := indeg[dep := indeg[dep] - 1];
      if indeg[dep] == 0 {
        newly := newly + [dep];
      }
    }
  }

  method TopoOrder(units: seq<Unit>) returns (r: Result<seq<nat>, ()>)
    ensures r.Success? ==> IsLeast(units, r.value)
    ensures r.Failure? <==> Cyclic(units)
  {
    hide Blockers, Known, Deps, Waiting, Unblocked, Cyclic, IsLeast, IsCycle;
    var deps := seq(|units|, i requires 0 <= i < |units| => Deps(units, i));
    var indeg: seq<nat> := seq(|units|, i requires 0 <= i < |units| => |deps[i]|);
    var dependents := ReverseEdges(units, deps);
    var ready: seq<nat> := [];
    for i := 0 to |units|
      invariant forall k :: 0 <= k < |ready| ==> ready[k] < i
      invariant Ascending(ready) && forall x :: x in ready <==> 0 <= x < i && indeg[x] == 0
    {
      if indeg[i] == 0 {
        ready := ready + [i];
      }
    }
    var ordered: seq<nat> := [];
    forall i | 0 <= i < |units| ensures indeg[i] == Waiting(Deps(units, i), []) {
      WaitingNothingPlaced(Deps(units, i));
    }
    while ready != []
      invariant KahnState(units, ordered, indeg, ready) && Greedy(units, ordered)
      decreases |units| - |ordered|
    {
      var u := ready[0];
      assert u in ready;
      TakeHead(units, ordered, indeg, ready);
      AtMostAll(units, ordered + [u]);
      var newly;
      ghost var before, waiting := indeg, ready;
      indeg, newly := Release(units, dependents[u], indeg, ordered, u);
      ready := ready[1..];
      if newly != [] {
        ready := SortNats(ready + newly);
      }
      QueueAfter(units, ordered, before, waiting, indeg, newly, ready);
      ordered := ordered + [u];
    }
    AtMostAll(units, ordered);
    if |ordered| != |units| {
      StuckIsCyclic(units, ordered, indeg);
      return Failure(());
    }
    GreedyIsLeast(units, ordered);
    OrderedIsAcyclic(units, ordered);
    return Success(ordered);
  }

  lemma QueueAfter(units: seq<Unit>, ordered: seq<nat>, before: seq<nat>, waiting: seq<nat>, indeg: seq<nat>,
                   newly: seq<nat>, ready: seq<nat>)
    requires KahnState(units, ordered, before, waiting) && waiting != []
    requires |indeg| == |units| && forall i :: 0 <= i < |units|
                                     ==> indeg[i] == Waiting(Deps(units, i), ordered + [waiting[0]])
    requires NoRepeats(newly) && forall i :: i in newly <==> 0 <= i < |units| && before[i] > 0 && indeg[i] == 0
    requires ready == if newly == [] then waiting[1..] else SortNats(waiting[1..] + newly)
    ensures Ascending(ready)
    ensures forall i :: i in ready <==> 0 <= i < |units| && i !in ordered + [waiting[0]] && indeg[i] == 0
  {
    hide Deps, Waiting, SortNats, IsFiling;
    var u, rest := waiting[0], waiting[1..];
    assert waiting == [u] + rest;
    forall i | 0 <= i < |units| ensures indeg[i] <= before[i] && (i in ordered ==> before[i] == 0) {
      assert u in waiting;
      WaitingStep(Deps(units, i), ordered, u);
      if i in ordered {
        PlacedIsFree(units, ordered, i);
        WaitingZero(Deps(units, i), ordered);
      }
    }
    forall x | x in rest ensures x !in newly && x in waiting && x != u {
    }
    assert forall i :: 0 <= i < |rest| ==> rest[i] == waiting[i + 1];
    DisjointDistinct(rest, newly);
    SortAscending(rest + newly);
    forall i ensures i in rest + newly <==> 0 <= i < |units| && i !in ordered + [u] && indeg[i] == 0 {
      if 0 <= i < |units| && i !in ordered + [u] && indeg[i] == 0 && before[i] == 0 {
        assert i in waiting;
      }
    }
  }

  lemma DisjointDistinct(a: seq<nat>, b: seq<nat>)
    requires Ascending(a) && NoRepeats(b) && forall x :: x in a ==> x !in b
    ensures NoRepeats(a + b)
  {
    forall i, j | 0 <= i < j < |a + b| ensures (a + b)[i] != (a + b)[j] {
      assert i < |a| ==> a[i] in a;
      assert j >= |a| ==> b[j - |a|] in b;
    }
  }

  lemma PlacedIsFree(units: seq<Unit>, ordered: seq<nat>, i: nat)
    requires IsFiling(units, ordered) && i in ordered && i < |units|
    ensures forall b :: b in Deps(units, i) ==> b in ordered
  {
    hide Deps;
    var p :| 0 <= p < |ordered| && ordered[p] == i;
    assert Unblocked(units, ordered[p], ordered[..p]);
  }

  // ---- Counting ----

  ghost function UpTo(n: nat): (below: set<nat>)
    ensures |below| == n
    ensures forall x: nat :: x in below <==> x < n
  {
    if n == 0 then {} else UpTo(n - 1) + {n - 1}
  }

  ghost function Elements(xs: seq<nat>): (all: set<nat>)
    ensures forall x :: x in all <==> x in xs
    ensures NoRepeats(xs) ==> |all| == |xs|
  {
    if xs == [] then {}
    else
      var n := |xs| - 1;
      assert xs == xs[..n] + [xs[n]];
      Elements(xs[..n]) + {xs[n]}
  }

  lemma SubsetNoLarger(a: set<nat>, b: set<nat>)
    requires a <= b
    ensures |a| <= |b|
    ensures |a| == |b| ==> a == b
  {
    assert |b - a| + |a| == |b|;
  }

  lemma DistinctBelow(xs: seq<nat>, n: nat)
    requires NoRepeats(xs) && forall x :: x in xs ==> x < n
    ensures |xs| <= n
    ensures |xs| == n ==> forall x :: 0 <= x < n ==> x in xs
  {
    SubsetNoLarger(Elements(xs), UpTo(n));
  }

  lemma AtMostAll(units: seq<Unit>, ordered: seq<nat>)
    requires IsFiling(units, ordered)
    ensures |ordered| <= |units|
    ensures |ordered| == |units| ==> forall i :: 0 <= i < |units| ==> i in ordered
  {
    hide Unblocked;
    DistinctBelow(ordered, |units|);
  }

  lemma SomeMissing(xs: seq<nat>, n: nat)
    requires NoRepeats(xs) && |xs| < n
    ensures exists i :: 0 <= i < n && i !in xs
  {
    if forall i :: 0 <= i < n ==> i in xs {
      SubsetNoLarger(UpTo(n), Elements(xs));
    }
  }

  // ---- A stuck queue has a cycle, and an order rules one out ----

  lemma LongWalk(units: seq<Unit>, ordered: seq<nat>, indeg: seq<nat>, start: nat, steps: nat) returns (walk: seq<nat>)
    requires KahnState(units, ordered, indeg, []) && start < |units| && start !in ordered
    ensures |walk| == steps + 1 && forall k :: 0 <= k < |walk| ==> walk[k] < |units| && walk[k] !in ordered
    ensures forall k :: 0 <= k < |walk| - 1 ==> walk[k + 1] in Deps(units, walk[k])
  {
    hide Deps, Waiting;
    walk := [start];
    for k := 0 to steps
      invariant |walk| == k + 1 && forall k :: 0 <= k < |walk| ==> walk[k] < |units| && walk[k] !in ordered
      invariant forall k :: 0 <= k < |walk| - 1 ==> walk[k + 1] in Deps(units, walk[k])
    {
      var here := walk[k];
      FreeIsReady(units, ordered, indeg, [], here);
      var b :| b in Deps(units, here) && b !in ordered;
      walk := walk + [b];
    }
  }

  lemma StuckIsCyclic(units: seq<Unit>, ordered: seq<nat>, indeg: seq<nat>)
    requires KahnState(units, ordered, indeg, []) && |ordered| < |units|
    ensures Cyclic(units)
  {
    hide Deps, Waiting;
    SomeMissing(ordered, |units|);
    var start :| 0 <= start < |units| && start !in ordered;
    var walk := LongWalk(units, ordered, indeg, start, |units|);
    if NoRepeats(walk) {
      DistinctBelow(walk, |units|);
    }
    var i, j :| 0 <= i < j < |walk| && walk[i] == walk[j];
    var loop := walk[i..j + 1];
    assert forall k :: 0 <= k < |loop| ==> loop[k] == walk[i + k];
    assert IsCycle(units, loop);
  }

  lemma {:induction false} BlockersComeEarlier(units: seq<Unit>, order: seq<nat>, walk: seq<nat>, k: nat, p0: nat)
    returns (p: nat)
    requires IsTopological(units, order) && IsCycle(units, walk) && k < |walk|
    requires p0 < |order| && order[p0] == walk[0]
    ensures p + k <= p0 && order[p] == walk[k]
    decreases k
  {
    hide Deps;
    if k == 0 {
      p := p0;
    } else {
      var q := BlockersComeEarlier(units, order, walk, k - 1, p0);
      assert walk[k] in Deps(units, walk[k - 1]);
      assert Unblocked(units, order[q], order[..q]);
      p :| 0 <= p < q && order[p] == walk[k];
    }
  }

  /** Where some order exists no dependency walk closes, so a raised cycle is always a real one. */
  lemma OrderedIsAcyclic(units: seq<Unit>, order: seq<nat>)
    requires IsTopological(units, order)
    ensures !Cyclic(units)
  {
    hide Deps, IsTopological;
    if Cyclic(units) {
      var walk :| IsCycle(units, walk);
      TopologicalHasAll(units, order, walk[0]);
      var p0 :| 0 <= p0 < |order| && order[p0] == walk[0];
      var p := BlockersComeEarlier(units, order, walk, |walk| - 1, p0);
      TopologicalDistinct(units, order, p, p0);
    }
  }

  lemma TopologicalHasAll(units: seq<Unit>, order: seq<nat>, i: nat)
    requires IsTopological(units, order) && i < |units|
    ensures i in order
  {
    hide Unblocked;
    AtMostAll(units, order);
  }

  lemma TopologicalDistinct(units: seq<Unit>, order: seq<nat>, p: nat, q: nat)
    requires IsTopological(units, order) && p < |order| && q < |order| && order[p] == order[q]
    ensures p == q
  {
    hide Unblocked;
  }

  // ---- Least among all orders ----

  lemma FirstDifference(a: seq<nat>, b: seq<nat>) returns (k: nat)
    requires |a| == |b| && a != b
    ensures k < |a| && a[..k] == b[..k] && a[k] != b[k]
  {
    k := 0;
    while k < |a| && a[k] == b[k]
      invariant k <= |a| && a[..k] == b[..k]
    {
      k := k + 1;
    }
  }

  lemma GreedyIsLeast(units: seq<Unit>, order: seq<nat>)
    requires IsTopological(units, order) && Greedy(units, order)
    ensures IsLeast(units, order)
  {
    hide Unblocked;
    forall other | IsTopological(units, other) && order != other ensures LexLess(order, other) {
      var k := FirstDifference(order, other);
      assert Unblocked(units, other[k], other[..k]);
      assert other[k] !in other[..k];
      assert order[k] < other[k];
    }
  }

  lemma LeastIsUnique(units: seq<Unit>, a: seq<nat>, b: seq<nat>)
    requires IsLeast(units, a) && IsLeast(units, b)
    ensures a == b
  {
    hide IsTopological;
  }

  function Identity(n: nat): seq<nat> {
    seq(n, i => i)
  }

  lemma SamePrefix(a: seq<nat>, b: seq<nat>, k: nat, j: nat)
    requires j < k <= |a| && k <= |b| && a[..k] == b[..k]
    ensures a[j] == b[j]
  {
    assert a[j] == a[..k][j] && b[j] == b[..k][j];
  }

  /** A list already in a valid order comes back as it is. */
  lemma ValidOrderUnchanged(units: seq<Unit>, order: seq<nat>)
    requires IsLeast(units, order) && IsTopological(units, Identity(|units|))
    ensures order == Identity(|units|)
  {
    hide Unblocked;
    var id := Identity(|units|);
    if order != id {
      var k :| 0 <= k < |order| && k < |id| && order[..k] == id[..k] && order[k] < id[k];
      SamePrefix(order, id, k, order[k]);
    }
  }

  // ---- Reordering what has been reordered ----

  function Reordered(units: seq<Unit>, order: seq<nat>): seq<Unit>
    requires forall p :: 0 <= p < |order| ==> order[p] < |units|
  {
    seq(|order|, p requires 0 <= p < |order| => units[order[p]])
  }

  /**
   In the new list the first unit of an id stands no later than the old one did, so everything the new
   list depends on still comes first, even where ids repeat.
   */
  lemma ReorderedIsInOrder(units: seq<Unit>, order: seq<nat>)
    requires IsTopological(units, order)
    ensures IsTopological(Reordered(units, order), Identity(|units|))
  {
    hide Known, Unblocked;
    var moved, id := Reordered(units, order), Identity(|units|);
    forall p | 0 <= p < |id| ensures Unblocked(moved, id[p], id[..p]) {
      MovedUnblocked(units, order, p);
      UnblockedBelow(moved, p);
    }
  }

  lemma UnblockedBelow(units: seq<Unit>, p: nat)
    requires p < |units| && forall b :: b in Deps(units, p) ==> b < p
    ensures Unblocked(units, p, Identity(|units|)[..p])
  {
    hide Deps;
    forall b | b in Deps(units, p) ensures b in Identity(|units|)[..p] {
      assert Identity(|units|)[..p][b] == b;
    }
  }

  lemma MovedUnblocked(units: seq<Unit>, order: seq<nat>, p: nat)
    requires IsTopological(units, order) && p < |order|
    ensures forall b :: b in Deps(Reordered(units, order), p) ==> b < p
  {
    hide Known, Blockers;
    var moved := Reordered(units, order);
    forall b | b in Deps(moved, p) ensures b < p {
      var d :| d in moved[p].dependsOn && Known(moved, d) == Some(b);
      assert units[order[b]].id == Some(d);
      var first := Known(units, d);
      TopologicalHasAll(units, order, first.value);
      var q :| 0 <= q < |order| && order[q] == first.value;
      assert moved[q].id == Some(d);
      assert b <= q;
      if first.value != order[p] {
        assert first.value in Deps(units, order[p]);
        assert Unblocked(units, order[p], order[..p]);
        var r :| 0 <= r < p && order[r] == first.value;
        TopologicalDistinct(units, order, q, r);
      } else {
        TopologicalDistinct(units, order, q, p);
      }
    }
  }

  /** Ordering twice is ordering once. */
  lemma ReorderingIsIdempotent(units: seq<Unit>, order: seq<nat>, again: seq<nat>)
    requires IsLeast(units, order) && IsLeast(Reordered(units, order), again)
    ensures Reordered(Reordered(units, order), again) == Reordered(units, order)
  {
    ReorderedIsInOrder(units, order);
    ValidOrderUnchanged(Reordered(units, order), again);
  }

  // ---- Projecting blockers' refs ----

  /** The refs a unit's dependency ids lead to, as filed; unknown and unfiled blockers give none. */
  function BlockerRef(units: seq<Unit>, id: string): Option<string> {
    var at := Known(units, id);
    if at.None? || units[at.value].tracker.None? then None
    else
      var ref := units[at.value].tracker.value.ref;
      if ref.None? || ref.value == "" then None else ref
  }

  function Refs(units: seq<Unit>, ids: seq<string>): (refs: seq<string>)
    ensures NoRepeats(refs)
    ensures forall r :: r in refs <==> exists d :: d in ids && BlockerRef(units, d) == Some(r)
  {
    if ids == [] then []
    else
      var n := |ids| - 1;
      assert ids == ids[..n] + [ids[n]];
      var earlier := Refs(units, ids[..n]);
      assert ids[n] in ids && forall d :: d in ids[..n] ==> d in ids;
      var ref := BlockerRef(units, ids[n]);
      if ref.None? || ref.value in earlier then earlier else earlier + [ref.value]
  }

  /** The unit as re-emitted: only the projection inside an existing tracker block is rewritten. */
  function Projected(units: seq<Unit>, u: Unit): Unit {
    if u.tracker.None? then u
    else u.(tracker := Some(u.tracker.value.(blockedByRefs := Refs(units, u.dependsOn))))
  }

  method CollectRefs(units: seq<Unit>, ids: seq<string>) returns (refs: seq<string>)
    ensures refs == Refs(units, ids)
  {
    hide Known;
    refs := [];
    var seen: set<string> := {};
    for q := 0 to |ids|
      invariant refs == Refs(units, ids[..q]) && forall x :: x in seen <==> x in refs
    {
      assert ids[..q + 1][..q] == ids[..q];
      var blocker := Known(units, ids[q]);
      if blocker.Some? && units[blocker.value].tracker.Some? {
        var ref := units[blocker.value].tracker.value.ref;
        if ref.Some? && ref.value != "" && ref.value !in seen {
          seen := seen + {ref.value};
          refs := refs + [ref.value];
        }
      }
    }
    assert ids[..|ids|] == ids;
  }

  method ProjectBlockedBy(units: seq<Unit>) returns (r: Result<seq<Unit>, ()>)
    ensures r.Failure? <==> Cyclic(units)
    ensures r.Success? ==> exists order :: IsLeast(units, order) && |r.value| == |order|
                                           && forall p :: 0 <= p < |order|
                                                ==> r.value[p] == Projected(units, units[order[p]])
    ensures r.Success?
            ==> exists order :: IsLeast(units, order) && |r.value| == |order|
                                && forall p :: 0 <= p < |order| ==> Reprojects(units, units[order[p]], r.value[p])
  {
    hide Cyclic, IsFiling, Known, Refs, Reprojects, Projected;
    var ordered := TopoOrder(units);
    if ordered.Failure? {
      return Failure(());
    }
    InRange(units, ordered.value);
    var result: seq<Unit> := [];
    for p := 0 to |ordered.value|
      invariant |result| == p && forall q :: 0 <= q < p ==> result[q] == Projected(units, units[ordered.value[q]])
    {
      var u := units[ordered.value[p]];
      ProjectedIs(units, u);
      var refs := CollectRefs(units, u.dependsOn);
      if u.tracker.Some? {
        u := u.(tracker := Some(u.tracker.value.(blockedByRefs := refs)));
      }
      result := result + [u];
    }
    forall p | 0 <= p < |ordered.value| ensures Reprojects(units, units[ordered.value[p]], result[p]) {
      ProjectedReprojects(units, units[ordered.value[p]]);
    }
    return Success(result);
  }

  /** The first unit carrying the id is filed, under this ref. */
  ghost predicate FiledAs(units: seq<Unit>, id: string, ref: string) {
    exists b: nat :: && FirstUnit(units, id, b)
                && units[b].tracker.Some? && units[b].tracker.value.ref == Some(ref) && ref != ""
  }

  /**
   A unit as re-emitted: everything of its own as it was, its ref included; inside an existing tracker
   block, the refs its dependencies are filed under, each once, in order of first mention.
   */
  ghost predicate Reprojects(units: seq<Unit>, was: Unit, now: Unit) {
    && now.id == was.id && now.dependsOn == was.dependsOn && now.other == was.other
    && (now.tracker.Some? <==> was.tracker.Some?)
    && (was.tracker.Some?
        ==> && now.tracker.value.ref == was.tracker.value.ref
            && var refs, ids := now.tracker.value.blockedByRefs, was.dependsOn;
               && (forall i, j :: 0 <= i < j < |refs| ==> refs[i] != refs[j])
               && (forall ref :: ref in refs <==> exists d :: d in ids && FiledAs(units, d, ref))
               && forall i, j, n :: 0 <= i < j < |refs| && 0 <= n < |ids| && FiledAs(units, ids[n], refs[j])
                                    ==> exists m :: 0 <= m < n && FiledAs(units, ids[m], refs[i]))
  }

  lemma FiledIsBlockerRef(units: seq<Unit>, id: string, ref: string)
    ensures FiledAs(units, id, ref) <==> BlockerRef(units, id) == Some(ref)
  {
    hide Known, FirstUnit;
    forall b: nat ensures Known(units, id) == Some(b) <==> FirstUnit(units, id, b) {
      KnownIsFirst(units, id, b);
    }
  }

  lemma {:induction false} RefsInOrder(units: seq<Unit>, ids: seq<string>, i: nat, j: nat, n: nat)
    requires i < j < |Refs(units, ids)| && n < |ids| && BlockerRef(units, ids[n]) == Some(Refs(units, ids)[j])
    ensures exists m :: 0 <= m < n && BlockerRef(units, ids[m]) == Some(Refs(units, ids)[i])
  {
    hide BlockerRef;
    var last := |ids| - 1;
    var earlier := Refs(units, ids[..last]);
    assert ids == ids[..last] + [ids[last]];
    assert forall k :: 0 <= k < last ==> ids[k] in ids[..last];
    if j < |earlier| {
      var k := n;
      if n == last {
        var d :| d in ids[..last] && BlockerRef(units, d) == Some(earlier[j]);
        k :| 0 <= k < last && ids[k] == d;
      }
      RefsInOrder(units, ids[..last], i, j, k);
      var m :| 0 <= m < k && BlockerRef(units, ids[..last][m]) == Some(earlier[i]);
      assert ids[..last][m] == ids[m];
    } else {
      assert earlier[i] in earlier;
      var d :| d in ids[..last] && BlockerRef(units, d) == Some(earlier[i]);
      var m :| 0 <= m < last && ids[m] == d;
    }
  }

  lemma ProjectedIs(units: seq<Unit>, u: Unit)
    ensures u.tracker.None? ==> Projected(units, u) == u
    ensures u.tracker.Some?
            ==> Projected(units, u) == u.(tracker := Some(u.tracker.value.(blockedByRefs := Refs(units, u.dependsOn))))
  {
    hide Refs;
  }

  lemma ProjectedReprojects(units: seq<Unit>, u: Unit)
    ensures Reprojects(units, u, Projected(units, u))
  {
    hide BlockerRef, FiledAs, NoRepeats;
    var refs, ids := Refs(units, u.dependsOn), u.dependsOn;
    forall d, ref ensures FiledAs(units, d, ref) <==> BlockerRef(units, d) == Some(ref) {
      FiledIsBlockerRef(units, d, ref);
    }
    NoRepeatsMeans(refs);
    forall i, j, n | 0 <= i < j < |refs| && 0 <= n < |ids| && FiledAs(units, ids[n], refs[j])
      ensures exists m :: 0 <= m < n && FiledAs(units, ids[m], refs[i])
    {
      RefsInOrder(units, ids, i, j, n);
    }
  }

  lemma NoRepeatsMeans(xs: seq<string>)
    requires NoRepeats(xs)
    ensures forall i, j :: 0 <= i < j < |xs| ==> xs[i] != xs[j]
  {
  }

  lemma InRange(units: seq<Unit>, order: seq<nat>)
    requires IsTopological(units, order)
    ensures forall p :: 0 <= p < |order| ==> order[p] < |units|
  {
    hide Unblocked;
  }

  /** Every projected ref is the ref of a unit filed earlier, or of the unit itself when it names its own id. */
  lemma RefsAreFiledBefore(units: seq<Unit>, order: seq<nat>, p: nat, ref: string)
    requires IsTopological(units, order) && p < |order| && order[p] < |units|
    requires ref in Refs(units, units[order[p]].dependsOn)
    ensures exists d, q :: && d in units[order[p]].dependsOn && BlockerRef(units, d) == Some(ref)
                           && 0 <= q <= p && order[q] < |units| && Known(units, d) == Some(order[q])
                           && (q == p ==> units[order[p]].id == Some(d))
  {
    hide Known, Unblocked, IsFiling, IsTopological;
    var u := units[order[p]];
    var d :| d in u.dependsOn && BlockerRef(units, d) == Some(ref);
    var b := Known(units, d).value;
    if b == order[p] {
      assert Known(units, d) == Some(order[p]);
    } else {
      assert b in Deps(units, order[p]);
      var q := PlacedBefore(units, order, p, b);
      assert Known(units, d) == Some(order[q]);
    }
  }

  lemma PlacedBefore(units: seq<Unit>, order: seq<nat>, p: nat, b: nat) returns (q: nat)
    requires IsTopological(units, order) && p < |order| && order[p] < |units| && b in Deps(units, order[p])
    ensures q < p && order[q] == b
  {
    hide Deps;
    assert Unblocked(units, order[p], order[..p]);
    q :| 0 <= q < p && order[q] == b;
  }

  /**
   A self-dependency is no edge in the order, yet a filed unit is projected as blocked by itself, and where
   no other dependency carries its ref, exactly when it names its own id.
   */
  lemma SelfDependencyIsProjected(units: seq<Unit>, i: nat, id: string, ref: string)
    requires i < |units| && Known(units, id) == Some(i) && BlockerRef(units, id) == Some(ref)
    ensures i !in Deps(units, i)
    ensures ref in Refs(units, units[i].dependsOn)
       <==> id in units[i].dependsOn
            || exists d :: d in units[i].dependsOn && d != id && BlockerRef(units, d) == Some(ref)
  {
  }
}
