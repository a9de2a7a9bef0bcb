/**
 The reference the walk is measured against: follow replacement pointers, with no depth limit and
 no visited set. `Resolve` is shown to agree with it exactly, reason by reason.
 */
module SupersessionTrail {
  import opened Wrappers
  import opened Contracts
  import opened LifecycleResolver

  /** The reference `k` hops away from the origin, if the pointers reach that far. */
  ghost function Trail(slug: string, origin: Case, inputs: Inputs, k: nat): Option<PointerRef>
    requires IsSuperseded(origin)
  {
    if k == 0 then Some(OriginRef(slug, origin))
    else if k == 1 then Some(FirstPointer(slug, origin))
    else
      match Trail(slug, origin, inputs, k - 1)
      case None => None
      case Some(ref) =>
        match Land(ref, inputs)
        case OnSuperseded(next) => Some(next)
        case _ => None
  }

  /**
   If a supplied plan holds a case under the origin's own reference, it is the origin case.
   The walk is handed its origin rather than looking it up, so only this ties the two together.
   */
  ghost predicate OriginMatches(slug: string, origin: Case, inputs: Inputs) {
    match LookUp(OriginRef(slug, origin), inputs)
    case None => true
    case Some(c) => c.lifecycle == origin.lifecycle
  }

  ghost predicate AllDifferent(chain: seq<PointerRef>) {
    forall i, j :: 0 <= i < j < |chain| ==> chain[i] != chain[j]
  }

  ghost predicate OnTrail(slug: string, origin: Case, inputs: Inputs, chain: seq<PointerRef>)
    requires IsSuperseded(origin)
  {
    forall i :: 0 <= i < |chain| ==> Trail(slug, origin, inputs, i) == Some(chain[i])
  }

  /** How a walk ended, in terms of the trail. */
  ghost predicate EndsRightly(slug: string, origin: Case, inputs: Inputs, r: Resolution)
    requires IsSuperseded(origin)
  {
    && 1 < |r.chain| <= MAX_SUPERSESSION_DEPTH + 2
    && OnTrail(slug, origin, inputs, r.chain)
    && var n := |r.chain| - 1;
    match r.reason
    case Some(CycleDetected) => r.status == Unresolved && r.resolvedTo.None? && AllDifferent(r.chain[..n])
      && r.chain[n] in r.chain[..n]
    case Some(DepthExceeded) =>
      && r.status == Unresolved && r.resolvedTo.None? && n == MAX_SUPERSESSION_DEPTH && AllDifferent(r.chain)
      && Trail(slug, origin, inputs, n + 1).Some?
      && Trail(slug, origin, inputs, n + 1).value !in r.chain
    case _ =>
      && n <= MAX_SUPERSESSION_DEPTH && AllDifferent(r.chain)
      && !Land(r.chain[n], inputs).OnSuperseded?
      && r == Conclude(OriginRef(slug, origin), r.chain, inputs)
  }

  lemma {:induction false} WalkEndsRightly(slug: string, origin: Case, inputs: Inputs, chain: seq<PointerRef>,
                                           pointer: PointerRef)
    requires IsSuperseded(origin)
    requires 1 <= |chain| <= MAX_SUPERSESSION_DEPTH + 1 && AllDifferent(chain)
    requires OnTrail(slug, origin, inputs, chain) && Trail(slug, origin, inputs, |chain|) == Some(pointer)
    ensures EndsRightly(slug, origin, inputs, Walk(OriginRef(slug, origin), chain, pointer, inputs))
    decreases MAX_SUPERSESSION_DEPTH + 1 - |chain|
  {
    hide Land, StateAt, SpecStateOf, SupersededByOf, FirstPointer;
    var longer := chain + [pointer];
    assert longer[..|chain|] == chain;
    assert OnTrail(slug, origin, inputs, longer);
    if pointer !in chain && |chain| <= MAX_SUPERSESSION_DEPTH {
      match Land(pointer, inputs) {
        case OnSuperseded(next) =>
          WalkEndsRightly(slug, origin, inputs, longer, next);
        case _ =>
          assert longer[|longer| - 1] == pointer;
      }
    }
  }

  /** Every reported chain is the trail itself, and has at most twelve nodes. */
  lemma ChainIsTrail(slug: string, origin: Case, inputs: Inputs)
    requires IsSuperseded(origin)
    ensures EndsRightly(slug, origin, inputs, Resolve(slug, origin, inputs))
    ensures |Resolve(slug, origin, inputs).chain| <= 12
  {
    hide Land, Walk;
    WalkEndsRightly(slug, origin, inputs, [OriginRef(slug, origin)], FirstPointer(slug, origin));
  }

  /** Looking the origin up again finds its own pointer, or nothing the walk could stop on. */
  lemma OriginLanding(slug: string, origin: Case, inputs: Inputs)
    requires IsSuperseded(origin) && OriginMatches(slug, origin, inputs)
    ensures var landing := Land(OriginRef(slug, origin), inputs);
            && landing != OnLiveCase
            && (landing.OnSuperseded? ==> landing == OnSuperseded(FirstPointer(slug, origin)))
  {
    hide ParseReplacementPointer;
  }

  lemma {:induction false} NothingBeyond(slug: string, origin: Case, inputs: Inputs, k: nat, m: nat)
    requires IsSuperseded(origin) && Trail(slug, origin, inputs, k).None? && k <= m
    ensures Trail(slug, origin, inputs, m).None?
    decreases m
  {
    hide Land;
    if k < m {
      NothingBeyond(slug, origin, inputs, k, m - 1);
    }
  }

  lemma TrailStops(slug: string, origin: Case, inputs: Inputs, k: nat)
    requires IsSuperseded(origin) && k >= 1 && Trail(slug, origin, inputs, k).Some?
    requires !Land(Trail(slug, origin, inputs, k).value, inputs).OnSuperseded?
    ensures forall m :: m > k ==> Trail(slug, origin, inputs, m).None?
  {
    hide Land;
    assert Trail(slug, origin, inputs, k + 1).None?;
    forall m | m > k ensures Trail(slug, origin, inputs, m).None? {
      NothingBeyond(slug, origin, inputs, k + 1, m);
    }
  }

  /** Past the origin, the same node has the same future; so has the origin when a plan holds it. */
  lemma {:induction false} TrailRepeats(slug: string, origin: Case, inputs: Inputs, i: nat, j: nat, m: nat)
    requires IsSuperseded(origin) && i < j
    requires Trail(slug, origin, inputs, i) == Trail(slug, origin, inputs, j)
    requires i == 0 ==> Land(OriginRef(slug, origin), inputs) == OnSuperseded(FirstPointer(slug, origin))
    ensures Trail(slug, origin, inputs, i + m) == Trail(slug, origin, inputs, j + m)
  {
    hide Land, Walk;
    if m > 0 {
      TrailRepeats(slug, origin, inputs, i, j, m - 1);
    }
  }

  /** A trail that comes back on itself reaches no live case, however many hops are allowed. */
  lemma RepeatNeverLive(slug: string, origin: Case, inputs: Inputs, i: nat, j: nat, k: nat)
    requires IsSuperseded(origin) && OriginMatches(slug, origin, inputs) && i < j
    requires Trail(slug, origin, inputs, j).Some?
    requires Trail(slug, origin, inputs, i) == Trail(slug, origin, inputs, j)
    ensures var node := Trail(slug, origin, inputs, k);
            node.Some? ==> Land(node.value, inputs) != OnLiveCase
  {
    hide Land;
    OriginLanding(slug, origin, inputs);
    var node := Trail(slug, origin, inputs, k);
    if i == 0 && !Land(OriginRef(slug, origin), inputs).OnSuperseded? {
      TrailStops(slug, origin, inputs, j);
      if node.Some? && Land(node.value, inputs) == OnLiveCase {
        TrailStops(slug, origin, inputs, k);
      }
    } else if node.Some? && Land(node.value, inputs) == OnLiveCase {
      TrailStops(slug, origin, inputs, k);
      TrailRepeats(slug, origin, inputs, i, j, k - i);
    }
  }

  /** A cycle report is never hiding a live replacement further along. */
  lemma CycleNeverLive(slug: string, origin: Case, inputs: Inputs, k: nat)
    requires IsSuperseded(origin) && OriginMatches(slug, origin, inputs)
    requires Resolve(slug, origin, inputs).reason == Some(CycleDetected)
    ensures var node := Trail(slug, origin, inputs, k);
            node.Some? ==> Land(node.value, inputs) != OnLiveCase
  {
    hide Land, Walk;
    ChainIsTrail(slug, origin, inputs);
    var chain := Resolve(slug, origin, inputs).chain;
    var j := |chain| - 1;
    var i :| 0 <= i < j && chain[i] == chain[j];
    RepeatNeverLive(slug, origin, inputs, i, j, k);
  }

  ghost predicate LiveAfter(slug: string, origin: Case, inputs: Inputs, k: nat, target: PointerRef)
    requires IsSuperseded(origin)
  {
    Trail(slug, origin, inputs, k) == Some(target) && Land(target, inputs) == OnLiveCase
  }

  /** Resolved to `target` exactly when one to ten hops reach it live, supplied and unarchived. */
  lemma ResolvedExactly(slug: string, origin: Case, inputs: Inputs, target: PointerRef)
    requires IsSuperseded(origin) && OriginMatches(slug, origin, inputs)
    ensures var r := Resolve(slug, origin, inputs);
            && (r.status == Resolved <==> r.resolvedTo.Some?)
            && (r.resolvedTo == Some(target)
                <==> exists k :: 1 <= k <= MAX_SUPERSESSION_DEPTH && LiveAfter(slug, origin, inputs, k, target))
  {
    hide Land, Walk;
    ChainIsTrail(slug, origin, inputs);
    var r := Resolve(slug, origin, inputs);
    var n := |r.chain| - 1;
    if r.resolvedTo == Some(target) {
      assert LiveAfter(slug, origin, inputs, n, target);
    }
    forall k | 1 <= k <= MAX_SUPERSESSION_DEPTH && LiveAfter(slug, origin, inputs, k, target)
      ensures r.resolvedTo == Some(target)
    {
      LiveEndsWalk(slug, origin, inputs, k, target);
    }
  }

  lemma LiveEndsWalk(slug: string, origin: Case, inputs: Inputs, k: nat, target: PointerRef)
    requires IsSuperseded(origin) && OriginMatches(slug, origin, inputs)
    requires 1 <= k <= MAX_SUPERSESSION_DEPTH && LiveAfter(slug, origin, inputs, k, target)
    ensures Resolve(slug, origin, inputs).resolvedTo == Some(target)
  {
    hide Land, Walk;
    ChainIsTrail(slug, origin, inputs);
    var r := Resolve(slug, origin, inputs);
    var n := |r.chain| - 1;
    TrailStops(slug, origin, inputs, k);
    match r.reason {
      case Some(CycleDetected) => CycleNeverLive(slug, origin, inputs, k);
      case Some(DepthExceeded) =>
      case _ =>
        if n < k {
          TrailStops(slug, origin, inputs, n);
        }
    }
  }

  ghost predicate RepeatsWithin(slug: string, origin: Case, inputs: Inputs, i: nat, j: nat)
    requires IsSuperseded(origin)
  {
    && i < j <= MAX_SUPERSESSION_DEPTH + 1 && Trail(slug, origin, inputs, j).Some?
    && Trail(slug, origin, inputs, i) == Trail(slug, origin, inputs, j)
  }

  /**
   The two give-up reasons, exactly: a cycle when some node comes back within eleven hops, the depth
   limit when there is an eleventh hop and the first twelve nodes all differ.
   */
  lemma GiveUpExactly(slug: string, origin: Case, inputs: Inputs)
    requires IsSuperseded(origin)
    ensures var r := Resolve(slug, origin, inputs);
            && (r.reason == Some(CycleDetected) <==> exists i, j :: RepeatsWithin(slug, origin, inputs, i, j))
            && (r.reason == Some(DepthExceeded)
                <==> Trail(slug, origin, inputs, MAX_SUPERSESSION_DEPTH + 1).Some?
                     && forall i, j :: !RepeatsWithin(slug, origin, inputs, i, j))
  {
    hide Land, Walk;
    ChainIsTrail(slug, origin, inputs);
    var r := Resolve(slug, origin, inputs);
    var n := |r.chain| - 1;
    match r.reason {
      case Some(CycleDetected) =>
        var i :| 0 <= i < n && r.chain[i] == r.chain[n];
        assert RepeatsWithin(slug, origin, inputs, i, n);
      case Some(DepthExceeded) =>
        forall i: nat, j: nat ensures !RepeatsWithin(slug, origin, inputs, i, j) {
          if i < j == n + 1 && RepeatsWithin(slug, origin, inputs, i, j) {
            assert Trail(slug, origin, inputs, j).value in r.chain;
          }
        }
      case _ =>
        TrailStops(slug, origin, inputs, n);
    }
  }

  /**
   Any landing within ten hops that carries no pointer onward decides the whole answer, provided the
   trail did not come back to the origin's own reference first.
   */
  lemma LandingDecides(slug: string, origin: Case, inputs: Inputs, k: nat)
    requires IsSuperseded(origin)
    requires 1 <= k <= MAX_SUPERSESSION_DEPTH && Trail(slug, origin, inputs, k).Some?
    requires !Land(Trail(slug, origin, inputs, k).value, inputs).OnSuperseded?
    requires forall i :: 1 <= i <= k ==> Trail(slug, origin, inputs, i) != Some(OriginRef(slug, origin))
    ensures var r := Resolve(slug, origin, inputs);
            && |r.chain| == k + 1 && OnTrail(slug, origin, inputs, r.chain)
            && r == Conclude(OriginRef(slug, origin), r.chain, inputs)
  {
    hide Land, Walk;
    ChainIsTrail(slug, origin, inputs);
    var r := Resolve(slug, origin, inputs);
    var n := |r.chain| - 1;
    TrailStops(slug, origin, inputs, k);
    match r.reason {
      case Some(CycleDetected) =>
        var i :| 0 <= i < n && r.chain[i] == r.chain[n];
        assert Trail(slug, origin, inputs, i) == Trail(slug, origin, inputs, n);
        if i >= 1 {
          TrailRepeats(slug, origin, inputs, i, n, k - i);
        }
      case Some(DepthExceeded) =>
      case _ =>
        if n < k {
          TrailStops(slug, origin, inputs, n);
        }
    }
  }
}
