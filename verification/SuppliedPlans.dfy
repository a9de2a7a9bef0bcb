/**
 What the supplied plan map does to a resolution: a closed map is always enough, a larger map only
 ever extends what was cut short, and every node along a resolved chain resolves the same way.
 */
module SuppliedPlans {
  import opened Wrappers
  import opened Contracts
  import opened LifecycleResolver
  import opened SupersessionTrail

  lemma PlanOriginsMatch(plan: Plan, inputs: Inputs, i: nat)
    requires UniqueIds(plan.cases) && i < |plan.cases|
    ensures OriginMatches(plan.specSlug, plan.cases[i], WithPlan(plan, inputs))
  {
    FindCaseUnique(plan.cases, i);
  }

  /** Every slug a supplied plan mentions is itself supplied, under its own name. */
  ghost predicate Closed(plans: map<string, Plan>) {
    forall key :: key in plans ==>
      && plans[key].specSlug == key
      && forall c :: c in plans[key].cases && ReferencedSlug(c, key).Some? ==> ReferencedSlug(c, key).value in plans
  }

  lemma {:induction false} WalkStaysSupplied(origin: PointerRef, chain: seq<PointerRef>, pointer: PointerRef,
                                             inputs: Inputs)
    requires 1 <= |chain| <= MAX_SUPERSESSION_DEPTH + 1
    requires Closed(inputs.plans) && pointer.slug in inputs.plans
    ensures Walk(origin, chain, pointer, inputs).reason != Some(TargetSpecNotSupplied)
    decreases MAX_SUPERSESSION_DEPTH + 1 - |chain|
  {
    hide StateAt, SpecStateOf, SupersededByOf, ParseReplacementPointer;
    if pointer !in chain && |chain| <= MAX_SUPERSESSION_DEPTH {
      match Land(pointer, inputs) {
        case OnSuperseded(next) =>
          var c := LookUp(pointer, inputs).value;
          assert ReferencedSlug(c, pointer.slug) == if next.slug == pointer.slug then None else Some(next.slug);
          WalkStaysSupplied(origin, chain + [pointer], next, inputs);
        case _ =>
      }
    }
  }

  /** Loading until nothing new is referenced leaves no resolution short of a plan. */
  lemma ClosedMapSuffices(slug: string, inputs: Inputs, i: nat)
    requires Closed(inputs.plans) && slug in inputs.plans && i < |inputs.plans[slug].cases|
    ensures ResolvePlan(inputs.plans[slug], inputs)[i].reason != Some(TargetSpecNotSupplied)
  {
    hide Walk, ParseReplacementPointer;
    var plan := inputs.plans[slug];
    var c := plan.cases[i];
    assert WithPlan(plan, inputs) == inputs;
    if IsSuperseded(c) {
      var pointer := FirstPointer(slug, c);
      assert ReferencedSlug(c, slug) == if pointer.slug == slug then None else Some(pointer.slug);
      WalkStaysSupplied(OriginRef(slug, c), [OriginRef(slug, c)], pointer, inputs);
    }
  }

  /** `more` supplies every plan `inputs` does, and says the same about those specs. */
  ghost predicate Adds(inputs: Inputs, more: Inputs) {
    forall slug :: slug in inputs.plans ==>
      && slug in more.plans && more.plans[slug] == inputs.plans[slug]
      && (slug in inputs.specLifecycles <==> slug in more.specLifecycles)
      && (slug in inputs.specLifecycles ==> inputs.specLifecycles[slug] == more.specLifecycles[slug])
  }

  lemma SuppliedLandsAlike(ref: PointerRef, inputs: Inputs, more: Inputs)
    requires Adds(inputs, more) && ref.slug in inputs.plans
    ensures Land(ref, inputs) == Land(ref, more)
    ensures StateAt(ref, inputs) == StateAt(ref, more)
    ensures SpecStateOf(ref.slug, inputs) == SpecStateOf(ref.slug, more)
    ensures SupersededByOf(ref.slug, inputs) == SupersededByOf(ref.slug, more)
  {
  }

  lemma WalkExtendsChain(origin: PointerRef, chain: seq<PointerRef>, pointer: PointerRef, inputs: Inputs)
    requires 1 <= |chain| <= MAX_SUPERSESSION_DEPTH + 1
    ensures chain <= Walk(origin, chain, pointer, inputs).chain
    ensures Land(pointer, inputs) == OnNothingSupplied && pointer !in chain && |chain| <= MAX_SUPERSESSION_DEPTH
            ==> Walk(origin, chain, pointer, inputs).chain == chain + [pointer]
    ensures pointer !in chain && |chain| <= MAX_SUPERSESSION_DEPTH
            ==> chain + [pointer] <= Walk(origin, chain, pointer, inputs).chain
    decreases MAX_SUPERSESSION_DEPTH + 1 - |chain|
  {
    hide Land, StateAt, SpecStateOf, SupersededByOf;
    if pointer !in chain && |chain| <= MAX_SUPERSESSION_DEPTH {
      match Land(pointer, inputs) {
        case OnSuperseded(next) => WalkExtendsChain(origin, chain + [pointer], next, inputs);
        case _ =>
      }
    }
  }

  lemma {:induction false} MorePlansWalk(origin: PointerRef, chain: seq<PointerRef>, pointer: PointerRef,
                                         inputs: Inputs, more: Inputs)
    requires 1 <= |chain| <= MAX_SUPERSESSION_DEPTH + 1 && Adds(inputs, more)
    requires forall ref :: ref in chain ==> ref.slug in inputs.plans
    ensures var few, many := Walk(origin, chain, pointer, inputs), Walk(origin, chain, pointer, more);
            if few.reason == Some(TargetSpecNotSupplied) then few.chain <= many.chain else many == few
    decreases MAX_SUPERSESSION_DEPTH + 1 - |chain|
  {
    hide Land, StateAt, SpecStateOf, SupersededByOf;
    if pointer in chain {
      SuppliedLandsAlike(pointer, inputs, more);
    } else if |chain| > MAX_SUPERSESSION_DEPTH {
      SuppliedLandsAlike(chain[|chain| - 1], inputs, more);
    } else if pointer.slug in inputs.plans {
      SuppliedLandsAlike(pointer, inputs, more);
      match Land(pointer, inputs) {
        case OnSuperseded(next) => MorePlansWalk(origin, chain + [pointer], next, inputs, more);
        case _ => assert (chain + [pointer])[|chain|] == pointer;
      }
    } else {
      assert Land(pointer, inputs) == OnNothingSupplied by { UnsuppliedLanding(pointer, inputs); }
      WalkExtendsChain(origin, chain, pointer, inputs);
      WalkExtendsChain(origin, chain, pointer, more);
    }
  }

  lemma UnsuppliedLanding(pointer: PointerRef, inputs: Inputs)
    requires pointer.slug !in inputs.plans
    ensures Land(pointer, inputs) == OnNothingSupplied
  {
  }

  /** Supplying more plans changes no answer except those cut short, and those only by extending them. */
  lemma MorePlansOnlyExtend(plan: Plan, inputs: Inputs, more: Inputs, i: nat)
    requires Adds(WithPlan(plan, inputs), WithPlan(plan, more)) && i < |plan.cases|
    ensures var few, many := ResolvePlan(plan, inputs)[i], ResolvePlan(plan, more)[i];
            if few.reason == Some(TargetSpecNotSupplied) then few.chain <= many.chain else many == few
  {
    hide Walk, ParseReplacementPointer;
    var c, slug := plan.cases[i], plan.specSlug;
    SuppliedLandsAlike(OriginRef(slug, c), WithPlan(plan, inputs), WithPlan(plan, more));
    if IsSuperseded(c) {
      MorePlansWalk(OriginRef(slug, c), [OriginRef(slug, c)], FirstPointer(slug, c), WithPlan(plan, inputs),
                    WithPlan(plan, more));
    }
  }

  lemma {:induction false} TrailFromNode(slug: string, origin: Case, inputs: Inputs, i: nat, node: PointerRef,
                                         c: Case, m: nat)
    requires IsSuperseded(origin) && i >= 1
    requires Trail(slug, origin, inputs, i) == Some(node) && LookUp(node, inputs) == Some(c)
    requires IsSuperseded(c) && Land(node, inputs) == OnSuperseded(FirstPointer(node.slug, c))
    ensures Trail(node.slug, c, inputs, m) == Trail(slug, origin, inputs, i + m)
  {
    hide Land, FirstPointer, ParseReplacementPointer;
    if m > 0 {
      TrailFromNode(slug, origin, inputs, i, node, c, m - 1);
    }
  }

  /** A node that lands onward is a superseded case carrying exactly that pointer. */
  lemma OnwardIsSuperseded(node: PointerRef, inputs: Inputs)
    requires Land(node, inputs).OnSuperseded?
    ensures var found := LookUp(node, inputs);
            && found.Some? && IsSuperseded(found.value) && found.value.id == node.caseId
            && Land(node, inputs) == OnSuperseded(FirstPointer(node.slug, found.value))
  {
  }

  /** Every intermediate node of a resolved chain resolves to the same live case, along the same chain. */
  lemma IntermediateNodesAgree(slug: string, origin: Case, inputs: Inputs, i: nat)
    requires IsSuperseded(origin) && Resolve(slug, origin, inputs).status == Resolved
    requires 1 <= i < |Resolve(slug, origin, inputs).chain| - 1
    ensures var r := Resolve(slug, origin, inputs);
            var found := LookUp(r.chain[i], inputs);
            && found.Some?
            && var r' := Resolve(r.chain[i].slug, found.value, inputs);
               r'.status == Resolved && r'.resolvedTo == r.resolvedTo && r'.chain == r.chain[i..]
  {
    hide Land, Walk, FirstPointer, ParseReplacementPointer, LookUp;
    ChainIsTrail(slug, origin, inputs);
    var r := Resolve(slug, origin, inputs);
    var n := |r.chain| - 1;
    var node := r.chain[i];
    assert Trail(slug, origin, inputs, i + 1) == Some(r.chain[i + 1]);
    OnwardIsSuperseded(node, inputs);
    var c := LookUp(node, inputs).value;
    forall m: nat ensures Trail(node.slug, c, inputs, m) == Trail(slug, origin, inputs, i + m) {
      TrailFromNode(slug, origin, inputs, i, node, c, m);
    }
    LandingDecides(node.slug, c, inputs, n - i);
    var r' := Resolve(node.slug, c, inputs);
    forall m | 0 <= m <= n - i ensures r'.chain[m] == r.chain[i..][m] {
      assert Trail(node.slug, c, inputs, m) == Trail(slug, origin, inputs, i + m);
    }
  }
}
