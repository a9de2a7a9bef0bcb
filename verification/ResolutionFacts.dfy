/**
 The resolver's answers read off the supplied plans, the archive records and the cases alone: what each
 reason says about the node a chain ends at, what a hop is, and when a case resolves.
 */
module ResolutionFacts {
  import opened Wrappers
  import opened Contracts
  import opened LifecycleResolver
  import opened SupersessionTrail

  // ---- Plain facts ----

  /** The first of the cases carrying the id. */
  ghost predicate FirstWithId(cases: seq<Case>, id: string, c: Case) {
    exists i :: && 0 <= i < |cases| && cases[i] == c && c.id == id
                && forall j :: 0 <= j < i ==> cases[j].id != id
  }

  ghost predicate NoneWithId(cases: seq<Case>, id: string) {
    forall i :: 0 <= i < |cases| ==> cases[i].id != id
  }

  ghost predicate Supplied(inputs: Inputs, slug: string) {
    slug in inputs.plans
  }

  ghost predicate Archived(inputs: Inputs, slug: string) {
    slug in inputs.specLifecycles
  }

  /** The case a reference names in a plan that is supplied and not archived. */
  ghost predicate Names(inputs: Inputs, ref: PointerRef, c: Case) {
    && ref.slug in inputs.plans && ref.slug !in inputs.specLifecycles
    && FirstWithId(inputs.plans[ref.slug].cases, ref.caseId, c)
  }

  /** What a pointer text means in a case of spec `slug`: the part before the first colon is the spec. */
  ghost predicate PointsTo(replacement: string, slug: string, ref: PointerRef) {
    || (':' !in replacement && ref == PointerRef(slug, replacement))
    || (replacement == ref.slug + ":" + ref.caseId && ':' !in ref.slug)
  }

  ghost predicate CasePointsTo(c: Case, slug: string, ref: PointerRef) {
    c.lifecycle.Some? && c.lifecycle.value.Superseded? && PointsTo(c.lifecycle.value.replacement, slug, ref)
  }

  /** One hop: from a case named in a supplied, unarchived plan to where it points. */
  ghost predicate Hop(inputs: Inputs, here: PointerRef, next: PointerRef) {
    exists c :: Names(inputs, here, c) && CasePointsTo(c, here.slug, next)
  }

  /** The origin's own pointer, then hop after hop. */
  ghost predicate Hops(slug: string, origin: Case, inputs: Inputs, chain: seq<PointerRef>) {
    && |chain| >= 2 && chain[0] == PointerRef(slug, origin.id) && CasePointsTo(origin, slug, chain[1])
    && forall i :: 1 <= i < |chain| - 1 ==> Hop(inputs, chain[i], chain[i + 1])
  }

  // ---- The model's lookups are these facts ----

  lemma FirstOfMore(cases: seq<Case>, id: string, c: Case)
    requires cases != []
    ensures FirstWithId(cases, id, c) <==> if cases[0].id == id then c == cases[0] else FirstWithId(cases[1..], id, c)
  {
    if cases[0].id == id && c == cases[0] {
      assert cases[0] == c && c.id == id;
    }
    if cases[0].id != id && FirstWithId(cases[1..], id, c) {
      var i :| && 0 <= i < |cases[1..]| && cases[1..][i] == c && c.id == id
               && forall j :: 0 <= j < i ==> cases[1..][j].id != id;
      assert cases[i + 1] == c && forall j :: 1 <= j < i + 1 ==> cases[j] == cases[1..][j - 1];
    }
    if cases[0].id != id && FirstWithId(cases, id, c) {
      var i :| 0 <= i < |cases| && cases[i] == c && c.id == id && forall j :: 0 <= j < i ==> cases[j].id != id;
      assert cases[1..][i - 1] == c && forall j :: 0 <= j < i - 1 ==> cases[1..][j] == cases[j + 1];
    }
  }

  lemma NoneOfMore(cases: seq<Case>, id: string)
    requires cases != []
    ensures NoneWithId(cases, id) <==> cases[0].id != id && NoneWithId(cases[1..], id)
  {
    assert cases == [cases[0]] + cases[1..];
    if cases[0].id != id && NoneWithId(cases[1..], id) {
      assert forall i :: 1 <= i < |cases| ==> cases[i] == cases[1..][i - 1];
    }
  }

  lemma {:induction false} FindIsFirst(cases: seq<Case>, id: string)
    ensures FindCase(cases, id).None? <==> NoneWithId(cases, id)
    ensures forall c :: FindCase(cases, id) == Some(c) <==> FirstWithId(cases, id, c)
  {
    hide FirstWithId, NoneWithId;
    if cases == [] {
      NothingFirst(id);
    } else {
      FindIsFirst(cases[1..], id);
      NoneOfMore(cases, id);
      forall c ensures FindCase(cases, id) == Some(c) <==> FirstWithId(cases, id, c) {
        FirstOfMore(cases, id, c);
      }
    }
  }

  lemma NothingFirst(id: string)
    ensures NoneWithId([], id) && forall c :: !FirstWithId([], id, c)
  {
  }

  lemma ParsedIsPointed(replacement: string, slug: string, ref: PointerRef)
    ensures ParseReplacementPointer(replacement, slug) == ref <==> PointsTo(replacement, slug, ref)
  {
    var i := FirstColon(replacement);
    if i < |replacement| {
      assert replacement == replacement[..i] + ":" + replacement[i + 1..];
      if replacement == ref.slug + ":" + ref.caseId && ':' !in ref.slug {
        FirstColonAt(ref.slug, ref.caseId);
        assert replacement[..i] == ref.slug && replacement[i + 1..] == ref.caseId;
      }
    } else {
      assert replacement[..i] == replacement;
      assert (ref.slug + ":" + ref.caseId)[|ref.slug|] == ':';
    }
  }

  /** What a landing is, in plain facts. */
  lemma LandMeans(ref: PointerRef, inputs: Inputs)
    ensures Land(ref, inputs) == OnNothingSupplied <==> !Supplied(inputs, ref.slug)
    ensures Land(ref, inputs) == OnArchivedSpec <==> Supplied(inputs, ref.slug) && Archived(inputs, ref.slug)
    ensures Land(ref, inputs) == OnMissingCase
       <==> && ref.slug in inputs.plans && ref.slug !in inputs.specLifecycles
            && NoneWithId(inputs.plans[ref.slug].cases, ref.caseId)
    ensures Land(ref, inputs) == OnRetiredCase
       <==> exists c :: Names(inputs, ref, c) && c.lifecycle.Some? && c.lifecycle.value.Retired?
    ensures Land(ref, inputs) == OnLiveCase <==> exists c :: Names(inputs, ref, c) && c.lifecycle.None?
    ensures forall next :: Land(ref, inputs) == OnSuperseded(next) <==> Hop(inputs, ref, next)
  {
    hide FindCase, ParseReplacementPointer, PointsTo, FirstWithId, NoneWithId;
    if ref.slug in inputs.plans && ref.slug !in inputs.specLifecycles {
      var cases := inputs.plans[ref.slug].cases;
      FindIsFirst(cases, ref.caseId);
      var found := FindCase(cases, ref.caseId);
      forall c ensures Names(inputs, ref, c) <==> found == Some(c) {
      }
      if found.Some? {
        assert Names(inputs, ref, found.value);
        if IsSuperseded(found.value) {
          forall next ensures Land(ref, inputs) == OnSuperseded(next) <==> CasePointsTo(found.value, ref.slug, next) {
            ParsedIsPointed(found.value.lifecycle.value.replacement, ref.slug, next);
          }
        }
      }
    }
  }

  /** The specs a plan's loader is told of are those other than its own that a superseded case points to. */
  lemma ReferencedPlainly(c: Case, ownSlug: string, slug: string)
    ensures ReferencedSlug(c, ownSlug) == Some(slug)
       <==> slug != ownSlug && exists ref :: CasePointsTo(c, ownSlug, ref) && ref.slug == slug
  {
    hide PointsTo, ParseReplacementPointer;
    if IsSuperseded(c) {
      var replacement := c.lifecycle.value.replacement;
      forall ref ensures ParseReplacementPointer(replacement, ownSlug) == ref <==> PointsTo(replacement, ownSlug, ref) {
        ParsedIsPointed(replacement, ownSlug, ref);
      }
      assert CasePointsTo(c, ownSlug, ParseReplacementPointer(replacement, ownSlug));
    }
  }

  // ---- Chains ----

  lemma OriginPoints(slug: string, origin: Case, ref: PointerRef)
    requires IsSuperseded(origin)
    ensures FirstPointer(slug, origin) == ref <==> CasePointsTo(origin, slug, ref)
  {
    ParsedIsPointed(origin.lifecycle.value.replacement, slug, ref);
  }

  lemma {:induction false} TrailIsHops(slug: string, origin: Case, inputs: Inputs, chain: seq<PointerRef>)
    requires IsSuperseded(origin) && |chain| >= 2
    ensures OnTrail(slug, origin, inputs, chain) <==> Hops(slug, origin, inputs, chain)
  {
    hide Land, Hop, FirstPointer, CasePointsTo;
    OriginPoints(slug, origin, chain[1]);
    assert Trail(slug, origin, inputs, 0) == Some(PointerRef(slug, origin.id));
    assert Trail(slug, origin, inputs, 1) == Some(FirstPointer(slug, origin));
    var n := |chain| - 1;
    if n >= 2 {
      TrailIsHops(slug, origin, inputs, chain[..n]);
      LandMeans(chain[n - 1], inputs);
      if OnTrail(slug, origin, inputs, chain[..n]) {
        assert Trail(slug, origin, inputs, n - 1) == Some(chain[..n][n - 1]);
        assert Trail(slug, origin, inputs, n) == Some(chain[n]) <==> Hop(inputs, chain[n - 1], chain[n]);
      }
      assert OnTrail(slug, origin, inputs, chain)
        <==> OnTrail(slug, origin, inputs, chain[..n]) && Trail(slug, origin, inputs, n) == Some(chain[n]) by {
        assert forall i :: 0 <= i < n ==> chain[..n][i] == chain[i];
      }
      HopsStep(slug, origin, inputs, chain);
    }
  }

  lemma HopsStep(slug: string, origin: Case, inputs: Inputs, chain: seq<PointerRef>)
    requires |chain| >= 3
    ensures var n := |chain| - 1;
            Hops(slug, origin, inputs, chain)
            <==> Hops(slug, origin, inputs, chain[..n]) && Hop(inputs, chain[n - 1], chain[n])
  {
    hide Hop, CasePointsTo;
    var n := |chain| - 1;
    assert forall i :: 0 <= i < n ==> chain[..n][i] == chain[i];
    if Hops(slug, origin, inputs, chain[..n]) && Hop(inputs, chain[n - 1], chain[n]) {
      forall i | 1 <= i < |chain| - 1 ensures Hop(inputs, chain[i], chain[i + 1]) {
        if i < n - 1 {
          assert Hop(inputs, chain[..n][i], chain[..n][i + 1]);
        }
      }
    }
    if Hops(slug, origin, inputs, chain) {
      forall i | 1 <= i < n - 1 ensures Hop(inputs, chain[..n][i], chain[..n][i + 1]) {
        assert Hop(inputs, chain[i], chain[i + 1]);
      }
    }
  }

  // ---- The answers ----

  /**
   What every answer for a superseded case says, on the facts at the node its chain ends at. Short of the
   two give-up reasons, exactly one of five holds there and names the answer with its payload.
   */
  lemma AnswerFacts(slug: string, origin: Case, inputs: Inputs)
    requires origin.lifecycle.Some? && origin.lifecycle.value.Superseded?
    ensures var r := Resolve(slug, origin, inputs);
            && r.origin == PointerRef(slug, origin.id) && r.originState == SupersededCase
            && Hops(slug, origin, inputs, r.chain) && |r.chain| <= 12
            && (r.resolvedTo.Some? <==> r.status == Resolved) && (r.resolvedTo.None? <==> r.status == Unresolved)
            && (r.resolvedTo.Some? <==> r.reason.None?)
            && var end := r.chain[|r.chain| - 1];
               (r.reason !in {Some(CycleDetected), Some(DepthExceeded)} ==>
                  && (r.reason == Some(TargetSpecNotSupplied) <==> end.slug !in inputs.plans)
                  && (r.reason == Some(TargetArchived)
                      <==> end.slug in inputs.plans && end.slug in inputs.specLifecycles)
                  && (r.reason == Some(TargetMissing)
                      <==> && end.slug in inputs.plans && end.slug !in inputs.specLifecycles
                           && NoneWithId(inputs.plans[end.slug].cases, end.caseId))
                  && (r.reason == Some(TargetNotLive)
                      <==> exists c :: Names(inputs, end, c) && c.lifecycle.Some? && c.lifecycle.value.Retired?)
                  && (r.resolvedTo.Some? <==> exists c :: Names(inputs, end, c) && c.lifecycle.None?)
                  && (r.resolvedTo.Some? ==> r.resolvedTo == Some(end)))
  {
    hide Land, Walk, Names, NoneWithId, Hops, AllDifferent, OnTrail, Trail, FirstPointer;
    ChainIsTrail(slug, origin, inputs);
    WalkPayload(OriginRef(slug, origin), [OriginRef(slug, origin)], FirstPointer(slug, origin), inputs);
    var r := Resolve(slug, origin, inputs);
    TrailIsHops(slug, origin, inputs, r.chain);
    LandMeans(r.chain[|r.chain| - 1], inputs);
  }

  /** The states and the forwarding note each answer reports about its target. */
  lemma AnswerPayload(slug: string, origin: Case, inputs: Inputs)
    requires origin.lifecycle.Some? && origin.lifecycle.value.Superseded?
    ensures var r := Resolve(slug, origin, inputs);
            r.chain != []
            && var end := r.chain[|r.chain| - 1];
            match r.reason
            case None => r.targetCaseState == Some(LiveCase) && r.targetSpecState == LiveSpec && r.supersededBy == None
            case Some(TargetSpecNotSupplied) =>
              r.targetCaseState == None && r.targetSpecState == NotSupplied && r.supersededBy == None
            case Some(TargetArchived) =>
              && r.targetSpecState == ArchivedSpec && Told(inputs, end, r.targetCaseState)
              && end.slug in inputs.specLifecycles && r.supersededBy == inputs.specLifecycles[end.slug].supersededBy
            case Some(TargetMissing) =>
              r.targetCaseState == None && r.targetSpecState == LiveSpec && r.supersededBy == None
            case Some(TargetNotLive) =>
              r.targetCaseState == Some(RetiredCase) && r.targetSpecState == LiveSpec && r.supersededBy == None
            case Some(CycleDetected) =>
              Told(inputs, end, r.targetCaseState) && SpecTold(inputs, end.slug, r.targetSpecState, r.supersededBy)
            case Some(DepthExceeded) =>
              r.targetCaseState == Some(SupersededCase) && SpecTold(inputs, end.slug, r.targetSpecState, r.supersededBy)
  {
    hide Land, Walk, AllDifferent, OnTrail, Trail, FirstPointer, Told, SpecTold, StateAt, Names, NoneWithId, Hop;
    ChainIsTrail(slug, origin, inputs);
    WalkPayload(OriginRef(slug, origin), [OriginRef(slug, origin)], FirstPointer(slug, origin), inputs);
    var r := Resolve(slug, origin, inputs);
    var end := r.chain[|r.chain| - 1];
    LandMeans(end, inputs);
    StateIsTold(end, inputs);
  }

  lemma {:induction false} WalkPayload(origin: PointerRef, chain: seq<PointerRef>, pointer: PointerRef, inputs: Inputs)
    requires 1 <= |chain| <= MAX_SUPERSESSION_DEPTH + 1
    ensures var r := Walk(origin, chain, pointer, inputs);
            && r.originState == SupersededCase && r.chain != []
            && var end := r.chain[|r.chain| - 1];
            && (r.reason == Some(CycleDetected)
                ==> && r.targetCaseState == StateAt(end, inputs)
                    && SpecTold(inputs, end.slug, r.targetSpecState, r.supersededBy))
            && (r.reason == Some(DepthExceeded)
                ==> && r.targetCaseState == Some(SupersededCase)
                    && SpecTold(inputs, end.slug, r.targetSpecState, r.supersededBy))
    decreases MAX_SUPERSESSION_DEPTH + 1 - |chain|
  {
    hide Land, StateAt;
    if pointer !in chain && |chain| <= MAX_SUPERSESSION_DEPTH && Land(pointer, inputs).OnSuperseded? {
      WalkPayload(origin, chain + [pointer], Land(pointer, inputs).next, inputs);
    }
  }

  /** The reported state of the named case, archived or not: none when no supplied plan holds it. */
  ghost predicate Told(inputs: Inputs, ref: PointerRef, state: Option<CaseState>) {
    if ref.slug !in inputs.plans || NoneWithId(inputs.plans[ref.slug].cases, ref.caseId) then state == None
    else
      exists c :: FirstWithId(inputs.plans[ref.slug].cases, ref.caseId, c)
                  && match c.lifecycle
                     case None => state == Some(LiveCase)
                     case Some(Retired(_)) => state == Some(RetiredCase)
                     case Some(Superseded(_, _)) => state == Some(SupersededCase)
  }

  ghost predicate SpecTold(inputs: Inputs, slug: string, state: SpecState, supersededBy: Option<string>) {
    && (state == NotSupplied <==> slug !in inputs.plans)
    && (state == ArchivedSpec <==> slug in inputs.plans && slug in inputs.specLifecycles)
    && (state == LiveSpec <==> slug in inputs.plans && slug !in inputs.specLifecycles)
    && supersededBy == if slug in inputs.specLifecycles then inputs.specLifecycles[slug].supersededBy else None
  }

  lemma StateIsTold(ref: PointerRef, inputs: Inputs)
    ensures Told(inputs, ref, StateAt(ref, inputs))
  {
    hide FindCase, FirstWithId, NoneWithId;
    if ref.slug in inputs.plans {
      FindIsFirst(inputs.plans[ref.slug].cases, ref.caseId);
    }
  }

  /** A case that is not superseded answers for itself. */
  lemma OwnAnswer(slug: string, origin: Case, inputs: Inputs)
    requires origin.lifecycle.None? || origin.lifecycle.value.Retired?
    ensures var r, self := Resolve(slug, origin, inputs), PointerRef(slug, origin.id);
            && r.origin == self && r.chain == [self] && r.reason == None && r.supersededBy == None
            && (origin.lifecycle.None?
                ==> && r.originState == LiveCase && r.status == Live && r.resolvedTo == Some(self)
                    && r.targetCaseState == Some(LiveCase))
            && (origin.lifecycle.Some?
                ==> && r.originState == RetiredCase && r.status == RetiredOrigin && r.resolvedTo == None
                    && r.targetCaseState == Some(RetiredCase))
            && (r.targetSpecState == NotSupplied <==> slug !in inputs.plans)
            && (r.targetSpecState == ArchivedSpec <==> slug in inputs.plans && slug in inputs.specLifecycles)
  {
  }

  /** The origin, where a plan holds a case under its reference, is that case. */
  ghost predicate OriginIsPlanned(slug: string, origin: Case, inputs: Inputs) {
    slug in inputs.plans
    ==> forall c :: FirstWithId(inputs.plans[slug].cases, origin.id, c) ==> c.lifecycle == origin.lifecycle
  }

  /** One to ten hops lead from the origin to a live case of a supplied, unarchived spec. */
  ghost predicate LeadsTo(slug: string, origin: Case, inputs: Inputs, target: PointerRef) {
    exists chain :: && 2 <= |chain| <= 11 && Hops(slug, origin, inputs, chain) && chain[|chain| - 1] == target
                    && exists c :: Names(inputs, target, c) && c.lifecycle.None?
  }

  lemma LeadsIsLiveAfter(slug: string, origin: Case, inputs: Inputs, target: PointerRef)
    requires IsSuperseded(origin)
    ensures LeadsTo(slug, origin, inputs, target)
       <==> exists k :: 1 <= k <= MAX_SUPERSESSION_DEPTH && LiveAfter(slug, origin, inputs, k, target)
  {
    hide Land, Hops, Names, Trail;
    LandMeans(target, inputs);
    if LeadsTo(slug, origin, inputs, target) {
      var chain :| && 2 <= |chain| <= 11 && Hops(slug, origin, inputs, chain) && chain[|chain| - 1] == target
                   && exists c :: Names(inputs, target, c) && c.lifecycle.None?;
      TrailIsHops(slug, origin, inputs, chain);
      assert LiveAfter(slug, origin, inputs, |chain| - 1, target);
    }
    if k :| 1 <= k <= MAX_SUPERSESSION_DEPTH && LiveAfter(slug, origin, inputs, k, target) {
      var chain := TrailTo(slug, origin, inputs, k);
      TrailIsHops(slug, origin, inputs, chain);
    }
  }

  lemma {:induction false} TrailTo(slug: string, origin: Case, inputs: Inputs, k: nat) returns (chain: seq<PointerRef>)
    requires IsSuperseded(origin) && Trail(slug, origin, inputs, k).Some?
    ensures |chain| == k + 1 && OnTrail(slug, origin, inputs, chain)
  {
    var node := Trail(slug, origin, inputs, k).value;
    if k == 0 {
      chain := [node];
    } else {
      var earlier := TrailTo(slug, origin, inputs, k - 1);
      chain := earlier + [node];
    }
  }

  lemma PlannedMatches(slug: string, origin: Case, inputs: Inputs)
    ensures OriginIsPlanned(slug, origin, inputs) <==> OriginMatches(slug, origin, inputs)
  {
    hide FindCase, FirstWithId;
    if slug in inputs.plans {
      FindIsFirst(inputs.plans[slug].cases, origin.id);
    }
  }

  /** Resolved to `target` exactly when one to ten hops lead there and it is live, supplied and unarchived. */
  lemma ResolvedPlainly(slug: string, origin: Case, inputs: Inputs, target: PointerRef)
    requires origin.lifecycle.Some? && origin.lifecycle.value.Superseded? && OriginIsPlanned(slug, origin, inputs)
    ensures Resolve(slug, origin, inputs).resolvedTo == Some(target) <==> LeadsTo(slug, origin, inputs, target)
  {
    hide LiveAfter, LeadsTo, Resolve, OriginIsPlanned, OriginMatches;
    PlannedMatches(slug, origin, inputs);
    ResolvedExactly(slug, origin, inputs, target);
    LeadsIsLiveAfter(slug, origin, inputs, target);
  }
}
