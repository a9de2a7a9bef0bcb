/**
 Supersession pointers (shared/lifecycle-resolver.ts): the pointer syntax, the bounded walk with
 its cycle guard, and the slug collector that decides which plans a caller supplies.

 `Resolve` is the walk as a recursive function and `ResolveCase` the source's loop proved equal to
 it. Both are then measured against `Trail`, which follows pointers with no bound and no memory of
 where it has been.
 */
module LifecycleResolver {
  import opened Wrappers
  import opened Contracts

  const MAX_SUPERSESSION_DEPTH: nat := 10

  datatype UnresolvedReason =
    | TargetMissing
    | TargetArchived
    | TargetNotLive
    | CycleDetected
    | DepthExceeded
    | TargetSpecNotSupplied

  datatype SpecLifecycle = SpecLifecycle(supersededBy: Option<string>)

  /** An omitted `specLifecycles` map is the empty one. */
  datatype Inputs = Inputs(plans: map<string, Plan>, specLifecycles: map<string, SpecLifecycle>)

  datatype PointerRef = PointerRef(slug: string, caseId: string)

  datatype CaseState = LiveCase | RetiredCase | SupersededCase

  datatype SpecState = LiveSpec | ArchivedSpec | NotSupplied

  datatype ResolutionStatus = Live | Resolved | RetiredOrigin | Unresolved

  datatype Resolution = Resolution(
    origin: PointerRef,
    originState: CaseState,
    status: ResolutionStatus,
    chain: seq<PointerRef>,
    resolvedTo: Option<PointerRef>,
    reason: Option<UnresolvedReason>,
    targetCaseState: Option<CaseState>,
    targetSpecState: SpecState,
    supersededBy: Option<string>)

  function CaseStateOf(c: Case): CaseState {
    match c.lifecycle
    case None => LiveCase
    case Some(Retired(_)) => RetiredCase
    case Some(Superseded(_, _)) => SupersededCase
  }

  predicate IsSuperseded(c: Case) {
    c.lifecycle.Some? && c.lifecycle.value.Superseded?
  }

  // ---- Pointer syntax ----

  /** Index of the first colon, or the length when there is none. */
  function FirstColon(s: string): (i: nat)
    ensures i <= |s|
    ensures ':' !in s[..i]
    ensures i < |s| ==> s[i] == ':'
  {
    if s == [] || s[0] == ':' then 0
    else
      var i := 1 + FirstColon(s[1..]);
      assert s[..i] == [s[0]] + s[1..][..i - 1];
      i
  }

  function ParseReplacementPointer(replacement: string, containingSlug: string): PointerRef {
    var separator := FirstColon(replacement);
    if separator == |replacement| then PointerRef(containingSlug, replacement)
    else PointerRef(replacement[..separator], replacement[separator + 1..])
  }

  function VisitedKey(ref: PointerRef): string {
    ref.slug + ":" + ref.caseId
  }

  predicate ColonFree(slug: string) {
    ':' !in slug
  }

  lemma {:induction false} FirstColonAt(head: string, tail: string)
    requires ColonFree(head)
    ensures FirstColon(head + ":" + tail) == |head|
  {
    if head != [] {
      assert (head + ":" + tail)[1..] == head[1..] + ":" + tail;
      FirstColonAt(head[1..], tail);
    }
  }

  /** A key reads back as the reference it was made from, and a colon-free id stays in its own spec. */
  lemma PointerRoundTrip(ref: PointerRef, containingSlug: string)
    requires ColonFree(ref.slug)
    ensures ParseReplacementPointer(VisitedKey(ref), containingSlug) == ref
    ensures ':' !in ref.caseId ==>
              ParseReplacementPointer(ref.caseId, containingSlug) == PointerRef(containingSlug, ref.caseId)
  {
    FirstColonAt(ref.slug, ref.caseId);
    var key := VisitedKey(ref);
    assert key[..|ref.slug|] == ref.slug;
    assert key[|ref.slug| + 1..] == ref.caseId;
    if ':' !in ref.caseId {
      var i := FirstColon(ref.caseId);
      assert i == |ref.caseId|;
    }
  }

  /** The cycle guard compares keys; on slugs without a colon that is comparing references. */
  lemma VisitedKeyInjective(a: PointerRef, b: PointerRef)
    requires ColonFree(a.slug) && ColonFree(b.slug)
    ensures VisitedKey(a) == VisitedKey(b) <==> a == b
  {
    PointerRoundTrip(a, "");
    PointerRoundTrip(b, "");
  }

  lemma ParsedSlugColonFree(replacement: string, containingSlug: string)
    requires ColonFree(containingSlug)
    ensures ColonFree(ParseReplacementPointer(replacement, containingSlug).slug)
  {
  }

  // ---- The walk ----

  function SpecStateOf(slug: string, inputs: Inputs): SpecState {
    if slug !in inputs.plans then NotSupplied
    else if slug in inputs.specLifecycles then ArchivedSpec
    else LiveSpec
  }

  function SupersededByOf(slug: string, inputs: Inputs): Option<string> {
    if slug in inputs.specLifecycles then inputs.specLifecycles[slug].supersededBy else None
  }

  function LookUp(ref: PointerRef, inputs: Inputs): Option<Case> {
    if ref.slug in inputs.plans then FindCase(inputs.plans[ref.slug].cases, ref.caseId) else None
  }

  function StateAt(ref: PointerRef, inputs: Inputs): Option<CaseState> {
    match LookUp(ref, inputs)
    case None => None
    case Some(c) => Some(CaseStateOf(c))
  }

  function Failed(origin: PointerRef, chain: seq<PointerRef>, reason: UnresolvedReason,
                  targetCaseState: Option<CaseState>, targetSpecState: SpecState,
                  supersededBy: Option<string>): Resolution
  {
    Resolution(origin, SupersededCase, Unresolved, chain, None, Some(reason), targetCaseState, targetSpecState,
               supersededBy)
  }

  /** What a hop lands on, spec state before case state. */
  datatype Landing =
    | OnNothingSupplied
    | OnArchivedSpec
    | OnMissingCase
    | OnRetiredCase
    | OnLiveCase
    | OnSuperseded(next: PointerRef)

  function Land(ref: PointerRef, inputs: Inputs): Landing {
    if ref.slug !in inputs.plans then OnNothingSupplied
    else if ref.slug in inputs.specLifecycles then OnArchivedSpec
    else
      match LookUp(ref, inputs)
      case None => OnMissingCase
      case Some(c) =>
        match c.lifecycle
        case None => OnLiveCase
        case Some(Retired(_)) => OnRetiredCase
        case Some(Superseded(replacement, _)) => OnSuperseded(ParseReplacementPointer(replacement, ref.slug))
  }

  /** The answer for a landing the walk cannot leave; `chain` ends at it. */
  function Conclude(origin: PointerRef, chain: seq<PointerRef>, inputs: Inputs): Resolution
    requires chain != []
  {
    var here := chain[|chain| - 1];
    match Land(here, inputs)
    case OnNothingSupplied => Failed(origin, chain, TargetSpecNotSupplied, None, NotSupplied, None)
    case OnArchivedSpec =>
      Failed(origin, chain, TargetArchived, StateAt(here, inputs), ArchivedSpec, SupersededByOf(here.slug, inputs))
    case OnMissingCase => Failed(origin, chain, TargetMissing, None, LiveSpec, None)
    case OnRetiredCase => Failed(origin, chain, TargetNotLive, Some(RetiredCase), LiveSpec, None)
    case _ =>
      Resolution(origin, SupersededCase, Resolved, chain, Some(here), None, Some(LiveCase), LiveSpec, None)
  }

  /** Walk on from the last node of `chain`, a superseded case whose pointer is `pointer`. */
  function Walk(origin: PointerRef, chain: seq<PointerRef>, pointer: PointerRef, inputs: Inputs): (r: Resolution)
    requires 1 <= |chain| <= MAX_SUPERSESSION_DEPTH + 1
    ensures r.origin == origin
    decreases MAX_SUPERSESSION_DEPTH + 1 - |chain|
  {
    if pointer in chain then
      Failed(origin, chain + [pointer], CycleDetected, StateAt(pointer, inputs),
             SpecStateOf(pointer.slug, inputs), SupersededByOf(pointer.slug, inputs))
    else if |chain| > MAX_SUPERSESSION_DEPTH then
      var here := chain[|chain| - 1];
      Failed(origin, chain, DepthExceeded, Some(SupersededCase), SpecStateOf(here.slug, inputs),
             SupersededByOf(here.slug, inputs))
    else
      match Land(pointer, inputs)
      case OnSuperseded(next) => Walk(origin, chain + [pointer], next, inputs)
      case _ => Conclude(origin, chain + [pointer], inputs)
  }

  function OriginRef(originSlug: string, originCase: Case): PointerRef {
    PointerRef(originSlug, originCase.id)
  }

  function FirstPointer(originSlug: string, originCase: Case): PointerRef
    requires IsSuperseded(originCase)
  {
    ParseReplacementPointer(originCase.lifecycle.value.replacement, originSlug)
  }

  function Resolve(originSlug: string, originCase: Case, inputs: Inputs): (r: Resolution)
    ensures r.origin == OriginRef(originSlug, originCase)
  {
    var origin := OriginRef(originSlug, originCase);
    match originCase.lifecycle
    case None =>
      Resolution(origin, LiveCase, Live, [origin], Some(origin), None, Some(LiveCase),
                 SpecStateOf(originSlug, inputs), None)
    case Some(Retired(_)) =>
      Resolution(origin, RetiredCase, RetiredOrigin, [origin], None, None, Some(RetiredCase),
                 SpecStateOf(originSlug, inputs), None)
    case Some(Superseded(_, _)) =>
      Walk(origin, [origin], FirstPointer(originSlug, originCase), inputs)
  }

  /**
   The source's loop: a set of visited keys, a hop counter and a growing chain. That the current
   case is superseded on every iteration is what makes the source's fallback branch unreachable.
   */
  method ResolveCase(originSlug: string, originCase: Case, inputs: Inputs) returns (r: Resolution)
    requires ColonFree(originSlug)
    ensures r == Resolve(originSlug, originCase, inputs)
  {
    var origin := PointerRef(originSlug, originCase.id);
    var originState := CaseStateOf(originCase);
    var chain := [origin];
    var originSpecState := SpecStateOf(originSlug, inputs);
    if originState == LiveCase {
      return Resolution(origin, originState, Live, chain, Some(origin), None, Some(LiveCase), originSpecState, None);
    }
    if originState == RetiredCase {
      return Resolution(origin, originState, RetiredOrigin, chain, None, None, Some(RetiredCase),
                        originSpecState, None);
    }
    var visited := {VisitedKey(origin)};
    var currentSlug, currentCase, hops := originSlug, originCase, 0;
    while true
      invariant IsSuperseded(currentCase)
      invariant hops <= MAX_SUPERSESSION_DEPTH && |chain| == hops + 1
      invariant chain[hops].slug == currentSlug
      invariant forall ref :: ref in chain ==> ColonFree(ref.slug)
      invariant forall ref :: ref in chain ==> VisitedKey(ref) in visited
      invariant forall key :: key in visited ==> exists ref :: ref in chain && VisitedKey(ref) == key
      invariant Resolve(originSlug, originCase, inputs)
          == Walk(origin, chain, FirstPointer(currentSlug, currentCase), inputs)
      decreases MAX_SUPERSESSION_DEPTH - hops
    {
      var pointer := ParseReplacementPointer(currentCase.lifecycle.value.replacement, currentSlug);
      ParsedSlugColonFree(currentCase.lifecycle.value.replacement, currentSlug);
      VisitedIffInChain(visited, chain, pointer);
      if VisitedKey(pointer) in visited {
        chain := chain + [pointer];
        return Failed(origin, chain, CycleDetected, StateAt(pointer, inputs),
                      SpecStateOf(pointer.slug, inputs), SupersededByOf(pointer.slug, inputs));
      }
      if hops >= MAX_SUPERSESSION_DEPTH {
        return Failed(origin, chain, DepthExceeded, Some(SupersededCase),
                      SpecStateOf(currentSlug, inputs), SupersededByOf(currentSlug, inputs));
      }
      hops := hops + 1;
      chain := chain + [pointer];
      visited := visited + {VisitedKey(pointer)};
      if pointer.slug !in inputs.plans {
        return Failed(origin, chain, TargetSpecNotSupplied, None, NotSupplied, None);
      }
      var targetCase := FindCase(inputs.plans[pointer.slug].cases, pointer.caseId);
      if pointer.slug in inputs.specLifecycles {
        return Failed(origin, chain, TargetArchived, StateAt(pointer, inputs), ArchivedSpec,
                      inputs.specLifecycles[pointer.slug].supersededBy);
      }
      if targetCase.None? {
        return Failed(origin, chain, TargetMissing, None, LiveSpec, None);
      }
      var targetState := CaseStateOf(targetCase.value);
      if targetState == RetiredCase {
        return Failed(origin, chain, TargetNotLive, Some(RetiredCase), LiveSpec, None);
      }
      if targetState == LiveCase {
        return Resolution(origin, originState, Resolved, chain, Some(pointer), None, Some(LiveCase), LiveSpec, None);
      }
      currentSlug, currentCase := pointer.slug, targetCase.value;
    }
  }

  lemma VisitedIffInChain(visited: set<string>, chain: seq<PointerRef>, pointer: PointerRef)
    requires ColonFree(pointer.slug) && forall ref :: ref in chain ==> ColonFree(ref.slug)
    requires forall ref :: ref in chain ==> VisitedKey(ref) in visited
    requires forall key :: key in visited ==> exists ref :: ref in chain && VisitedKey(ref) == key
    ensures VisitedKey(pointer) in visited <==> pointer in chain
  {
    if VisitedKey(pointer) in visited {
      var ref :| ref in chain && VisitedKey(ref) == VisitedKey(pointer);
      VisitedKeyInjective(ref, pointer);
    }
  }

  // ---- Whole plans ----

  /** The supplied map with the plan itself put in, so that its bare pointers resolve. */
  function WithPlan(plan: Plan, inputs: Inputs): Inputs {
    Inputs(inputs.plans[plan.specSlug := plan], inputs.specLifecycles)
  }

  function ResolvePlan(plan: Plan, inputs: Inputs): (rs: seq<Resolution>)
    ensures |rs| == |plan.cases|
    ensures forall i :: 0 <= i < |rs| ==> rs[i].origin == OriginRef(plan.specSlug, plan.cases[i])
  {
    seq(|plan.cases|, i requires 0 <= i < |plan.cases| => Resolve(plan.specSlug, plan.cases[i], WithPlan(plan, inputs)))
  }

  /** The slug a case points at, when that is another spec. */
  function ReferencedSlug(c: Case, ownSlug: string): Option<string> {
    if !IsSuperseded(c) then None
    else
      var slug := ParseReplacementPointer(c.lifecycle.value.replacement, ownSlug).slug;
      if slug == ownSlug then None else Some(slug)
  }

  /** Slugs other cases of the plan point at: each once, in order of first mention. */
  method CollectReferencedSlugs(plan: Plan) returns (slugs: seq<string>)
    ensures forall i, j :: 0 <= i < j < |slugs| ==> slugs[i] != slugs[j]
    ensures forall slug :: slug in slugs
              <==> exists c :: c in plan.cases && ReferencedSlug(c, plan.specSlug) == Some(slug)
    ensures forall i, j, n :: 0 <= i < j < |slugs| && 0 <= n < |plan.cases|
                              && ReferencedSlug(plan.cases[n], plan.specSlug) == Some(slugs[j])
                              ==> exists m :: 0 <= m < n
                                              && ReferencedSlug(plan.cases[m], plan.specSlug) == Some(slugs[i])
  {
    hide ReferencedSlug;
    ghost var mentioned := seq(|plan.cases|,
                               n requires 0 <= n < |plan.cases| => ReferencedSlug(plan.cases[n], plan.specSlug));
    var seen: set<string> := {};
    slugs := [];
    ghost var firstAt: seq<nat> := [];
    for k := 0 to |plan.cases|
      invariant forall slug :: slug in seen <==> slug in slugs
      invariant forall n :: 0 <= n < k && mentioned[n].Some? ==> mentioned[n].value in seen
      invariant FirstMentions(mentioned, slugs, firstAt, k)
    {
      var referenced := ReferencedSlug(plan.cases[k], plan.specSlug);
      if referenced.Some? && referenced.value !in seen {
        seen := seen + {referenced.value};
        slugs := slugs + [referenced.value];
        firstAt := firstAt + [k];
      }
    }
    forall slug ensures slug in slugs
      <==> exists c :: c in plan.cases && ReferencedSlug(c, plan.specSlug) == Some(slug) {
      if slug in slugs {
        var i :| 0 <= i < |slugs| && slugs[i] == slug;
        assert mentioned[firstAt[i]] == Some(slug) && plan.cases[firstAt[i]] in plan.cases;
      }
      if c :| c in plan.cases && ReferencedSlug(c, plan.specSlug) == Some(slug) {
        var n :| 0 <= n < |plan.cases| && plan.cases[n] == c;
        assert mentioned[n] == Some(slug);
      }
    }
    forall i, j, n | 0 <= i < j < |slugs| && 0 <= n < |plan.cases|
      && ReferencedSlug(plan.cases[n], plan.specSlug) == Some(slugs[j])
      ensures exists m :: 0 <= m < n && ReferencedSlug(plan.cases[m], plan.specSlug) == Some(slugs[i])
    {
      assert mentioned[n] == Some(slugs[j]) && mentioned[firstAt[i]] == Some(slugs[i]);
    }
  }

  /** `firstAt[i]` is the first of the first `k` mentions that names `slugs[i]`, and these ascend. */
  ghost predicate FirstMentions(mentioned: seq<Option<string>>, slugs: seq<string>, firstAt: seq<nat>, k: nat) {
    && k <= |mentioned| && |firstAt| == |slugs|
    && (forall i :: 0 <= i < |slugs| ==> firstAt[i] < k && mentioned[firstAt[i]] == Some(slugs[i]))
    && (forall i, j :: 0 <= i < j < |slugs| ==> firstAt[i] < firstAt[j] && slugs[i] != slugs[j])
    && (forall i, n :: 0 <= i < |slugs| && 0 <= n < k && mentioned[n] == Some(slugs[i]) ==> firstAt[i] <= n)
  }
}
