/**
 The validated values the other modules share: the test-case plan and the recorded results.
 Optional keys are `Option`s; an optional literal-true key is a `bool`.
 Strings are sequences of Unicode scalar values.
 */
module Contracts {
  import opened Wrappers

  // ---- test-cases.json ----

  datatype CaseLifecycle =
    | Retired(reason: string)
    | Superseded(replacement: string, why: Option<string>)

  datatype Observation = Observation(id: string, expected: string)

  datatype Step = Step(id: string, instruction: string, observations: seq<Observation>)

  datatype Case = Case(
    id: string,
    title: string,
    level: nat,
    category: string,
    priority: Option<string>,
    preconditions: Option<seq<string>>,
    steps: seq<Step>,
    lifecycle: Option<CaseLifecycle>)

  datatype Plan = Plan(specSlug: string, cases: seq<Case>)

  /** The first case carrying `id`, as the callers' `find` returns it. */
  function FindCase(cases: seq<Case>, id: string): (found: Option<Case>)
    ensures found.Some? ==> found.value in cases && found.value.id == id
    ensures found.None? <==> forall c :: c in cases ==> c.id != id
  {
    if cases == [] then None
    else if cases[0].id == id then Some(cases[0])
    else
      var rest := FindCase(cases[1..], id);
      assert cases == [cases[0]] + cases[1..];
      rest
  }

  /** The schema does not enforce this; the plan's readers assume it. */
  ghost predicate UniqueIds(cases: seq<Case>) {
    forall i, j :: 0 <= i < j < |cases| ==> cases[i].id != cases[j].id
  }

  lemma {:induction false} FindCaseUnique(cases: seq<Case>, i: nat)
    requires UniqueIds(cases) && i < |cases|
    ensures FindCase(cases, cases[i].id) == Some(cases[i])
  {
    if i > 0 {
      FindCaseUnique(cases[1..], i - 1);
    }
  }

  // ---- test-results.json ----

  datatype CaseStatus = NotStarted | InProgress | Passed | Failed | Blocked

  datatype Author = Author(name: string, email: string, isSentinel: bool)

  datatype Verdict = Pass | Fail

  datatype ObservationMark = ObservationMark(result: Verdict, author: Author, timestamp: string)

  datatype StatusOverride = StatusOverride(status: CaseStatus, author: Author, timestamp: string)

  datatype Note = Note(id: string, text: string, author: Author, timestamp: string, statusAtWrite: CaseStatus)

  datatype Verification = Verification(tier: string, confidence: string, evidence: seq<string>, author: Author,
                                       timestamp: string)

  datatype CaseResult = CaseResult(
    observationMarks: map<string, ObservationMark>,
    derivedStatus: CaseStatus,
    statusOverride: Option<StatusOverride>,
    notes: seq<Note>,
    verification: Option<Verification>,
    orphaned: bool,
    caseCanon: Option<string>)

  /** An override always wins over the derived value. */
  function EffectiveStatus(result: CaseResult): CaseStatus {
    match result.statusOverride
    case Some(override) => override.status
    case None => result.derivedStatus
  }
}
