/**
 The results store (server/lib/testbench-store.ts) as a state machine over one spec: the plan on disk,
 the results sidecar, and writes in flight. A write reads the plan when it begins and waits for the git
 identity; when it finishes it loads, mutates and persists the sidecar in one go.
 */
module TestbenchStore {
  import opened Wrappers
  import opened Contracts
  import opened Canonical
  import opened TestbenchDomain

  /** NFC and sha256 as parameters. */
  datatype Env = Env(nfc: Nfc, hash: string -> string)

  datatype ResultsFile = ResultsFile(planHash: string, caseResults: Results, updatedAt: string)

  datatype Write =
    | Mark(caseId: string, observationId: string, result: Option<Verdict>)
    | AddNote(caseId: string, text: string)
    | SetOverride(caseId: string, status: Option<CaseStatus>)

  /** What the outside supplies when a write finishes. */
  datatype Stamp = Stamp(author: Author, time: string, noteId: string)

  datatype Pending = Pending(write: Write, snapshot: Plan)

  /** A missing or unreadable sidecar is `None`. */
  datatype StoreState = StoreState(plan: Plan, file: Option<ResultsFile>, inflight: map<nat, Pending>)

  datatype Action =
    | EditPlan(plan: Plan)
    | Begin(ticket: nat, write: Write)
    | Finish(ticket: nat, stamp: Stamp)
    | Confirm(purge: bool, time: string)

  // ---- The functions the methods implement ----

  function PlanHash(plan: Plan, env: Env): string {
    env.hash(Canonicalize(plan, env.nfc))
  }

  const EMPTY_CASE_RESULT := CaseResult(map[], NotStarted, None, [], None, false, None)

  const UNSAFE_KEYS: set<string> := {"__proto__", "constructor", "prototype"}

  function NoteText(text: string): string {
    TrimEnd(TrimStart(text))
  }

  /** Refused before anything is read: a prototype-polluting case id, or an empty note. */
  predicate Refused(write: Write) {
    write.caseId in UNSAFE_KEYS || (write.AddNote? && NoteText(write.text) == "")
  }

  function Mutated(write: Write, was: CaseResult, stamp: Stamp, plan: Plan): CaseResult {
    match write
    case Mark(caseId, observationId, result) =>
      var marks :=
        match result
        case None => was.observationMarks - {observationId}
        case Some(verdict) => was.observationMarks[observationId := ObservationMark(verdict, stamp.author, stamp.time)];
      was.(observationMarks := marks, derivedStatus := DeriveStatus(PlanCaseObservationIds(plan, caseId), marks))
    case AddNote(_, text) =>
      was.(notes := was.notes + [Note(stamp.noteId, NoteText(text), stamp.author, stamp.time, EffectiveStatus(was))])
    case SetOverride(_, status) =>
      was.(statusOverride := match status
                             case None => None
                             case Some(value) => Some(StatusOverride(value, stamp.author, stamp.time)))
  }

  /** Every write restamps the body it saw, whether or not it recomputed the status. */
  function Restamped(result: CaseResult, plan: Plan, caseId: string, env: Env): CaseResult {
    var c := FindCase(plan.cases, caseId);
    if c.Some? then result.(caseCanon := Some(CanonicalizeCase(c.value, env.nfc))) else result
  }

  function Recorded(file: Option<ResultsFile>): Results {
    if file.Some? then file.value.caseResults else map[]
  }

  function ResultOf(file: Option<ResultsFile>, id: string): CaseResult {
    if id in Recorded(file) then Recorded(file)[id] else EMPTY_CASE_RESULT
  }

  function Written(file: Option<ResultsFile>, pending: Pending, stamp: Stamp, env: Env): CaseResult {
    var id := pending.write.caseId;
    Restamped(Mutated(pending.write, ResultOf(file, id), stamp, pending.snapshot), pending.snapshot, id, env)
  }

  function Finished(file: Option<ResultsFile>, pending: Pending, stamp: Stamp, env: Env): ResultsFile {
    ResultsFile(PlanHash(pending.snapshot, env),
                Recorded(file)[pending.write.caseId := Written(file, pending, stamp, env)], stamp.time)
  }

  function Confirmed(file: Option<ResultsFile>, plan: Plan, purge: bool, time: string, env: Env): ResultsFile {
    var next := Reconciled(plan, Recorded(file), env.nfc);
    ResultsFile(PlanHash(plan, env), if purge then Purged(next) else next, time)
  }

  function Next(s: StoreState, a: Action, env: Env): StoreState {
    match a
    case EditPlan(plan) => s.(plan := plan)
    case Begin(ticket, write) =>
      if Refused(write) || ticket in s.inflight then s else s.(inflight := s.inflight[ticket := Pending(write, s.plan)])
    case Finish(ticket, stamp) =>
      if ticket !in s.inflight then s
      else s.(file := Some(Finished(s.file, s.inflight[ticket], stamp, env)), inflight := s.inflight - {ticket})
    case Confirm(purge, time) => s.(file := Some(Confirmed(s.file, s.plan, purge, time, env)))
  }

  /** The staleness a read reports: the sidecar's hash is not the live plan's. */
  predicate ReadsStale(s: StoreState, env: Env) {
    s.file.Some? && s.file.value.planHash != PlanHash(s.plan, env)
  }

  class Store {
    const env: Env
    var plan: Plan
    var file: Option<ResultsFile>
    var inflight: map<nat, Pending>

    constructor (env: Env, plan: Plan, file: Option<ResultsFile>)
      ensures State() == StoreState(plan, file, map[]) && this.env == env
    {
      this.env, this.plan, this.file, inflight := env, plan, file, map[];
    }

    function State(): StoreState
      reads this
    {
      StoreState(plan, file, inflight)
    }

    /** An edit made outside the store. */
    method Edit(newPlan: Plan)
      modifies this`plan
      ensures State() == Next(old(State()), EditPlan(newPlan), env)
    {
      plan := newPlan;
    }

    method BeginWrite(ticket: nat, write: Write) returns (accepted: bool)
      requires ticket !in inflight
      modifies this`inflight
      ensures State() == Next(old(State()), Begin(ticket, write), env)
      ensures accepted <==> !Refused(write)
    {
      if write.caseId in UNSAFE_KEYS {
        return false;
      }
      if write.AddNote? && NoteText(write.text) == "" {
        return false;
      }
      inflight := inflight[ticket := Pending(write, plan)];
      return true;
    }

    method FinishWrite(ticket: nat, stamp: Stamp) returns (caseResult: CaseResult)
      requires ticket in inflight
      modifies this`file, this`inflight
      ensures State() == Next(old(State()), Finish(ticket, stamp), env)
      ensures file.Some? && caseResult == ResultOf(file, old(inflight)[ticket].write.caseId)
    {
      hide CanonicalizeCase, Canonicalize, FindCase, Mutated;
      var write, snapshot := inflight[ticket].write, inflight[ticket].snapshot;
      inflight := inflight - {ticket};
      var planHash := PlanHash(snapshot, env);
      var loaded := if file.Some? then file.value else ResultsFile(planHash, map[], stamp.time);
      caseResult := if write.caseId in loaded.caseResults then loaded.caseResults[write.caseId] else EMPTY_CASE_RESULT;
      caseResult := Mutate(write, caseResult, stamp, snapshot);
      var planCase := FindCase(snapshot.cases, write.caseId);
      if planCase.Some? {
        caseResult := caseResult.(caseCanon := Some(CanonicalizeCase(planCase.value, env.nfc)));
      }
      loaded := loaded.(caseResults := loaded.caseResults[write.caseId := caseResult]);
      loaded := loaded.(updatedAt := stamp.time, planHash := planHash);
      file := Some(loaded);
    }

    /** The callback of each public write, applied to the case result it loaded. */
    static method Mutate(write: Write, was: CaseResult, stamp: Stamp, plan: Plan) returns (caseResult: CaseResult)
      ensures caseResult == Mutated(write, was, stamp, plan)
    {
      hide DeriveStatus, PlanCaseObservationIds, NoteText;
      caseResult := was;
      match write {
        case Mark(caseId, observationId, result) =>
          var marks := caseResult.observationMarks;
          if result.None? {
            marks := map id | id in marks && id != observationId :: marks[id];
            assert marks == was.observationMarks - {observationId};
          } else {
            marks := marks[observationId := ObservationMark(result.value, stamp.author, stamp.time)];
          }
          caseResult := caseResult.(observationMarks := marks);
          var status := DeriveStatusByCounting(PlanCaseObservationIds(plan, caseId), caseResult.observationMarks);
          caseResult := caseResult.(derivedStatus := status);
        case AddNote(_, text) =>
          var note := Note(stamp.noteId, NoteText(text), stamp.author, stamp.time, EffectiveStatus(caseResult));
          caseResult := caseResult.(notes := caseResult.notes + [note]);
        case SetOverride(_, status) =>
          if status.None? {
            caseResult := caseResult.(statusOverride := None);
          } else {
            caseResult := caseResult.(statusOverride := Some(StatusOverride(status.value, stamp.author, stamp.time)));
          }
      }
    }

    /** Without `confirm` only the classification is returned; a preview never writes or deletes. */
    method ReconcileFile(confirm: bool, purge: bool, time: string)
      returns (classification: Classification, applied: bool)
      modifies this`file
      ensures classification == Classify(plan, Recorded(old(file)), env.nfc)
      ensures applied == confirm
      ensures State() == if confirm then Next(old(State()), Confirm(purge, time), env) else old(State())
    {
      hide Reconciled, Purged, Classify, Canonicalize;
      var planHash := PlanHash(plan, env);
      var results := if file.Some? then file.value.caseResults else map[];
      var next;
      classification, next := Reconcile(plan, results, env.nfc);
      if !confirm {
        return classification, false;
      }
      if purge {
        next := PurgeOrphans(next);
      }
      file := Some(ResultsFile(planHash, next, time));
      return classification, true;
    }

    method ReadFile() returns (results: Option<Results>, stale: bool)
      ensures results == if file.Some? then Some(file.value.caseResults) else None
      ensures stale == ReadsStale(State(), env)
    {
      if file.None? {
        return None, false;
      }
      return Some(file.value.caseResults), file.value.planHash != PlanHash(plan, env);
    }
  }
}
