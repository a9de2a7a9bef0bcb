/**
 Whole runs of the results store: what stays true of the recorded results however writes, edits and
 reconciles interleave.
 */
module StoreRuns {
  import opened Wrappers
  import opened Contracts
  import opened Canonical
  import opened TestbenchDomain
  import opened TestbenchStore
  import opened PlainObjects

  function Run(s: StoreState, actions: seq<Action>, env: Env): StoreState
    decreases |actions|
  {
    if actions == [] then s
    else
      var n := |actions| - 1;
      Next(Run(s, actions[..n], env), actions[n], env)
  }

  lemma RunSnoc(s: StoreState, actions: seq<Action>, a: Action, env: Env)
    ensures Run(s, actions + [a], env) == Next(Run(s, actions, env), a, env)
  {
    hide Next;
    assert (actions + [a])[..|actions|] == actions;
  }

  lemma RunNothing(s: StoreState, actions: seq<Action>, env: Env)
    ensures actions[..0] == [] && Run(s, [], env) == s
  {
  }

  lemma RunNext(s: StoreState, actions: seq<Action>, k: nat, env: Env)
    requires k < |actions|
    ensures Run(s, actions[..k + 1], env) == Next(Run(s, actions[..k], env), actions[k], env)
    ensures Run(s, [], env) == s && actions[..0] == []
  {
    hide Next;
    assert actions[..k + 1][..k] == actions[..k];
  }

  lemma {:induction false} RunAppend(s: StoreState, first: seq<Action>, rest: seq<Action>, env: Env)
    ensures Run(s, first + rest, env) == Run(Run(s, first, env), rest, env)
    decreases |rest|
  {
    hide Next;
    if rest == [] {
      assert first + rest == first;
    } else {
      var n := |rest| - 1;
      assert (first + rest)[..|first| + n] == first + rest[..n];
      RunAppend(s, first, rest[..n], env);
    }
  }

  /** A write with nothing else in flight. */
  function Alone(write: Write, stamp: Stamp): seq<Action> {
    [Begin(0, write), Finish(0, stamp)]
  }

  lemma RunAlone(plan: Plan, file: Option<ResultsFile>, write: Write, stamp: Stamp, env: Env)
    requires !Refused(write)
    ensures Run(StoreState(plan, file, map[]), Alone(write, stamp), env)
         == StoreState(plan, Some(Finished(file, Pending(write, plan), stamp, env)), map[])
  {
    hide Finished, Refused;
    var s, begun := StoreState(plan, file, map[]), map[0 := Pending(write, plan)];
    assert Alone(write, stamp) == [] + [Begin(0, write)] + [Finish(0, stamp)];
    RunNothing(s, [], env);
    RunSnoc(s, [], Begin(0, write), env);
    RunSnoc(s, [] + [Begin(0, write)], Finish(0, stamp), env);
    assert Next(s, Begin(0, write), env).inflight == begun && begun - {0} == map[];
  }

  // ---- Derived status ----

  ghost predicate StampsTrue(s: StoreState, env: Env) {
    AllStampsTrue(Recorded(s.file), env.nfc)
  }

  /**
   What a finishing write needs for its stamp to be true. A mark on a case of the plan it read recomputes
   the status and needs nothing. On a case that plan lacks it resets the status under the old stamp, so
   the stamped body must have no marked observation left. A note or override on a plan case stamps the
   present body over the old status, so that status must already be the present body's.
   */
  ghost predicate SafeWrite(file: Option<ResultsFile>, pending: Pending, stamp: Stamp, env: Env) {
    var write, plan := pending.write, pending.snapshot;
    var was := ResultOf(file, write.caseId);
    var planned := FindCase(plan.cases, write.caseId).Some?;
    if write.Mark? then
      planned || forall b :: was.caseCanon == Some(CanonicalizeCase(b, env.nfc))
                             ==> NoneMarked(ObservationIds(b), Mutated(write, was, stamp, plan).observationMarks)
    else
      planned ==> was.derivedStatus == DeriveStatus(PlanCaseObservationIds(plan, write.caseId), was.observationMarks)
  }

  ghost predicate SafeAction(s: StoreState, a: Action, env: Env) {
    match a
    case Finish(ticket, stamp) => ticket in s.inflight ==> SafeWrite(s.file, s.inflight[ticket], stamp, env)
    case Confirm(_, _) => UniqueIds(s.plan.cases)
    case _ => true
  }

  /** The stamp a write leaves is true exactly when the write is safe; a note on an absent case leaves it as it was. */
  lemma WriteStampsExactly(file: Option<ResultsFile>, pending: Pending, stamp: Stamp, env: Env)
    ensures var planned := FindCase(pending.snapshot.cases, pending.write.caseId).Some?;
            var written := StampTrue(Written(file, pending, stamp, env), env.nfc);
            if pending.write.Mark? || planned then written <==> SafeWrite(file, pending, stamp, env)
            else written <==> StampTrue(ResultOf(file, pending.write.caseId), env.nfc)
  {
    if pending.write.Mark? {
      MarkStampsExactly(file, pending, stamp, env);
    } else {
      NoteStampsExactly(file, pending, stamp, env);
    }
  }

  lemma MarkStampsExactly(file: Option<ResultsFile>, pending: Pending, stamp: Stamp, env: Env)
    requires pending.write.Mark?
    ensures StampTrue(Written(file, pending, stamp, env), env.nfc) <==> SafeWrite(file, pending, stamp, env)
  {
    hide CanonicalizeCase, DeriveStatus, NoneMarked, FindCase, ObservationIds;
    var now := Written(file, pending, stamp, env);
    match FindCase(pending.snapshot.cases, pending.write.caseId) {
      case Some(c) => StampedWith(now, c, env.nfc);
      case None =>
        assert now.derivedStatus == NotStarted by { NothingDerivesNotStarted(now.observationMarks); }
        forall b ensures DeriveStatus(ObservationIds(b), now.observationMarks) == NotStarted
                    <==> NoneMarked(ObservationIds(b), now.observationMarks) {
          NotStartedIsNoneMarked(ObservationIds(b), now.observationMarks);
        }
    }
  }

  lemma NothingDerivesNotStarted(marks: Marks)
    ensures DeriveStatus([], marks) == NotStarted
  {
  }

  lemma NotStartedIsNoneMarked(ids: seq<string>, marks: Marks)
    ensures DeriveStatus(ids, marks) == NotStarted <==> NoneMarked(ids, marks)
  {
  }

  /**
   A note or override on a case of the plan leaves a true stamp exactly when the status already stored
   is the one the present body gives: the write stamps that body without recomputing.
   */
  lemma NoteStampsExactly(file: Option<ResultsFile>, pending: Pending, stamp: Stamp, env: Env)
    requires !pending.write.Mark?
    ensures var was, c := ResultOf(file, pending.write.caseId), FindCase(pending.snapshot.cases, pending.write.caseId);
            StampTrue(Written(file, pending, stamp, env), env.nfc)
            <==> if c.Some? then was.derivedStatus == DeriveStatus(ObservationIds(c.value), was.observationMarks)
                 else StampTrue(was, env.nfc)
  {
    hide CanonicalizeCase, DeriveStatus, StampTrue, FindCase, ObservationIds, NoteText;
    var was, now := ResultOf(file, pending.write.caseId), Written(file, pending, stamp, env);
    match FindCase(pending.snapshot.cases, pending.write.caseId) {
      case Some(c) => StampedWith(now, c, env.nfc);
      case None => StampReads(was, now, env.nfc);
    }
  }

  lemma EmptyStampTrue(nfc: Nfc)
    ensures StampTrue(EMPTY_CASE_RESULT, nfc)
  {
    hide CanonicalizeCase;
  }

  /** With every stamp true, a note or override on the very body last stamped is safe. */
  lemma UnchangedBodyIsSafe(file: Option<ResultsFile>, pending: Pending, stamp: Stamp, env: Env)
    requires !pending.write.Mark? && pending.write.caseId in Recorded(file) && AllStampsTrue(Recorded(file), env.nfc)
    requires var c := FindCase(pending.snapshot.cases, pending.write.caseId);
             c.Some? ==> Recorded(file)[pending.write.caseId].caseCanon == Some(CanonicalizeCase(c.value, env.nfc))
    ensures SafeWrite(file, pending, stamp, env)
  {
    hide CanonicalizeCase, DeriveStatus, StampTrue, FindCase, ObservationIds, Mutated;
    var c := FindCase(pending.snapshot.cases, pending.write.caseId);
    if c.Some? {
      StampedWith(Recorded(file)[pending.write.caseId], c.value, env.nfc);
    }
  }

  /** On no result at all, it is safe exactly when no observation of the case is named like an inherited member. */
  lemma FirstNoteIsSafeExactly(file: Option<ResultsFile>, pending: Pending, stamp: Stamp, env: Env)
    requires !pending.write.Mark? && pending.write.caseId !in Recorded(file)
    ensures SafeWrite(file, pending, stamp, env)
       <==> forall id :: id in PlanCaseObservationIds(pending.snapshot, pending.write.caseId) ==> id !in INHERITED
  {
    hide CanonicalizeCase, ObservationIds, FindCase, DeriveStatus, Mutated;
    NotStartedIsNoneMarked(PlanCaseObservationIds(pending.snapshot, pending.write.caseId), map[]);
  }

  /** From true stamps, a finishing write leaves every stamp true exactly when it is safe. */
  lemma FinishKeepsStampsExactly(s: StoreState, ticket: nat, stamp: Stamp, env: Env)
    requires StampsTrue(s, env) && ticket in s.inflight
    ensures StampsTrue(Next(s, Finish(ticket, stamp), env), env) <==> SafeWrite(s.file, s.inflight[ticket], stamp, env)
  {
    hide CanonicalizeCase, Canonicalize, StampTrue, Written;
    var pending := s.inflight[ticket];
    var id := pending.write.caseId;
    WriteStampsExactly(s.file, pending, stamp, env);
    EmptyStampTrue(env.nfc);
    var after := Recorded(Next(s, Finish(ticket, stamp), env).file);
    assert after == Recorded(s.file)[id := Written(s.file, pending, stamp, env)];
    assert forall other :: other in after && other != id ==> after[other] == Recorded(s.file)[other];
  }

  lemma StepKeepsStamps(s: StoreState, a: Action, env: Env)
    requires StampsTrue(s, env) && SafeAction(s, a, env)
    ensures StampsTrue(Next(s, a, env), env)
  {
    hide CanonicalizeCase, Canonicalize, StampTrue, FindCase, Finished, SafeWrite, Reconciled, Refused;
    match a {
      case Finish(ticket, stamp) =>
        if ticket in s.inflight {
          FinishKeepsStampsExactly(s, ticket, stamp, env);
        }
      case Confirm(purge, time) => ConfirmKeepsStamps(s.file, s.plan, purge, time, env);
      case _ =>
    }
  }

  lemma ConfirmKeepsStamps(file: Option<ResultsFile>, plan: Plan, purge: bool, time: string, env: Env)
    requires AllStampsTrue(Recorded(file), env.nfc) && UniqueIds(plan.cases)
    ensures AllStampsTrue(Confirmed(file, plan, purge, time, env).caseResults, env.nfc)
  {
    hide Canonicalize, StampTrue, NextResult;
    var results := Recorded(file);
    var next := Reconciled(plan, results, env.nfc);
    forall id | id in results ensures StampTrue(next[id], env.nfc) && StampTrue(CopyCaseResult(next[id]), env.nfc) {
      ReconcileKeepsStamps(plan, results, env.nfc, id);
      StampReads(next[id], CopyCaseResult(next[id]), env.nfc);
    }
  }

  /** Every action of the run is safe when it happens. */
  ghost predicate SafeRun(s: StoreState, actions: seq<Action>, env: Env)
    decreases |actions|
  {
    actions == []
    || var n := |actions| - 1;
       SafeRun(s, actions[..n], env) && SafeAction(Run(s, actions[..n], env), actions[n], env)
  }

  /** Over every safe run, each stamped result's status is what its stamped body's observations give. */
  lemma {:induction false} SafeRunsKeepStamps(s: StoreState, actions: seq<Action>, env: Env)
    requires StampsTrue(s, env) && SafeRun(s, actions, env)
    ensures StampsTrue(Run(s, actions, env), env)
    decreases |actions|
  {
    hide Next, StampsTrue, SafeAction;
    if actions != [] {
      var n := |actions| - 1;
      SafeRunsKeepStamps(s, actions[..n], env);
      StepKeepsStamps(Run(s, actions[..n], env), actions[n], env);
    }
  }

  /** Where ids are unique at each reconcile, the runs that keep every stamp true throughout are the safe ones. */
  lemma {:induction false} SafeRunsExactly(s: StoreState, actions: seq<Action>, env: Env)
    requires StampsTrue(s, env)
    requires forall k :: 0 <= k < |actions| && actions[k].Confirm? ==> UniqueIds(Run(s, actions[..k], env).plan.cases)
    ensures SafeRun(s, actions, env) <==> forall k :: 0 <= k <= |actions| ==> StampsTrue(Run(s, actions[..k], env), env)
    decreases |actions|
  {
    hide Next, StampsTrue, Run, SafeWrite;
    if actions == [] {
      RunNothing(s, actions, env);
    } else {
      var n := |actions| - 1;
      var before := Run(s, actions[..n], env);
      assert forall k :: 0 <= k <= n ==> actions[..n][..k] == actions[..k];
      SafeRunsExactly(s, actions[..n], env);
      RunNext(s, actions, n, env);
      assert actions[..n + 1] == actions;
      if SafeRun(s, actions, env) {
        StepKeepsStamps(before, actions[n], env);
      } else if StampsTrue(before, env) && StampsTrue(Run(s, actions, env), env) && actions[n].Finish? {
        if actions[n].ticket in before.inflight {
          FinishKeepsStampsExactly(before, actions[n].ticket, actions[n].stamp, env);
        }
      }
    }
  }

  /** After a safe run, confirming a reconcile leaves every recorded plan case with its present status. */
  lemma ReconcileSettlesStatuses(s: StoreState, actions: seq<Action>, time: string, env: Env, id: string)
    requires StampsTrue(s, env) && SafeRun(s, actions, env)
    requires var at := Run(s, actions, env);
             UniqueIds(at.plan.cases) && id in Recorded(at.file) && FindCase(at.plan.cases, id).Some?
    ensures var at := Run(s, actions, env);
            var after := Next(at, Confirm(false, time), env);
            && id in Recorded(after.file)
            && Recorded(after.file)[id].derivedStatus
               == DeriveStatus(PlanCaseObservationIds(at.plan, id), Recorded(after.file)[id].observationMarks)
  {
    hide Run, SafeRun, StampTrue, DeriveStatus, Canonicalize, FindCase, NextResult;
    SafeRunsKeepStamps(s, actions, env);
    var at := Run(s, actions, env);
    ReconcileKeepsStamps(at.plan, Recorded(at.file), env.nfc, id);
  }

  // ---- A run the safety condition rules out ----

  /** A note on a changed body freezes the old status: the next reconcile finds the body unchanged and keeps it. */
  lemma NoteFreezesStatus(s: StoreState, ticket: nat, stamp: Stamp, time: string, env: Env)
    requires ticket in s.inflight && !s.inflight[ticket].write.Mark? && s.inflight[ticket].snapshot == s.plan
    requires UniqueIds(s.plan.cases) && FindCase(s.plan.cases, s.inflight[ticket].write.caseId).Some?
    ensures var id := s.inflight[ticket].write.caseId;
            var after := Next(Next(s, Finish(ticket, stamp), env), Confirm(false, time), env);
            && id in Recorded(after.file)
            && Recorded(after.file)[id].derivedStatus == ResultOf(s.file, id).derivedStatus
            && Recorded(after.file)[id].observationMarks == ResultOf(s.file, id).observationMarks
            && !ReadsStale(after, env)
  {
    hide CanonicalizeCase, Canonicalize, DeriveStatus, FindCase, PlanCanon, NoteText;
    ConfirmKeepsUnchanged(Next(s, Finish(ticket, stamp), env), s.inflight[ticket].write.caseId, time, env);
  }

  lemma ConfirmKeepsUnchanged(s: StoreState, id: string, time: string, env: Env)
    requires UniqueIds(s.plan.cases) && id in Recorded(s.file) && FindCase(s.plan.cases, id).Some?
    requires Recorded(s.file)[id].caseCanon == Some(CanonicalizeCase(FindCase(s.plan.cases, id).value, env.nfc))
    ensures var after := Next(s, Confirm(false, time), env);
            && id in Recorded(after.file)
            && Recorded(after.file)[id] == CopyCaseResult(Recorded(s.file)[id])
            && !ReadsStale(after, env)
  {
    hide CanonicalizeCase, Canonicalize, DeriveStatus, FindCase, PlanCanon;
    PlanCaseCanon(s.plan, id, env.nfc);
  }

  const ONE_OBSERVATION := Case("C", "t", 1, "functional", None, None, [Step("S", "i", [Observation("O1", "a")])], None)
  const TWO_OBSERVATIONS := ONE_OBSERVATION.(steps :=
    [Step("S", "i", [Observation("O1", "a"), Observation("O2", "b")])])

  function Only(c: Case): Plan {
    Plan("spec", [c])
  }

  const MARK_IT := Mark("C", "O1", Some(Pass))

  function MarkThenEditThenNote(stamp: Stamp): seq<Action> {
    Alone(MARK_IT, stamp) + [EditPlan(Only(TWO_OBSERVATIONS))] + [Begin(0, AddNote("C", "ok"))]
  }

  lemma SmallCaseObservations()
    ensures forall id :: id in ObservationIds(ONE_OBSERVATION) <==> id == "O1"
    ensures forall id :: id in ObservationIds(TWO_OBSERVATIONS) <==> id == "O1" || id == "O2"
  {
    hide ObservationIds;
    forall id ensures id in ObservationIds(ONE_OBSERVATION) <==> id == "O1" {
      ObservationIdsDefined(ONE_OBSERVATION, id);
      assert ONE_OBSERVATION.steps[0] in ONE_OBSERVATION.steps
        && ONE_OBSERVATION.steps[0].observations[0] in ONE_OBSERVATION.steps[0].observations;
    }
    forall id ensures id in ObservationIds(TWO_OBSERVATIONS) <==> id == "O1" || id == "O2" {
      ObservationIdsDefined(TWO_OBSERVATIONS, id);
      var step := TWO_OBSERVATIONS.steps[0];
      assert step in TWO_OBSERVATIONS.steps && step.observations[0] in step.observations
        && step.observations[1] in step.observations;
    }
  }

  lemma PassedWhenAllPass(ids: seq<string>, marks: Marks, id: string)
    requires id in ids && forall other :: other in ids ==> other == id
    requires id in marks && marks[id].result == Pass
    ensures DeriveStatus(ids, marks) == Passed
  {
  }

  /** What marking the one observation of an unrecorded case leaves. */
  lemma FirstMarkPasses(plan: Plan, stamp: Stamp, env: Env)
    requires FindCase(plan.cases, "C") == Some(ONE_OBSERVATION)
    ensures var c := Written(None, Pending(MARK_IT, plan), stamp, env);
            && !c.orphaned && c.derivedStatus == EffectiveStatus(c) == Passed
            && c.observationMarks == map["O1" := ObservationMark(Pass, stamp.author, stamp.time)]
            && c.caseCanon == Some(CanonicalizeCase(ONE_OBSERVATION, env.nfc))
  {
    hide CanonicalizeCase, ObservationIds, DeriveStatus;
    SmallCaseObservations();
    var marks := map["O1" := ObservationMark(Pass, stamp.author, stamp.time)];
    PassedWhenAllPass(ObservationIds(ONE_OBSERVATION), marks, "O1");
  }

  lemma NothingRefused()
    ensures !Refused(MARK_IT) && !Refused(AddNote("C", "ok"))
  {
    assert TrimStart("ok") == "ok" && TrimEnd("ok") == "ok";
  }

  lemma MarkedThenEdited(stamp: Stamp, env: Env) returns (at: StoreState)
    ensures at == Run(StoreState(Only(ONE_OBSERVATION), None, map[]), MarkThenEditThenNote(stamp), env)
    ensures at.plan == Only(TWO_OBSERVATIONS) && at.inflight == map[0 := Pending(AddNote("C", "ok"), at.plan)]
    ensures ResultOf(at.file, "C").derivedStatus == Passed
    ensures ResultOf(at.file, "C").observationMarks == map["O1" := ObservationMark(Pass, stamp.author, stamp.time)]
  {
    hide Run, Written, PlanHash, Refused, CanonicalizeCase;
    var there, edited, first := Only(ONE_OBSERVATION), EditPlan(Only(TWO_OBSERVATIONS)), Alone(MARK_IT, stamp);
    var start := StoreState(there, None, map[]);
    NothingRefused();
    RunAlone(there, None, MARK_IT, stamp, env);
    RunSnoc(start, first, edited, env);
    RunSnoc(start, first + [edited], Begin(0, AddNote("C", "ok")), env);
    FirstMarkPasses(there, stamp, env);
    at := Run(start, MarkThenEditThenNote(stamp), env);
  }

  /**
   A mark passes the one observation, an edit adds a second, a note lands, a reconcile is confirmed: the
   record says passed and reads as current, though the case's observations are only partly marked.
   */
  lemma StatusOutlivesItsBody(stamp: Stamp, env: Env)
    ensures var at := Run(StoreState(Only(ONE_OBSERVATION), None, map[]), MarkThenEditThenNote(stamp), env);
            var after := Next(Next(at, Finish(0, stamp), env), Confirm(false, stamp.time), env);
            && 0 in at.inflight && "C" in Recorded(after.file) && !ReadsStale(after, env)
            && Recorded(after.file)["C"].derivedStatus == Passed
            && DeriveStatus(PlanCaseObservationIds(after.plan, "C"), Recorded(after.file)["C"].observationMarks)
              == InProgress
  {
    hide Run, Finished, Confirmed, CanonicalizeCase, Canonicalize, ObservationIds, ReadsStale;
    SmallCaseObservations();
    var at := MarkedThenEdited(stamp, env);
    NoteFreezesStatus(at, 0, stamp, stamp.time, env);
    var observed := ObservationIds(TWO_OBSERVATIONS);
    assert "O1" in observed && "O2" in observed;
  }

  /** The case is marked, leaves the plan, is marked again while away, and comes back as it was. */
  function MarkWhileAway(stamp: Stamp): seq<Action> {
    Alone(MARK_IT, stamp) + [EditPlan(Plan("spec", []))] + Alone(MARK_IT, stamp) + [EditPlan(Only(ONE_OBSERVATION))]
  }

  /** The record ends as not started under an unchanged body, and stays so, though its one observation is passed. */
  lemma MarkWhileAwayResetsTheStatus(stamp: Stamp, env: Env)
    ensures var at := Run(StoreState(Only(ONE_OBSERVATION), None, map[]), MarkWhileAway(stamp), env);
            var after := Next(at, Confirm(false, stamp.time), env);
            && after.plan == Only(ONE_OBSERVATION) && "C" in Recorded(after.file) && !ReadsStale(after, env)
            && Recorded(after.file)["C"].derivedStatus == NotStarted
            && DeriveStatus(PlanCaseObservationIds(after.plan, "C"), Recorded(after.file)["C"].observationMarks)
              == Passed
  {
    hide Run, CanonicalizeCase, Canonicalize, ObservationIds, DeriveStatus, Confirmed, ReadsStale;
    var there, away := Only(ONE_OBSERVATION), Plan("spec", []);
    var start, write := StoreState(there, None, map[]), Alone(MARK_IT, stamp);
    var once := Finished(None, Pending(MARK_IT, there), stamp, env);
    var twice := Finished(Some(once), Pending(MARK_IT, away), stamp, env);
    RunAlone(there, None, MARK_IT, stamp, env);
    RunSnoc(start, write, EditPlan(away), env);
    RunAppend(start, write + [EditPlan(away)], write, env);
    RunAlone(away, Some(once), MARK_IT, stamp, env);
    RunSnoc(start, write + [EditPlan(away)] + write, EditPlan(there), env);
    var c := twice.caseResults["C"];
    assert PlanCaseObservationIds(away, "C") == []
      && PlanCaseObservationIds(there, "C") == ObservationIds(ONE_OBSERVATION);
    assert c.caseCanon == Some(CanonicalizeCase(ONE_OBSERVATION, env.nfc));
    var at := StoreState(there, Some(twice), map[]);
    assert Recorded(at.file)["C"] == c;
    ConfirmKeepsUnchanged(at, "C", stamp.time, env);
    NothingDerivesNotStarted(c.observationMarks);
    assert c.observationMarks == map["O1" := ObservationMark(Pass, stamp.author, stamp.time)];
    SmallCaseObservations();
    PassedWhenAllPass(ObservationIds(ONE_OBSERVATION), c.observationMarks, "O1");
  }

  // ---- Interleaving ----

  /** What reaches the sidecar, in the order it does. */
  datatype Effect = Wrote(write: Write, stamp: Stamp) | Settled(purge: bool, time: string)

  ghost function EffectOf(s: StoreState, a: Action): seq<Effect> {
    match a
    case Finish(ticket, stamp) => if ticket in s.inflight then [Wrote(s.inflight[ticket].write, stamp)] else []
    case Confirm(purge, time) => [Settled(purge, time)]
    case _ => []
  }

  ghost function Effects(s: StoreState, actions: seq<Action>, env: Env): seq<Effect>
    decreases |actions|
  {
    if actions == [] then []
    else
      var n := |actions| - 1;
      Effects(s, actions[..n], env) + EffectOf(Run(s, actions[..n], env), actions[n])
  }

  function FileAfter(at: StoreState, e: Effect, env: Env): ResultsFile {
    match e
    case Wrote(write, stamp) => Finished(at.file, Pending(write, at.plan), stamp, env)
    case Settled(purge, time) => Confirmed(at.file, at.plan, purge, time, env)
  }

  /** The same effects with nothing overlapping: every write begins right before it finishes. */
  ghost function Serial(effects: seq<Effect>): seq<Action>
    decreases |effects|
  {
    if effects == [] then []
    else
      var n := |effects| - 1;
      match effects[n]
      case Wrote(write, stamp) => Serial(effects[..n]) + [Begin(0, write)] + [Finish(0, stamp)]
      case Settled(purge, time) => Serial(effects[..n]) + [Confirm(purge, time)]
  }

  ghost predicate PlanFixed(s: StoreState, actions: seq<Action>) {
    && (forall a :: a in actions ==> !a.EditPlan?)
    && forall ticket :: ticket in s.inflight
         ==> s.inflight[ticket].snapshot == s.plan && !Refused(s.inflight[ticket].write)
  }

  lemma {:induction false} FixedPlanKeeps(s: StoreState, actions: seq<Action>, env: Env)
    requires PlanFixed(s, actions)
    ensures var at := Run(s, actions, env);
            && at.plan == s.plan
            && forall ticket :: ticket in at.inflight
                 ==> at.inflight[ticket].snapshot == s.plan && !Refused(at.inflight[ticket].write)
    decreases |actions|
  {
    hide Finished, Confirmed, Refused;
    if actions != [] {
      var n := |actions| - 1;
      assert actions[n] in actions;
      assert PlanFixed(s, actions[..n]);
      FixedPlanKeeps(s, actions[..n], env);
    }
  }

  lemma SerialNext(s: StoreState, effects: seq<Effect>, e: Effect, env: Env)
    requires Run(s, Serial(effects), env).inflight == map[]
    requires e.Wrote? ==> !Refused(e.write)
    ensures var at := Run(s, Serial(effects), env);
            var after := Run(s, Serial(effects + [e]), env);
            && after.inflight == map[] && after.plan == at.plan
            && after.file == Some(FileAfter(at, e, env))
  {
    hide Finished, Confirmed, Run, Refused;
    assert (effects + [e])[..|effects|] == effects;
    match e {
      case Wrote(write, stamp) =>
        RunSnoc(s, Serial(effects), Begin(0, write), env);
        RunSnoc(s, Serial(effects) + [Begin(0, write)], Finish(0, stamp), env);
        var begun := Run(s, Serial(effects) + [Begin(0, write)], env);
        assert begun.inflight == map[0 := Pending(write, begun.plan)];
        assert begun.inflight - {0} == map[];
      case Settled(purge, time) =>
        RunSnoc(s, Serial(effects), Confirm(purge, time), env);
    }
  }

  /**
   While the plan stays put, overlapping writes and reconciles end with the very sidecar of the run that
   performs them one after another in finish order: no mark, note or override is lost to the overlap.
   */
  lemma {:induction false} OverlapIsSerial(s: StoreState, actions: seq<Action>, env: Env)
    requires PlanFixed(s, actions)
    ensures var alone := s.(inflight := map[]);
            var serial := Run(alone, Serial(Effects(s, actions, env)), env);
            serial.file == Run(s, actions, env).file && serial.inflight == map[] && serial.plan == s.plan
    decreases |actions|
  {
    hide Finished, Confirmed, Refused, Serial;
    var alone := s.(inflight := map[]);
    SerialNothing(alone, env);
    if actions != [] {
      var n := |actions| - 1;
      assert PlanFixed(s, actions[..n]);
      OverlapIsSerial(s, actions[..n], env);
      FixedPlanKeeps(s, actions[..n], env);
      var at := Run(s, actions[..n], env);
      var effect := EffectOf(at, actions[n]);
      var earlier := Effects(s, actions[..n], env);
      assert actions[n] in actions;
      if effect == [] {
        assert earlier + effect == earlier;
      } else {
        SerialNext(alone, earlier, effect[0], env);
        assert effect == [effect[0]];
      }
    }
  }

  lemma SerialNothing(s: StoreState, env: Env)
    ensures Run(s, Serial([]), env) == s
  {
  }

  // ---- A recorded mark ----

  ghost predicate HoldsMark(s: StoreState, id: string, observation: string, mark: ObservationMark) {
    id in Recorded(s.file) && observation in Recorded(s.file)[id].observationMarks
    && Recorded(s.file)[id].observationMarks[observation] == mark
  }

  /** The action finishes a mark of this very observation, or purges. */
  ghost predicate MayOverwrite(s: StoreState, a: Action, id: string, observation: string) {
    match a
    case Finish(ticket, _) =>
      && ticket in s.inflight && s.inflight[ticket].write.Mark?
      && s.inflight[ticket].write.caseId == id && s.inflight[ticket].write.observationId == observation
    case Confirm(purge, _) => purge
    case _ => false
  }

  /** Until one of those, a recorded mark stays as it is, whatever else is in flight. */
  lemma MarkStays(s: StoreState, a: Action, id: string, observation: string, mark: ObservationMark, env: Env)
    requires HoldsMark(s, id, observation, mark) && !MayOverwrite(s, a, id, observation)
    ensures HoldsMark(Next(s, a, env), id, observation, mark)
  {
    hide CanonicalizeCase, Canonicalize, DeriveStatus, FindCase, Refused, BucketOf, Refreshed;
    match a {
      case Confirm(purge, time) => AuthoredDataKept(s.plan, Recorded(s.file), env.nfc, id);
      case _ =>
    }
  }

  /** Over a whole run that never does, whatever else it does. */
  lemma {:induction false} MarkSurvivesRuns(s: StoreState, actions: seq<Action>, id: string, observation: string,
                                            mark: ObservationMark, env: Env)
    requires HoldsMark(s, id, observation, mark)
    requires forall k :: 0 <= k < |actions| ==> !MayOverwrite(Run(s, actions[..k], env), actions[k], id, observation)
    ensures HoldsMark(Run(s, actions, env), id, observation, mark)
    decreases |actions|
  {
    hide HoldsMark, MayOverwrite, Next;
    if actions != [] {
      var n := |actions| - 1;
      assert forall k :: 0 <= k < n ==> actions[..n][..k] == actions[..k];
      MarkSurvivesRuns(s, actions[..n], id, observation, mark, env);
      MarkStays(Run(s, actions[..n], env), actions[n], id, observation, mark, env);
    }
  }

  lemma FinishedMarkIsHeld(s: StoreState, ticket: nat, stamp: Stamp, env: Env)
    requires ticket in s.inflight && s.inflight[ticket].write.Mark? && s.inflight[ticket].write.result.Some?
    ensures var w := s.inflight[ticket].write;
            HoldsMark(Next(s, Finish(ticket, stamp), env), w.caseId, w.observationId,
                      ObservationMark(w.result.value, stamp.author, stamp.time))
  {
    hide CanonicalizeCase, Canonicalize, DeriveStatus, FindCase;
  }

  // ---- Staleness ----

  ghost predicate InjectiveHash(env: Env) {
    forall a, b :: env.hash(a) == env.hash(b) ==> a == b
  }

  /** After a write finishes, a read reports stale exactly when the plan it saw is no longer the live one. */
  lemma FinishedReadsStaleExactly(s: StoreState, ticket: nat, stamp: Stamp, env: Env)
    requires ticket in s.inflight && InjectiveHash(env)
    ensures ReadsStale(Next(s, Finish(ticket, stamp), env), env)
       <==> Canonicalize(s.inflight[ticket].snapshot, env.nfc) != Canonicalize(s.plan, env.nfc)
  {
    hide Canonicalize, Written;
  }

  /** An edit that keeps the canonical text keeps the staleness; a confirmed reconcile always clears it. */
  lemma StalenessFollowsTheText(s: StoreState, plan: Plan, purge: bool, time: string, env: Env)
    ensures Canonicalize(plan, env.nfc) == Canonicalize(s.plan, env.nfc)
            ==> (ReadsStale(Next(s, EditPlan(plan), env), env) <==> ReadsStale(s, env))
    ensures !ReadsStale(Next(s, Confirm(purge, time), env), env)
  {
    hide Canonicalize, Reconciled, Purged;
  }

  /** The plan whose hash the sidecar carries: the one the last finished write saw or the last reconcile confirmed. */
  ghost function LastStamped(s: StoreState, actions: seq<Action>, env: Env): Option<Plan>
    decreases |actions|
  {
    if actions == [] then None
    else
      var n := |actions| - 1;
      var before := Run(s, actions[..n], env);
      match actions[n]
      case Finish(ticket, _) =>
        if ticket in before.inflight then Some(before.inflight[ticket].snapshot) else LastStamped(s, actions[..n], env)
      case Confirm(_, _) => Some(before.plan)
      case _ => LastStamped(s, actions[..n], env)
  }

  lemma {:induction false} RunCarriesLastStamp(s: StoreState, actions: seq<Action>, env: Env)
    ensures var last, at := LastStamped(s, actions, env), Run(s, actions, env);
            if last.None? then at.file == s.file
            else at.file.Some? && at.file.value.planHash == PlanHash(last.value, env)
    decreases |actions|
  {
    hide PlanHash, Written, Reconciled, Purged, Refused;
    if actions != [] {
      RunCarriesLastStamp(s, actions[..|actions| - 1], env);
    }
  }

  /** After any run, a read is stale exactly when the plan last stamped no longer has the live plan's text. */
  lemma RunReadsStaleExactly(s: StoreState, actions: seq<Action>, env: Env)
    requires InjectiveHash(env)
    ensures var last, at := LastStamped(s, actions, env), Run(s, actions, env);
            ReadsStale(at, env)
            <==> if last.Some? then Canonicalize(last.value, env.nfc) != Canonicalize(at.plan, env.nfc)
                 else s.file.Some? && s.file.value.planHash != PlanHash(at.plan, env)
  {
    hide Canonicalize, Run, LastStamped;
    RunCarriesLastStamp(s, actions, env);
  }
}
