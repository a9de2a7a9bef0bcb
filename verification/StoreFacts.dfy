/**
 What each finished write leaves in the sidecar, field by field, and what then survives: read off the
 records before and after, over single steps and whole runs.
 */
module StoreFacts {
  import opened Wrappers
  import opened Contracts
  import opened Canonical
  import opened TestbenchDomain
  import opened TestbenchStore
  import opened StoreRuns

  /** The result a write starts from: the recorded one, or a blank. */
  function Before(s: StoreState, id: string): CaseResult {
    if s.file.Some? && id in s.file.value.caseResults then s.file.value.caseResults[id]
    else CaseResult(map[], NotStarted, None, [], None, false, None)
  }

  /** The state right after the write of a ticket finished. */
  function AfterFinish(s: StoreState, ticket: nat, stamp: Stamp, env: Env): StoreState {
    Next(s, Finish(ticket, stamp), env)
  }

  /** A finished write touches one case's result, and records when and against which plan. */
  lemma FinishTouchesOneCase(s: StoreState, ticket: nat, stamp: Stamp, env: Env)
    requires ticket in s.inflight
    ensures var id, after := s.inflight[ticket].write.caseId, AfterFinish(s, ticket, stamp, env);
            && after.plan == s.plan && after.inflight == s.inflight - {ticket}
            && after.file.Some? && after.file.value.updatedAt == stamp.time && id in after.file.value.caseResults
            && after.file.value.planHash == env.hash(Canonicalize(s.inflight[ticket].snapshot, env.nfc))
            && forall other :: other != id ==>
                 && (other in after.file.value.caseResults <==> s.file.Some? && other in s.file.value.caseResults)
                 && (other in after.file.value.caseResults
                     ==> after.file.value.caseResults[other] == s.file.value.caseResults[other])
  {
    hide Canonicalize, Written;
  }

  /** No write changes a verification block or the orphaned flag; the stamp is the body it saw, if any. */
  lemma FinishKeepsTheRest(s: StoreState, ticket: nat, stamp: Stamp, env: Env)
    requires ticket in s.inflight
    ensures var id, after := s.inflight[ticket].write.caseId, AfterFinish(s, ticket, stamp, env);
            id in Recorded(after.file)
            && var was, now := Before(s, id), Recorded(after.file)[id];
               var c := FindCase(s.inflight[ticket].snapshot.cases, id);
               && now.verification == was.verification && now.orphaned == was.orphaned
               && now.caseCanon == if c.Some? then Some(CanonicalizeCase(c.value, env.nfc)) else was.caseCanon
  {
    hide Canonicalize, CanonicalizeCase, DeriveStatus, FindCase, NoteText;
  }

  /** A confirmed reconcile stores the reconciled records, orphans dropped when asked, under the live hash. */
  lemma ConfirmPlainly(s: StoreState, purge: bool, time: string, env: Env, id: string)
    requires UniqueIds(s.plan.cases)
    ensures var after, next := Next(s, Confirm(purge, time), env), Reconciled(s.plan, Recorded(s.file), env.nfc);
            && after.plan == s.plan && after.inflight == s.inflight && after.file.Some?
            && after.file.value.updatedAt == time
            && after.file.value.planHash == env.hash(Canonicalize(s.plan, env.nfc))
            && (id in after.file.value.caseResults <==> id in next && !(purge && next[id].orphaned))
            && (id in after.file.value.caseResults
                ==> after.file.value.caseResults[id].(verification := None) == next[id].(verification := None))
  {
    hide Canonicalize, NextResult;
  }

  // ---- Notes ----

  /** `trimmed` is `text` without the white space at its ends. */
  ghost predicate Trims(text: string, trimmed: string) {
    && (trimmed != "" ==> !IsSpace(trimmed[0]) && !IsSpace(trimmed[|trimmed| - 1]))
    && exists i, j :: && 0 <= i <= j <= |text| && text[i..j] == trimmed
                      && (forall k :: 0 <= k < i ==> IsSpace(text[k]))
                      && forall k :: j <= k < |text| ==> IsSpace(text[k])
  }

  lemma {:induction false} TrimStartTrims(s: string) returns (i: nat)
    ensures i <= |s| && TrimStart(s) == s[i..] && forall k :: 0 <= k < i ==> IsSpace(s[k])
  {
    if s != "" && IsSpace(s[0]) {
      var rest := TrimStartTrims(s[1..]);
      i := rest + 1;
      assert forall k :: 1 <= k < i ==> s[k] == s[1..][k - 1];
      assert s[1..][rest..] == s[i..];
    } else {
      i := 0;
    }
  }

  lemma {:induction false} TrimEndTrims(s: string) returns (j: nat)
    ensures j <= |s| && TrimEnd(s) == s[..j] && forall k :: j <= k < |s| ==> IsSpace(s[k])
  {
    if s != "" && IsSpace(s[|s| - 1]) {
      j := TrimEndTrims(s[..|s| - 1]);
      assert s[..|s| - 1][..j] == s[..j];
      assert forall k :: j <= k < |s| - 1 ==> s[k] == s[..|s| - 1][k];
    } else {
      j := |s|;
      assert s[..j] == s;
    }
  }

  lemma NoteTextTrims(text: string)
    ensures Trims(text, NoteText(text))
  {
    hide IsSpace, TrimStart, TrimEnd;
    var start := TrimStart(text);
    var i := TrimStartTrims(text);
    var j := TrimEndTrims(start);
    assert NoteText(text) == start[..j] == text[i..i + j];
    if j > 0 {
      assert start[..j][0] == start[0];
    }
    assert forall k :: i + j <= k < |text| ==> text[k] == start[k - i];
  }

  /** A write is accepted exactly when its case id is no prototype key and a note has something to say. */
  lemma AcceptedPlainly(s: StoreState, ticket: nat, write: Write, env: Env)
    requires ticket !in s.inflight
    ensures var accepted := write.caseId !in {"__proto__", "constructor", "prototype"}
                            && (write.AddNote? ==> exists k :: 0 <= k < |write.text| && !IsSpace(write.text[k]));
            Next(s, Begin(ticket, write), env)
            == if accepted then s.(inflight := s.inflight[ticket := Pending(write, s.plan)]) else s
  {
    hide IsSpace, NoteText;
    if write.AddNote? {
      NoteTextTrims(write.text);
      var i, j :| && 0 <= i <= j <= |write.text| && write.text[i..j] == NoteText(write.text)
                  && (forall k :: 0 <= k < i ==> IsSpace(write.text[k]))
                  && forall k :: j <= k < |write.text| ==> IsSpace(write.text[k]);
      if NoteText(write.text) != "" {
        assert write.text[i] == NoteText(write.text)[0];
      }
    }
  }

  /** A finished note leaves every earlier note in place and stands last, saying what was in force before it. */
  lemma FinishedNoteIsAppended(s: StoreState, ticket: nat, stamp: Stamp, env: Env)
    requires ticket in s.inflight && s.inflight[ticket].write.AddNote?
    ensures var w, after := s.inflight[ticket].write, AfterFinish(s, ticket, stamp, env);
            w.caseId in Recorded(after.file)
            && var was, now := Before(s, w.caseId), Recorded(after.file)[w.caseId];
               && |now.notes| == |was.notes| + 1
               && (forall k :: 0 <= k < |was.notes| ==> now.notes[k] == was.notes[k])
               && var note := now.notes[|was.notes|];
                  && note.id == stamp.noteId && note.author == stamp.author && note.timestamp == stamp.time
                  && Trims(w.text, note.text)
                  && note.statusAtWrite
                     == (if was.statusOverride.Some? then was.statusOverride.value.status else was.derivedStatus)
                  && now.observationMarks == was.observationMarks && now.derivedStatus == was.derivedStatus
                  && now.statusOverride == was.statusOverride
  {
    hide Canonicalize, CanonicalizeCase, FindCase, NoteText, Trims;
    NoteTextTrims(s.inflight[ticket].write.text);
  }

  ghost predicate HoldsNote(s: StoreState, id: string, k: nat, note: Note) {
    s.file.Some? && id in s.file.value.caseResults && k < |s.file.value.caseResults[id].notes|
    && s.file.value.caseResults[id].notes[k] == note
  }

  lemma NoteStays(s: StoreState, a: Action, id: string, k: nat, note: Note, env: Env)
    requires HoldsNote(s, id, k, note) && !(a.Confirm? && a.purge)
    ensures HoldsNote(Next(s, a, env), id, k, note)
  {
    hide CanonicalizeCase, Canonicalize, DeriveStatus, FindCase, Refused, BucketOf, Refreshed, NoteText;
    if a.Confirm? {
      AuthoredDataKept(s.plan, Recorded(s.file), env.nfc, id);
    }
  }

  /** A recorded note stands at its place through every run without a purge. */
  lemma {:induction false} NoteSurvivesRuns(s: StoreState, actions: seq<Action>, id: string, k: nat, note: Note,
                                            env: Env)
    requires HoldsNote(s, id, k, note)
    requires forall n :: 0 <= n < |actions| ==> !(actions[n].Confirm? && actions[n].purge)
    ensures HoldsNote(Run(s, actions, env), id, k, note)
    decreases |actions|
  {
    hide HoldsNote, Next;
    if actions != [] {
      var n := |actions| - 1;
      NoteSurvivesRuns(s, actions[..n], id, k, note, env);
      NoteStays(Run(s, actions[..n], env), actions[n], id, k, note, env);
    }
  }

  // ---- Overrides ----

  /** A finished override sets the status asked for, or uncovers the derived one, and nothing else authored. */
  lemma FinishedOverrideHolds(s: StoreState, ticket: nat, stamp: Stamp, env: Env)
    requires ticket in s.inflight && s.inflight[ticket].write.SetOverride?
    ensures var w, after := s.inflight[ticket].write, AfterFinish(s, ticket, stamp, env);
            w.caseId in Recorded(after.file)
            && var was, now := Before(s, w.caseId), Recorded(after.file)[w.caseId];
               && (w.status.None? ==> now.statusOverride == None && EffectiveStatus(now) == now.derivedStatus)
               && (w.status.Some?
                   ==> && now.statusOverride == Some(StatusOverride(w.status.value, stamp.author, stamp.time))
                       && EffectiveStatus(now) == w.status.value)
               && now.observationMarks == was.observationMarks && now.derivedStatus == was.derivedStatus
               && now.notes == was.notes
  {
    hide Canonicalize, CanonicalizeCase, FindCase, NoteText;
  }

  ghost predicate HoldsOverride(s: StoreState, id: string, override: Option<StatusOverride>) {
    s.file.Some? && id in s.file.value.caseResults && s.file.value.caseResults[id].statusOverride == override
  }

  ghost predicate SetsOverride(s: StoreState, a: Action, id: string) {
    && a.Finish? && a.ticket in s.inflight
    && s.inflight[a.ticket].write.SetOverride? && s.inflight[a.ticket].write.caseId == id
  }

  lemma OverrideStays(s: StoreState, a: Action, id: string, override: Option<StatusOverride>, env: Env)
    requires HoldsOverride(s, id, override) && !SetsOverride(s, a, id) && !(a.Confirm? && a.purge)
    ensures HoldsOverride(Next(s, a, env), id, override)
  {
    hide CanonicalizeCase, Canonicalize, DeriveStatus, FindCase, Refused, BucketOf, Refreshed, NoteText;
    if a.Confirm? {
      AuthoredDataKept(s.plan, Recorded(s.file), env.nfc, id);
    }
  }

  /** A recorded override, or its absence, stands until the case's override is written again or a purge. */
  lemma {:induction false} OverrideSurvivesRuns(s: StoreState, actions: seq<Action>, id: string,
                                                override: Option<StatusOverride>, env: Env)
    requires HoldsOverride(s, id, override)
    requires forall n :: 0 <= n < |actions|
               ==> && !SetsOverride(Run(s, actions[..n], env), actions[n], id)
                   && !(actions[n].Confirm? && actions[n].purge)
    ensures HoldsOverride(Run(s, actions, env), id, override)
    decreases |actions|
  {
    hide HoldsOverride, SetsOverride, Next;
    if actions != [] {
      var n := |actions| - 1;
      assert forall k :: 0 <= k < n ==> actions[..n][..k] == actions[..k];
      OverrideSurvivesRuns(s, actions[..n], id, override, env);
      OverrideStays(Run(s, actions[..n], env), actions[n], id, override, env);
    }
  }

  // ---- Marks ----

  /** A finished mark sets or removes that one observation's mark and recomputes the status; notes and override stay. */
  lemma FinishedMarkSetsOne(s: StoreState, ticket: nat, stamp: Stamp, env: Env)
    requires ticket in s.inflight && s.inflight[ticket].write.Mark?
    ensures var w, after := s.inflight[ticket].write, AfterFinish(s, ticket, stamp, env);
            w.caseId in Recorded(after.file)
            && var was, now := Before(s, w.caseId), Recorded(after.file)[w.caseId];
               && (w.observationId in now.observationMarks <==> w.result.Some?)
               && (w.result.Some? ==>
                     now.observationMarks[w.observationId] == ObservationMark(w.result.value, stamp.author, stamp.time))
               && (forall o :: o != w.observationId ==>
                     && (o in now.observationMarks <==> o in was.observationMarks)
                     && (o in was.observationMarks ==> now.observationMarks[o] == was.observationMarks[o]))
               && now.derivedStatus
                  == DeriveStatus(PlanCaseObservationIds(s.inflight[ticket].snapshot, w.caseId), now.observationMarks)
               && now.notes == was.notes && now.statusOverride == was.statusOverride
  {
    hide Canonicalize, CanonicalizeCase, DeriveStatus, PlanCaseObservationIds, FindCase;
  }
}
