/**
 The one write into a spec's case file (server/lib/testbench-lifecycle-write.ts): set or clear a single
 case's `lifecycle` key under a fingerprint precondition. The file is its parsed document together with
 the layout of its text, so that equal contents are equal bytes; `fingerprint` stands for the hash.
 */
module LifecycleWrite {
  import opened Wrappers
  import opened Strings
  import opened Contracts
  import opened JsonText
  import opened Canonical

  /** A case as it stands in the file: members in order, modelled or not. */
  type CaseObject = seq<Member>

  /** The keys the contract requires at the top; they are assigned in place, never added. */
  datatype Document = Document(schemaId: string, schemaVersion: string, specSlug: string, cases: seq<CaseObject>)

  /** How the text was laid out: by someone else, or printed here with or without a final newline. */
  datatype Layout = Authored(text: string, finalNewline: bool) | Printed(finalNewline: bool)

  datatype Content =
    | Missing
    | Unusable(text: string)
    | Usable(document: Document, layout: Layout)

  datatype WriteError = UnsafeInput | MissingCaseFile | Conflict(actual: string) | CaseNotFound

  const TEST_CASES_SCHEMA_ID := "https://roubo.dev/schema/testbench/test-cases/v1.2.0.json"
  const TEST_CASES_SCHEMA_VERSION := "1.2.0"

  /** The content hash, and `parseInt` over the dotted segments of a version text. */
  datatype Env = Env(fingerprint: Content -> string, segments: string -> seq<Option<int>>)

  // ---- Versions ----

  /** The two agree, number for number, on their first `k` segments. */
  predicate AgreeTo(left: seq<Option<int>>, right: seq<Option<int>>, k: nat) {
    && k <= |left| && k <= |right|
    && forall i :: 0 <= i < k ==> left[i].Some? && left[i] == right[i]
  }

  /** Where they stop agreeing, `right` has ended or `left` has the larger number. */
  predicate LeadsAt(left: seq<Option<int>>, right: seq<Option<int>>, k: nat)
    requires AgreeTo(left, right, k)
  {
    || k == |right|
    || (k < |left| && left[k].Some? && right[k].Some? && left[k].value > right[k].value)
  }

  predicate AtLeast(left: seq<Option<int>>, right: seq<Option<int>>) {
    exists k :: 0 <= k <= |right| && AgreeTo(left, right, k) && LeadsAt(left, right, k)
  }

  predicate Numeric(segments: seq<Option<int>>) {
    forall i :: 0 <= i < |segments| ==> segments[i].Some?
  }

  method IsAtLeast(left: seq<Option<int>>, right: seq<Option<int>>) returns (r: bool)
    ensures r <==> AtLeast(left, right)
  {
    for i := 0 to |right|
      invariant AgreeTo(left, right, i)
    {
      if i >= |left| || left[i].None? {
        LeavesAt(left, right, i);
        return false;
      }
      if left[i] != right[i] {
        LeavesAt(left, right, i);
        return right[i].Some? && left[i].value > right[i].value;
      }
    }
    assert LeadsAt(left, right, |right|);
    return true;
  }

  /** The first disagreement decides. */
  lemma LeavesAt(left: seq<Option<int>>, right: seq<Option<int>>, i: nat)
    requires AgreeTo(left, right, i) && i < |right| && !AgreeTo(left, right, i + 1)
    ensures AtLeast(left, right) <==> LeadsAt(left, right, i)
  {
    if k :| 0 <= k <= |right| && AgreeTo(left, right, k) && LeadsAt(left, right, k) {
      assert k <= i;
      assert k < i ==> left[k] == right[k];
    }
  }

  lemma AgreementEnds(left: seq<Option<int>>, right: seq<Option<int>>, i: nat) returns (k: nat)
    requires AgreeTo(left, right, i)
    ensures i <= k <= |right| && AgreeTo(left, right, k)
    ensures k < |right| ==> !AgreeTo(left, right, k + 1)
    decreases |right| - i
  {
    k := i;
    if i < |right| && AgreeTo(left, right, i + 1) {
      k := AgreementEnds(left, right, i + 1);
    }
  }

  /** Numeric versions compare one way or the other, and each with itself. */
  lemma AtLeastTotal(left: seq<Option<int>>, right: seq<Option<int>>)
    requires Numeric(left) && Numeric(right)
    ensures AtLeast(left, right) || AtLeast(right, left)
    ensures AtLeast(left, left)
  {
    var k := AgreementEnds(left, right, 0);
    assert AgreeTo(right, left, k);
    assert LeadsAt(left, right, k) || LeadsAt(right, left, k);
    assert AgreeTo(left, left, |left|) && LeadsAt(left, left, |left|);
  }

  function Segments(numbers: seq<int>): seq<Option<int>> {
    seq(|numbers|, i requires 0 <= i < |numbers| => Some(numbers[i]))
  }

  /** Against 1.2.0: itself and anything above passes, a shorter or lower version does not, nor does a malformed one. */
  lemma AgainstTheMinimum(more: seq<Option<int>>)
    ensures AtLeast(Segments([1, 2, 0]) + more, Segments([1, 2, 0]))
    ensures AtLeast(Segments([1, 3]) + more, Segments([1, 2, 0])) && AtLeast(Segments([2]) + more, Segments([1, 2, 0]))
    ensures !AtLeast(Segments([1, 2]), Segments([1, 2, 0])) && !AtLeast(Segments([1, 1]) + more, Segments([1, 2, 0]))
    ensures !AtLeast([], Segments([1, 2, 0])) && !AtLeast([None] + more, Segments([1, 2, 0]))
    ensures !AtLeast([Some(1), None] + more, Segments([1, 2, 0]))
  {
    var minimum := Segments([1, 2, 0]);
    assert LeadsAt(Segments([1, 2, 0]) + more, minimum, 3);
    assert LeadsAt(Segments([1, 3]) + more, minimum, 1);
    assert LeadsAt(Segments([2]) + more, minimum, 0);
    LeavesAt(Segments([1, 2]), minimum, 2);
    LeavesAt(Segments([1, 1]) + more, minimum, 1);
    LeavesAt([], minimum, 0);
    LeavesAt([None] + more, minimum, 0);
    LeavesAt([Some(1), None] + more, minimum, 1);
  }

  // ---- One case object ----

  function FindMember(o: CaseObject, name: string): (at: nat)
    ensures at <= |o|
    ensures at < |o| ==> o[at].name == name
    ensures forall i :: 0 <= i < at ==> o[i].name != name
  {
    if o == [] || o[0].name == name then 0 else 1 + FindMember(o[1..], name)
  }

  function Field(o: CaseObject, name: string): Option<Doc> {
    var at := FindMember(o, name);
    if at < |o| then Some(o[at].value) else None
  }

  /** A spread with one key overridden: the key keeps its place, or goes last. */
  function WithLifecycle(o: CaseObject, value: Doc): CaseObject {
    var at := FindMember(o, "lifecycle");
    if at < |o| then o[at := Member("lifecycle", value)] else o + [Member("lifecycle", value)]
  }

  function WithoutLifecycle(o: CaseObject): CaseObject {
    if o == [] then []
    else (if o[0].name == "lifecycle" then [] else [o[0]]) + WithoutLifecycle(o[1..])
  }

  function LifecycleDoc(lifecycle: CaseLifecycle): Doc {
    match lifecycle
    case Retired(reason) => Obj([Member("state", Str("retired")), Member("reason", Str(reason))])
    case Superseded(replacement, why) =>
      Obj([Member("state", Str("superseded")), Member("replacement", Str(replacement))]
          + if why.Some? then [Member("reason", Str(why.value))] else [])
  }

  function Edited(o: CaseObject, lifecycle: Option<CaseLifecycle>): CaseObject {
    if lifecycle.None? then WithoutLifecycle(o) else WithLifecycle(o, LifecycleDoc(lifecycle.value))
  }

  lemma FieldCons(m: Member, rest: CaseObject, name: string)
    ensures Field([m] + rest, name) == if m.name == name then Some(m.value) else Field(rest, name)
  {
    assert ([m] + rest)[1..] == rest;
  }

  lemma {:induction false} WithoutKeepsOthers(o: CaseObject, name: string)
    requires name != "lifecycle"
    ensures Field(WithoutLifecycle(o), name) == Field(o, name)
    ensures Field(WithoutLifecycle(o), "lifecycle") == None
  {
    hide Field;
    if o == [] {
      assert Field([], name) == None && Field([], "lifecycle") == None by { NoFields(name); NoFields("lifecycle"); }
    } else {
      var rest := WithoutLifecycle(o[1..]);
      WithoutKeepsOthers(o[1..], name);
      assert o == [o[0]] + o[1..];
      FieldCons(o[0], o[1..], name);
      FieldCons(o[0], rest, name);
      FieldCons(o[0], rest, "lifecycle");
      assert [] + rest == rest;
    }
  }

  lemma NoFields(name: string)
    ensures Field([], name) == None
  {
  }

  lemma FindAnywhere(o: CaseObject, name: string, i: nat)
    requires i < |o| && o[i].name == name && forall j :: 0 <= j < i ==> o[j].name != name
    ensures FindMember(o, name) == i
  {
  }

  lemma WithKeepsOthers(o: CaseObject, value: Doc, name: string)
    requires name != "lifecycle"
    ensures Field(WithLifecycle(o, value), name) == Field(o, name)
    ensures Field(WithLifecycle(o, value), "lifecycle") == Some(value)
  {
    var w, at := WithLifecycle(o, value), FindMember(o, name);
    if at < |o| {
      FindAnywhere(w, name, at);
    }
    FindAnywhere(w, "lifecycle", FindMember(o, "lifecycle"));
  }

  /** Only the `lifecycle` key of the edited case changes, to exactly what was asked. */
  lemma OneKeyEdited(o: CaseObject, lifecycle: Option<CaseLifecycle>, name: string)
    ensures name != "lifecycle" ==> Field(Edited(o, lifecycle), name) == Field(o, name)
    ensures Field(Edited(o, lifecycle), "lifecycle")
         == match lifecycle case None => None case Some(l) => Some(LifecycleDoc(l))
  {
    hide LifecycleDoc, FindMember;
    var other := if name == "lifecycle" then "id" else name;
    WithoutKeepsOthers(o, other);
    if lifecycle.Some? {
      WithKeepsOthers(o, LifecycleDoc(lifecycle.value), other);
    }
  }

  lemma {:induction false} NoLifecycleKept(o: CaseObject)
    ensures WithoutLifecycle(o) == o <==> forall i :: 0 <= i < |o| ==> o[i].name != "lifecycle"
    ensures |WithoutLifecycle(o)| <= |o|
  {
    if o != [] {
      NoLifecycleKept(o[1..]);
      assert o == [o[0]] + o[1..];
      assert forall i :: 1 <= i < |o| ==> o[i] == o[1..][i - 1];
    }
  }

  lemma {:induction false} WithoutDropsLast(o: CaseObject, value: Doc)
    ensures WithoutLifecycle(o + [Member("lifecycle", value)]) == WithoutLifecycle(o)
  {
    if o != [] {
      WithoutDropsLast(o[1..], value);
      assert (o + [Member("lifecycle", value)])[1..] == o[1..] + [Member("lifecycle", value)];
    } else {
      assert [Member("lifecycle", value)][1..] == [];
    }
  }

  lemma {:induction false} WithoutIgnoresValue(o: CaseObject, at: nat, value: Doc)
    requires at < |o| && o[at].name == "lifecycle"
    ensures WithoutLifecycle(o[at := Member("lifecycle", value)]) == WithoutLifecycle(o)
  {
    var w := o[at := Member("lifecycle", value)];
    if at > 0 {
      WithoutIgnoresValue(o[1..], at - 1, value);
      assert w[1..] == o[1..][at - 1 := Member("lifecycle", value)];
    } else {
      assert w[1..] == o[1..];
    }
  }

  /** Recording and then restoring gives the case object back exactly when it carried no lifecycle key. */
  lemma RestoreUndoesExactly(o: CaseObject, lifecycle: CaseLifecycle)
    ensures Edited(Edited(o, Some(lifecycle)), None) == o <==> Field(o, "lifecycle") == None
  {
    hide LifecycleDoc;
    var value, at := LifecycleDoc(lifecycle), FindMember(o, "lifecycle");
    NoLifecycleKept(o);
    if at < |o| {
      WithoutIgnoresValue(o, at, value);
    } else {
      WithoutDropsLast(o, value);
    }
  }

  // ---- Reading a plan off the document ----

  function Text(d: Option<Doc>): string {
    if d.Some? && d.value.Str? then d.value.chars else ""
  }

  function OptionalText(d: Option<Doc>): Option<string> {
    if d.Some? && d.value.Str? then Some(d.value.chars) else None
  }

  function Items(d: Option<Doc>): seq<Doc> {
    if d.Some? && d.value.Arr? then d.value.items else []
  }

  function Members(d: Doc): CaseObject {
    if d.Obj? then d.members else []
  }

  /** `levelOf` reads a validated level number; the rest is structural. */
  function ReadObservation(d: Doc): Observation {
    Observation(Text(Field(Members(d), "id")), Text(Field(Members(d), "expected")))
  }

  function ReadStep(d: Doc): Step {
    Step(Text(Field(Members(d), "id")), Text(Field(Members(d), "instruction")),
         MapSeq(ReadObservation, Items(Field(Members(d), "observations"))))
  }

  function ReadLifecycle(d: Doc): Option<CaseLifecycle> {
    var state := Text(Field(Members(d), "state"));
    if state == "retired" then Some(Retired(Text(Field(Members(d), "reason"))))
    else if state == "superseded" then
      Some(Superseded(Text(Field(Members(d), "replacement")), OptionalText(Field(Members(d), "reason"))))
    else None
  }

  function ItemText(d: Doc): string {
    Text(Some(d))
  }

  function ReadCase(o: CaseObject, levelOf: Option<Doc> -> nat): Case {
    var preconditions := Field(o, "preconditions");
    var lifecycle := Field(o, "lifecycle");
    Case(
      Text(Field(o, "id")),
      Text(Field(o, "title")),
      levelOf(Field(o, "level")),
      Text(Field(o, "type")),
      OptionalText(Field(o, "priority")),
      if preconditions.Some? then Some(MapSeq(ItemText, Items(preconditions))) else None,
      MapSeq(ReadStep, Items(Field(o, "steps"))),
      if lifecycle.Some? then ReadLifecycle(lifecycle.value) else None)
  }

  function ReadPlan(document: Document, levelOf: Option<Doc> -> nat): Plan {
    Plan(document.specSlug, MapSeq((o: CaseObject) => ReadCase(o, levelOf), document.cases))
  }

  lemma LifecycleReadsBack(lifecycle: CaseLifecycle)
    ensures ReadLifecycle(LifecycleDoc(lifecycle)) == Some(lifecycle)
  {
    var o := Members(LifecycleDoc(lifecycle));
    FindAnywhere(o, "state", 0);
    if lifecycle.Retired? {
      FindAnywhere(o, "reason", 1);
    } else {
      FindAnywhere(o, "replacement", 1);
      if lifecycle.why.Some? {
        FindAnywhere(o, "reason", 2);
      } else {
        assert FindMember(o, "reason") == 2;
      }
    }
  }

  /** The edited case reads as before but for its lifecycle, which reads back as recorded. */
  lemma EditReads(o: CaseObject, lifecycle: Option<CaseLifecycle>, levelOf: Option<Doc> -> nat)
    ensures ReadCase(Edited(o, lifecycle), levelOf) == ReadCase(o, levelOf).(lifecycle := lifecycle)
  {
    hide Field, Edited, LifecycleDoc, ReadLifecycle, ReadStep, MapSeq;
    forall name ensures name != "lifecycle" ==> Field(Edited(o, lifecycle), name) == Field(o, name) {
      OneKeyEdited(o, lifecycle, name);
    }
    OneKeyEdited(o, lifecycle, "lifecycle");
    if lifecycle.Some? {
      LifecycleReadsBack(lifecycle.value);
    }
  }

  // ---- The whole write ----

  function CaseIndex(cases: seq<CaseObject>, caseId: string): (index: nat)
    ensures index <= |cases|
    ensures index < |cases| ==> Field(cases[index], "id") == Some(Str(caseId))
    ensures forall i :: 0 <= i < index ==> Field(cases[i], "id") != Some(Str(caseId))
  {
    if cases == [] || Field(cases[0], "id") == Some(Str(caseId)) then 0 else 1 + CaseIndex(cases[1..], caseId)
  }

  lemma CaseIndexSettled(cases: seq<CaseObject>, caseId: string, i: nat)
    requires i < |cases| && Field(cases[i], "id") == Some(Str(caseId))
    requires forall j :: 0 <= j < i ==> Field(cases[j], "id") != Some(Str(caseId))
    ensures CaseIndex(cases, caseId) == i
  {
    hide Field;
  }

  predicate EndsInNewline(layout: Layout) {
    layout.finalNewline
  }

  /** The document after recording or clearing; the version is raised only by a recording, and only from below. */
  function EditedDocument(document: Document, caseId: string, lifecycle: Option<CaseLifecycle>, env: Env): Document
    requires CaseIndex(document.cases, caseId) < |document.cases|
  {
    var index := CaseIndex(document.cases, caseId);
    var edited := document.(cases := document.cases[index := Edited(document.cases[index], lifecycle)]);
    if lifecycle.Some? && !AtLeast(env.segments(document.schemaVersion), env.segments(TEST_CASES_SCHEMA_VERSION))
    then edited.(schemaVersion := TEST_CASES_SCHEMA_VERSION, schemaId := TEST_CASES_SCHEMA_ID)
    else edited
  }

  /** The checks in the order the source makes them, the fingerprint before anything the file says. */
  function Outcome(content: Content, caseId: string, lifecycle: Option<CaseLifecycle>, expected: string,
                   env: Env): Result<Content, WriteError> {
    if caseId == "" || expected == "" then Failure(UnsafeInput)
    else if content.Missing? then Failure(MissingCaseFile)
    else if env.fingerprint(content) != expected then Failure(Conflict(env.fingerprint(content)))
    else if content.Unusable? then Failure(MissingCaseFile)
    else if CaseIndex(content.document.cases, caseId) == |content.document.cases| then Failure(CaseNotFound)
    else Success(Usable(EditedDocument(content.document, caseId, lifecycle, env),
                        Printed(EndsInNewline(content.layout))))
  }

  /** What the caller is told: the case as written, the new fingerprint and the version now recorded. */
  datatype Report = Report(caseObject: CaseObject, fingerprint: string, schemaVersion: string)

  class CaseFile {
    const env: Env
    var content: Content

    constructor (env: Env, content: Content)
      ensures this.env == env && this.content == content
    {
      this.env, this.content := env, content;
    }

    /** A failed write leaves the file as it was; a successful one reports on the file as it now is. */
    method SetCaseLifecycle(caseId: string, lifecycle: Option<CaseLifecycle>, expected: string)
      returns (r: Result<Report, WriteError>)
      modifies this`content
      ensures match Outcome(old(content), caseId, lifecycle, expected, env)
              case Failure(e) => r == Failure(e) && content == old(content)
              case Success(next) =>
                && content == next && HasCase(content, caseId)
                && r == Success(Report(next.document.cases[CaseIndex(next.document.cases, caseId)],
                                       env.fingerprint(next), next.document.schemaVersion))
    {
      hide Edited, CaseIndex;
      if caseId == "" || expected == "" {
        return Failure(UnsafeInput);
      }
      if content.Missing? {
        return Failure(MissingCaseFile);
      }
      var actual := env.fingerprint(content);
      if actual != expected {
        return Failure(Conflict(actual));
      }
      if content.Unusable? {
        return Failure(MissingCaseFile);
      }
      var document := content.document;
      var index := CaseIndex(document.cases, caseId);
      if index == |document.cases| {
        return Failure(CaseNotFound);
      }
      document := document.(cases := document.cases[index := Edited(document.cases[index], lifecycle)]);
      if lifecycle.Some? {
        var recent := IsAtLeast(env.segments(document.schemaVersion), env.segments(TEST_CASES_SCHEMA_VERSION));
        if !recent {
          document := document.(schemaVersion := TEST_CASES_SCHEMA_VERSION);
          document := document.(schemaId := TEST_CASES_SCHEMA_ID);
        }
      }
      EditedRecord(content.document, caseId, lifecycle, env, caseId);
      assert document == EditedDocument(content.document, caseId, lifecycle, env);
      content := Usable(document, Printed(EndsInNewline(content.layout)));
      var updated := document.cases[CaseIndex(document.cases, caseId)];
      return Success(Report(updated, env.fingerprint(content), document.schemaVersion));
    }
  }

  // ---- What a write can and cannot do ----

  /** The same keys and images, place by place. */
  ghost predicate Alike<T(!new), U(!new)>(xs: seq<T>, ys: seq<T>, key: T -> string, f: T -> U) {
    && |xs| == |ys|
    && forall i :: 0 <= i < |xs| ==> key(xs[i]) == key(ys[i]) && f(xs[i]) == f(ys[i])
  }

  lemma AlikeCons<T(!new), U(!new)>(xs: seq<T>, ys: seq<T>, key: T -> string, f: T -> U)
    requires xs != [] && ys != []
    ensures Alike(xs, ys, key, f)
       <==> key(xs[0]) == key(ys[0]) && f(xs[0]) == f(ys[0]) && Alike(xs[1..], ys[1..], key, f)
  {
    if Alike(xs[1..], ys[1..], key, f) {
      assert forall i :: 0 < i < |xs| ==> xs[i] == xs[1..][i - 1] && ys[i] == ys[1..][i - 1];
    }
  }

  lemma {:induction false} InsertAlike<T(!new), U(!new)>(x: T, y: T, xs: seq<T>, ys: seq<T>,
                                                        key: T -> string, f: T -> U)
    requires key(x) == key(y) && f(x) == f(y) && Alike(xs, ys, key, f)
    ensures Alike(Insert(x, xs, key), Insert(y, ys, key), key, f)
  {
    hide Le;
    var ix, iy := Insert(x, xs, key), Insert(y, ys, key);
    if xs != [] && !Le(key(x), key(xs[0])) {
      AlikeCons(xs, ys, key, f);
      InsertAlike(x, y, xs[1..], ys[1..], key, f);
      assert ix[1..] == Insert(x, xs[1..], key) && iy[1..] == Insert(y, ys[1..], key);
    } else {
      assert ix[1..] == xs && iy[1..] == ys;
    }
    AlikeCons(ix, iy, key, f);
  }

  lemma {:induction false} SortAlike<T(!new), U(!new)>(xs: seq<T>, ys: seq<T>, key: T -> string, f: T -> U)
    requires Alike(xs, ys, key, f)
    ensures Alike(SortBy(xs, key), SortBy(ys, key), key, f)
  {
    hide Insert;
    if xs != [] {
      AlikeCons(xs, ys, key, f);
      SortAlike(xs[1..], ys[1..], key, f);
      InsertAlike(xs[0], ys[0], SortBy(xs[1..], key), SortBy(ys[1..], key), key, f);
    }
  }

  lemma LifecycleUnseen(c: Case, lifecycle: Option<CaseLifecycle>, nfc: Nfc)
    ensures ProjectCase(nfc)(c.(lifecycle := lifecycle)) == ProjectCase(nfc)(c)
    ensures CaseKey(c.(lifecycle := lifecycle)) == CaseKey(c)
  {
    hide NormalizeString, Digits, SortBy, MapSeq;
  }

  /** No lifecycle write moves the canonical text, so none makes recorded results stale. */
  lemma WriteKeepsTheText(document: Document, caseId: string, lifecycle: Option<CaseLifecycle>, env: Env,
                          levelOf: Option<Doc> -> nat, nfc: Nfc)
    requires CaseIndex(document.cases, caseId) < |document.cases|
    ensures Canonicalize(ReadPlan(EditedDocument(document, caseId, lifecycle, env), levelOf), nfc)
         == Canonicalize(ReadPlan(document, levelOf), nfc)
  {
    hide ReadCase, Edited, ProjectCase, SortBy, CaseIndex, CaseDoc;
    var before, after := ReadPlan(document, levelOf),
      ReadPlan(EditedDocument(document, caseId, lifecycle, env), levelOf);
    var index := CaseIndex(document.cases, caseId);
    forall i | 0 <= i < |document.cases|
      ensures CaseKey(before.cases[i]) == CaseKey(after.cases[i])
          && ProjectCase(nfc)(before.cases[i]) == ProjectCase(nfc)(after.cases[i])
    {
      EditReads(document.cases[index], lifecycle, levelOf);
      LifecycleUnseen(before.cases[index], lifecycle, nfc);
    }
    SortAlike(before.cases, after.cases, CaseKey, ProjectCase(nfc));
    assert ProjectPlan(before, nfc) == ProjectPlan(after, nfc);
  }

  /** Recording and then restoring a live case gives the document back, the two version fields aside. */
  lemma RestoreGivesTheDocumentBack(document: Document, caseId: string, lifecycle: CaseLifecycle, env: Env)
    requires CaseIndex(document.cases, caseId) < |document.cases|
    ensures var index := CaseIndex(document.cases, caseId);
            var recorded := EditedDocument(document, caseId, Some(lifecycle), env);
            && CaseIndex(recorded.cases, caseId) == index
            && (Field(document.cases[index], "lifecycle") == None
                <==> EditedDocument(recorded, caseId, None, env).cases == document.cases)
            && EditedDocument(recorded, caseId, None, env).schemaVersion == recorded.schemaVersion
            && EditedDocument(recorded, caseId, None, env).specSlug == document.specSlug
  {
    hide Edited, Field, LifecycleDoc;
    var index := CaseIndex(document.cases, caseId);
    var recorded := EditedDocument(document, caseId, Some(lifecycle), env);
    OneKeyEdited(document.cases[index], Some(lifecycle), "id");
    CaseIndexSettled(recorded.cases, caseId, index);
    RestoreUndoesExactly(document.cases[index], lifecycle);
  }

  /**
   A raised version is the minimum, raised only from below it. Nothing is ever lowered: no version ends
   strictly below where it was, and a numeric one ends at least there.
   */
  lemma VersionOnlyRaised(document: Document, caseId: string, lifecycle: Option<CaseLifecycle>, env: Env)
    requires CaseIndex(document.cases, caseId) < |document.cases|
    ensures var after := EditedDocument(document, caseId, lifecycle, env);
            var minimum := env.segments(TEST_CASES_SCHEMA_VERSION);
            var was, now := env.segments(document.schemaVersion), env.segments(after.schemaVersion);
            && (lifecycle.None? ==> after.schemaVersion == document.schemaVersion)
            && (AtLeast(was, minimum) ==> after.schemaVersion == document.schemaVersion)
            && (lifecycle.Some? && !AtLeast(was, minimum)
                ==> && after.schemaVersion == "1.2.0"
                    && after.schemaId == "https://roubo.dev/schema/testbench/test-cases/v1.2.0.json")
            && (lifecycle.None? || AtLeast(was, minimum) ==> after.schemaId == document.schemaId)
            && (AtLeast(was, now) ==> was == now || AtLeast(now, was))
            && (Numeric(was) && Numeric(minimum) ==> AtLeast(now, was))
  {
    hide CaseIndex, Edited, AtLeast;
    var was, minimum := env.segments(document.schemaVersion), env.segments(TEST_CASES_SCHEMA_VERSION);
    if Numeric(was) && Numeric(minimum) {
      AtLeastTotal(was, minimum);
    }
  }

  // ---- Clients that do not know of each other ----

  datatype Event =
    | External(content: Content)
    | Attempt(seen: Content, caseId: string, lifecycle: Option<CaseLifecycle>)

  ghost predicate InjectiveFingerprint(env: Env) {
    forall a, b :: env.fingerprint(a) == env.fingerprint(b) ==> a == b
  }

  function After(content: Content, e: Event, env: Env): Content {
    match e
    case External(next) => next
    case Attempt(seen, caseId, lifecycle) =>
      var outcome := Outcome(content, caseId, lifecycle, env.fingerprint(seen), env);
      if outcome.Success? then outcome.value else content
  }

  function History(content: Content, events: seq<Event>, env: Env): Content {
    if events == [] then content
    else After(History(content, events[..|events| - 1], env), events[|events| - 1], env)
  }

  predicate HasCase(content: Content, id: string) {
    content.Usable? && CaseIndex(content.document.cases, id) < |content.document.cases|
  }

  predicate Accepts(content: Content, e: Event, env: Env) {
    e.Attempt? && Outcome(content, e.caseId, e.lifecycle, env.fingerprint(e.seen), env).Success?
  }

  /**
   An attempt is accepted exactly when the file is what that client was shown and holds the case; it then
   leaves its own edit of that very document, and otherwise nothing changes.
   */
  lemma AcceptedExactly(now: Content, e: Event, env: Env)
    requires InjectiveFingerprint(env) && e.Attempt?
    ensures Accepts(now, e, env)
       <==> e.caseId != "" && env.fingerprint(e.seen) != "" && now == e.seen && HasCase(e.seen, e.caseId)
    ensures Accepts(now, e, env) && now.Usable? && After(now, e, env).Usable?
            ==> After(now, e, env).layout.Printed? && After(now, e, env).layout.finalNewline == now.layout.finalNewline
    ensures After(now, e, env)
         == if Accepts(now, e, env)
            then Usable(EditedDocument(e.seen.document, e.caseId, e.lifecycle, env),
                        Printed(EndsInNewline(e.seen.layout)))
            else now
  {
    hide EditedDocument, CaseIndex;
  }

  /** A refused write names the first thing wrong: inputs, file, fingerprint, the file's contents, the case. */
  lemma RefusedPlainly(now: Content, caseId: string, lifecycle: Option<CaseLifecycle>, expected: string, env: Env)
    ensures var outcome := Outcome(now, caseId, lifecycle, expected, env);
            && (outcome == Failure(UnsafeInput) <==> caseId == "" || expected == "")
            && (caseId != "" && expected != "" ==>
                  && (outcome == Failure(Conflict(env.fingerprint(now)))
                      <==> !now.Missing? && env.fingerprint(now) != expected)
                  && (outcome == Failure(MissingCaseFile)
                      <==> now.Missing? || (now.Unusable? && env.fingerprint(now) == expected))
                  && (outcome == Failure(CaseNotFound)
                      <==> && now.Usable? && env.fingerprint(now) == expected
                           && forall i :: 0 <= i < |now.document.cases|
                                ==> Field(now.document.cases[i], "id") != Some(Str(caseId))))
  {
    hide EditedDocument, Field;
  }

  /** Every other key of the edited case stands in its order; a lifecycle key stays where it was, or goes last. */
  lemma OthersKeepTheirOrder(o: CaseObject, lifecycle: CaseLifecycle, i: nat)
    requires i < |o|
    ensures var now := Edited(o, Some(lifecycle));
            && |o| <= |now| <= |o| + 1
            && now[i].name == o[i].name && (o[i].name != "lifecycle" ==> now[i] == o[i])
            && (|now| > |o| <==> forall j :: 0 <= j < |o| ==> o[j].name != "lifecycle")
            && (|now| > |o| ==> now[|o|].name == "lifecycle")
  {
    hide LifecycleDoc;
  }

  /** Clearing leaves the other keys in their order. */
  lemma {:induction false} ClearedKeepsTheOrder(before: CaseObject, after: CaseObject)
    ensures WithoutLifecycle(before + after) == WithoutLifecycle(before) + WithoutLifecycle(after)
  {
    if before == [] {
      assert before + after == after;
    } else {
      var first := if before[0].name == "lifecycle" then [] else [before[0]];
      assert (before + after)[1..] == before[1..] + after;
      assert WithoutLifecycle(before + after) == first + WithoutLifecycle(before[1..] + after);
      assert WithoutLifecycle(before) == first + WithoutLifecycle(before[1..]);
      ClearedKeepsTheOrder(before[1..], after);
    }
  }

  lemma ClearedOne(m: Member)
    ensures WithoutLifecycle([m]) == if m.name == "lifecycle" then [] else [m]
  {
    assert [m][1..] == [];
  }

  /** What one accepted edit does to every case's record. */
  function RecordOf(document: Document, id: string): Option<Doc> {
    var index := CaseIndex(document.cases, id);
    if index < |document.cases| then Field(document.cases[index], "lifecycle") else None
  }

  function RecordDoc(lifecycle: Option<CaseLifecycle>): Option<Doc> {
    if lifecycle.Some? then Some(LifecycleDoc(lifecycle.value)) else None
  }

  lemma EditedRecord(document: Document, caseId: string, lifecycle: Option<CaseLifecycle>, env: Env, id: string)
    requires CaseIndex(document.cases, caseId) < |document.cases|
    ensures var after := EditedDocument(document, caseId, lifecycle, env);
            && |after.cases| == |document.cases|
            && CaseIndex(after.cases, id) == CaseIndex(document.cases, id)
            && RecordOf(after, id) == if id == caseId then RecordDoc(lifecycle) else RecordOf(document, id)
  {
    hide Edited, Field, LifecycleDoc, AtLeast;
    var index, at := CaseIndex(document.cases, caseId), CaseIndex(document.cases, id);
    var after := EditedDocument(document, caseId, lifecycle, env);
    OneKeyEdited(document.cases[index], lifecycle, "id");
    OneKeyEdited(document.cases[index], lifecycle, "lifecycle");
    assert forall i :: 0 <= i < |after.cases| ==> Field(after.cases[i], "id") == Field(document.cases[i], "id");
    if at < |document.cases| {
      CaseIndexSettled(after.cases, id, at);
    }
  }

  // ---- Whole histories ----

  datatype Edit = Edit(caseId: string, lifecycle: Option<CaseLifecycle>)

  /** The last content put there from outside, or the first of all, and the edits accepted since, in order. */
  function Since(start: Content, events: seq<Event>, env: Env): (r: (Content, seq<Edit>)) {
    if events == [] then (start, [])
    else
      var n := |events| - 1;
      var (base, edits) := Since(start, events[..n], env);
      match events[n]
      case External(next) => (next, [])
      case Attempt(_, caseId, lifecycle) =>
        if Accepts(History(start, events[..n], env), events[n], env) then (base, edits + [Edit(caseId, lifecycle)])
        else (base, edits)
  }

  function Fold(document: Document, edits: seq<Edit>, env: Env): Document {
    if edits == [] then document
    else
      var n := |edits| - 1;
      var before := Fold(document, edits[..n], env);
      if CaseIndex(before.cases, edits[n].caseId) < |before.cases|
      then EditedDocument(before, edits[n].caseId, edits[n].lifecycle, env)
      else before
  }

  lemma FoldNext(document: Document, edits: seq<Edit>, e: Edit, env: Env)
    ensures var before := Fold(document, edits, env);
            Fold(document, edits + [e], env)
            == if CaseIndex(before.cases, e.caseId) < |before.cases|
               then EditedDocument(before, e.caseId, e.lifecycle, env)
               else before
  {
    hide CaseIndex, EditedDocument;
    assert (edits + [e])[..|edits|] == edits;
  }

  /**
   Over any history, the file is the last outside content with every edit accepted since applied in turn,
   each to what the one before it left: no accepted record is overwritten.
   */
  lemma {:induction false} HistoryIsItsEdits(start: Content, events: seq<Event>, env: Env)
    requires InjectiveFingerprint(env)
    ensures var (base, edits) := Since(start, events, env);
            var now := History(start, events, env);
            if edits == [] then now == base
            else && base.Usable? && now == Usable(Fold(base.document, edits, env), Printed(EndsInNewline(base.layout)))
                 && forall e :: e in edits ==> HasCase(base, e.caseId)
  {
    hide EditedDocument, CaseIndex, Fold, Outcome, InjectiveFingerprint;
    if events != [] {
      var n := |events| - 1;
      HistoryIsItsEdits(start, events[..n], env);
      var (base, edits) := Since(start, events[..n], env);
      var before := History(start, events[..n], env);
      if events[n].Attempt? {
        AcceptedExactly(before, events[n], env);
        if Accepts(before, events[n], env) {
          var e := Edit(events[n].caseId, events[n].lifecycle);
          FoldNothing(before.document, env);
          FoldNext(base.document, edits, e, env);
          FoldKeepsCases(base.document, edits, env, e.caseId);
        }
      }
    }
  }

  lemma FoldNothing(document: Document, env: Env)
    ensures Fold(document, [], env) == document
  {
  }

  lemma {:induction false} FoldKeepsCases(document: Document, edits: seq<Edit>, env: Env, id: string)
    ensures var after := Fold(document, edits, env);
            |after.cases| == |document.cases| && CaseIndex(after.cases, id) == CaseIndex(document.cases, id)
  {
    hide EditedDocument, CaseIndex, RecordOf;
    if edits != [] {
      var n := |edits| - 1;
      FoldKeepsCases(document, edits[..n], env, id);
      var before := Fold(document, edits[..n], env);
      if CaseIndex(before.cases, edits[n].caseId) < |before.cases| {
        EditedRecord(before, edits[n].caseId, edits[n].lifecycle, env, id);
      }
    }
  }

  /** The record the last of the edits to name the case left, or the one it started with. */
  function LastRecord(edits: seq<Edit>, id: string, initial: Option<Doc>): Option<Doc> {
    if edits == [] then initial
    else
      var n := |edits| - 1;
      if edits[n].caseId == id then RecordDoc(edits[n].lifecycle) else LastRecord(edits[..n], id, initial)
  }

  lemma {:induction false} FoldRecords(document: Document, edits: seq<Edit>, env: Env, id: string)
    requires forall e :: e in edits ==> CaseIndex(document.cases, e.caseId) < |document.cases|
    ensures RecordOf(Fold(document, edits, env), id) == LastRecord(edits, id, RecordOf(document, id))
  {
    hide EditedDocument, CaseIndex, RecordOf, RecordDoc;
    if edits != [] {
      var n := |edits| - 1;
      FoldRecords(document, edits[..n], env, id);
      assert edits[n] in edits;
      FoldKeepsCases(document, edits[..n], env, edits[n].caseId);
      EditedRecord(Fold(document, edits[..n], env), edits[n].caseId, edits[n].lifecycle, env, id);
    }
  }

  /** Over any history, each case carries the record of the last accepted edit since the last outside change. */
  lemma HistoryRecords(start: Content, events: seq<Event>, env: Env, id: string)
    requires InjectiveFingerprint(env)
    ensures var (base, edits) := Since(start, events, env);
            var now := History(start, events, env);
            && (base.Usable? <==> now.Usable?)
            && (now.Usable? ==> && (HasCase(now, id) <==> HasCase(base, id))
                                && RecordOf(now.document, id) == LastRecord(edits, id, RecordOf(base.document, id)))
  {
    hide CaseIndex, RecordOf, RecordDoc, Fold, History, Since, InjectiveFingerprint;
    HistoryIsItsEdits(start, events, env);
    var (base, edits) := Since(start, events, env);
    if edits != [] {
      FoldRecords(base.document, edits, env, id);
      FoldKeepsCases(base.document, edits, env, id);
    }
  }

  lemma {:induction false} FoldKeepsTheText(document: Document, edits: seq<Edit>, env: Env,
                                            levelOf: Option<Doc> -> nat, nfc: Nfc)
    ensures Canonicalize(ReadPlan(Fold(document, edits, env), levelOf), nfc)
        == Canonicalize(ReadPlan(document, levelOf), nfc)
  {
    hide EditedDocument, CaseIndex, Canonicalize, ReadPlan;
    if edits != [] {
      var n := |edits| - 1;
      FoldKeepsTheText(document, edits[..n], env, levelOf, nfc);
      var before := Fold(document, edits[..n], env);
      if CaseIndex(before.cases, edits[n].caseId) < |before.cases| {
        WriteKeepsTheText(before, edits[n].caseId, edits[n].lifecycle, env, levelOf, nfc);
      }
    }
  }

  /** Only an outside change ever moves the canonical text. */
  lemma HistoryKeepsTheText(start: Content, events: seq<Event>, env: Env, levelOf: Option<Doc> -> nat, nfc: Nfc)
    requires InjectiveFingerprint(env) && History(start, events, env).Usable?
    ensures var base := Since(start, events, env).0;
            && base.Usable?
            && Canonicalize(ReadPlan(History(start, events, env).document, levelOf), nfc)
               == Canonicalize(ReadPlan(base.document, levelOf), nfc)
  {
    hide CaseIndex, Canonicalize, ReadPlan, Fold, History, Since, InjectiveFingerprint;
    HistoryIsItsEdits(start, events, env);
    var (base, edits) := Since(start, events, env);
    if base.Usable? {
      FoldKeepsTheText(base.document, edits, env, levelOf, nfc);
    }
  }

  /** With no outside change, the base is where the history began. */
  lemma {:induction false} UndisturbedSinceStart(start: Content, events: seq<Event>, env: Env)
    requires forall e :: e in events ==> e.Attempt?
    ensures Since(start, events, env).0 == start
  {
    hide Accepts, History;
    if events != [] {
      var n := |events| - 1;
      assert events[n] in events;
      UndisturbedSinceStart(start, events[..n], env);
    }
  }

  /** The file shows this record on the case. */
  ghost predicate Shows(content: Content, id: string, record: Option<Doc>) {
    HasCase(content, id) && RecordOf(content.document, id) == record
  }

  /** No later event edits the case, and whatever is put there from outside still shows the record. */
  ghost predicate Spares(events: seq<Event>, from: nat, id: string, record: Option<Doc>) {
    forall k :: from <= k < |events| ==>
      match events[k]
      case External(next) => Shows(next, id, record)
      case Attempt(_, caseId, _) => caseId != id
  }

  /** An accepted record stands, across outside changes too, until its case is edited again or a change drops it. */
  lemma {:induction false} RecordStands(start: Content, events: seq<Event>, k: nat, env: Env)
    requires InjectiveFingerprint(env) && k < |events|
    requires Accepts(History(start, events[..k], env), events[k], env)
    requires Spares(events, k + 1, events[k].caseId, RecordDoc(events[k].lifecycle))
    ensures Shows(History(start, events, env), events[k].caseId, RecordDoc(events[k].lifecycle))
    decreases |events|
  {
    hide EditedDocument, CaseIndex, RecordOf, RecordDoc, Outcome, InjectiveFingerprint;
    var n, id, record := |events| - 1, events[k].caseId, RecordDoc(events[k].lifecycle);
    var before, last := History(start, events[..n], env), events[n];
    if last.Attempt? {
      AcceptedExactly(before, last, env);
      if Accepts(before, last, env) {
        EditedRecord(before.document, last.caseId, last.lifecycle, env, id);
      }
    }
    if k < n {
      assert events[..n][..k] == events[..k];
      assert Spares(events[..n], k + 1, id, record);
      RecordStands(start, events[..n], k, env);
    }
  }

  /** Of two writes prepared from the same view, the second is a conflict once the first changed the file. */
  lemma SecondWriterConflicts(seen: Content, first: Event, caseId: string, lifecycle: Option<CaseLifecycle>, env: Env)
    requires InjectiveFingerprint(env) && seen.Usable? && caseId != "" && env.fingerprint(seen) != ""
    requires After(seen, first, env) != seen && !After(seen, first, env).Missing?
    ensures var now := After(seen, first, env);
            Outcome(now, caseId, lifecycle, env.fingerprint(seen), env) == Failure(Conflict(env.fingerprint(now)))
  {
    hide After, EditedDocument, CaseIndex;
  }
}
