/**
 The canonical text of a plan (shared/testbench-canonicalize.ts) and what it forgets: case, step and
 observation order, whitespace shape, and whether an empty precondition list was written down.
 Unicode NFC is the parameter `nfc`, applied before the whitespace rules.
 */
module Canonical {
  import opened Wrappers
  import opened Strings
  import opened Contracts
  import opened JsonText

  // ---- Whitespace ----

  /** The characters `\s` and `trim` agree on. */
  predicate IsSpace(c: char) {
    || 9 <= c as int <= 13 || c == ' ' || c as int == 0xA0 || c as int == 0x1680 || 0x2000 <= c as int <= 0x200A
    || c as int in {0x2028, 0x2029, 0x202F, 0x205F, 0x3000, 0xFEFF}
  }

  /** CRLF and lone CR become LF. */
  function LineEnds(s: string): string {
    if s == "" then ""
    else if s[0] != '\r' then [s[0]] + LineEnds(s[1..])
    else "\n" + LineEnds(if |s| > 1 && s[1] == '\n' then s[2..] else s[1..])
  }

  function TrimStart(s: string): (r: string)
    ensures |r| <= |s|
    ensures r == "" || !IsSpace(r[0])
  {
    if s != "" && IsSpace(s[0]) then TrimStart(s[1..]) else s
  }

  function TrimEnd(s: string): (r: string)
    ensures r == "" || !IsSpace(r[|r| - 1])
  {
    if s != "" && IsSpace(s[|s| - 1]) then TrimEnd(s[..|s| - 1]) else s
  }

  /** Each run of whitespace becomes one space. */
  function Collapse(s: string): string
    decreases |s|
  {
    if s == "" then ""
    else if IsSpace(s[0]) then
      " " + Collapse(TrimStart(s[1..]))
    else
      [s[0]] + Collapse(s[1..])
  }

  function Squeeze(s: string): string {
    Collapse(TrimEnd(TrimStart(LineEnds(s))))
  }

  function NormalizeString(value: string, nfc: string -> string): string {
    Squeeze(nfc(value))
  }

  /** The maximal runs of non-space characters, in order. */
  function Words(s: string): (words: seq<string>)
    ensures s != "" && !IsSpace(s[0]) ==> words != []
  {
    if s == "" then []
    else if IsSpace(s[0]) then Words(s[1..])
    else if |s| == 1 || IsSpace(s[1]) then [[s[0]]] + Words(s[1..])
    else
      var rest := Words(s[1..]);
      [[s[0]] + rest[0]] + rest[1..]
  }

  lemma {:induction false} WordsLineEnds(s: string)
    ensures Words(LineEnds(s)) == Words(s)
    ensures s != "" ==> LineEnds(s) != "" && (IsSpace(LineEnds(s)[0]) <==> IsSpace(s[0]))
  {
    if s == "" {
    } else if s[0] != '\r' {
      WordsLineEnds(s[1..]);
      var t := LineEnds(s);
      assert t[1..] == LineEnds(s[1..]);
    } else {
      var rest := if |s| > 1 && s[1] == '\n' then s[2..] else s[1..];
      WordsLineEnds(rest);
      assert LineEnds(s)[1..] == LineEnds(rest);
      assert |s| > 1 && s[1] == '\n' ==> Words(s) == Words(s[1..]) == Words(s[1..][1..]) && s[1..][1..] == s[2..];
    }
  }

  lemma {:induction false} WordsTrimStart(s: string)
    ensures Words(TrimStart(s)) == Words(s)
  {
    if s != "" && IsSpace(s[0]) {
      WordsTrimStart(s[1..]);
    }
  }

  lemma {:induction false} WordsDropLast(s: string)
    requires s != "" && IsSpace(s[|s| - 1])
    ensures Words(s[..|s| - 1]) == Words(s)
  {
    if |s| > 1 {
      WordsDropLast(s[1..]);
      assert s[1..][..|s| - 2] == s[..|s| - 1][1..];
    }
  }

  lemma {:induction false} WordsTrimEnd(s: string)
    ensures Words(TrimEnd(s)) == Words(s)
  {
    if s != "" && IsSpace(s[|s| - 1]) {
      WordsTrimEnd(s[..|s| - 1]);
      WordsDropLast(s);
    }
  }

  lemma JoinCons(w: string, rest: seq<string>)
    ensures Join([w] + rest, " ") == if rest == [] then w else w + " " + Join(rest, " ")
  {
    assert ([w] + rest)[1..] == rest;
  }

  lemma JoinGrow(c: char, words: seq<string>)
    requires words != []
    ensures Join([[c] + words[0]] + words[1..], " ") == [c] + Join(words, " ")
  {
    JoinCons([c] + words[0], words[1..]);
    JoinCons(words[0], words[1..]);
    assert [words[0]] + words[1..] == words;
  }

  /** Putting a non-space character in front either starts a word or grows the first one. */
  lemma JoinFront(s: string)
    requires s != "" && !IsSpace(s[0]) && !IsSpace(s[|s| - 1])
    ensures Join(Words(s), " ")
         == [s[0]] + (if |s| > 1 && IsSpace(s[1]) then " " else "") + Join(Words(s[1..]), " ")
  {
    hide Join, IsSpace;
    JoinNothing();
    if |s| == 1 {
      assert s[1..] == "";
      JoinCons([s[0]], []);
      assert Words(s) == [[s[0]]];
    } else if IsSpace(s[1]) {
      SpaceThenWord(s[1..]);
      JoinCons([s[0]], Words(s[1..]));
      assert Words(s) == [[s[0]]] + Words(s[1..]);
    } else {
      JoinGrow(s[0], Words(s[1..]));
    }
  }

  lemma CollapseStep(s: string)
    ensures s == "" ==> Collapse(s) == "" && Words(s) == []
    ensures s != "" && IsSpace(s[0]) ==> Collapse(s) == " " + Collapse(TrimStart(s[1..])) && Words(s) == Words(s[1..])
    ensures s != "" && !IsSpace(s[0]) ==> Collapse(s) == [s[0]] + Collapse(s[1..])
  {
  }

  lemma {:induction false} CollapseIsWords(s: string)
    requires s == "" || !IsSpace(s[|s| - 1])
    ensures Collapse(s) == (if s != "" && IsSpace(s[0]) then " " else "") + Join(Words(s), " ")
    decreases |s|
  {
    hide Join, IsSpace, Words, Collapse, TrimStart;
    CollapseStep(s);
    if s == "" {
      JoinNothing();
    } else if IsSpace(s[0]) {
      TrimStartKeepsEnd(s[1..]);
      WordsTrimStart(s[1..]);
      CollapseIsWords(TrimStart(s[1..]));
    } else {
      CollapseIsWords(s[1..]);
      JoinFront(s);
    }
  }

  lemma JoinNothing()
    ensures Join([], " ") == ""
  {
  }

  lemma {:induction false} TrimStartKeepsEnd(s: string)
    requires s != "" && !IsSpace(s[|s| - 1])
    ensures TrimStart(s) != "" && TrimStart(s)[|TrimStart(s)| - 1] == s[|s| - 1]
  {
    if IsSpace(s[0]) {
      TrimStartKeepsEnd(s[1..]);
    }
  }

  lemma {:induction false} SpaceThenWord(s: string)
    requires s != "" && !IsSpace(s[|s| - 1])
    ensures Words(s) != []
  {
    if IsSpace(s[0]) {
      SpaceThenWord(s[1..]);
    }
  }

  /** Normalising is exactly keeping the words and joining them with single spaces. */
  lemma SqueezeIsWords(s: string)
    ensures Squeeze(s) == Join(Words(s), " ")
  {
    hide IsSpace, Words, Join, LineEnds, TrimStart, TrimEnd, Collapse;
    var t := LineEnds(s);
    WordsLineEnds(s);
    WordsTrimStart(t);
    WordsTrimEnd(TrimStart(t));
    var u := TrimEnd(TrimStart(t));
    TrimEndKeepsStart(TrimStart(t));
    CollapseIsWords(u);
  }

  lemma {:induction false} TrimEndKeepsStart(s: string)
    requires s == "" || !IsSpace(s[0])
    ensures TrimEnd(s) == "" || !IsSpace(TrimEnd(s)[0])
  {
    if s != "" && IsSpace(s[|s| - 1]) {
      TrimEndKeepsStart(s[..|s| - 1]);
    }
  }

  predicate IsWord(w: string) {
    w != "" && forall c :: c in w ==> !IsSpace(c)
  }

  lemma {:induction false} WordsAreWords(s: string)
    ensures forall w :: w in Words(s) ==> IsWord(w)
  {
    hide IsSpace;
    if s != "" {
      var rest := Words(s[1..]);
      WordsAreWords(s[1..]);
      if !IsSpace(s[0]) && |s| > 1 && !IsSpace(s[1]) {
        assert rest[0] in rest;
        forall c | c in [s[0]] + rest[0] ensures !IsSpace(c) {
          assert c == s[0] || c in rest[0];
        }
        assert forall w :: w in rest[1..] ==> w in rest;
      }
    }
  }

  lemma {:induction false} WordsOfWordThen(w: string, rest: string)
    requires IsWord(w) && (rest == "" || IsSpace(rest[0]))
    ensures Words(w + rest) == [w] + Words(rest)
  {
    var s := w + rest;
    assert s[0] == w[0] && w[0] in w;
    assert s[1..] == w[1..] + rest;
    if |w| == 1 {
      assert s[1..] == rest;
      assert w == [w[0]];
    } else {
      assert s[1] == w[1] && w[1] in w;
      WordsOfWordThen(w[1..], rest);
      assert w == [w[0]] + w[1..];
    }
  }

  lemma {:induction false} WordsOfJoin(words: seq<string>)
    requires forall w :: w in words ==> IsWord(w)
    ensures Words(Join(words, " ")) == words
  {
    if |words| == 1 {
      assert words[0] + "" == words[0];
      WordsOfWordThen(words[0], "");
      assert words == [words[0]];
    } else if words != [] {
      var rest := " " + Join(words[1..], " ");
      WordsOfWordThen(words[0], rest);
      assert Join(words, " ") == words[0] + rest;
      assert rest[1..] == Join(words[1..], " ");
      WordsOfJoin(words[1..]);
    }
  }

  /** Two strings normalise alike exactly when they have the same words; normalising again changes nothing. */
  lemma SqueezedAlike(a: string, b: string)
    ensures Squeeze(a) == Squeeze(b) <==> Words(a) == Words(b)
    ensures Squeeze(Squeeze(a)) == Squeeze(a)
  {
    hide Squeeze, Words, Join;
    SqueezeIsWords(a);
    SqueezeIsWords(b);
    WordsAreWords(a);
    WordsAreWords(b);
    WordsOfJoin(Words(a));
    WordsOfJoin(Words(b));
    SqueezeIsWords(Squeeze(a));
  }

  // ---- Projection ----

  datatype ProjectedObservation = ProjectedObservation(id: string, expected: string)

  datatype ProjectedStep = ProjectedStep(id: string, instruction: string, observations: seq<ProjectedObservation>)

  /** An empty `preconditions` stands for an omitted key. */
  datatype ProjectedCase = ProjectedCase(
    id: string,
    title: string,
    level: string,
    priority: Option<string>,
    preconditions: seq<string>,
    steps: seq<ProjectedStep>)

  type Nfc = string -> string

  function MapSeq<T, U>(f: T -> U, xs: seq<T>): (r: seq<U>)
    ensures |r| == |xs| && forall i :: 0 <= i < |xs| ==> r[i] == f(xs[i])
  {
    seq(|xs|, i requires 0 <= i < |xs| => f(xs[i]))
  }

  function Digits(n: nat): string {
    if n < 10 then ["0123456789"[n]] else Digits(n / 10) + ["0123456789"[n % 10]]
  }

  function ObservationKey(o: Observation): string { o.id }

  function StepKey(s: Step): string { s.id }

  function CaseKey(c: Case): string { c.id }

  function ProjectObservation(nfc: Nfc): Observation -> ProjectedObservation {
    (o: Observation) => ProjectedObservation(o.id, NormalizeString(o.expected, nfc))
  }

  function ProjectStep(nfc: Nfc): Step -> ProjectedStep {
    (s: Step) => ProjectedStep(s.id, NormalizeString(s.instruction, nfc),
                               MapSeq(ProjectObservation(nfc), SortBy(s.observations, ObservationKey)))
  }

  function ProjectCase(nfc: Nfc): Case -> ProjectedCase {
    (c: Case) => ProjectedCase(
      c.id,
      NormalizeString(c.title, nfc),
      NormalizeString(Digits(c.level), nfc),
      if c.priority.Some? then Some(NormalizeString(c.priority.value, nfc)) else None,
      if c.preconditions.Some? then MapSeq((p: string) => NormalizeString(p, nfc), c.preconditions.value) else [],
      MapSeq(ProjectStep(nfc), SortBy(c.steps, StepKey)))
  }

  function ProjectPlan(plan: Plan, nfc: Nfc): seq<ProjectedCase> {
    MapSeq(ProjectCase(nfc), SortBy(plan.cases, CaseKey))
  }

  // ---- The canonical text, in fixed key order ----

  function ObservationDoc(o: ProjectedObservation): Doc {
    Obj([Member("id", Str(o.id)), Member("expected", Str(o.expected))])
  }

  function StepDoc(s: ProjectedStep): Doc {
    Obj([Member("id", Str(s.id)), Member("instruction", Str(s.instruction)),
         Member("observations", Arr(MapSeq(ObservationDoc, s.observations)))])
  }

  function StrDoc(s: string): Doc { Str(s) }

  function CaseDoc(c: ProjectedCase): Doc {
    Obj([Member("id", Str(c.id)), Member("title", Str(c.title)), Member("level", Str(c.level))]
        + (if c.priority.Some? then [Member("priority", Str(c.priority.value))] else [])
        + (if c.preconditions != [] then [Member("preconditions", Arr(MapSeq(StrDoc, c.preconditions)))] else [])
        + [Member("steps", Arr(MapSeq(StepDoc, c.steps)))])
  }

  function CanonicalizeCase(c: Case, nfc: Nfc): string {
    Print(CaseDoc(ProjectCase(nfc)(c)))
  }

  function Canonicalize(plan: Plan, nfc: Nfc): string {
    Print(Obj([Member("cases", Arr(MapSeq(CaseDoc, ProjectPlan(plan, nfc))))]))
  }

  // ---- Equal texts, equal projections ----

  lemma MapInjective<T(!new), U(!new)>(f: T -> U, xs: seq<T>, ys: seq<T>)
    requires forall x, y :: x in xs && y in ys && f(x) == f(y) ==> x == y
    ensures MapSeq(f, xs) == MapSeq(f, ys) <==> xs == ys
  {
    if MapSeq(f, xs) == MapSeq(f, ys) {
      forall i | 0 <= i < |xs| ensures xs[i] == ys[i] {
        assert MapSeq(f, xs)[i] == MapSeq(f, ys)[i];
        assert xs[i] in xs && ys[i] in ys;
      }
    }
  }

  lemma ObservationDocInjective(a: ProjectedObservation, b: ProjectedObservation)
    ensures ObservationDoc(a) == ObservationDoc(b) ==> a == b
  {
    assert ObservationDoc(a) == ObservationDoc(b)
           ==> ObservationDoc(a).members[0] == ObservationDoc(b).members[0]
               && ObservationDoc(a).members[1] == ObservationDoc(b).members[1];
  }

  lemma StepDocInjective(a: ProjectedStep, b: ProjectedStep)
    ensures StepDoc(a) == StepDoc(b) ==> a == b
  {
    if StepDoc(a) == StepDoc(b) {
      assert StepDoc(a).members[0] == StepDoc(b).members[0] && StepDoc(a).members[1] == StepDoc(b).members[1]
          && StepDoc(a).members[2] == StepDoc(b).members[2];
      forall x, y | x in a.observations && y in b.observations && ObservationDoc(x) == ObservationDoc(y)
        ensures x == y {
        ObservationDocInjective(x, y);
      }
      MapInjective(ObservationDoc, a.observations, b.observations);
    }
  }

  lemma CaseDocInjective(a: ProjectedCase, b: ProjectedCase)
    ensures CaseDoc(a) == CaseDoc(b) ==> a == b
  {
    hide StepDoc;
    if CaseDoc(a) == CaseDoc(b) {
      var ma, mb := CaseDoc(a).members, CaseDoc(b).members;
      assert ma[0] == mb[0] && ma[1] == mb[1] && ma[2] == mb[2] && ma[3] == mb[3];
      var p := if a.priority.Some? then 4 else 3;
      assert ma[p] == mb[p];
      assert ma[|ma| - 1] == mb[|mb| - 1];
      MapInjective(StrDoc, a.preconditions, b.preconditions);
      forall x, y | x in a.steps && y in b.steps && StepDoc(x) == StepDoc(y) ensures x == y {
        StepDocInjective(x, y);
      }
      MapInjective(StepDoc, a.steps, b.steps);
    }
  }

  /** A case's canonical text is equal exactly when its projection is. */
  lemma CaseTextExact(a: Case, b: Case, nfc: Nfc)
    ensures CanonicalizeCase(a, nfc) == CanonicalizeCase(b, nfc) <==> ProjectCase(nfc)(a) == ProjectCase(nfc)(b)
  {
    hide Print, CaseDoc, ProjectCase;
    PrintInjective(CaseDoc(ProjectCase(nfc)(a)), CaseDoc(ProjectCase(nfc)(b)));
    CaseDocInjective(ProjectCase(nfc)(a), ProjectCase(nfc)(b));
  }

  lemma PlanTextExact(p: Plan, q: Plan, nfc: Nfc)
    ensures Canonicalize(p, nfc) == Canonicalize(q, nfc) <==> ProjectPlan(p, nfc) == ProjectPlan(q, nfc)
  {
    hide Print, CaseDoc, ProjectPlan;
    var ps, qs := ProjectPlan(p, nfc), ProjectPlan(q, nfc);
    var dp, dq := Obj([Member("cases", Arr(MapSeq(CaseDoc, ps)))]), Obj([Member("cases", Arr(MapSeq(CaseDoc, qs)))]);
    PrintInjective(dp, dq);
    assert dp == dq ==> dp.members[0] == dq.members[0];
    forall x, y | x in ps && y in qs && CaseDoc(x) == CaseDoc(y) ensures x == y {
      CaseDocInjective(x, y);
    }
    MapInjective(CaseDoc, ps, qs);
  }

  // ---- What the text remembers ----

  datatype Said = Said(id: string, words: seq<string>)

  datatype StepBody = StepBody(id: string, instruction: seq<string>, observations: set<Said>)

  /** A case with its order, spacing and the shape of an empty precondition list forgotten. */
  datatype CaseBody = CaseBody(
    id: string,
    title: seq<string>,
    level: seq<string>,
    priority: Option<seq<string>>,
    preconditions: seq<seq<string>>,
    steps: set<StepBody>)

  ghost function Image<T(!new), U(!new)>(f: T -> U, xs: seq<T>): set<U> {
    set x | x in xs :: f(x)
  }

  ghost function WordsIn(text: string, nfc: Nfc): seq<string> {
    Words(nfc(text))
  }

  ghost function SaidBy(nfc: Nfc): Observation -> Said {
    (o: Observation) => Said(o.id, WordsIn(o.expected, nfc))
  }

  ghost function BodyOfStep(nfc: Nfc): Step -> StepBody {
    (s: Step) => StepBody(s.id, WordsIn(s.instruction, nfc), Image(SaidBy(nfc), s.observations))
  }

  ghost function BodyOfCase(nfc: Nfc): Case -> CaseBody {
    (c: Case) => CaseBody(
      c.id,
      WordsIn(c.title, nfc),
      WordsIn(Digits(c.level), nfc),
      if c.priority.Some? then Some(WordsIn(c.priority.value, nfc)) else None,
      if c.preconditions.Some? then MapSeq((p: string) => WordsIn(p, nfc), c.preconditions.value) else [],
      Image(BodyOfStep(nfc), c.steps))
  }

  ghost function BodyOfPlan(plan: Plan, nfc: Nfc): set<CaseBody> {
    Image(BodyOfCase(nfc), plan.cases)
  }

  ghost predicate DistinctInside(c: Case) {
    && DistinctKeys(c.steps, StepKey)
    && forall s :: s in c.steps ==> DistinctKeys(s.observations, ObservationKey)
  }

  ghost predicate DistinctThroughout(plan: Plan) {
    DistinctKeys(plan.cases, CaseKey) && forall c :: c in plan.cases ==> DistinctInside(c)
  }

  ghost predicate Matched<T(!new), U(!new)>(xs: seq<T>, ys: seq<T>, f: T -> U) {
    && (forall x :: x in xs ==> exists y :: y in ys && f(x) == f(y))
    && (forall y :: y in ys ==> exists x :: x in xs && f(x) == f(y))
  }

  lemma MapContains<T(!new), U(!new)>(f: T -> U, xs: seq<T>, u: U)
    ensures u in MapSeq(f, xs) <==> exists x :: x in xs && f(x) == u
  {
    if x :| x in xs && f(x) == u {
      var i :| 0 <= i < |xs| && xs[i] == x;
      assert MapSeq(f, xs)[i] == u;
    }
    if u in MapSeq(f, xs) {
      var i :| 0 <= i < |xs| && MapSeq(f, xs)[i] == u;
      assert xs[i] in xs && f(xs[i]) == u;
    }
  }

  lemma MatchedMaps<T(!new), U(!new)>(xs: seq<T>, ys: seq<T>, f: T -> U)
    ensures Matched(xs, ys, f) <==> forall u :: u in MapSeq(f, xs) <==> u in MapSeq(f, ys)
  {
    forall u ensures u in MapSeq(f, xs) <==> exists x :: x in xs && f(x) == u {
      MapContains(f, xs, u);
    }
    forall u ensures u in MapSeq(f, ys) <==> exists y :: y in ys && f(y) == u {
      MapContains(f, ys, u);
    }
    if forall u :: u in MapSeq(f, xs) <==> u in MapSeq(f, ys) {
      forall x | x in xs ensures exists y :: y in ys && f(x) == f(y) {
        assert f(x) in MapSeq(f, xs);
      }
      forall y | y in ys ensures exists x :: x in xs && f(x) == f(y) {
        assert f(y) in MapSeq(f, ys);
      }
    }
  }

  /** Sorted by distinct keys, two lists project alike exactly when their members match up. */
  lemma SortedProjections<T(!new), U(!new)>(xs: seq<T>, ys: seq<T>, key: T -> string, f: T -> U, keyOf: U -> string)
    requires DistinctKeys(xs, key) && DistinctKeys(ys, key)
    requires forall x :: x in xs || x in ys ==> keyOf(f(x)) == key(x)
    ensures MapSeq(f, SortBy(xs, key)) == MapSeq(f, SortBy(ys, key)) <==> Matched(xs, ys, f)
  {
    hide SortBy, MapSeq, StrictlySorted, DistinctKeys, Matched;
    var sx, sy := SortBy(xs, key), SortBy(ys, key);
    SameElements(xs, sx);
    SameElements(ys, sy);
    SortStrict(xs, key);
    SortStrict(ys, key);
    MappedSorted(sx, key, f, keyOf);
    MappedSorted(sy, key, f, keyOf);
    MatchedMaps(xs, ys, f);
    forall u ensures u in MapSeq(f, sx) <==> u in MapSeq(f, xs) {
      MapContains(f, sx, u);
      MapContains(f, xs, u);
    }
    forall u ensures u in MapSeq(f, sy) <==> u in MapSeq(f, ys) {
      MapContains(f, sy, u);
      MapContains(f, ys, u);
    }
    if Matched(xs, ys, f) {
      StrictUnique(MapSeq(f, sx), MapSeq(f, sy), keyOf);
    }
  }

  lemma MappedSorted<T(!new), U(!new)>(sorted: seq<T>, key: T -> string, f: T -> U, keyOf: U -> string)
    requires StrictlySorted(sorted, key) && forall x :: x in sorted ==> keyOf(f(x)) == key(x)
    ensures StrictlySorted(MapSeq(f, sorted), keyOf)
  {
    var mapped := MapSeq(f, sorted);
    forall i | 0 <= i < |mapped| ensures keyOf(mapped[i]) == key(sorted[i]) {
      assert sorted[i] in sorted;
    }
  }

  lemma MatchedImages<T(!new), U(!new), V(!new)>(xs: seq<T>, ys: seq<T>, f: T -> U, g: T -> V)
    requires forall x, y :: x in xs && y in ys ==> (f(x) == f(y) <==> g(x) == g(y))
    ensures Matched(xs, ys, f) <==> Image(g, xs) == Image(g, ys)
  {
    assert Matched(xs, ys, f) <==> Matched(xs, ys, g);
    ImageMatched(xs, ys, g);
  }

  lemma ImageMatched<T(!new), V(!new)>(xs: seq<T>, ys: seq<T>, g: T -> V)
    ensures Matched(xs, ys, g) <==> Image(g, xs) == Image(g, ys)
  {
    MatchedMaps(xs, ys, g);
    forall v ensures v in Image(g, xs) <==> v in MapSeq(g, xs) {
      MapContains(g, xs, v);
    }
    forall v ensures v in Image(g, ys) <==> v in MapSeq(g, ys) {
      MapContains(g, ys, v);
    }
  }

  lemma NormalizedAlike(a: string, b: string, nfc: Nfc)
    ensures NormalizeString(a, nfc) == NormalizeString(b, nfc) <==> WordsIn(a, nfc) == WordsIn(b, nfc)
  {
    hide Squeeze, Words;
    SqueezedAlike(nfc(a), nfc(b));
  }

  lemma ObservationsAlike(a: Observation, b: Observation, nfc: Nfc)
    ensures ProjectObservation(nfc)(a) == ProjectObservation(nfc)(b) <==> SaidBy(nfc)(a) == SaidBy(nfc)(b)
  {
    hide NormalizeString, WordsIn;
    NormalizedAlike(a.expected, b.expected, nfc);
  }

  lemma StepsAlike(a: Step, b: Step, nfc: Nfc)
    requires DistinctKeys(a.observations, ObservationKey) && DistinctKeys(b.observations, ObservationKey)
    ensures ProjectStep(nfc)(a) == ProjectStep(nfc)(b) <==> BodyOfStep(nfc)(a) == BodyOfStep(nfc)(b)
  {
    hide NormalizeString, WordsIn, DistinctKeys, SortBy, MapSeq, Matched, Image, SaidBy;
    NormalizedAlike(a.instruction, b.instruction, nfc);
    SortedProjections(a.observations, b.observations, ObservationKey, ProjectObservation(nfc),
                      (o: ProjectedObservation) => o.id);
    forall x, y | x in a.observations && y in b.observations
      ensures ProjectObservation(nfc)(x) == ProjectObservation(nfc)(y) <==> SaidBy(nfc)(x) == SaidBy(nfc)(y)
    {
      ObservationsAlike(x, y, nfc);
    }
    MatchedImages(a.observations, b.observations, ProjectObservation(nfc), SaidBy(nfc));
  }

  lemma ListsAlike(a: seq<string>, b: seq<string>, nfc: Nfc)
    ensures MapSeq((p: string) => NormalizeString(p, nfc), a) == MapSeq((p: string) => NormalizeString(p, nfc), b)
       <==> MapSeq((p: string) => WordsIn(p, nfc), a) == MapSeq((p: string) => WordsIn(p, nfc), b)
  {
    hide NormalizeString, WordsIn;
    var na, nb := MapSeq((p: string) => NormalizeString(p, nfc), a), MapSeq((p: string) => NormalizeString(p, nfc), b);
    var wa, wb := MapSeq((p: string) => WordsIn(p, nfc), a), MapSeq((p: string) => WordsIn(p, nfc), b);
    forall i | 0 <= i < |a| && i < |b| ensures na[i] == nb[i] <==> wa[i] == wb[i] {
      NormalizedAlike(a[i], b[i], nfc);
    }
  }

  lemma CasesAlike(a: Case, b: Case, nfc: Nfc)
    requires DistinctInside(a) && DistinctInside(b)
    ensures ProjectCase(nfc)(a) == ProjectCase(nfc)(b) <==> BodyOfCase(nfc)(a) == BodyOfCase(nfc)(b)
  {
    hide NormalizeString, WordsIn, Digits, SortBy, Matched, Image, ProjectStep, BodyOfStep, DistinctKeys, MapSeq;
    NormalizedAlike(a.title, b.title, nfc);
    NormalizedAlike(Digits(a.level), Digits(b.level), nfc);
    if a.priority.Some? && b.priority.Some? {
      NormalizedAlike(a.priority.value, b.priority.value, nfc);
    }
    PreconditionsAlike(a, b, nfc);
    forall x | x in a.steps || x in b.steps ensures ProjectStep(nfc)(x).id == StepKey(x) {
      StepKeeps(x, nfc);
    }
    SortedProjections(a.steps, b.steps, StepKey, ProjectStep(nfc), (s: ProjectedStep) => s.id);
    forall x, y | x in a.steps && y in b.steps
      ensures ProjectStep(nfc)(x) == ProjectStep(nfc)(y) <==> BodyOfStep(nfc)(x) == BodyOfStep(nfc)(y)
    {
      StepsAlike(x, y, nfc);
    }
    MatchedImages(a.steps, b.steps, ProjectStep(nfc), BodyOfStep(nfc));
  }

  lemma StepKeeps(s: Step, nfc: Nfc)
    ensures ProjectStep(nfc)(s).id == StepKey(s)
  {
    hide NormalizeString, SortBy, MapSeq;
  }

  lemma PreconditionsAlike(a: Case, b: Case, nfc: Nfc)
    ensures ProjectCase(nfc)(a).preconditions == ProjectCase(nfc)(b).preconditions
       <==> BodyOfCase(nfc)(a).preconditions == BodyOfCase(nfc)(b).preconditions
  {
    hide NormalizeString, WordsIn, Digits, SortBy, Image, ProjectStep, BodyOfStep, MapSeq;
    var pa := if a.preconditions.Some? then a.preconditions.value else [];
    var pb := if b.preconditions.Some? then b.preconditions.value else [];
    ListsAlike(pa, pb, nfc);
    assert MapSeq((p: string) => NormalizeString(p, nfc), []) == [] && MapSeq((p: string) => WordsIn(p, nfc), []) == [];
  }

  /**
   With distinct ids, two plans have one canonical text exactly when they hold the same case bodies:
   equal up to case, step and observation order, whitespace shape, and a missing or empty
   precondition list. Everything outside the body, the lifecycle block included, goes unseen.
   */
  lemma PlanTextIsItsBodies(p: Plan, q: Plan, nfc: Nfc)
    requires DistinctThroughout(p) && DistinctThroughout(q)
    ensures Canonicalize(p, nfc) == Canonicalize(q, nfc) <==> BodyOfPlan(p, nfc) == BodyOfPlan(q, nfc)
  {
    hide Canonicalize, SortBy, Matched, Image, ProjectCase, BodyOfCase, DistinctKeys, MapSeq, DistinctInside;
    PlanTextExact(p, q, nfc);
    forall x | x in p.cases || x in q.cases ensures ProjectCase(nfc)(x).id == CaseKey(x) {
      CaseKeeps(x, nfc);
    }
    SortedProjections(p.cases, q.cases, CaseKey, ProjectCase(nfc), (c: ProjectedCase) => c.id);
    forall x, y | x in p.cases && y in q.cases
      ensures ProjectCase(nfc)(x) == ProjectCase(nfc)(y) <==> BodyOfCase(nfc)(x) == BodyOfCase(nfc)(y)
    {
      CasesAlike(x, y, nfc);
    }
    MatchedImages(p.cases, q.cases, ProjectCase(nfc), BodyOfCase(nfc));
  }

  lemma CaseKeeps(c: Case, nfc: Nfc)
    ensures ProjectCase(nfc)(c).id == CaseKey(c)
  {
    hide NormalizeString, SortBy, MapSeq, ProjectStep, Digits;
  }

  // ---- Observation ids behind a text ----

  /** Every observation id a case defines, in step order; the status derivation's denominator. */
  function StepObservationIds(s: Step): seq<string> {
    MapSeq(ObservationKey, s.observations)
  }

  function ObservationIds(c: Case): seq<string> {
    Flatten(MapSeq(StepObservationIds, c.steps))
  }

  ghost predicate Defines(c: Case, id: string) {
    exists s, o :: s in c.steps && o in s.observations && o.id == id
  }

  lemma ObservationIdsDefined(c: Case, id: string)
    ensures id in ObservationIds(c) <==> Defines(c, id)
  {
    hide Flatten;
    var lists := MapSeq(StepObservationIds, c.steps);
    if id in ObservationIds(c) {
      var i :| 0 <= i < |lists| && id in lists[i];
      var k :| 0 <= k < |lists[i]| && lists[i][k] == id;
      assert c.steps[i] in c.steps && c.steps[i].observations[k] in c.steps[i].observations;
    }
    if Defines(c, id) {
      var s, o :| s in c.steps && o in s.observations && o.id == id;
      var i :| 0 <= i < |c.steps| && c.steps[i] == s;
      var k :| 0 <= k < |s.observations| && s.observations[k] == o;
      assert lists[i][k] == id;
    }
  }

  lemma ProjectedDefines(c: Case, nfc: Nfc, id: string)
    ensures Defines(c, id) <==> exists s, o :: s in ProjectCase(nfc)(c).steps && o in s.observations && o.id == id
  {
    hide NormalizeString, SortBy, Digits, MapSeq;
    var steps := ProjectCase(nfc)(c).steps;
    SameElements(c.steps, SortBy(c.steps, StepKey));
    if Defines(c, id) {
      var s, o :| s in c.steps && o in s.observations && o.id == id;
      SameElements(s.observations, SortBy(s.observations, ObservationKey));
      MapContains(ProjectStep(nfc), SortBy(c.steps, StepKey), ProjectStep(nfc)(s));
      MapContains(ProjectObservation(nfc), SortBy(s.observations, ObservationKey), ProjectObservation(nfc)(o));
      assert ProjectStep(nfc)(s) in steps && ProjectObservation(nfc)(o) in ProjectStep(nfc)(s).observations;
    }
    if ps, po :| ps in steps && po in ps.observations && po.id == id {
      MapContains(ProjectStep(nfc), SortBy(c.steps, StepKey), ps);
      var s :| s in SortBy(c.steps, StepKey) && ProjectStep(nfc)(s) == ps;
      SameElements(s.observations, SortBy(s.observations, ObservationKey));
      MapContains(ProjectObservation(nfc), SortBy(s.observations, ObservationKey), po);
      var o :| o in SortBy(s.observations, ObservationKey) && ProjectObservation(nfc)(o) == po;
      assert s in c.steps && o in s.observations;
    }
  }

  /** Cases with one canonical text define the same observations, whatever ids repeat. */
  lemma TextFixesObservations(a: Case, b: Case, nfc: Nfc, id: string)
    requires CanonicalizeCase(a, nfc) == CanonicalizeCase(b, nfc)
    ensures id in ObservationIds(a) <==> id in ObservationIds(b)
  {
    hide CanonicalizeCase, ProjectCase, ObservationIds, Defines;
    CaseTextExact(a, b, nfc);
    ObservationIdsDefined(a, id);
    ObservationIdsDefined(b, id);
    ProjectedDefines(a, nfc, id);
    ProjectedDefines(b, nfc, id);
  }
}
