/**
 The canonical text itself: which characters are white space, how a string is quoted and read back, how a
 level is written, the order of the parts, and the fixed layout around them.
 */
module CanonicalFacts {
  import opened Wrappers
  import opened Strings
  import opened Contracts
  import opened JsonText
  import opened Canonical

  // ---- Characters ----

  /** White space is tab to carriage return, the space, and the Unicode spaces and separators. */
  lemma SpacesListed(c: char)
    ensures IsSpace(c)
       <==> c in {'\t', '\n', 11 as char, 12 as char, '\r', ' ', 0xA0 as char, 0x1680 as char,
                  0x2000 as char, 0x2001 as char, 0x2002 as char, 0x2003 as char, 0x2004 as char, 0x2005 as char,
                  0x2006 as char, 0x2007 as char, 0x2008 as char, 0x2009 as char, 0x200A as char,
                  0x2028 as char, 0x2029 as char, 0x202F as char, 0x205F as char, 0x3000 as char, 0xFEFF as char}
  {
  }

  // ---- Quoted strings read back (RFC 8259 section 7) ----

  function HexValue(c: char): Option<nat> {
    if '0' <= c <= '9' then Some(c as int - '0' as int)
    else if 'a' <= c <= 'f' then Some(c as int - 'a' as int + 10)
    else if 'A' <= c <= 'F' then Some(c as int - 'A' as int + 10)
    else None
  }

  function Escaped(c: char): Option<char> {
    if c == '"' || c == '\\' || c == '/' then Some(c)
    else if c == 'b' then Some(8 as char)
    else if c == 'f' then Some(12 as char)
    else if c == 'n' then Some(10 as char)
    else if c == 'r' then Some(13 as char)
    else if c == 't' then Some(9 as char)
    else None
  }

  /** What a reader makes of the text after an opening quote: the characters, and what follows the closing one. */
  function ReadTail(text: string): Option<(string, string)> {
    if text == "" then None
    else if text[0] == '"' then Some(("", text[1..]))
    else
      match ReadOne(text)
      case None => None
      case Some(one) =>
        match ReadTail(one.1)
        case None => None
        case Some(rest) => Some(([one.0] + rest.0, rest.1))
  }

  /** One character, plain or escaped; control characters must be escaped. */
  function ReadOne(text: string): (one: Option<(char, string)>)
    requires text != ""
    ensures one.Some? ==> |one.value.1| < |text|
  {
    if text[0] < ' ' then None
    else if text[0] != '\\' then Some((text[0], text[1..]))
    else if |text| >= 2 && Escaped(text[1]).Some? then Some((Escaped(text[1]).value, text[2..]))
    else if |text| >= 6 && text[1] == 'u' then
      match (HexValue(text[2]), HexValue(text[3]), HexValue(text[4]), HexValue(text[5]))
      case (Some(a), Some(b), Some(c), Some(d)) =>
        var code := ((a * 16 + b) * 16 + c) * 16 + d;
        if 0xD800 <= code < 0xE000 then None else Some((code as char, text[6..]))
      case _ => None
    else None
  }

  lemma HexReads(n: nat)
    requires n < 16
    ensures HexValue(HexDigit(n)) == Some(n)
  {
  }

  lemma EscapeReads(c: char, rest: string)
    ensures EscapeChar(c) + rest != "" && (EscapeChar(c) + rest)[0] != '"'
    ensures ReadOne(EscapeChar(c) + rest) == Some((c, rest))
  {
    hide HexDigit, HexValue;
    var text := EscapeChar(c) + rest;
    if |EscapeChar(c)| == 1 {
      assert text[1..] == rest;
    } else if |EscapeChar(c)| == 2 {
      assert text[2..] == rest;
    } else {
      var high, low := c as int / 16, c as int % 16;
      HexReads(0);
      HexReads(high);
      HexReads(low);
      assert '0' == HexDigit(0) by { ZeroDigit(); }
      assert text == ['\\', 'u', '0', '0', HexDigit(high), HexDigit(low)] + rest;
      assert text[6..] == rest;
    }
  }

  lemma ZeroDigit()
    ensures HexDigit(0) == '0'
  {
  }

  /** A printed string reads back as itself, whatever follows it. */
  lemma {:induction false} StringReadsBack(s: string, after: string)
    ensures ReadTail(StringTail(s) + after) == Some((s, after))
  {
    hide EscapeChar, ReadOne;
    var text := StringTail(s) + after;
    if s == "" {
      assert text[1..] == after;
    } else {
      var rest := StringTail(s[1..]) + after;
      assert text == EscapeChar(s[0]) + rest;
      EscapeReads(s[0], rest);
      StringReadsBack(s[1..], after);
      assert s == [s[0]] + s[1..];
    }
  }

  // ---- Levels ----

  function DigitValue(c: char): nat {
    if '0' <= c <= '9' then c as int - '0' as int else 0
  }

  function ReadNat(text: string): nat {
    if text == "" then 0 else ReadNat(text[..|text| - 1]) * 10 + DigitValue(text[|text| - 1])
  }

  /** A level is written in decimal, without a leading zero. */
  lemma {:induction false} DigitsReadBack(n: nat)
    ensures ReadNat(Digits(n)) == n && Digits(n) != ""
    ensures forall c :: c in Digits(n) ==> '0' <= c <= '9'
    ensures Digits(n)[0] == '0' ==> n == 0
  {
    var text := Digits(n);
    if n < 10 {
      assert text[..0] == "";
    } else {
      DigitsReadBack(n / 10);
      assert text[..|text| - 1] == Digits(n / 10);
      assert text[0] == Digits(n / 10)[0];
    }
  }

  // ---- Order ----

  /** The projected cases, a case's steps and a step's observations each run by id in code-point order. */
  lemma ProjectedInIdOrder(plan: Plan, nfc: Nfc, i: nat, j: nat)
    requires DistinctKeys(plan.cases, CaseKey) && i < j < |plan.cases|
    ensures |ProjectPlan(plan, nfc)| == |plan.cases|
    ensures Le(ProjectPlan(plan, nfc)[i].id, ProjectPlan(plan, nfc)[j].id)
  {
    hide Le, SortBy, ProjectCase;
    SortStrict(plan.cases, CaseKey);
    var sorted := SortBy(plan.cases, CaseKey);
    SameElements(sorted, plan.cases);
    CaseKeeps(sorted[i], nfc);
    CaseKeeps(sorted[j], nfc);
  }

  lemma StepsInIdOrder(c: Case, nfc: Nfc, i: nat, j: nat)
    requires DistinctKeys(c.steps, StepKey) && i < j < |c.steps|
    ensures |ProjectCase(nfc)(c).steps| == |c.steps|
    ensures Le(ProjectCase(nfc)(c).steps[i].id, ProjectCase(nfc)(c).steps[j].id)
  {
    hide Le, SortBy, NormalizeString, Digits;
    SortStrict(c.steps, StepKey);
    SameElements(SortBy(c.steps, StepKey), c.steps);
  }

  lemma ObservationsInIdOrder(s: Step, nfc: Nfc, i: nat, j: nat)
    requires DistinctKeys(s.observations, ObservationKey) && i < j < |s.observations|
    ensures |ProjectStep(nfc)(s).observations| == |s.observations|
    ensures Le(ProjectStep(nfc)(s).observations[i].id, ProjectStep(nfc)(s).observations[j].id)
  {
    hide Le, SortBy, NormalizeString;
    SortStrict(s.observations, ObservationKey);
    SameElements(SortBy(s.observations, ObservationKey), s.observations);
  }

  // ---- Layout ----

  lemma LiteralTexts(text: NumberText, s: string)
    ensures Print(Null) == "null" && Print(Bool(true)) == "true" && Print(Bool(false)) == "false"
    ensures Print(Num(text)) == text && Print(Str(s)) == "\"" + StringTail(s)
  {
    hide StringTail;
  }

  function MemberText(m: Member): string {
    "\"" + StringTail(m.name) + ":" + Print(m.value)
  }

  function ItemText(d: Doc): string {
    Print(d)
  }

  /** After the first, every member and item stands behind a comma; the bracket closes the list. */
  lemma {:induction false} MembersTailText(members: seq<Member>)
    ensures MembersTail(members) == (if members == [] then "" else "," + Join(MapSeq(MemberText, members), ",")) + "}"
  {
    hide Print, StringTail, MemberText, PrintMember;
    if members != [] {
      var texts := MapSeq(MemberText, members);
      MemberIs(members[0]);
      MembersTailText(members[1..]);
      assert texts[1..] == MapSeq(MemberText, members[1..]);
      assert texts[0] == PrintMember(members[0]);
    }
  }

  lemma {:induction false} ItemsTailText(items: seq<Doc>)
    ensures ItemsTail(items) == (if items == [] then "" else "," + Join(MapSeq(ItemText, items), ",")) + "]"
  {
    hide Print;
    if items != [] {
      var texts := MapSeq(ItemText, items);
      ItemsTailText(items[1..]);
      assert texts[1..] == MapSeq(ItemText, items[1..]);
    }
  }

  /** An object's text: its members between braces, a comma between two, name and value on either side of a colon. */
  lemma ObjectText(members: seq<Member>)
    ensures Print(Obj(members)) == "{" + Join(MapSeq(MemberText, members), ",") + "}"
  {
    hide Print, StringTail, MemberText;
    ObjText(Obj(members));
    var texts := MapSeq(MemberText, members);
    if members == [] {
      assert texts == [];
    } else {
      MembersTailText(members[1..]);
      assert texts[1..] == MapSeq(MemberText, members[1..]);
      assert texts[0] == PrintMember(members[0]) by { MemberIs(members[0]); }
    }
  }

  lemma MemberIs(m: Member)
    ensures MemberText(m) == PrintMember(m)
  {
    hide Print, StringTail;
  }

  /** An array's text: its items between brackets, a comma between two. */
  lemma ArrayText(items: seq<Doc>)
    ensures Print(Arr(items)) == "[" + Join(MapSeq(ItemText, items), ",") + "]"
  {
    hide Print;
    ArrText(Arr(items));
    var texts := MapSeq(ItemText, items);
    if items == [] {
      assert texts == [];
    } else {
      ItemsTailText(items[1..]);
      assert texts[1..] == MapSeq(ItemText, items[1..]);
    }
  }

  /** The empty case set has a fixed text. */
  lemma EmptyPlanText(slug: string, nfc: Nfc)
    ensures Canonicalize(Plan(slug, []), nfc) == "{\"cases\":[]}"
  {
    hide Print, StringTail, CaseDoc, MemberText, PrintMember;
    var cases := Arr([]);
    assert MapSeq(CaseDoc, ProjectPlan(Plan(slug, []), nfc)) == [];
    var members := [Member("cases", cases)];
    ObjectText(members);
    PlainTail("cases");
    EmptyArray();
    assert MapSeq(MemberText, members) == [MemberText(members[0])];
    OnlyOne(MemberText(members[0]));
    assert MemberText(members[0]) == "\"" + StringTail("cases") + ":" + Print(cases) by { CasesMember(cases); }
  }

  lemma CasesMember(cases: Doc)
    ensures MemberText(Member("cases", cases)) == "\"" + StringTail("cases") + ":" + Print(cases)
  {
    hide Print, StringTail;
  }

  lemma OnlyOne(text: string)
    ensures Join([text], ",") == text
  {
  }

  lemma EmptyArray()
    ensures Print(Arr([])) == "[]"
  {
  }

  /** A name without characters to escape is quoted as it is. */
  lemma {:induction false} PlainTail(name: string)
    requires forall i :: 0 <= i < |name| ==> 'a' <= name[i] <= 'z'
    ensures StringTail(name) == name + "\""
  {
    if name != "" {
      PlainTail(name[1..]);
      assert 'a' <= name[0] <= 'z';
      assert name == [name[0]] + name[1..];
    }
  }

  ghost predicate HasMember(d: Doc, k: nat, name: string, value: Doc) {
    d.Obj? && k < |d.members| && d.members[k] == Member(name, value)
  }

  /** The plan's text has one key, `cases`, listing the projected cases. */
  lemma PlanLayout(plan: Plan, nfc: Nfc)
    ensures var sorted := SortBy(plan.cases, CaseKey);
            var cases := seq(|sorted|, i requires 0 <= i < |sorted| => CaseDoc(ProjectCase(nfc)(sorted[i])));
            && |sorted| == |plan.cases|
            && Canonicalize(plan, nfc) == Print(Obj([Member("cases", Arr(cases))]))
  {
    hide SortBy, CaseDoc, Print;
    var sorted := SortBy(plan.cases, CaseKey);
    SameElements(sorted, plan.cases);
    var docs := MapSeq(CaseDoc, ProjectPlan(plan, nfc));
    assert docs == seq(|sorted|, i requires 0 <= i < |sorted| => CaseDoc(ProjectCase(nfc)(sorted[i])));
  }

  /**
   A case's keys in fixed order: id as it is, title and level normalised, priority and preconditions only
   when they say something, steps last. Nothing else of the case is in it.
   */
  lemma CaseLayout(c: Case, nfc: Nfc)
    ensures var d := CaseDoc(ProjectCase(nfc)(c));
            var listed := c.preconditions.Some? && c.preconditions.value != [];
            var n := 3 + (if c.priority.Some? then 1 else 0) + (if listed then 1 else 0);
            && CanonicalizeCase(c, nfc) == Print(d) && d.Obj? && |d.members| == n + 1
            && HasMember(d, 0, "id", Str(c.id))
            && HasMember(d, 1, "title", Str(NormalizeString(c.title, nfc)))
            && HasMember(d, 2, "level", Str(NormalizeString(Digits(c.level), nfc)))
            && (c.priority.Some? ==> HasMember(d, 3, "priority", Str(NormalizeString(c.priority.value, nfc))))
            && (listed ==>
                  var m, said := d.members[n - 1], c.preconditions.value;
                  && m.name == "preconditions" && m.value.Arr? && |m.value.items| == |said|
                  && forall i :: 0 <= i < |said| ==> m.value.items[i] == Str(NormalizeString(said[i], nfc)))
            && d.members[n].name == "steps" && d.members[n].value.Arr? && |d.members[n].value.items| == |c.steps|
            && forall i :: 0 <= i < |c.steps|
                 ==> d.members[n].value.items[i] == StepDoc(ProjectStep(nfc)(SortBy(c.steps, StepKey)[i]))
  {
    hide SortBy, StepDoc, NormalizeString, Digits, Print;
    SameElements(SortBy(c.steps, StepKey), c.steps);
  }

  /** A step's keys in fixed order, its observations sorted; an observation's likewise. */
  lemma StepLayout(s: Step, nfc: Nfc)
    ensures var d := StepDoc(ProjectStep(nfc)(s));
            && d.Obj? && |d.members| == 3 && HasMember(d, 0, "id", Str(s.id))
            && HasMember(d, 1, "instruction", Str(NormalizeString(s.instruction, nfc)))
            && d.members[2].name == "observations" && d.members[2].value.Arr?
            && |d.members[2].value.items| == |s.observations|
            && forall i :: 0 <= i < |s.observations| ==>
                 var o := SortBy(s.observations, ObservationKey)[i];
                 d.members[2].value.items[i]
                 == Obj([Member("id", Str(o.id)), Member("expected", Str(NormalizeString(o.expected, nfc)))])
  {
    hide SortBy, NormalizeString;
    SameElements(SortBy(s.observations, ObservationKey), s.observations);
  }
}
