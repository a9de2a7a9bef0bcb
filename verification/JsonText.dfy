/**
 JSON text without insignificant whitespace, as `JSON.stringify` prints it (RFC 8259 sections 4 to 7),
 and its injectivity: equal texts come from equal documents. Object members keep their order.
 Numbers are carried as their printed text.
 */
module JsonText {

  predicate NumberChar(c: char) {
    '0' <= c <= '9' || c == '-' || c == '+' || c == '.' || c == 'e' || c == 'E'
  }

  predicate IsNumber(text: string) {
    text != "" && forall c :: c in text ==> NumberChar(c)
  }

  type NumberText = text: string | IsNumber(text) witness "0"

  datatype Doc =
    | Null
    | Bool(value: bool)
    | Num(text: NumberText)
    | Str(chars: string)
    | Arr(items: seq<Doc>)
    | Obj(members: seq<Member>)

  datatype Member = Member(name: string, value: Doc)

  // ---- Strings (section 7) ----

  function HexDigit(n: nat): char
    requires n < 16
  {
    "0123456789abcdef"[n]
  }

  function EscapeChar(c: char): string {
    if c == '"' then "\\\""
    else if c == '\\' then "\\\\"
    else if c == '\n' then "\\n"
    else if c == '\r' then "\\r"
    else if c == '\t' then "\\t"
    else if c == 8 as char then "\\b"
    else if c == 12 as char then "\\f"
    else if c < ' ' then "\\u00" + [HexDigit(c as int / 16), HexDigit(c as int % 16)]
    else [c]
  }

  /** The escaped characters and the closing quote. */
  function StringTail(s: string): string {
    if s == "" then "\"" else EscapeChar(s[0]) + StringTail(s[1..])
  }

  function Quote(s: string): string {
    "\"" + StringTail(s)
  }

  // ---- Values (sections 4 to 6) ----

  function Print(d: Doc): (text: string)
    decreases d
  {
    match d
    case Null => "null"
    case Bool(value) => if value then "true" else "false"
    case Num(text) => text
    case Str(chars) => Quote(chars)
    case Arr(items) => "[" + if items == [] then "]" else Print(items[0]) + ItemsTail(items[1..])
    case Obj(members) => "{" + if members == [] then "}" else PrintMember(members[0]) + MembersTail(members[1..])
  }

  /** The remaining items, each after a comma, and the closing bracket. */
  function ItemsTail(items: seq<Doc>): string
    decreases items
  {
    if items == [] then "]" else "," + Print(items[0]) + ItemsTail(items[1..])
  }

  function PrintMember(m: Member): string
    decreases m
  {
    Quote(m.name) + ":" + Print(m.value)
  }

  function MembersTail(members: seq<Member>): string
    decreases members
  {
    if members == [] then "}" else "," + PrintMember(members[0]) + MembersTail(members[1..])
  }

  // ---- Injectivity ----

  lemma HexDigitUnique(m: nat, n: nat)
    requires m < 16 && n < 16 && HexDigit(m) == HexDigit(n)
    ensures m == n
  {
  }

  /** One plain character, or a backslash and a letter, or a backslash, `u` and four digits. */
  lemma EscapeLengths(c: char)
    ensures var e := EscapeChar(c);
            && |e| in {1, 2, 6}
            && (|e| == 1 <==> e[0] != '\\') && (|e| == 1 ==> e[0] == c)
            && (|e| == 6 ==> e[1] == 'u' && c < ' ' && e[4..] == [HexDigit(c as int / 16), HexDigit(c as int % 16)])
            && (|e| == 2 ==> e[1] != 'u')
  {
    hide HexDigit;
  }

  lemma ShortEscapeUnique(c: char, d: char)
    requires |EscapeChar(c)| == |EscapeChar(d)| == 2 && EscapeChar(c)[1] == EscapeChar(d)[1]
    ensures c == d
  {
    hide HexDigit;
  }

  lemma LongEscapeUnique(c: char, d: char)
    requires |EscapeChar(c)| == |EscapeChar(d)| == 6 && EscapeChar(c)[4..] == EscapeChar(d)[4..]
    ensures c == d
  {
    hide EscapeChar;
    EscapeLengths(c);
    EscapeLengths(d);
    var ec, ed := EscapeChar(c)[4..], EscapeChar(d)[4..];
    assert ec[0] == ed[0] && ec[1] == ed[1];
    HexDigitUnique(c as int / 16, d as int / 16);
    HexDigitUnique(c as int % 16, d as int % 16);
  }

  lemma EscapeCharUnique(c: char, d: char, x: string, y: string)
    requires EscapeChar(c) + x == EscapeChar(d) + y
    ensures c == d && x == y
  {
    hide EscapeChar;
    var ec, ed := EscapeChar(c), EscapeChar(d);
    EscapeLengths(c);
    EscapeLengths(d);
    assert (ec + x)[0] == ec[0] && (ed + y)[0] == ed[0];
    if |ec| > 1 {
      assert (ec + x)[1] == ec[1] && (ed + y)[1] == ed[1];
      if |ec| == 2 {
        ShortEscapeUnique(c, d);
      } else {
        assert (ec + x)[4..6] == ec[4..] && (ed + y)[4..6] == ed[4..];
        LongEscapeUnique(c, d);
      }
    }
    assert x == (ec + x)[|ec|..] && y == (ed + y)[|ed|..];
  }

  lemma {:induction false} StringTailUnique(s: string, t: string, x: string, y: string)
    requires StringTail(s) + x == StringTail(t) + y
    ensures s == t && x == y
  {
    hide EscapeChar;
    EscapeShape();
    if s == "" || t == "" {
      assert (StringTail(s) + x)[0] == StringTail(s)[0];
      assert (StringTail(t) + y)[0] == StringTail(t)[0];
      assert x == (StringTail(s) + x)[|StringTail(s)|..];
      assert y == (StringTail(t) + y)[|StringTail(t)|..];
    } else {
      assert EscapeChar(s[0]) + (StringTail(s[1..]) + x) == StringTail(s) + x;
      assert EscapeChar(t[0]) + (StringTail(t[1..]) + y) == StringTail(t) + y;
      EscapeCharUnique(s[0], t[0], StringTail(s[1..]) + x, StringTail(t[1..]) + y);
      StringTailUnique(s[1..], t[1..], x, y);
      assert s == [s[0]] + s[1..] && t == [t[0]] + t[1..];
    }
  }

  lemma EscapeShape()
    ensures forall c :: EscapeChar(c) != "" && EscapeChar(c)[0] != '"'
  {
  }

  lemma QuoteUnique(s: string, t: string, x: string, y: string)
    requires Quote(s) + x == Quote(t) + y
    ensures s == t && x == y
  {
    assert (Quote(s) + x)[1..] == StringTail(s) + x;
    assert (Quote(t) + y)[1..] == StringTail(t) + y;
    StringTailUnique(s, t, x, y);
  }

  /** What may follow a value: nothing that could be read as more of a number. */
  predicate Ends(rest: string) {
    rest == "" || !NumberChar(rest[0])
  }

  lemma {:induction false} NumberUnique(a: string, b: string, x: string, y: string)
    requires (forall c :: c in a ==> NumberChar(c)) && (forall c :: c in b ==> NumberChar(c)) && Ends(x) && Ends(y)
    requires a + x == b + y
    ensures a == b && x == y
  {
    assert a + x == x || a + x == [a[0]] + (a[1..] + x);
    assert b + y == y || b + y == [b[0]] + (b[1..] + y);
    if a != "" && b != "" {
      assert (a + x)[1..] == a[1..] + x && (b + y)[1..] == b[1..] + y;
      NumberUnique(a[1..], b[1..], x, y);
      assert a == [a[0]] + a[1..] && b == [b[0]] + b[1..];
    }
  }

  lemma FirstChar(d: Doc)
    ensures Print(d) != ""
    ensures var c := Print(d)[0];
            match d
            case Null => c == 'n'
            case Bool(value) => c == if value then 't' else 'f'
            case Num(_) => NumberChar(c)
            case Str(_) => c == '"'
            case Arr(_) => c == '['
            case Obj(_) => c == '{'
  {
    if d.Num? {
      assert d.text[0] in d.text;
    }
  }

  lemma {:induction false} PrintUnique(a: Doc, b: Doc, x: string, y: string)
    requires Print(a) + x == Print(b) + y && Ends(x) && Ends(y)
    ensures a == b && x == y
    decreases a, 1
  {
    hide StringTail, Quote, ItemsTail, MembersTail, PrintMember;
    FirstChar(a);
    FirstChar(b);
    assert (Print(a) + x)[0] == Print(a)[0] && (Print(b) + y)[0] == Print(b)[0];
    match a {
      case Num(text) => NumberUnique(text, b.text, x, y);
      case Str(chars) => QuoteUnique(chars, b.chars, x, y);
      case Arr(items) => ArrUnique(a, b, x, y);
      case Obj(members) => ObjUnique(a, b, x, y);
      case _ =>
        assert x == (Print(a) + x)[|Print(a)|..];
        assert y == (Print(b) + y)[|Print(b)|..];
    }
  }

  lemma {:induction false} ArrUnique(a: Doc, b: Doc, x: string, y: string)
    requires a.Arr? && b.Arr? && Print(a) + x == Print(b) + y && Ends(x) && Ends(y)
    ensures a == b && x == y
    decreases a, 0
  {
    hide Print;
    ArrText(a);
    ArrText(b);
    if a.items == [] || b.items == [] {
      EmptyArr(a, b, x, y);
    } else {
      var ax, bz := ItemsTail(a.items[1..]) + x, ItemsTail(b.items[1..]) + y;
      assert (Print(a) + x)[1..] == Print(a.items[0]) + ax;
      assert (Print(b) + y)[1..] == Print(b.items[0]) + bz;
      PrintUnique(a.items[0], b.items[0], ax, bz);
      ItemsTailUnique(a.items[1..], b.items[1..], x, y);
      assert a.items == [a.items[0]] + a.items[1..] && b.items == [b.items[0]] + b.items[1..];
    }
  }

  lemma ArrText(a: Doc)
    requires a.Arr?
    ensures Print(a) == "[" + if a.items == [] then "]" else Print(a.items[0]) + ItemsTail(a.items[1..])
  {
  }

  lemma ObjText(a: Doc)
    requires a.Obj?
    ensures Print(a) == "{" + if a.members == [] then "}" else PrintMember(a.members[0]) + MembersTail(a.members[1..])
  {
  }

  lemma EmptyArr(a: Doc, b: Doc, x: string, y: string)
    requires a.Arr? && b.Arr? && (a.items == [] || b.items == []) && Print(a) + x == Print(b) + y
    ensures a == b && x == y
  {
    hide ItemsTail;
    if a.items != [] {
      assert (Print(b) + y)[1] == ']';
      NotClosed(a, x);
    } else if b.items != [] {
      assert (Print(a) + x)[1] == ']';
      NotClosed(b, y);
    } else {
      assert x == (Print(a) + x)[2..] && y == (Print(b) + y)[2..];
    }
  }

  /** The second character of a non-empty array or object does not close it. */
  lemma NotClosed(d: Doc, rest: string)
    requires (d.Arr? && d.items != []) || (d.Obj? && d.members != [])
    ensures |Print(d)| > 1 && (Print(d) + rest)[1] !in {']', '}'}
  {
    hide ItemsTail, MembersTail, StringTail;
    if d.Arr? {
      FirstChar(d.items[0]);
      assert Print(d)[1] == Print(d.items[0])[0];
    } else {
      ObjText(d);
      assert PrintMember(d.members[0])[0] == '"';
    }
  }

  lemma {:induction false} ItemsTailUnique(s: seq<Doc>, t: seq<Doc>, x: string, y: string)
    requires ItemsTail(s) + x == ItemsTail(t) + y && Ends(x) && Ends(y)
    ensures s == t && x == y
    decreases s, 0
  {
    hide Print;
    assert (ItemsTail(s) + x)[0] == ItemsTail(s)[0] && (ItemsTail(t) + y)[0] == ItemsTail(t)[0];
    if s == [] {
      assert x == (ItemsTail(s) + x)[1..] && y == (ItemsTail(t) + y)[1..];
    } else {
      var sx, ty := ItemsTail(s[1..]) + x, ItemsTail(t[1..]) + y;
      assert (ItemsTail(s) + x)[1..] == Print(s[0]) + sx;
      assert (ItemsTail(t) + y)[1..] == Print(t[0]) + ty;
      PrintUnique(s[0], t[0], sx, ty);
      ItemsTailUnique(s[1..], t[1..], x, y);
      assert s == [s[0]] + s[1..] && t == [t[0]] + t[1..];
    }
  }

  lemma {:induction false} MemberUnique(m: Member, n: Member, x: string, y: string)
    requires PrintMember(m) + x == PrintMember(n) + y && Ends(x) && Ends(y)
    ensures m == n && x == y
    decreases m, 1
  {
    hide Print, Quote;
    assert PrintMember(m) + x == Quote(m.name) + (":" + Print(m.value) + x);
    assert PrintMember(n) + y == Quote(n.name) + (":" + Print(n.value) + y);
    QuoteUnique(m.name, n.name, ":" + Print(m.value) + x, ":" + Print(n.value) + y);
    assert (":" + Print(m.value) + x)[1..] == Print(m.value) + x;
    assert (":" + Print(n.value) + y)[1..] == Print(n.value) + y;
    PrintUnique(m.value, n.value, x, y);
  }

  lemma {:induction false} ObjUnique(a: Doc, b: Doc, x: string, y: string)
    requires a.Obj? && b.Obj? && Print(a) + x == Print(b) + y && Ends(x) && Ends(y)
    ensures a == b && x == y
    decreases a, 0
  {
    hide Print, PrintMember;
    ObjText(a);
    ObjText(b);
    if a.members == [] || b.members == [] {
      EmptyObj(a, b, x, y);
    } else {
      var ax, bz := MembersTail(a.members[1..]) + x, MembersTail(b.members[1..]) + y;
      assert (Print(a) + x)[1..] == PrintMember(a.members[0]) + ax;
      assert (Print(b) + y)[1..] == PrintMember(b.members[0]) + bz;
      MemberUnique(a.members[0], b.members[0], ax, bz);
      MembersTailUnique(a.members[1..], b.members[1..], x, y);
      assert a.members == [a.members[0]] + a.members[1..] && b.members == [b.members[0]] + b.members[1..];
    }
  }

  lemma EmptyObj(a: Doc, b: Doc, x: string, y: string)
    requires a.Obj? && b.Obj? && (a.members == [] || b.members == []) && Print(a) + x == Print(b) + y
    ensures a == b && x == y
  {
    hide MembersTail, StringTail;
    if a.members != [] {
      assert (Print(b) + y)[1] == '}';
      NotClosed(a, x);
    } else if b.members != [] {
      assert (Print(a) + x)[1] == '}';
      NotClosed(b, y);
    } else {
      assert x == (Print(a) + x)[2..] && y == (Print(b) + y)[2..];
    }
  }

  lemma {:induction false} MembersTailUnique(s: seq<Member>, t: seq<Member>, x: string, y: string)
    requires MembersTail(s) + x == MembersTail(t) + y && Ends(x) && Ends(y)
    ensures s == t && x == y
    decreases s, 0
  {
    hide PrintMember;
    assert (MembersTail(s) + x)[0] == MembersTail(s)[0] && (MembersTail(t) + y)[0] == MembersTail(t)[0];
    if s == [] {
      assert x == (MembersTail(s) + x)[1..] && y == (MembersTail(t) + y)[1..];
    } else {
      var sx, ty := MembersTail(s[1..]) + x, MembersTail(t[1..]) + y;
      assert (MembersTail(s) + x)[1..] == PrintMember(s[0]) + sx;
      assert (MembersTail(t) + y)[1..] == PrintMember(t[0]) + ty;
      MemberUnique(s[0], t[0], sx, ty);
      MembersTailUnique(s[1..], t[1..], x, y);
      assert s == [s[0]] + s[1..] && t == [t[0]] + t[1..];
    }
  }

  /** Equal texts come from equal documents. */
  lemma PrintInjective(a: Doc, b: Doc)
    ensures Print(a) == Print(b) <==> a == b
  {
    hide Print;
    if Print(a) == Print(b) {
      PrintUnique(a, b, "", "");
    }
  }
}
