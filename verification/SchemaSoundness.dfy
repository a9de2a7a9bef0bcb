/**
 What a verdict means for instances: a validity semantics for the keywords the classifier compares
 (JSON Schema 2020-12, Validation sections 6.1.1 to 6.1.3 and 6.5.3, Core sections 10.3.1.2, 10.3.2.1
 and 10.3.2.3), and the direction in which a non-breaking change preserves it.
 */
module SchemaSoundness {
  import opened JsonText
  import opened ContractCompatibility
  import opened PlainObjects

  /**
   How every other keyword judges an instance, and which number texts are whole. A keyword's judgement
   may depend only on its own value, so references into the document are outside this reading.
   */
  datatype Reading = Reading(judge: (string, Json, Json) -> bool, whole: NumberText -> bool)

  const KNOWN_KEYWORDS: set<string> := {
    "$id", "title", "description", "type", "enum", "const", "required", "properties", "additionalProperties", "items"
  }

  predicate HasType(name: string, inst: Json, rd: Reading) {
    match inst
    case JNull => name == "null"
    case JBool(_) => name == "boolean"
    case JNum(text) => name == "number" || (name == "integer" && rd.whole(text))
    case JStr(_) => name == "string"
    case JArr(_) => name == "array"
    case JObj(_) => name == "object"
  }

  predicate TypeAllows(t: Json, inst: Json, rd: Reading) {
    match t
    case JStr(name) => HasType(name, inst, rd)
    case JArr(items) => exists v :: v in items && v.JStr? && HasType(v.chars, inst, rd)
    case _ => true
  }

  /** The keywords that look only at the instance itself. */
  ghost predicate LeafValid(schema: Json, inst: Json, rd: Reading)
    requires schema.JObj?
  {
    && (forall key :: key in schema.fields && key !in KNOWN_KEYWORDS ==> rd.judge(key, schema.fields[key], inst))
    && ("type" in schema.fields ==> TypeAllows(schema.fields["type"], inst, rd))
    && ("const" in schema.fields ==> inst == schema.fields["const"])
    && ("enum" in schema.fields && schema.fields["enum"].JArr? ==> inst in schema.fields["enum"].items)
    && (inst.JObj? ==> forall name :: name in Required(schema) ==> name in inst.fields)
  }

  ghost predicate Valid(schema: Json, inst: Json, rd: Reading)
    decreases schema
  {
    match schema
    case JBool(value) => value
    case JObj(fields) =>
      && LeafValid(schema, inst, rd)
      && (inst.JObj? ==> forall name :: name in inst.fields ==> MemberValid(schema, name, inst.fields[name], rd))
      && (inst.JArr? && "items" in fields ==> forall v :: v in inst.items ==> Valid(fields["items"], v, rd))
    case _ => true
  }

  /** A member answers to its own property schema, or to `additionalProperties` when it has none. */
  ghost predicate MemberValid(schema: Json, name: string, value: Json, rd: Reading)
    requires schema.JObj?
    decreases schema, 0
  {
    if name in Props(schema) then Valid(Props(schema)[name], value, rd)
    else "additionalProperties" in schema.fields ==> Valid(schema.fields["additionalProperties"], value, rd)
  }

  // ---- Stripping the version constants ----

  function WithoutConst(schema: Json): Json
    requires schema.JObj?
  {
    JObj(map key | key in schema.fields && key != "const" :: schema.fields[key])
  }

  function StrippedProp(schema: Json, name: string): Json
    requires name in Props(schema)
  {
    var p := Props(schema)[name];
    if name in VERSION_CONST_PROPERTIES && p.JObj? then WithoutConst(p) else p
  }

  /** The schema as the classifier compares it at a position: version constants gone at the root. */
  function Stripped(schema: Json, at: Position): Json
    requires schema.JObj?
  {
    match at
    case Inner => schema
    case VersionConst => WithoutConst(schema)
    case Root =>
      if "properties" in schema.fields && schema.fields["properties"].JObj? then
        JObj(schema.fields["properties" := JObj(map name | name in Props(schema) :: StrippedProp(schema, name))])
      else schema
  }

  // ---- When a verdict can be trusted ----

  /**
   At every pair of objects the diff compares: a live required name is a listed property or was required
   already, a baseline that gains a property is closed, a gained name every object inherits is not newly
   required, and the root has no property with an empty name.
   */
  ghost predicate Comparable(b: Json, l: Json, at: Position)
    requires b.JObj? && l.JObj?
    decreases b
  {
    && Required(l) <= Props(l).Keys + Required(b)
    && (forall name :: name in Props(l) && name !in Props(b)
         ==> && Get(b, "additionalProperties") == CLOSED
             && (name in OBJECT_PROTOTYPE ==> name !in Required(l) || name in Required(b)))
    && (at == Root ==> "" !in Props(b))
    && (forall name :: name in Props(b) && name in Props(l) && Props(b)[name].JObj? && Props(l)[name].JObj?
          ==> Comparable(Props(b)[name], Props(l)[name], ChildAt(at, name)))
    && ("items" in b.fields && BothSchemas(Get(b, "items"), Get(l, "items"))
        ==> Comparable(b.fields["items"], l.fields["items"], Inner))
    && ("additionalProperties" in b.fields
         && BothSchemas(Get(b, "additionalProperties"), Get(l, "additionalProperties"))
        ==> Comparable(b.fields["additionalProperties"], l.fields["additionalProperties"], Inner))
  }

  // ---- Reading the parts of a stripped schema ----

  lemma StrippedParts(schema: Json, at: Position)
    requires schema.JObj?
    ensures var s := Stripped(schema, at);
            && s.JObj? && Required(s) == Required(schema)
            && Props(s).Keys == Props(schema).Keys
            && (forall name :: name in Props(schema)
                 ==> Props(s)[name] == if at == Root then StrippedProp(schema, name) else Props(schema)[name])
            && (forall key :: key != "properties" && !(key == "const" && at == VersionConst)
                 ==> Get(s, key) == Get(schema, key))
            && (at == VersionConst ==> "const" !in s.fields)
  {
    var s := Stripped(schema, at);
    if at == Root && "properties" in schema.fields && schema.fields["properties"].JObj? {
      assert Props(s) == map name | name in Props(schema) :: StrippedProp(schema, name);
    }
  }

  lemma KeyKept(b: Json, l: Json, at: Position, key: string)
    requires b.JObj? && l.JObj? && !Breaks(b, l, at)
    ensures !KeyBreaks(b, l, at, key)
  {
    if key !in b.fields && key !in l.fields {
      NoKeyNoBreak(b, l, at, key);
    }
  }

  lemma NoKeyNoBreak(b: Json, l: Json, at: Position, key: string)
    requires b.JObj? && l.JObj? && key !in b.fields && key !in l.fields
    ensures !KeyBreaks(b, l, at, key) && !KeyAdds(b, l, at, key)
  {
  }

  ghost predicate HasRequired(schema: Json, inst: Json) {
    inst.JObj? ==> Required(schema) <= inst.fields.Keys
  }

  /** Under a non-breaking verdict an object's own keywords are kept exactly as far as required names go. */
  lemma LeafKeptExactly(b: Json, l: Json, at: Position, inst: Json, rd: Reading)
    requires b.JObj? && l.JObj? && !Breaks(b, l, at)
    requires LeafValid(Stripped(b, at), inst, rd)
    ensures LeafValid(Stripped(l, at), inst, rd) <==> HasRequired(l, inst)
  {
    hide Breaks, Stripped, PropBreaks, ExtrasBreak, TypeAllows;
    var sb, sl := Stripped(b, at), Stripped(l, at);
    StrippedParts(b, at);
    StrippedParts(l, at);
    forall key | key !in {"properties", "additionalProperties", "items", "enum"} && !Skipped(key, at)
      ensures Get(sb, key) == Get(sl, key)
    {
      KeyKept(b, l, at, key);
    }
    forall key | key in sl.fields && key !in KNOWN_KEYWORDS ensures rd.judge(key, sl.fields[key], inst) {
      assert Get(sb, key) == Get(sl, key);
    }
    assert "type" in sl.fields ==> Get(sb, "type") == Get(sl, "type");
    assert "const" in sl.fields ==> Get(sb, "const") == Get(sl, "const");
    KeyKept(b, l, at, "enum");
    assert Get(sb, "enum") == Get(b, "enum") && Get(sl, "enum") == Get(l, "enum");
  }

  /** A newly required name goes unseen only if it is unlisted, or inherited and not a baseline property. */
  lemma MissedOnlyIfUnlistedOrInherited(b: Json, l: Json, at: Position, name: string)
    requires b.JObj? && l.JObj? && !Breaks(b, l, at) && name in Required(l) && name !in Required(b)
    ensures name !in Props(l) || (name in OBJECT_PROTOTYPE && name !in Props(b))
  {
    hide Breaks, OBJECT_PROTOTYPE;
    KeyKept(b, l, at, "properties");
    assert forall n :: n in Props(b) ==> !PropBreaks(b, l, at, n);
  }

  /** What a non-breaking verdict at one object says about its own keywords. */
  lemma LeafKept(b: Json, l: Json, at: Position, inst: Json, rd: Reading)
    requires b.JObj? && l.JObj? && !Breaks(b, l, at) && Comparable(b, l, at)
    requires LeafValid(Stripped(b, at), inst, rd)
    ensures LeafValid(Stripped(l, at), inst, rd)
  {
    hide Breaks, Stripped, TypeAllows, OBJECT_PROTOTYPE;
    LeafKeptExactly(b, l, at, inst, rd);
    StrippedParts(b, at);
    forall name | name in Required(l) ensures name in Required(b) {
      if name !in Required(b) {
        MissedOnlyIfUnlistedOrInherited(b, l, at, name);
      }
    }
  }

  // ---- Soundness ----

  lemma {:induction false} PropKept(b: Json, l: Json, at: Position, name: string, value: Json, rd: Reading)
    requires b.JObj? && l.JObj? && !Breaks(b, l, at) && Comparable(b, l, at)
    requires name in Props(b) && Valid(Props(Stripped(b, at))[name], value, rd)
    ensures name in Props(l) && Valid(Props(Stripped(l, at))[name], value, rd)
    decreases b, 0
  {
    hide Breaks, Valid, Stripped, LeafValid;
    StrippedParts(b, at);
    StrippedParts(l, at);
    KeyKept(b, l, at, "properties");
    assert !PropBreaks(b, l, at, name);
    var pb, pl := Props(b)[name], Props(l)[name];
    if pb.JObj? && pl.JObj? {
      var child := ChildAt(at, name);
      assert Comparable(pb, pl, child);
      StrippedChild(b, at, name);
      StrippedChild(l, at, name);
      Sound(pb, pl, child, value, rd);
    }
  }

  lemma StrippedChild(schema: Json, at: Position, name: string)
    requires schema.JObj? && name in Props(schema) && Props(schema)[name].JObj? && !(at == Root && name == "")
    ensures name in Props(Stripped(schema, at))
    ensures Props(Stripped(schema, at))[name] == Stripped(Props(schema)[name], ChildAt(at, name))
  {
    hide Stripped;
    StrippedParts(schema, at);
    StrippedInner(Props(schema)[name]);
  }

  lemma StrippedInner(p: Json)
    requires p.JObj?
    ensures Stripped(p, Inner) == p && Stripped(p, VersionConst) == WithoutConst(p)
  {
  }

  lemma {:induction false} MemberKept(b: Json, l: Json, at: Position, name: string, value: Json, rd: Reading)
    requires b.JObj? && l.JObj? && !Breaks(b, l, at) && Comparable(b, l, at)
    requires MemberValid(Stripped(b, at), name, value, rd)
    ensures MemberValid(Stripped(l, at), name, value, rd)
    decreases b, 1
  {
    hide Breaks, Stripped, LeafValid, PropBreaks;
    StrippedParts(b, at);
    StrippedParts(l, at);
    if name in Props(b) {
      PropKept(b, l, at, name, value, rd);
    } else {
      KeyKept(b, l, at, "additionalProperties");
      var be, le := Get(b, "additionalProperties"), Get(l, "additionalProperties");
      assert Get(Stripped(b, at), "additionalProperties") == be && Get(Stripped(l, at), "additionalProperties") == le;
      if be != le && be != CLOSED {
        StrippedInner(be.value);
        StrippedInner(le.value);
        if Valid(be.value, value, rd) {
          Sound(be.value, le.value, Inner, value, rd);
        }
      }
    }
  }

  lemma {:induction false} ItemKept(b: Json, l: Json, at: Position, v: Json, rd: Reading)
    requires b.JObj? && l.JObj? && !Breaks(b, l, at) && Comparable(b, l, at) && "items" in l.fields
    requires "items" in b.fields ==> Valid(b.fields["items"], v, rd)
    ensures "items" in b.fields && Valid(l.fields["items"], v, rd)
    decreases b, 1
  {
    hide Breaks, Stripped, LeafValid, Valid;
    KeyKept(b, l, at, "items");
    if BothSchemas(Get(b, "items"), Get(l, "items")) {
      StrippedInner(b.fields["items"]);
      StrippedInner(l.fields["items"]);
      Sound(b.fields["items"], l.fields["items"], Inner, v, rd);
    }
  }

  /** Under a non-breaking verdict, every instance valid under the baseline is valid under live. */
  lemma {:induction false} Sound(b: Json, l: Json, at: Position, inst: Json, rd: Reading)
    requires b.JObj? && l.JObj? && !Breaks(b, l, at) && Comparable(b, l, at)
    requires Valid(Stripped(b, at), inst, rd)
    ensures Valid(Stripped(l, at), inst, rd)
    decreases b, 2
  {
    hide Breaks, Stripped, LeafValid, MemberValid, Comparable;
    StrippedParts(b, at);
    StrippedParts(l, at);
    LeafKept(b, l, at, inst, rd);
    var sb, sl := Stripped(b, at), Stripped(l, at);
    if inst.JObj? {
      forall name | name in inst.fields ensures MemberValid(sl, name, inst.fields[name], rd) {
        MemberKept(b, l, at, name, inst.fields[name], rd);
      }
    }
    assert Get(sb, "items") == Get(b, "items") && Get(sl, "items") == Get(l, "items");
    if inst.JArr? && "items" in l.fields {
      forall v | v in inst.items ensures Valid(l.fields["items"], v, rd) {
        ItemKept(b, l, at, v, rd);
      }
    }
  }

  /** Dropping the version constants only widens a schema. */
  lemma StrippingWidens(schema: Json, inst: Json, rd: Reading)
    requires schema.JObj? && Valid(schema, inst, rd)
    ensures Valid(Stripped(schema, Root), inst, rd)
  {
    hide Stripped, TypeAllows, HasType;
    var s := Stripped(schema, Root);
    StrippedParts(schema, Root);
    forall key | key in s.fields && key != "properties" ensures Get(schema, key) == Get(s, key) {
    }
    assert LeafValid(s, inst, rd) by {
      LeafSame(schema, s, inst, rd);
    }
    if inst.JObj? {
      forall name | name in inst.fields ensures MemberValid(s, name, inst.fields[name], rd) {
        assert MemberValid(schema, name, inst.fields[name], rd);
        assert Get(schema, "additionalProperties") == Get(s, "additionalProperties");
        if name in Props(schema) {
          WithoutConstWidens(Props(schema)[name], inst.fields[name], rd);
        }
      }
    }
    assert Get(schema, "items") == Get(s, "items");
  }

  lemma LeafSame(a: Json, b: Json, inst: Json, rd: Reading)
    requires a.JObj? && b.JObj? && Required(a) == Required(b)
    requires forall key :: key != "properties" ==> Get(a, key) == Get(b, key)
    requires LeafValid(a, inst, rd)
    ensures LeafValid(b, inst, rd)
  {
    hide TypeAllows, Required;
    forall key | key in b.fields && key != "properties" ensures key in a.fields && a.fields[key] == b.fields[key] {
      assert Get(a, key) == Get(b, key);
    }
  }

  lemma WithoutConstWidens(p: Json, inst: Json, rd: Reading)
    requires Valid(p, inst, rd)
    ensures p.JObj? ==> Valid(WithoutConst(p), inst, rd)
  {
    hide TypeAllows;
    if p.JObj? {
      var w := WithoutConst(p);
      assert Props(w) == Props(p) && Required(w) == Required(p);
      if inst.JObj? {
        forall name | name in inst.fields ensures MemberValid(w, name, inst.fields[name], rd) {
          assert MemberValid(p, name, inst.fields[name], rd);
        }
      }
    }
  }

  // ---- No change at all ----

  /** The baseline lists its required names, and no gained name is an inherited one, at every object compared. */
  ghost predicate BaseListed(b: Json, l: Json, at: Position)
    requires b.JObj? && l.JObj?
    decreases b
  {
    && Required(b) <= Props(b).Keys
    && (forall name :: name in Props(l) && name !in Props(b) ==> name !in OBJECT_PROTOTYPE)
    && (forall name :: name in Props(b) && name in Props(l) && Props(b)[name].JObj? && Props(l)[name].JObj?
          ==> BaseListed(Props(b)[name], Props(l)[name], ChildAt(at, name)))
    && ("items" in b.fields && BothSchemas(Get(b, "items"), Get(l, "items"))
        ==> BaseListed(b.fields["items"], l.fields["items"], Inner))
    && ("additionalProperties" in b.fields
         && BothSchemas(Get(b, "additionalProperties"), Get(l, "additionalProperties"))
        ==> BaseListed(b.fields["additionalProperties"], l.fields["additionalProperties"], Inner))
  }

  ghost predicate Untouched(b: Json, l: Json, at: Position)
    requires b.JObj? && l.JObj?
  {
    !Breaks(b, l, at) && !Adds(b, l, at) && Comparable(b, l, at) && BaseListed(b, l, at)
  }

  lemma KeyAddsNothing(b: Json, l: Json, at: Position, key: string)
    requires b.JObj? && l.JObj? && !Adds(b, l, at)
    ensures !KeyAdds(b, l, at, key)
  {
    if key !in b.fields && key !in l.fields {
      NoKeyNoBreak(b, l, at, key);
    }
  }

  lemma SameNames(b: Json, l: Json, at: Position)
    requires b.JObj? && l.JObj? && Untouched(b, l, at)
    ensures Props(b).Keys == Props(l).Keys
    ensures Required(b) == Required(l)
  {
    hide Breaks, Adds, BaseListed, PropAdds;
    KeyKept(b, l, at, "properties");
    KeyAddsNothing(b, l, at, "properties");
    BaseListedHere(b, l, at);
    forall name | name in Props(b) ensures name in Props(l) && (name in Required(b) <==> name in Required(l)) {
      assert !PropBreaks(b, l, at, name);
    }
    forall name | name in Props(l) ensures name in Props(b) {
    }
  }

  lemma BaseListedHere(b: Json, l: Json, at: Position)
    requires b.JObj? && l.JObj? && BaseListed(b, l, at)
    ensures Required(b) <= Props(b).Keys
    ensures forall name :: name in Props(l) && name !in Props(b) ==> name !in OBJECT_PROTOTYPE
  {
  }

  lemma {:induction false} ReversedProp(b: Json, l: Json, at: Position, name: string)
    requires b.JObj? && l.JObj? && Untouched(b, l, at) && name in Props(l)
    ensures name in Props(b) && !PropBreaks(l, b, at, name)
    ensures Props(b)[name].JObj? && Props(l)[name].JObj?
        ==> Comparable(Props(l)[name], Props(b)[name], ChildAt(at, name))
    decreases b, 0
  {
    hide Breaks, Adds;
    SameNames(b, l, at);
    KeyKept(b, l, at, "properties");
    KeyAddsNothing(b, l, at, "properties");
    assert !PropBreaks(b, l, at, name) && !PropAdds(b, l, at, name);
    var pb, pl := Props(b)[name], Props(l)[name];
    if pb.JObj? && pl.JObj? {
      NothingReversed(pb, pl, ChildAt(at, name));
    }
  }

  lemma {:induction false} ReversedExtras(b: Json, l: Json, at: Position)
    requires b.JObj? && l.JObj? && Untouched(b, l, at)
    ensures !ExtrasBreak(l, b)
    ensures var be, le := Get(b, "additionalProperties"), Get(l, "additionalProperties");
            BothSchemas(be, le) ==> Comparable(le.value, be.value, Inner)
    decreases b, 1
  {
    hide Breaks, Adds;
    KeyKept(b, l, at, "additionalProperties");
    KeyAddsNothing(b, l, at, "additionalProperties");
    var be, le := Get(b, "additionalProperties"), Get(l, "additionalProperties");
    if BothSchemas(be, le) {
      if be == le {
        NotBreakingItself(be.value, Inner);
        NotAddingToItself(be.value, Inner);
      }
      NothingReversed(be.value, le.value, Inner);
    }
  }

  /** What every property, the extras and the items give, put together for the keywords. */
  lemma KeysReversed(b: Json, l: Json, at: Position)
    requires b.JObj? && l.JObj? && Untouched(b, l, at)
    requires forall name :: name in Props(l) ==> name in Props(b) && !PropBreaks(l, b, at, name)
    requires !ExtrasBreak(l, b)
    requires BothSchemas(Get(b, "items"), Get(l, "items")) ==> !Breaks(l.fields["items"], b.fields["items"], Inner)
    ensures !Breaks(l, b, at)
    decreases b, 1
  {
    hide Adds, Breaks, PropBreaks, PropAdds, ExtrasBreak, ExtrasAdd, Untouched, Comparable;
    assert !Breaks(b, l, at) && !Adds(b, l, at) by { UntouchedParts(b, l, at); }
    SameNames(b, l, at);
    forall key ensures !KeyBreaks(l, b, at, key) {
      KeyKept(b, l, at, key);
      KeyAddsNothing(b, l, at, key);
    }
    NoKeyBreaks(l, b, at);
  }

  lemma UntouchedParts(b: Json, l: Json, at: Position)
    requires b.JObj? && l.JObj? && Untouched(b, l, at)
    ensures !Breaks(b, l, at) && !Adds(b, l, at)
  {
  }

  lemma NoKeyBreaks(b: Json, l: Json, at: Position)
    requires b.JObj? && l.JObj? && forall key :: !KeyBreaks(b, l, at, key)
    ensures !Breaks(b, l, at)
  {
    hide KeyBreaks;
  }

  lemma ComparableReversed(b: Json, l: Json, at: Position)
    requires b.JObj? && l.JObj? && Untouched(b, l, at)
    requires forall name :: name in Props(l) && name in Props(b) && Props(b)[name].JObj? && Props(l)[name].JObj?
                            ==> Comparable(Props(l)[name], Props(b)[name], ChildAt(at, name))
    requires BothSchemas(Get(b, "items"), Get(l, "items")) ==> Comparable(l.fields["items"], b.fields["items"], Inner)
    requires var be, le := Get(b, "additionalProperties"), Get(l, "additionalProperties");
             BothSchemas(be, le) ==> Comparable(le.value, be.value, Inner)
    ensures Comparable(l, b, at)
    decreases b, 1
  {
    hide Adds, Breaks, OBJECT_PROTOTYPE;
    SameNames(b, l, at);
    assert at == Root ==> "" !in Props(b);
    BaseListedHere(b, l, at);
  }

  /** A verdict of no change reads the same in the other direction. */
  lemma {:induction false} NothingReversed(b: Json, l: Json, at: Position)
    requires b.JObj? && l.JObj? && Untouched(b, l, at)
    ensures !Breaks(l, b, at) && Comparable(l, b, at)
    decreases b, 2
  {
    hide Comparable, Adds, Breaks, PropBreaks, PropAdds, ExtrasBreak, ExtrasAdd, Props, ChildAt, Untouched, BothSchemas;
    forall name | name in Props(l)
      ensures name in Props(b) && !PropBreaks(l, b, at, name)
      ensures Props(b)[name].JObj? && Props(l)[name].JObj?
          ==> Comparable(Props(l)[name], Props(b)[name], ChildAt(at, name))
    {
      ReversedProp(b, l, at, name);
    }
    ReversedExtras(b, l, at);
    if BothSchemas(Get(b, "items"), Get(l, "items")) {
      ReversedItems(b, l, at);
    }
    ComparableReversed(b, l, at);
    KeysReversed(b, l, at);
  }

  lemma {:induction false} ReversedItems(b: Json, l: Json, at: Position)
    requires b.JObj? && l.JObj? && Untouched(b, l, at) && BothSchemas(Get(b, "items"), Get(l, "items"))
    ensures !Breaks(l.fields["items"], b.fields["items"], Inner)
    ensures Comparable(l.fields["items"], b.fields["items"], Inner)
    decreases b, 1
  {
    hide Adds, Breaks;
    KeyKept(b, l, at, "items");
    KeyAddsNothing(b, l, at, "items");
    NothingReversed(b.fields["items"], l.fields["items"], Inner);
  }

  // ---- Non-breaking change as a preorder ----

  /** Comparing a schema with itself files no breaking reason. */
  lemma {:induction false} NotBreakingItself(s: Json, at: Position)
    requires s.JObj?
    ensures !Breaks(s, s, at)
    decreases s
  {
    forall key | key in s.fields ensures !KeyBreaks(s, s, at, key) {
      if key == "properties" {
        forall name | name in Props(s) ensures !PropBreaks(s, s, at, name) {
          if Props(s)[name].JObj? {
            NotBreakingItself(Props(s)[name], ChildAt(at, name));
          }
        }
      } else if key == "items" && s.fields[key].JObj? {
        NotBreakingItself(s.fields[key], Inner);
      }
    }
  }

  lemma {:induction false} NotAddingToItself(s: Json, at: Position)
    requires s.JObj?
    ensures !Adds(s, s, at)
    decreases s
  {
    forall key | key in s.fields ensures !KeyAdds(s, s, at, key) {
      if key == "properties" {
        forall name | name in Props(s) ensures !PropAdds(s, s, at, name) {
          if Props(s)[name].JObj? {
            NotAddingToItself(Props(s)[name], ChildAt(at, name));
          }
        }
      } else if key == "items" && s.fields[key].JObj? {
        NotAddingToItself(s.fields[key], Inner);
      }
    }
  }

  lemma {:induction false} PropComposes(a: Json, b: Json, c: Json, at: Position, name: string)
    requires a.JObj? && b.JObj? && c.JObj? && name in Props(a)
    requires !Breaks(a, b, at) && !Breaks(b, c, at)
    ensures !PropBreaks(a, c, at, name)
    decreases a, 0
  {
    hide Breaks;
    KeyKept(a, b, at, "properties");
    KeyKept(b, c, at, "properties");
    assert !PropBreaks(a, b, at, name) && !PropBreaks(b, c, at, name);
    if Props(a)[name].JObj? && Props(c)[name].JObj? {
      NonBreakingComposes(Props(a)[name], Props(b)[name], Props(c)[name], ChildAt(at, name));
    }
  }

  lemma {:induction false} ExtrasCompose(a: Json, b: Json, c: Json, at: Position)
    requires a.JObj? && b.JObj? && c.JObj?
    requires !Breaks(a, b, at) && !Breaks(b, c, at)
    ensures !ExtrasBreak(a, c)
    decreases a, 0
  {
    hide Breaks;
    KeyKept(a, b, at, "additionalProperties");
    KeyKept(b, c, at, "additionalProperties");
    var ae, be, ce := Get(a, "additionalProperties"), Get(b, "additionalProperties"), Get(c, "additionalProperties");
    if ae != be && be != ce && BothSchemas(ae, be) && BothSchemas(be, ce) {
      NonBreakingComposes(ae.value, be.value, ce.value, Inner);
    }
  }

  /** Two non-breaking changes in a row make a non-breaking change. */
  lemma {:induction false} NonBreakingComposes(a: Json, b: Json, c: Json, at: Position)
    requires a.JObj? && b.JObj? && c.JObj?
    requires !Breaks(a, b, at) && !Breaks(b, c, at)
    ensures !Breaks(a, c, at)
    decreases a, 1
  {
    hide PropBreaks, ExtrasBreak;
    forall name | name in Props(a) ensures !PropBreaks(a, c, at, name) {
      PropComposes(a, b, c, at, name);
    }
    ExtrasCompose(a, b, c, at);
    KeyKept(a, b, at, "properties");
    KeyKept(b, c, at, "properties");
    forall name | name in Props(c) && !Named(name, Props(a)) ensures name !in Required(c) {
      NewStaysOptional(a, b, c, at, name);
    }
    forall key ensures !KeyBreaks(a, c, at, key) {
      KeyKept(a, b, at, key);
      KeyKept(b, c, at, key);
      if key == "items" && BothSchemas(Get(a, key), Get(c, key)) {
        NonBreakingComposes(a.fields[key], b.fields[key], c.fields[key], Inner);
      }
    }
  }

  lemma NewStaysOptional(a: Json, b: Json, c: Json, at: Position, name: string)
    requires a.JObj? && b.JObj? && c.JObj? && !Breaks(a, b, at) && !Breaks(b, c, at)
    requires name in Props(c) && !Named(name, Props(a))
    ensures name !in Required(c)
  {
    hide Breaks;
    KeyKept(a, b, at, "properties");
    KeyKept(b, c, at, "properties");
    if name in Props(b) {
      assert !PropBreaks(b, c, at, name);
    }
  }

  // ---- The verdicts ----

  /** None or additive: whatever the baseline accepted is still accepted, the version constants aside. */
  lemma VerdictIsSound(baseline: Json, live: Json, inst: Json, rd: Reading)
    requires baseline.JObj? && live.JObj? && Comparable(baseline, live, Root)
    requires Classification(baseline, live) != Breaking
    ensures Valid(baseline, inst, rd) ==> Valid(Stripped(live, Root), inst, rd)
  {
    hide Breaks, Adds, Comparable, Valid, Stripped;
    if Valid(baseline, inst, rd) {
      StrippingWidens(baseline, inst, rd);
      Sound(baseline, live, Root, inst, rd);
    }
  }

  /** None: the two accept exactly the same instances, the version constants aside. */
  lemma NoChangeIsEquivalence(baseline: Json, live: Json, inst: Json, rd: Reading)
    requires baseline.JObj? && live.JObj? && Comparable(baseline, live, Root) && BaseListed(baseline, live, Root)
    requires Classification(baseline, live) == NoChange
    ensures Valid(Stripped(baseline, Root), inst, rd) <==> Valid(Stripped(live, Root), inst, rd)
  {
    hide Breaks, Adds, Comparable, BaseListed, Valid, Stripped;
    NothingReversed(baseline, live, Root);
    if Valid(Stripped(baseline, Root), inst, rd) {
      Sound(baseline, live, Root, inst, rd);
    }
    if Valid(Stripped(live, Root), inst, rd) {
      Sound(live, baseline, Root, inst, rd);
    }
  }

  /** A release the version rule lets through without a higher major never rejects what was accepted. */
  lemma ReleaseWithoutMajorIsSafe(baseline: Json, live: Json, from: Version, to: Version, inst: Json, rd: Reading)
    requires baseline.JObj? && live.JObj? && Comparable(baseline, live, Root)
    requires VersionAllows(Classification(baseline, live), from, to) && to.major <= from.major
    ensures Valid(baseline, inst, rd) ==> Valid(Stripped(live, Root), inst, rd)
    ensures CompareVersions(to, from) >= 0
    ensures CompareVersions(to, from) == 0 ==> Classification(baseline, live) == NoChange && to == from
  {
    hide Breaks, Adds, Comparable, Valid, Stripped;
    VerdictIsSound(baseline, live, inst, rd);
  }

  // ---- Why each side condition is there ----

  const EMPTY_OBJECT := JObj(map[])

  /** A required name outside `properties` is never compared. */
  lemma UnlistedRequiredNameGoesUnseen(rd: Reading)
    ensures var live := JObj(map["required" := JArr([JStr("x")])]);
            && Classification(EMPTY_OBJECT, live) == NoChange
            && Valid(EMPTY_OBJECT, EMPTY_OBJECT, rd) && !Valid(Stripped(live, Root), EMPTY_OBJECT, rd)
  {
    var live := JObj(map["required" := JArr([JStr("x")])]);
    assert forall key :: key in live.fields ==> key == "required";
    assert JStr("x") in live.fields["required"].items;
    assert "x" in Required(live);
  }

  function OneProperty(name: string, sub: Json): Json {
    JObj(map["properties" := JObj(map[name := sub])])
  }

  function Versioned(v: Json): Json {
    OneProperty("schemaVersion", JObj(map["const" := v]))
  }

  lemma OnePropertyAlike(name: string, a: Json, b: Json)
    requires a.JObj? && b.JObj?
    requires !Breaks(a, b, ChildAt(Root, name)) && !Adds(a, b, ChildAt(Root, name))
    ensures !Breaks(OneProperty(name, a), OneProperty(name, b), Root)
        && !Adds(OneProperty(name, a), OneProperty(name, b), Root)
  {
    hide ChildAt;
    var x, y := OneProperty(name, a), OneProperty(name, b);
    assert Props(x) == map[name := a] && Props(y) == map[name := b];
    assert !PropBreaks(x, y, Root, name) && !PropAdds(x, y, Root, name);
    assert !KeyBreaks(x, y, Root, "properties") && !KeyAdds(x, y, Root, "properties");
  }

  lemma OnePropertyJudges(name: string, sub: Json, value: Json, rd: Reading)
    ensures Valid(OneProperty(name, sub), JObj(map[name := value]), rd) <==> Valid(sub, value, rd)
  {
    var schema, inst := OneProperty(name, sub), JObj(map[name := value]);
    assert Props(schema) == map[name := sub];
    assert MemberValid(schema, name, inst.fields[name], rd) <==> Valid(sub, value, rd);
    assert LeafValid(schema, inst, rd);
    assert Valid(schema, inst, rd) <==> forall n :: n in inst.fields ==> MemberValid(schema, n, inst.fields[n], rd);
  }

  lemma ConstJudges(v: Json, w: Json, rd: Reading)
    ensures !Breaks(JObj(map["const" := v]), JObj(map["const" := w]), VersionConst)
    ensures !Adds(JObj(map["const" := v]), JObj(map["const" := w]), VersionConst)
    ensures Valid(JObj(map["const" := w]), v, rd) <==> v == w
  {
    var schema := JObj(map["const" := w]);
    assert v.JObj? ==> forall name :: name in v.fields ==> MemberValid(schema, name, v.fields[name], rd);
    assert LeafValid(schema, v, rd) <==> v == w;
  }

  lemma StrippedOneProperty(name: string, sub: Json)
    requires name !in VERSION_CONST_PROPERTIES
    ensures Stripped(OneProperty(name, sub), Root) == OneProperty(name, sub)
  {
    var schema := OneProperty(name, sub);
    assert Props(schema) == map[name := sub];
    assert (map n | n in Props(schema) :: StrippedProp(schema, n)) == map[name := sub];
  }

  lemma EmptyAccepts(inst: Json, rd: Reading)
    ensures Valid(EMPTY_OBJECT, inst, rd)
  {
    assert inst.JObj? ==> forall n :: n in inst.fields ==> MemberValid(EMPTY_OBJECT, n, inst.fields[n], rd);
  }

  lemma NewNameIsAdditive(name: string, sub: Json)
    requires name !in OBJECT_PROTOTYPE
    ensures Classification(EMPTY_OBJECT, OneProperty(name, sub)) == Additive
  {
    hide OBJECT_PROTOTYPE;
    var live := OneProperty(name, sub);
    assert Props(live) == map[name := sub] && Props(EMPTY_OBJECT) == map[] && Required(live) == {};
    assert name in Props(live) && !Named(name, Props(EMPTY_OBJECT)) && name !in Required(live);
    assert KeyAdds(EMPTY_OBJECT, live, Root, "properties");
    assert !KeyBreaks(EMPTY_OBJECT, live, Root, "properties");
  }

  /** An open baseline already accepted the new name, with any value. */
  lemma OpenBaselineIsNarrowed(rd: Reading)
    ensures var live := OneProperty("p", JBool(false));
            var inst := JObj(map["p" := JNull]);
            && Classification(EMPTY_OBJECT, live) == Additive
            && Valid(EMPTY_OBJECT, inst, rd) && !Valid(Stripped(live, Root), inst, rd)
  {
    hide Stripped, Classification, OneProperty;
    NewNameIsAdditive("p", JBool(false));
    EmptyAccepts(JObj(map["p" := JNull]), rd);
    StrippedOneProperty("p", JBool(false));
    OnePropertyJudges("p", JBool(false), JNull, rd);
  }

  /** A closed object, and the same with a required property of this name. */
  const CLOSED_OBJECT := JObj(map["additionalProperties" := JBool(false)])

  function Requiring(name: string): Json {
    JObj(map["additionalProperties" := JBool(false), "required" := JArr([JStr(name)]),
             "properties" := JObj(map[name := JBool(true)])])
  }

  lemma InheritedNameIsNoChange(name: string)
    requires name in OBJECT_PROTOTYPE
    ensures Classification(CLOSED_OBJECT, Requiring(name)) == NoChange
  {
    hide OBJECT_PROTOTYPE;
    var live := Requiring(name);
    assert Props(live) == map[name := JBool(true)] && Props(CLOSED_OBJECT) == map[];
    forall key | key in CLOSED_OBJECT.fields || key in live.fields
      ensures !KeyBreaks(CLOSED_OBJECT, live, Root, key) && !KeyAdds(CLOSED_OBJECT, live, Root, key)
    {
      assert key == "additionalProperties" || key == "required" || key == "properties";
    }
  }

  lemma RequiringRejectsEmpty(name: string, rd: Reading)
    ensures Valid(CLOSED_OBJECT, EMPTY_OBJECT, rd) && !Valid(Stripped(Requiring(name), Root), EMPTY_OBJECT, rd)
  {
    hide OBJECT_PROTOTYPE;
    var live := Requiring(name);
    StrippedParts(live, Root);
    assert live.fields["required"].items[0] == JStr(name);
    assert JStr(name) in live.fields["required"].items;
    assert name in Required(live) && Required(live) == Required(Stripped(live, Root));
    assert !LeafValid(Stripped(live, Root), EMPTY_OBJECT, rd);
  }

  /** A new required property every object inherits, such as `toString`, passes for one the baseline had. */
  lemma InheritedNameGoesUnseen(name: string, rd: Reading)
    requires name in OBJECT_PROTOTYPE
    ensures Classification(CLOSED_OBJECT, Requiring(name)) == NoChange
    ensures Valid(CLOSED_OBJECT, EMPTY_OBJECT, rd) && !Valid(Stripped(Requiring(name), Root), EMPTY_OBJECT, rd)
  {
    hide Stripped, Classification, Requiring;
    InheritedNameIsNoChange(name);
    RequiringRejectsEmpty(name, rd);
  }

  /** A root property with the empty name is compared as the root again, so a constant inside it goes unseen. */
  lemma EmptyNameHidesAConstant(v: Json, w: Json, rd: Reading)
    requires v != w
    ensures var base, live := OneProperty("", Versioned(v)), OneProperty("", Versioned(w));
            var inst := JObj(map["" := JObj(map["schemaVersion" := v])]);
            && Classification(base, live) == NoChange
            && Valid(base, inst, rd) && !Valid(Stripped(live, Root), inst, rd)
  {
    hide Breaks, Adds, Valid;
    var a, b := JObj(map["const" := v]), JObj(map["const" := w]);
    ConstJudges(v, v, rd);
    ConstJudges(v, w, rd);
    OnePropertyAlike("schemaVersion", a, b);
    OnePropertyAlike("", Versioned(v), Versioned(w));
    OnePropertyJudges("schemaVersion", a, v, rd);
    OnePropertyJudges("schemaVersion", b, v, rd);
    var value := JObj(map["schemaVersion" := v]);
    OnePropertyJudges("", Versioned(v), value, rd);
    OnePropertyJudges("", Versioned(w), value, rd);
    StrippedOneProperty("", Versioned(w));
  }
}
