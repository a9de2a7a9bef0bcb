/**
 The verdict when one keyword changed: for each keyword the classifier treats its own way, exactly which
 change is breaking, which is additive and which is none, and what that means for instances.
 */
module ContractVerdicts {
  import opened Wrappers
  import opened JsonText
  import opened ContractCompatibility
  import opened SchemaSoundness
  import opened PlainObjects

  /** The two schemas agree on every keyword but this one. */
  ghost predicate AlikeBut(b: Json, l: Json, key: string) {
    && b.JObj? && l.JObj?
    && forall k :: k != key ==> && (k in b.fields <==> k in l.fields)
                                && (k in b.fields ==> b.fields[k] == l.fields[k])
  }

  // ---- Only the changed keyword decides ----

  lemma SameKeyIsSilent(b: Json, l: Json, at: Position, key: string)
    requires b.JObj? && l.JObj? && Get(b, key) == Get(l, key)
    requires key == "properties" ==> Required(b) == Required(l)
    ensures !KeyBreaks(b, l, at, key) && !KeyAdds(b, l, at, key)
  {
    hide Breaks, Adds, OBJECT_PROTOTYPE;
    if key == "properties" {
      assert Props(b) == Props(l);
      forall name | name in Props(b) ensures !PropBreaks(b, l, at, name) && !PropAdds(b, l, at, name) {
        if Props(b)[name].JObj? {
          NotBreakingItself(Props(b)[name], ChildAt(at, name));
          NotAddingToItself(Props(b)[name], ChildAt(at, name));
        }
      }
    } else if key == "items" && BothSchemas(Get(b, key), Get(l, key)) {
      NotBreakingItself(b.fields[key], Inner);
      NotAddingToItself(b.fields[key], Inner);
    }
  }

  lemma OnlyKeyDecides(b: Json, l: Json, at: Position, key: string)
    requires AlikeBut(b, l, key) && key != "required"
    ensures Breaks(b, l, at) <==> KeyBreaks(b, l, at, key)
    ensures Adds(b, l, at) <==> KeyAdds(b, l, at, key)
  {
    hide KeyBreaks, KeyAdds;
    assert Required(b) == Required(l);
    forall k | k != key ensures !KeyBreaks(b, l, at, k) && !KeyAdds(b, l, at, k) {
      SameKeyIsSilent(b, l, at, k);
    }
    if key !in b.fields && key !in l.fields {
      NoKeyNoBreak(b, l, at, key);
    }
  }

  // ---- Enumerations ----

  ghost predicate Enumerates(schema: Json, values: seq<Json>) {
    schema.JObj? && "enum" in schema.fields && schema.fields["enum"] == JArr(values)
  }

  /** Wherever the objects stand: breaking exactly when a value is lost, additive when the list changed otherwise. */
  lemma EnumDecides(b: Json, l: Json, at: Position, was: seq<Json>, now: seq<Json>)
    requires AlikeBut(b, l, "enum") && Enumerates(b, was) && Enumerates(l, now)
    ensures Breaks(b, l, at) <==> exists v :: v in was && v !in now
    ensures Adds(b, l, at) <==> was != now && forall v :: v in was ==> v in now
  {
    hide Breaks, Adds;
    OnlyKeyDecides(b, l, at, "enum");
  }

  /** With both lists arrays: breaking exactly when a value is lost, additive exactly when it only changed otherwise. */
  lemma EnumVerdict(b: Json, l: Json, was: seq<Json>, now: seq<Json>)
    requires AlikeBut(b, l, "enum") && Enumerates(b, was) && Enumerates(l, now)
    ensures Classification(b, l) == Breaking <==> exists v :: v in was && v !in now
    ensures Classification(b, l) == Additive <==> was != now && forall v :: v in was ==> v in now
    ensures Classification(b, l) == NoChange <==> was == now
  {
    hide Breaks, Adds;
    EnumDecides(b, l, Root, was, now);
  }

  /** Where one of the two is missing or no array, any difference is breaking. */
  lemma OddEnumVerdict(b: Json, l: Json)
    requires AlikeBut(b, l, "enum")
    requires "enum" !in b.fields || "enum" !in l.fields || !b.fields["enum"].JArr? || !l.fields["enum"].JArr?
    ensures Classification(b, l) == if b == l then NoChange else Breaking
  {
    hide Breaks, Adds;
    OnlyKeyDecides(b, l, Root, "enum");
    SameFields(b, l, "enum");
  }

  lemma SameFields(b: Json, l: Json, key: string)
    requires AlikeBut(b, l, key)
    ensures b == l <==> Get(b, key) == Get(l, key)
  {
    if Get(b, key) == Get(l, key) {
      assert b.fields == l.fields;
    }
  }

  /**
   In terms of instances: the verdict is breaking whenever some instance meets the baseline object and not
   the live one, and such an instance exists exactly when a lost value passes the other keywords.
   */
  lemma EnumVerdictOnInstances(b: Json, l: Json, was: seq<Json>, now: seq<Json>, rd: Reading)
    requires AlikeBut(b, l, "enum") && Enumerates(b, was) && Enumerates(l, now)
    ensures (exists inst :: LeafValid(b, inst, rd) && !LeafValid(l, inst, rd)) ==> Classification(b, l) == Breaking
    ensures (exists inst :: LeafValid(b, inst, rd) && !LeafValid(l, inst, rd))
       <==> exists v :: v in was && v !in now && LeafValid(b, v, rd)
  {
    hide Classification, TypeAllows;
    EnumVerdict(b, l, was, now);
    assert Required(b) == Required(l);
    forall inst ensures LeafValid(b, inst, rd) && !LeafValid(l, inst, rd) <==> LeafValid(b, inst, rd) && inst !in now {
      OnlyEnumDiffers(b, l, was, now, inst, rd);
    }
  }

  lemma OnlyEnumDiffers(b: Json, l: Json, was: seq<Json>, now: seq<Json>, inst: Json, rd: Reading)
    requires AlikeBut(b, l, "enum") && Enumerates(b, was) && Enumerates(l, now)
    ensures LeafValid(b, inst, rd) ==> inst in was && (LeafValid(l, inst, rd) <==> inst in now)
  {
    hide TypeAllows;
    assert Required(b) == Required(l);
    assert "enum" in KNOWN_KEYWORDS;
    assert "type" != "enum" && "const" != "enum";
  }

  function OnlyEnum(values: seq<Json>): Json {
    JObj(map["enum" := JArr(values)])
  }

  lemma OnlyEnumAccepts(values: seq<Json>, inst: Json, rd: Reading)
    ensures Valid(OnlyEnum(values), inst, rd) <==> inst in values
  {
    var schema := OnlyEnum(values);
    assert inst.JObj? ==> forall name :: name in inst.fields ==> MemberValid(schema, name, inst.fields[name], rd);
    assert LeafValid(schema, inst, rd) <==> inst in values;
  }

  /** Of bare enumerations: breaking exactly when an instance is lost, additive when none is but the list changed. */
  lemma BareEnumVerdict(was: seq<Json>, now: seq<Json>, rd: Reading)
    ensures var b, l := OnlyEnum(was), OnlyEnum(now);
            && (Classification(b, l) == Breaking <==> exists inst :: Valid(b, inst, rd) && !Valid(l, inst, rd))
            && (Classification(b, l) == Additive
                <==> was != now && forall inst :: Valid(b, inst, rd) ==> Valid(l, inst, rd))
  {
    hide Classification, Valid, OnlyEnum;
    var b, l := OnlyEnum(was), OnlyEnum(now);
    assert AlikeBut(b, l, "enum") && Enumerates(b, was) && Enumerates(l, now) by { BareEnums(was, now); }
    EnumVerdict(b, l, was, now);
    forall inst
      ensures Valid(b, inst, rd) <==> inst in was
      ensures Valid(l, inst, rd) <==> inst in now
    {
      OnlyEnumAccepts(was, inst, rd);
      OnlyEnumAccepts(now, inst, rd);
    }
    if v :| v in was && v !in now {
      assert Valid(b, v, rd) && !Valid(l, v, rd);
    }
    if (forall inst :: Valid(b, inst, rd) ==> Valid(l, inst, rd)) {
      forall v | v in was ensures v in now {
        assert Valid(b, v, rd);
      }
    }
  }

  lemma BareEnums(was: seq<Json>, now: seq<Json>)
    ensures var b, l := OnlyEnum(was), OnlyEnum(now);
            AlikeBut(b, l, "enum") && Enumerates(b, was) && Enumerates(l, now)
  {
  }

  // ---- Prose, identity and version constants ----

  /** A changed title, description or root identity is no change at all. */
  lemma ProseVerdict(b: Json, l: Json, key: string)
    requires key in {"title", "description", "$id"} && AlikeBut(b, l, key)
    ensures Classification(b, l) == NoChange
  {
    hide Breaks, Adds;
    OnlyKeyDecides(b, l, Root, key);
  }

  /** Nor is a changed constant of the two root properties that name the version. */
  lemma VersionConstVerdict(b: Json, l: Json, name: string, was: Json, now: Json)
    requires AlikeBut(b, l, "properties") && name in {"$schema", "schemaVersion"} && AlikeBut(was, now, "const")
    requires "properties" in b.fields && b.fields["properties"].JObj? && name in b.fields["properties"].fields
    requires b.fields["properties"].fields[name] == was
    requires "properties" in l.fields && l.fields["properties"] == JObj(b.fields["properties"].fields[name := now])
    ensures Classification(b, l) == NoChange
  {
    hide Breaks, Adds, OBJECT_PROTOTYPE;
    OnlyKeyDecides(b, l, Root, "properties");
    OnlyKeyDecides(was, now, VersionConst, "const");
    assert Required(b) == Required(l);
    assert Props(l) == Props(b)[name := now];
    assert ChildAt(Root, name) == VersionConst;
    forall other | other in Props(b) ensures !PropBreaks(b, l, Root, other) && !PropAdds(b, l, Root, other) {
      if other != name && Props(b)[other].JObj? {
        NotBreakingItself(Props(b)[other], ChildAt(Root, other));
        NotAddingToItself(Props(b)[other], ChildAt(Root, other));
      }
    }
  }

  // ---- Properties ----

  ghost predicate HasProps(schema: Json, props: map<string, Json>) {
    schema.JObj? && "properties" in schema.fields && schema.fields["properties"] == JObj(props)
  }

  ghost predicate Requires(schema: Json, name: string) {
    schema.JObj? && "required" in schema.fields && schema.fields["required"].JArr?
    && JStr(name) in schema.fields["required"].items
  }

  lemma RequiresMeans(schema: Json, name: string)
    ensures name in Required(schema) <==> Requires(schema, name)
  {
    if Requires(schema, name) {
      var v := JStr(name);
      assert v in schema.fields["required"].items && v.JStr? && v.chars == name;
    }
  }

  /** One property more: additive while optional, breaking when required; a name every object inherits goes unseen. */
  lemma NewPropertyVerdict(b: Json, l: Json, props: map<string, Json>, name: string, sub: Json)
    requires AlikeBut(b, l, "properties") && HasProps(b, props) && HasProps(l, props[name := sub]) && name !in props
    ensures Classification(b, l)
         == if name in OBJECT_PROTOTYPE then NoChange else if Requires(l, name) then Breaking else Additive
  {
    hide Breaks, Adds, OBJECT_PROTOTYPE;
    OnlyKeyDecides(b, l, Root, "properties");
    RequiresMeans(l, name);
    assert Required(b) == Required(l) && Props(b) == props && Props(l) == props[name := sub];
    forall other | other in Props(b) ensures !PropBreaks(b, l, Root, other) && !PropAdds(b, l, Root, other) {
      if Props(b)[other].JObj? {
        NotBreakingItself(Props(b)[other], ChildAt(Root, other));
        NotAddingToItself(Props(b)[other], ChildAt(Root, other));
      }
    }
    assert name in Props(l) && (Named(name, Props(b)) <==> name in OBJECT_PROTOTYPE);
    assert forall other :: other in Props(l) && !Named(other, Props(b)) ==> other == name;
  }

  /** One property fewer is breaking. */
  lemma RemovedPropertyVerdict(b: Json, l: Json, props: map<string, Json>, name: string)
    requires AlikeBut(b, l, "properties") && HasProps(b, props) && HasProps(l, props - {name}) && name in props
    ensures Classification(b, l) == Breaking
  {
    hide Breaks, Adds, OBJECT_PROTOTYPE;
    OnlyKeyDecides(b, l, Root, "properties");
    assert name in Props(b) && name !in Props(l);
    assert PropBreaks(b, l, Root, name);
  }

  /** One property's schema changed, away from version constants: the verdict is that of the two schemas there. */
  lemma ChangedPropertyVerdict(b: Json, l: Json, props: map<string, Json>, name: string, now: Json)
    requires AlikeBut(b, l, "properties") && HasProps(b, props) && HasProps(l, props[name := now]) && name in props
    requires props[name].JObj? && now.JObj? && name !in {"$schema", "schemaVersion", ""}
    ensures Classification(b, l) == Breaking <==> Breaks(props[name], now, Inner)
    ensures Classification(b, l) == Additive <==> !Breaks(props[name], now, Inner) && Adds(props[name], now, Inner)
  {
    hide Breaks, Adds, OBJECT_PROTOTYPE;
    OnlyKeyDecides(b, l, Root, "properties");
    assert Required(b) == Required(l) && Props(b) == props && Props(l) == props[name := now];
    assert ChildAt(Root, name) == Inner;
    forall other | other in Props(b) && other != name
      ensures !PropBreaks(b, l, Root, other) && !PropAdds(b, l, Root, other)
    {
      if Props(b)[other].JObj? {
        NotBreakingItself(Props(b)[other], ChildAt(Root, other));
        NotAddingToItself(Props(b)[other], ChildAt(Root, other));
      }
    }
    assert PropBreaks(b, l, Root, name) <==> Breaks(props[name], now, Inner);
    assert PropAdds(b, l, Root, name) <==> Adds(props[name], now, Inner);
  }

  /** A property whose schema is no object on one side breaks on any difference. */
  lemma BooleanPropertyVerdict(b: Json, l: Json, props: map<string, Json>, name: string, now: Json)
    requires AlikeBut(b, l, "properties") && HasProps(b, props) && HasProps(l, props[name := now]) && name in props
    requires !(props[name].JObj? && now.JObj?) && props[name] != now
    ensures Classification(b, l) == Breaking
  {
    hide Breaks, Adds, OBJECT_PROTOTYPE;
    OnlyKeyDecides(b, l, Root, "properties");
    assert PropBreaks(b, l, Root, name);
  }

  /** A changed required list: breaking exactly when it says otherwise about a listed property, either way. */
  lemma RequiredVerdict(b: Json, l: Json, props: map<string, Json>)
    requires AlikeBut(b, l, "required") && HasProps(b, props)
    ensures Classification(b, l)
         == if exists name :: name in props && (Requires(b, name) <==> !Requires(l, name)) then Breaking else NoChange
  {
    hide Breaks, Adds, OBJECT_PROTOTYPE, KeyBreaks, KeyAdds, Requires;
    forall name
      ensures name in Required(b) <==> Requires(b, name)
      ensures name in Required(l) <==> Requires(l, name)
    {
      RequiresMeans(b, name);
      RequiresMeans(l, name);
    }
    forall key | key != "properties" ensures !KeyBreaks(b, l, Root, key) && !KeyAdds(b, l, Root, key) {
      if key == "required" {
        RequiredKeyIsSilent(b, l);
      } else {
        SameKeyIsSilent(b, l, Root, key);
      }
    }
    RequiredByProperty(b, l, props);
    KeysTogether(b, l, Root);
  }

  lemma RequiredKeyIsSilent(b: Json, l: Json)
    requires b.JObj? && l.JObj?
    ensures !KeyBreaks(b, l, Root, "required") && !KeyAdds(b, l, Root, "required")
  {
    hide Breaks, Adds;
  }

  lemma RequiredByProperty(b: Json, l: Json, props: map<string, Json>)
    requires AlikeBut(b, l, "required") && HasProps(b, props)
    ensures KeyBreaks(b, l, Root, "properties")
       <==> exists name :: name in props && (name in Required(b) <==> name !in Required(l))
    ensures !KeyAdds(b, l, Root, "properties")
  {
    hide Breaks, Adds, OBJECT_PROTOTYPE, Required;
    assert Props(b) == props && Props(l) == props;
    forall name | name in props
      ensures PropBreaks(b, l, Root, name) <==> (name in Required(b) <==> name !in Required(l))
      ensures !PropAdds(b, l, Root, name)
    {
      if props[name].JObj? {
        NotBreakingItself(props[name], ChildAt(Root, name));
        NotAddingToItself(props[name], ChildAt(Root, name));
      }
    }
  }

  lemma KeysTogether(b: Json, l: Json, at: Position)
    requires b.JObj? && l.JObj?
    ensures Breaks(b, l, at) <==> exists key :: KeyBreaks(b, l, at, key)
    ensures Adds(b, l, at) <==> exists key :: KeyAdds(b, l, at, key)
  {
    hide KeyBreaks, KeyAdds, Breaks, Adds;
    forall key | key !in b.fields && key !in l.fields ensures !KeyBreaks(b, l, at, key) && !KeyAdds(b, l, at, key) {
      NoKeyNoBreak(b, l, at, key);
    }
    if key :| KeyBreaks(b, l, at, key) {
      assert (key in b.fields || key in l.fields) && KeyBreaks(b, l, at, key);
      BreakingKey(b, l, at, key);
    }
    if key :| KeyAdds(b, l, at, key) {
      assert (key in b.fields || key in l.fields) && KeyAdds(b, l, at, key);
      AddingKey(b, l, at, key);
    }
    if Breaks(b, l, at) && forall key :: !KeyBreaks(b, l, at, key) {
      NoKeyBreaks(b, l, at);
    }
    if Adds(b, l, at) && forall key :: !KeyAdds(b, l, at, key) {
      NoKeyAdds(b, l, at);
    }
  }

  lemma BreakingKey(b: Json, l: Json, at: Position, key: string)
    requires b.JObj? && l.JObj? && KeyBreaks(b, l, at, key)
    ensures Breaks(b, l, at)
  {
    if !Breaks(b, l, at) {
      KeyKept(b, l, at, key);
    }
  }

  lemma AddingKey(b: Json, l: Json, at: Position, key: string)
    requires b.JObj? && l.JObj? && KeyAdds(b, l, at, key)
    ensures Adds(b, l, at)
  {
    if !Adds(b, l, at) {
      KeyAddsNothing(b, l, at, key);
    }
  }

  lemma NoKeyAdds(b: Json, l: Json, at: Position)
    requires b.JObj? && l.JObj? && forall key :: !KeyAdds(b, l, at, key)
    ensures !Adds(b, l, at)
  {
    hide KeyAdds;
  }

  // ---- Unlisted properties, items, everything else ----

  /** The rest of an object: opening it is additive, closing it breaking, and between two schemas it is theirs. */
  lemma ExtrasVerdict(b: Json, l: Json)
    requires AlikeBut(b, l, "additionalProperties")
    ensures var was, now := Get(b, "additionalProperties"), Get(l, "additionalProperties");
            Classification(b, l)
            == if was == now then NoChange
               else if was == Some(JBool(false)) then Additive
               else if now == Some(JBool(false)) then Breaking
               else if was.Some? && now.Some? && was.value.JObj? && now.value.JObj? then
                 if Breaks(was.value, now.value, Inner) then Breaking
                 else if Adds(was.value, now.value, Inner) then Additive
                 else NoChange
               else Breaking
  {
    hide Breaks, Adds;
    OnlyKeyDecides(b, l, Root, "additionalProperties");
    var was, now := Get(b, "additionalProperties"), Get(l, "additionalProperties");
    if was.Some? && now.Some? && was.value.JObj? && now.value.JObj? && was == now {
      NotBreakingItself(was.value, Inner);
    }
  }

  /** Two item schemas are compared; otherwise any difference is breaking. */
  lemma ItemsVerdict(b: Json, l: Json)
    requires AlikeBut(b, l, "items")
    ensures var was, now := Get(b, "items"), Get(l, "items");
            Classification(b, l)
            == if was.Some? && now.Some? && was.value.JObj? && now.value.JObj? then
                 if Breaks(was.value, now.value, Inner) then Breaking
                 else if Adds(was.value, now.value, Inner) then Additive
                 else NoChange
               else if was == now then NoChange
               else Breaking
  {
    hide Breaks, Adds;
    OnlyKeyDecides(b, l, Root, "items");
  }

  /** Any other keyword, `type` and `const` among them, breaks on any difference. */
  lemma OtherKeywordVerdict(b: Json, l: Json, key: string)
    requires AlikeBut(b, l, key)
    requires key !in {"title", "description", "$id", "required", "properties", "additionalProperties", "items", "enum"}
    ensures Classification(b, l) == if b == l then NoChange else Breaking
  {
    hide Breaks, Adds;
    OnlyKeyDecides(b, l, Root, key);
    SameFields(b, l, key);
  }

  /** Below the root the identity and every constant count too; titles and descriptions still never do. */
  lemma InnerKeywordVerdict(b: Json, l: Json, key: string)
    requires AlikeBut(b, l, key)
    requires key !in {"required", "properties", "additionalProperties", "items", "enum"}
    ensures Breaks(b, l, Inner) <==> b != l && key != "title" && key != "description"
    ensures !Adds(b, l, Inner)
  {
    hide Breaks, Adds;
    OnlyKeyDecides(b, l, Inner, key);
    SameFields(b, l, key);
  }

  /** Of a version property only the constant is let go. */
  lemma VersionPropertyVerdict(b: Json, l: Json, key: string)
    requires AlikeBut(b, l, key)
    requires key !in {"required", "properties", "additionalProperties", "items", "enum"}
    ensures Breaks(b, l, VersionConst) <==> b != l && key != "title" && key != "description" && key != "const"
  {
    hide Breaks, Adds;
    OnlyKeyDecides(b, l, VersionConst, key);
    SameFields(b, l, key);
  }

  // ---- The version rule ----

  /**
   A release passes unchanged only at the very version; with additions only on a higher major, or on the
   same major and a higher minor whatever the patch; and with a break only on a higher major.
   */
  lemma VersionRule(from: Version, to: Version)
    ensures VersionAllows(NoChange, from, to) <==> from == to
    ensures VersionAllows(Additive, from, to)
       <==> to.major > from.major || (to.major == from.major && to.minor > from.minor)
    ensures VersionAllows(Breaking, from, to) <==> to.major > from.major
    ensures to.major == from.major && to.minor == from.minor ==> !VersionAllows(Additive, from, to)
  {
  }
}
