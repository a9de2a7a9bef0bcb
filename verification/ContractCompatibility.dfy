/**
 The contract-change classifier (scripts/contract-compatibility.ts). Objects are maps; the collector
 keeps whether each of its two lists has an entry, which is all the verdict reads. `Breaks` and `Adds`
 say declaratively when a diff files a breaking or an additive reason; the methods are the source's
 recursion over a shared collector.
 */
module ContractCompatibility {
  import opened Wrappers
  import opened Strings
  import opened JsonText
  import opened PlainObjects

  datatype Json =
    | JNull
    | JBool(value: bool)
    | JNum(text: NumberText)
    | JStr(chars: string)
    | JArr(items: seq<Json>)
    | JObj(fields: map<string, Json>)

  type Schema = s: Json | s.JObj? witness JObj(map[])

  // ---- Comparing JSON by stable text ----

  lemma {:induction false} LeastKey(keys: set<string>) returns (least: string)
    requires keys != {}
    ensures least in keys && forall k :: k in keys ==> Le(least, k)
    decreases keys
  {
    var any :| any in keys;
    LeTotal(any, any);
    if keys == {any} {
      least := any;
    } else {
      var rest := LeastKey(keys - {any});
      LeTotal(any, rest);
      least := if Le(any, rest) then any else rest;
      forall k | k in keys ensures Le(least, k) {
        if k != any && least == any {
          LeTransitive(any, rest, k);
        }
      }
    }
  }

  lemma LeastKeyUnique(keys: set<string>)
    ensures keys != {} ==> exists k :: k in keys && forall j :: j in keys ==> Le(k, j)
    ensures forall a, b :: && a in keys && (forall j :: j in keys ==> Le(a, j))
                           && b in keys && (forall j :: j in keys ==> Le(b, j))
                           ==> a == b
  {
    if keys != {} {
      var least := LeastKey(keys);
    }
    forall a, b | a in keys && b in keys && (forall j :: j in keys ==> Le(a, j)) && (forall j :: j in keys ==> Le(b, j))
      ensures a == b
    {
      LeAntisymmetric(a, b);
    }
  }

  /** `Object.keys(value).sort()`. */
  function SortedKeys(keys: set<string>): (sorted: seq<string>)
    ensures forall k :: k in sorted <==> k in keys
  {
    if keys == {} then []
    else
      LeastKeyUnique(keys);
      var least :| least in keys && forall j :: j in keys ==> Le(least, j);
      [least] + SortedKeys(keys - {least})
  }

  /** The document whose text `stableStringify` writes: keys sorted at every level. */
  function Ordered(json: Json): Doc
    decreases json
  {
    match json
    case JNull => Null
    case JBool(value) => Bool(value)
    case JNum(text) => Num(text)
    case JStr(chars) => Str(chars)
    case JArr(items) => Arr(seq(|items|, i requires 0 <= i < |items| => Ordered(items[i])))
    case JObj(fields) =>
      var keys := SortedKeys(fields.Keys);
      Obj(seq(|keys|, i requires 0 <= i < |keys| =>
        (assert keys[i] in keys; Member(keys[i], Ordered(fields[keys[i]])))))
  }

  function StableStringify(json: Json): string {
    Print(Ordered(json))
  }

  /** An absent key is `undefined`, which no text equals. */
  predicate SameJson(a: Option<Json>, b: Option<Json>) {
    if a.Some? && b.Some? then StableStringify(a.value) == StableStringify(b.value) else a.None? && b.None?
  }

  lemma {:induction false} OrderedInjective(a: Json, b: Json)
    requires Ordered(a) == Ordered(b)
    ensures a == b
    decreases a
  {
    match a {
      case JArr(items) =>
        var oa, ob := Ordered(a).items, Ordered(b).items;
        forall i | 0 <= i < |items| ensures items[i] == b.items[i] {
          assert oa[i] == ob[i];
          OrderedInjective(items[i], b.items[i]);
        }
      case JObj(fields) =>
        FieldsInjective(a, b);
      case _ =>
    }
  }

  lemma {:induction false} FieldsInjective(a: Json, b: Json)
    requires a.JObj? && b.JObj? && Ordered(a) == Ordered(b)
    ensures a == b
    decreases a, 0
  {
    hide SortedKeys;
    var ka, kb := SortedKeys(a.fields.Keys), SortedKeys(b.fields.Keys);
    var ma, mb := Ordered(a).members, Ordered(b).members;
    forall i | 0 <= i < |ka| ensures ka[i] == kb[i] {
      assert ma[i].name == mb[i].name;
    }
    assert ka == kb;
    forall k ensures k in a.fields <==> k in b.fields {
      assert k in ka <==> k in a.fields.Keys;
    }
    forall k | k in a.fields ensures a.fields[k] == b.fields[k] {
      assert k in ka;
      var i :| 0 <= i < |ka| && ka[i] == k;
      assert ma[i].value == mb[i].value;
      OrderedInjective(a.fields[k], b.fields[k]);
    }
    assert a.fields == b.fields;
  }

  /** Stable texts agree exactly on equal values, whatever order their keys were written in. */
  lemma SameJsonExact(a: Option<Json>, b: Option<Json>)
    ensures SameJson(a, b) <==> a == b
  {
    hide Ordered, Print;
    if a.Some? && b.Some? {
      PrintInjective(Ordered(a.value), Ordered(b.value));
      if Ordered(a.value) == Ordered(b.value) {
        OrderedInjective(a.value, b.value);
      }
    }
  }

  // ---- What a diff files ----

  const PROSE_KEYS: set<string> := {"title", "description"}
  const VERSION_CONST_PROPERTIES: set<string> := {"$schema", "schemaVersion"}

  /** The document root (an empty path), a root version property, or anywhere else. */
  datatype Position = Root | VersionConst | Inner

  function ChildAt(at: Position, name: string): Position {
    if at != Root then Inner
    else if name == "" then Root
    else if name in VERSION_CONST_PROPERTIES then VersionConst
    else Inner
  }

  function Get(node: Json, key: string): Option<Json> {
    if node.JObj? && key in node.fields then Some(node.fields[key]) else None
  }

  function Props(node: Json): map<string, Json> {
    if node.JObj? && "properties" in node.fields && node.fields["properties"].JObj? then
      node.fields["properties"].fields
    else
      map[]
  }

  function Required(node: Json): set<string> {
    if node.JObj? && "required" in node.fields && node.fields["required"].JArr?
    then set v | v in node.fields["required"].items && v.JStr? :: v.chars
    else {}
  }

  predicate Named(name: string, props: map<string, Json>) {
    name in props || name in OBJECT_PROTOTYPE
  }

  predicate Skipped(key: string, at: Position) {
    key in PROSE_KEYS || key == "required" || (key == "$id" && at == Root) || (key == "const" && at == VersionConst)
  }

  const CLOSED: Option<Json> := Some(JBool(false))

  predicate BothSchemas(b: Option<Json>, l: Option<Json>) {
    b.Some? && l.Some? && b.value.JObj? && l.value.JObj?
  }

  predicate EnumLost(b: Option<Json>, l: Option<Json>) {
    if b.Some? && l.Some? && b.value.JArr? && l.value.JArr? then
      exists v :: v in b.value.items && v !in l.value.items
    else
      b != l
  }

  ghost predicate Breaks(b: Json, l: Json, at: Position)
    requires b.JObj? && l.JObj?
    decreases b, 3
  {
    exists key :: (key in b.fields || key in l.fields) && KeyBreaks(b, l, at, key)
  }

  ghost predicate KeyBreaks(b: Json, l: Json, at: Position, key: string)
    requires b.JObj? && l.JObj?
    decreases b, 2
  {
    && !Skipped(key, at)
    && if key == "properties" then
         || (exists name :: name in Props(b) && PropBreaks(b, l, at, name))
         || exists name :: name in Props(l) && !Named(name, Props(b)) && name in Required(l)
       else if key == "additionalProperties" then ExtrasBreak(b, l)
       else if key == "items" && BothSchemas(Get(b, key), Get(l, key)) then
         Breaks(b.fields[key], l.fields[key], Inner)
       else if key == "enum" then EnumLost(Get(b, key), Get(l, key))
       else
         Get(b, key) != Get(l, key)
  }

  /** A baseline property is gone, changed requiredness, or changed shape. */
  ghost predicate PropBreaks(b: Json, l: Json, at: Position, name: string)
    requires b.JObj? && l.JObj? && name in Props(b)
    decreases b, 1
  {
    || name !in Props(l)
    || (name in Required(b) <==> name !in Required(l))
    || if Props(b)[name].JObj? && Props(l)[name].JObj? then Breaks(Props(b)[name], Props(l)[name], ChildAt(at, name))
       else Props(b)[name] != Props(l)[name]
  }

  ghost predicate ExtrasBreak(b: Json, l: Json)
    requires b.JObj? && l.JObj?
    decreases b, 1
  {
    var be, le := Get(b, "additionalProperties"), Get(l, "additionalProperties");
    && be != le && be != CLOSED
    && (le == CLOSED || !BothSchemas(be, le) || Breaks(be.value, le.value, Inner))
  }

  ghost predicate Adds(b: Json, l: Json, at: Position)
    requires b.JObj? && l.JObj?
    decreases b, 3
  {
    exists key :: (key in b.fields || key in l.fields) && KeyAdds(b, l, at, key)
  }

  ghost predicate KeyAdds(b: Json, l: Json, at: Position, key: string)
    requires b.JObj? && l.JObj?
    decreases b, 2
  {
    if key == "properties" then
      || (exists name :: name in Props(b) && PropAdds(b, l, at, name))
      || exists name :: name in Props(l) && !Named(name, Props(b)) && name !in Required(l)
    else if key == "additionalProperties" then ExtrasAdd(b, l)
    else if key == "items" then
      BothSchemas(Get(b, key), Get(l, key)) && Adds(b.fields[key], l.fields[key], Inner)
    else if key == "enum" then Get(b, key) != Get(l, key) && !EnumLost(Get(b, key), Get(l, key))
    else
      false
  }

  ghost predicate PropAdds(b: Json, l: Json, at: Position, name: string)
    requires b.JObj? && l.JObj? && name in Props(b)
    decreases b, 1
  {
    name in Props(l) && Props(b)[name].JObj? && Props(l)[name].JObj?
      && Adds(Props(b)[name], Props(l)[name], ChildAt(at, name))
  }

  ghost predicate ExtrasAdd(b: Json, l: Json)
    requires b.JObj? && l.JObj?
    decreases b, 1
  {
    var be, le := Get(b, "additionalProperties"), Get(l, "additionalProperties");
    && be != le
    && (be == CLOSED || (le != CLOSED && BothSchemas(be, le) && Adds(be.value, le.value, Inner)))
  }

  // ---- The recursion over a shared collector ----

  class Collector {
    var additive: bool
    var breaking: bool

    constructor ()
      ensures !additive && !breaking
    {
      additive, breaking := false, false;
    }
  }

  twostate predicate Files(out: Collector, adds: bool, breaks: bool)
    reads out
  {
    out.additive == (old(out.additive) || adds) && out.breaking == (old(out.breaking) || breaks)
  }

  method DiffNode(base: Json, live: Json, at: Position, out: Collector)
    requires base.JObj? && live.JObj?
    modifies out
    ensures Files(out, Adds(base, live, at), Breaks(base, live, at))
    decreases base, 3
  {
    hide KeyBreaks, KeyAdds;
    var keys := base.fields.Keys + live.fields.Keys;
    ghost var all := keys;
    while keys != {}
      invariant keys <= all
      invariant Files(out, exists key :: key in all - keys && KeyAdds(base, live, at, key),
                           exists key :: key in all - keys && KeyBreaks(base, live, at, key))
      decreases keys
    {
      var key :| key in keys;
      DiffKey(base, live, at, key, out);
      keys := keys - {key};
    }
    assert forall key :: key in all <==> key in base.fields || key in live.fields;
  }

  method DiffKey(base: Json, live: Json, at: Position, key: string, out: Collector)
    requires base.JObj? && live.JObj?
    modifies out
    ensures Files(out, KeyAdds(base, live, at, key), KeyBreaks(base, live, at, key))
    decreases base, 2
  {
    hide Breaks, Adds, Props, Required, SameJson;
    var b, l := Get(base, key), Get(live, key);
    SameJsonExact(b, l);
    if key in PROSE_KEYS || (key == "$id" && at == Root) || (key == "const" && at == VersionConst) {
      return;
    }
    if key == "properties" {
      DiffProperties(base, live, at, out);
    } else if key == "required" {
    } else if key == "additionalProperties" {
      DiffAdditionalProperties(base, live, out);
    } else if key == "items" {
      if BothSchemas(b, l) {
        DiffNode(b.value, l.value, Inner, out);
      } else if !SameJson(b, l) {
        out.breaking := true;
      }
    } else if key == "enum" {
      DiffEnum(b, l, out);
    } else if !SameJson(b, l) {
      out.breaking := true;
    }
  }

  method DiffProperties(base: Json, live: Json, at: Position, out: Collector)
    requires base.JObj? && live.JObj?
    modifies out
    ensures Files(out, KeyAdds(base, live, at, "properties"), KeyBreaks(base, live, at, "properties"))
    decreases base, 1
  {
    hide PropBreaks, PropAdds, Props, Required;
    var baseProps, liveProps := Props(base), Props(live);
    var baseRequired, liveRequired := Required(base), Required(live);
    var names := baseProps.Keys;
    while names != {}
      invariant names <= baseProps.Keys
      invariant Files(out, exists name :: name in baseProps && name !in names && PropAdds(base, live, at, name),
                           exists name :: name in baseProps && name !in names && PropBreaks(base, live, at, name))
      decreases names
    {
      var name :| name in names;
      DiffProperty(base, live, at, name, out);
      names := names - {name};
    }
    label Shared:
    names := liveProps.Keys;
    while names != {}
      invariant names <= liveProps.Keys
      invariant Files@Shared(out,
                             exists name :: name in liveProps && name !in names && !Named(name, baseProps)
                                            && name !in liveRequired,
                             exists name :: name in liveProps && name !in names && !Named(name, baseProps)
                                            && name in liveRequired)
      decreases names
    {
      var name :| name in names;
      if !Named(name, baseProps) {
        if name in liveRequired {
          out.breaking := true;
        } else {
          out.additive := true;
        }
      }
      names := names - {name};
    }
  }

  method DiffProperty(base: Json, live: Json, at: Position, name: string, out: Collector)
    requires base.JObj? && live.JObj? && name in Props(base)
    modifies out
    ensures Files(out, PropAdds(base, live, at, name), PropBreaks(base, live, at, name))
    decreases base, 0
  {
    hide Breaks, Adds, Required, SameJson;
    if name !in Props(live) {
      out.breaking := true;
      return;
    }
    if (name in Required(base)) != (name in Required(live)) {
      out.breaking := true;
    }
    var b, l := Props(base)[name], Props(live)[name];
    SameJsonExact(Some(b), Some(l));
    if b.JObj? && l.JObj? {
      DiffNode(b, l, ChildAt(at, name), out);
    } else if !SameJson(Some(b), Some(l)) {
      out.breaking := true;
    }
  }

  method DiffAdditionalProperties(base: Json, live: Json, out: Collector)
    requires base.JObj? && live.JObj?
    modifies out
    ensures Files(out, ExtrasAdd(base, live), ExtrasBreak(base, live))
    decreases base, 1
  {
    hide Breaks, Adds, SameJson;
    var b, l := Get(base, "additionalProperties"), Get(live, "additionalProperties");
    SameJsonExact(b, l);
    if SameJson(b, l) {
      return;
    }
    if b == CLOSED && l != CLOSED {
      out.additive := true;
      return;
    }
    if b != CLOSED && l == CLOSED {
      out.breaking := true;
      return;
    }
    if BothSchemas(b, l) {
      DiffNode(b.value, l.value, Inner, out);
      return;
    }
    out.breaking := true;
  }

  method DiffEnum(b: Option<Json>, l: Option<Json>, out: Collector)
    modifies out
    ensures Files(out, b != l && !EnumLost(b, l), EnumLost(b, l))
  {
    hide SameJson;
    SameJsonExact(b, l);
    if SameJson(b, l) {
      return;
    }
    if b.None? || l.None? || !b.value.JArr? || !l.value.JArr? {
      out.breaking := true;
      return;
    }
    var liveSet := set v | v in l.value.items;
    var lost := false;
    for i := 0 to |b.value.items|
      invariant lost <==> exists j :: 0 <= j < i && b.value.items[j] !in l.value.items
    {
      if b.value.items[i] !in liveSet {
        lost := true;
      }
    }
    if lost {
      out.breaking := true;
    } else {
      out.additive := true;
    }
  }

  // ---- The verdict ----

  datatype Change = NoChange | Additive | Breaking

  ghost function Classification(baseline: Json, live: Json): Change
    requires baseline.JObj? && live.JObj?
  {
    if Breaks(baseline, live, Root) then Breaking else if Adds(baseline, live, Root) then Additive else NoChange
  }

  method ClassifySchemaChange(baseline: Json, live: Json) returns (change: Change)
    requires baseline.JObj? && live.JObj?
    ensures change == Classification(baseline, live)
  {
    hide Breaks, Adds;
    var out := new Collector();
    DiffNode(baseline, live, Root, out);
    if out.breaking {
      return Breaking;
    }
    if out.additive {
      return Additive;
    }
    return NoChange;
  }

  datatype Version = Version(major: nat, minor: nat, patch: nat)

  function CompareVersions(a: Version, b: Version): int {
    if a.major != b.major then a.major - b.major
    else if a.minor != b.minor then a.minor - b.minor
    else a.patch - b.patch
  }

  /** Whether the versions announce the change as the published rule asks. */
  predicate VersionAllows(change: Change, baseline: Version, live: Version) {
    match change
    case NoChange => CompareVersions(live, baseline) == 0
    case Additive => live.major > baseline.major || (live.major == baseline.major && live.minor > baseline.minor)
    case Breaking => live.major > baseline.major
  }
}
