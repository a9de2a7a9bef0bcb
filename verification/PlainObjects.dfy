/** What a plain JavaScript object answers to without owning it. */
module PlainObjects {

  const OBJECT_PROTOTYPE: set<string> := {
    "constructor", "hasOwnProperty", "isPrototypeOf", "propertyIsEnumerable", "toLocaleString", "toString", "valueOf",
    "__defineGetter__", "__defineSetter__", "__lookupGetter__", "__lookupSetter__"
  }

  /** Names an indexed read finds on any plain object; `__proto__` reads the prototype itself. */
  const INHERITED: set<string> := OBJECT_PROTOTYPE + {"__proto__"}
}
