/**
 * Reading a key of a JavaScript object literal as the application's lookup
 * tables do, with `table[key] || fallback`. The read follows the prototype
 * chain, so besides the literal's own keys it also finds the names every
 * plain object inherits from `Object.prototype`. Each of those is a function,
 * or for `__proto__` the prototype object itself: truthy, and not a string.
 */
module ObjectLiteral {

  /** The properties a plain object inherits from `Object.prototype`. */
  const Inherited: set<string> := {
    "constructor", "hasOwnProperty", "isPrototypeOf", "propertyIsEnumerable", "toLocaleString",
    "toString", "valueOf", "__proto__", "__defineGetter__", "__defineSetter__",
    "__lookupGetter__", "__lookupSetter__"
  }

  /** What `table[key] || fallback` evaluates to: a string, or an inherited member that is none. */
  datatype Shown = Str(s: string) | InheritedMember(name: string)

  /** The lookup the tables are meant for: an own, non-empty value, otherwise the fallback. */
  function OwnOr(table: map<string, string>, key: string, fallback: string): (r: string)
    ensures r == fallback || (key in table && r == table[key])
  {
    if key in table && table[key] != "" then table[key] else fallback
  }

  /** `table[key] || fallback` as JavaScript evaluates it: own keys, then the prototype chain. */
  function ReadOr(table: map<string, string>, key: string, fallback: string): Shown {
    if key in table then Str(if table[key] != "" then table[key] else fallback)
    else if key in Inherited then InheritedMember(key)
    else Str(fallback)
  }

  /**
   * The read as written gives the intended label for every key that is an own
   * key or no inherited name, and an inherited member, no string, for the rest.
   */
  lemma ReadOrAgrees(table: map<string, string>, key: string, fallback: string)
    ensures key in table || key !in Inherited ==> ReadOr(table, key, fallback) == Str(OwnOr(table, key, fallback))
    ensures key !in table && key in Inherited ==> !ReadOr(table, key, fallback).Str?
  {
  }
}
