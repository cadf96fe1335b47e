/** Looking names up in plain JavaScript objects. */
module PlainObject {

  /**
   * Names every plain object inherits from Object.prototype. A lookup by one of them finds something truthy in an
   * object that does not hold it.
   */
  const INHERITED: set<string> := {
    "constructor", "hasOwnProperty", "isPrototypeOf", "propertyIsEnumerable", "toLocaleString", "toString",
    "valueOf", "__proto__", "__defineGetter__", "__defineSetter__", "__lookupGetter__", "__lookupSetter__"}
}
