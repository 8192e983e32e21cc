/** The loosely-typed JavaScript values the handler narrows by hand: the
    request's `workspaceId` and the workspace document's `ownerId`,
    `inviteEnabled` and `inviteRole` fields, none of which the source trusts
    to have a particular type. */
module Js {

  /** A JavaScript value. Numbers are modelled as integers; `Object` stands
      for any object, array or function, whose contents the handler never
      inspects. */
  datatype JsValue =
    | Undefined
    | Null
    | Bool(b: bool)
    | Number(n: int)
    | Str(s: string)
    | Object

  /** JavaScript truthiness: what `if (v)`, `!v` and `v || w` test. */
  predicate Truthy(v: JsValue) {
    match v
    case Undefined => false
    case Null => false
    case Bool(b) => b
    case Number(n) => n != 0
    case Str(s) => s != []
    case Object => true
  }

  /** `a || b`: the first operand when it is truthy, the second otherwise. */
  function Or(a: JsValue, b: JsValue): JsValue {
    if Truthy(a) then a else b
  }
}
