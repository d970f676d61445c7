/** The JavaScript values a parsed JSON log frame can carry. The panel
    tests them for truthiness and stores them in its log as they are;
    numbers are restricted to integers, and an object or array keeps no
    contents. */
module JsValues {

  /** A parsed JSON value, with numbers restricted to integers. */
  datatype JsValue =
    | JsString(text: string)
    | JsNumber(number: int)
    | JsBool(flag: bool)
    | JsNull
    | JsObject

  /** JavaScript truthiness: the empty string, `0`, `false` and `null` are
      falsy; everything else is truthy. */
  predicate Truthy(v: JsValue) {
    match v
    case JsString(s) => s != ""
    case JsNumber(n) => n != 0
    case JsBool(b) => b
    case JsNull => false
    case JsObject => true
  }

  /** Where the plugin sends user-visible messages. */
  datatype LogKind = Info | Error

  datatype TerminalLine = TerminalLine(kind: LogKind, value: JsValue)
}
