/** The structured values that flow through a workflow context: JSON, with
    integers standing in for JavaScript numbers. */
module JsonModel {

  datatype Json =
    | JNull
    | JBool(b: bool)
    | JNum(n: int)
    | JStr(s: string)
    | JArr(items: seq<Json>)
    | JObj(fields: map<string, Json>)

  /** A tool-call payload, a workflow context or any other plain object. */
  type Object = map<string, Json>
}
