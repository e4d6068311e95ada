/** The JSON-like values that the request layer hands to the models as
    parsed request bodies, and that the models hand back when serialising. */
module Json {

  datatype Json =
    | JNull
    | JBool(b: bool)
    | JInt(i: int)
    /** A floating-point number; it is carried through unchanged and never
        computed with, so its exact representation does not matter. */
    | JNum(x: real)
    | JStr(s: string)
    | JList(items: seq<Json>)
    /** A mapping (Python `dict`) from keys to values. */
    | JObj(fields: map<string, Json>)
}
