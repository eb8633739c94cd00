/** Stimulus rows and the JavaScript property reads the plan generator performs
    on them. A row is a record of column name to cell text; reading a column
    the row does not have yields `undefined`, which every `||` chain of the
    source treats like the empty string. */
module Rows {
  import opened JsString

  type Row = map<string, string>

  /** `row[key]` as a JavaScript value: `undefined` when the column is absent. */
  function FieldValue(row: Row, key: string): (v: JsValue)
    ensures v.Undefined? || v.Str?
    ensures v.Str? <==> key in row
  {
    if key in row then Str(row[key]) else Undefined
  }

  /** `row[key] || <next>`: the cell text, or the empty string when the column is
      absent, so that `Or` decides the fallback exactly as `||` does. */
  function Field(row: Row, key: string): (v: string)
    ensures v != [] ==> key in row && row[key] == v
  {
    if key in row then row[key] else ""
  }

  /** `obj[key] || fallback` on a string-valued object such as the mask map. */
  function Lookup(obj: map<string, string>, key: string, fallback: string): (v: string)
    ensures v == fallback || (key in obj && v == obj[key] && v != [])
    ensures key in obj && obj[key] != [] ==> v == obj[key]
  {
    if key in obj && obj[key] != [] then obj[key] else fallback
  }

  /** `obj[value]` converts `value` to a property key with `String(value)`: an
      absent `row.method` looks up the key "undefined". */
  function PropertyKey(v: JsValue): (k: string)
    ensures v.Str? ==> k == v.s
    ensures v.Undefined? ==> k == "undefined"
  {
    ToJsString(v)
  }
}
