/**
 * A string field of a JSON record as the user pages receive it: the field may
 * be missing (`undefined`), `null`, or a string, and the pages treat the
 * three differently (optional chaining, `Set` membership, `Array.sort`).
 */
module JsStrings {
  import opened Common

  /** A string field of a JSON record: missing (`undefined`), `null`, or a
      string. */
  datatype JsString = Undefined | Null | Str(s: string)

  /** What optional chaining sees: no string for `undefined` and `null`. */
  function StrOpt(v: JsString): Option<string> {
    if v.Str? then Some(v.s) else None
  }
}
