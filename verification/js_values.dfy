/** Values as the JavaScript source sees them where it tests `typeof x === 'string'`,
    and the null-or-value results its helpers return. */
module JsValues {

  /** A JavaScript value: a string, or anything else (`undefined`, `null`, a number,
      an object, ...). The source never looks inside a non-string value. */
  datatype JsValue = Str(s: string) | NonString

  /** A result that is either `null` or a value. */
  datatype Option<T> = None | Some(value: T)
}
