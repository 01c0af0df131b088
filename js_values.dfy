/**
 * The few JavaScript value notions the bot's handlers rely on: a field that
 * may be `undefined`/`null`, and string truthiness as used by `if (qr)` and
 * by the `||` in the message-text extraction.
 */
module JsValues {

  /** A JavaScript field that is either absent (`undefined`/`null`) or holds a value. */
  datatype Option<+T> = None | Some(value: T)

  /** JavaScript truthiness of an optional string: defined and not the empty string. */
  predicate Truthy(s: Option<string>)
  {
    s.Some? && s.value != ""
  }

  /**
   * The value of the JavaScript expression `a || b` on optional strings:
   * `a` when it is truthy, otherwise `b` (which may itself be falsy).
   */
  function Or(a: Option<string>, b: Option<string>): (r: Option<string>)
    ensures Truthy(r) <==> Truthy(a) || Truthy(b)
    ensures Truthy(a) ==> r == a
    ensures r == a || r == b
  {
    if Truthy(a) then a else b
  }
}
