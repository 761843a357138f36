/** Optional values and error-carrying results shared by every module of the model. */
module Wrappers {

  /** A value that may be absent: JavaScript's `null` / `undefined` on a field. */
  datatype Option<+T> = None | Some(value: T)
  {
    /** `x || d` for a field whose only falsy value is absence. */
    function GetOr(default: T): (r: T)
      ensures this.Some? ==> r == value
      ensures this.None? ==> r == default
    {
      match this
      case None => default
      case Some(v) => v
    }
  }

  /** The outcome of an operation that throws or returns an error in the source. */
  datatype Result<+T, +E> = Ok(value: T) | Err(error: E)
}

/** The HTTP reply of a handler: a success code with a body, or an error code with a reason. */
module Http {
  import opened Wrappers

  datatype Response<+T> = Reply(code: nat, body: T) | Refused(code: nat, reason: string)
  {
    predicate IsSuccess() { Reply? && 200 <= code < 300 }
  }

  /**
   * A number field of a JSON request body: sent as a JSON number, or as a
   * text together with the value `parseFloat` reads from it. Both values are
   * in minor units.
   */
  datatype BodyNumber = JsonNumber(value: int) | NumericText(text: string, value: int)

  /** JavaScript truthiness: a number is falsy only when 0, a text only when empty. */
  predicate Truthy(b: BodyNumber)
  {
    if b.JsonNumber? then b.value != 0 else b.text != []
  }

  /** `!field` is false: the field is present and truthy. */
  predicate Given(b: Option<BodyNumber>)
  {
    b.Some? && Truthy(b.value)
  }

  /** The text "0" passes a `!field` guard and reads as zero; the number 0 does not pass. */
  lemma ZeroTextIsGiven()
    ensures Given(Some(NumericText("0", 0))) && !Given(Some(JsonNumber(0)))
  {
  }
}
