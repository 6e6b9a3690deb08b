/** Errors raised by the form builder, and the values that carry them. */
module Results {

  /** The failures the form code can raise. */
  datatype Error =
    | UnknownHtmlType(htmlType: string)  // lookup of an html_type with no renderer
    | UnknownHook(hook: string)          // lookup of a hook name that is not registered
    | ValidationError                    // a required field of the specification is missing
    | FrontMatterNotMapping              // item assignment into a front matter that is a plain string

  datatype Option<T> = None | Some(value: T) {
    function GetOr(default: T): T {
      match this
      case Some(v) => v
      case None => default
    }
  }

  datatype Result<T> = Ok(value: T) | Err(error: Error)

  /** The outcome of an operation that returns nothing when it succeeds. */
  datatype Outcome = Pass | Fail(error: Error)
}
