/** Failure-compatible wrappers shared by the versioning model. */
module Results {

  /** An optional value: an attribute that may be absent, a dictionary lookup that may miss. */
  datatype Option<+T> = None | Some(value: T) {

    /** The wrapped value, or `default` when there is none. */
    function GetOr(default: T): T {
      match this
      case Some(v) => v
      case None => default
    }
  }

  /** Why a version template could not be turned into text. */
  datatype FormatFault =
    | SingleOpen    // a `{` that is the last character of the template
    | SingleClose   // a `}` that is not doubled and closes no field
    | Unclosed      // a `{` that opens a field no `}` ever closes
    | BraceInField  // a `{` inside a field name, before the `}` that would close it

  /** The errors the versioning routine can raise. */
  datatype Error =
    | Malformed(fault: FormatFault)   // a template that is not a valid format string
    | UnknownField(name: string)      // a placeholder other than `major` and `minor`
    | UnboundVersion                  // the latest alias was asked for but no version was ever seen

  /** Either a value or the error the source raises instead of returning. */
  datatype Result<+T> = Ok(value: T) | Err(error: Error) {

    predicate IsFailure() {
      Err?
    }

    function PropagateFailure<U>(): Result<U>
      requires Err?
    {
      Err(error)
    }

    function Extract(): T
      requires Ok?
    {
      value
    }
  }
}
