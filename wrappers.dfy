/** Failure values shared by every module: Python's exceptions become `Error` values. */
module Wrappers {

  datatype Option<+T> = None | Some(value: T) {
    function GetOr(default: T): T {
      match this
      case Some(v) => v
      case None => default
    }
  }

  /** Why a ValueError is raised. */
  datatype Reason =
    | BadActionArity              // an action string that is not `name:fields[:options]`
    | BadPair(entry: string)      // an entry without the `=` its list requires
    | UnpackMismatch              // `a, b = text.split('=')` on a text with more than one `=`
    | UnsupportedType             // an assign-constant type name outside str/int/float/bool
    | NoFloats                    // the `float` coercion, whose values this model does not carry
    | UnsupportedAction(name: string)
    | NotAnInteger(text: string)  // `int(text)` rejects the text
    | DepthTooHigh                // object expansion nested deeper than the guard allows
    | EmptySeparator              // `str.split('')`
    | RequiredMissing(field: string)
    | NoPrimaryColumns
    | IdExists(id: int)
    | NothingToConcatenate        // `pd.concat([])`: no input tables at all

  datatype Error =
    | ValueError(reason: Reason)
    | KeyError(key: string)
    | TypeError                   // an operation applied to a value of the wrong kind
    | AttributeError              // a dictionary method called on a value that is not a dictionary
    | IndexError                  // a position past the end, as `df.iloc[0]` on a table without rows

  datatype Result<+T> = Ok(value: T) | Err(error: Error) {
    predicate IsFailure() { Err? }
    function PropagateFailure<U>(): Result<U>
      requires Err?
    {
      Err(error)
    }
    function Extract(): T
      requires Ok?
    {
      value
    }
  }

  /** Whether a step that mutates in place finished or raised part-way. */
  datatype Outcome = Pass | Fail(error: Error)
}
