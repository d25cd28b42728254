/** Failure-compatible result type shared by all modules: Java's exceptions become error values. */
module Common {

  /** The exceptions the plugins throw or let escape, by kind. */
  datatype Error =
    | PluginException        // de.intranda...PluginException: planning or template failure
    | IllegalArgument        // IllegalArgumentException (history move across folders, non-unique METS match)
    | NullPointer            // a Path without a file name or parent where the code dereferences one
    | IndexOutOfBounds       // String.substring or array index out of range
    | NumberFormat           // Integer.parseInt on a digit string that does not fit an int
    | IoException            // a storage operation that failed
    | UnresolvableCycle      // the conflict-free order has no removable entry left

  datatype Option<+T> = None | Some(value: T)

  datatype Result<+T> = Ok(value: T) | Err(error: Error) {
    predicate IsFailure() { Err? }
    function PropagateFailure<U>(): Result<U> requires Err? { Err(error) }
    function Extract(): T requires Ok? { value }
  }

  /** A non-empty sequence is its front followed by its last element. */
  lemma FrontLast<T>(s: seq<T>)
    requires s != []
    ensures s == s[..|s| - 1] + [s[|s| - 1]]
  {
  }

  /** What a step plugin's `run` reports to the workflow. */
  datatype PluginReturnValue = Finish | Error
}
