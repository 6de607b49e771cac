/** Failure-compatible carriers used throughout the model. */
module Wrappers {

  /** An optional value: Python's `None` or a present value. */
  datatype Option<+T> = None | Some(value: T)

  /** The outcome of a step that can abort the script: a value or the reason it stopped. */
  datatype Result<+R, +E> = Success(value: R) | Failure(error: E) {

    predicate IsFailure() {
      Failure?
    }

    function PropagateFailure<U>(): Result<U, E>
      requires Failure?
    {
      Failure(error)
    }

    function Extract(): R
      requires Success?
    {
      value
    }
  }
}

/** Every way the generator script stops with a non-zero exit status. */
module Errors {

  datatype Error =
    /** The explicit configuration path is not an existing file (sbml.py:47-50, exit 1). */
    | ConfigNotFound(path: string)
    /** More than four user arguments (sbml.py:61-63, exit 1). */
    | Usage
    /** ElementTree could not parse the configuration file (sbml.py:182-186, exit 1). */
    | XmlParseError(path: string)
    /** No `intracellular` element: the loop at sbml.py:224 iterates `None` and raises. */
    | NoEntryPoint
    /** A `map` child lacks `key`; `entry` is the map counter when the KeyError is raised
        (sbml.py:240-245). */
    | MissingAttribute(entry: nat, key: string)
}
