/** Failure-compatible result types and the error taxonomy of the batch command line. */
module Wrappers {

  /** An optional value: Python's `None` or a present value. */
  datatype Option<+T> = None | Some(value: T)

  /** A value or the error that stopped the computation; usable with `:-`. */
  datatype Result<+T, +E> = Ok(value: T) | Err(error: E) {

    predicate IsFailure() {
      Err?
    }

    function PropagateFailure<U>(): Result<U, E>
      requires Err?
    {
      Err(error)
    }

    function Extract(): T
      requires Ok?
    {
      value
    }
  }
}

/** The ways in which `main` of the batch command line stops before running the pipeline. */
module Errors {

  datatype CliError =
      /** Neither `-o/--output` was given nor was the format list exactly `['stdout']`. */
    | OutputRequired
      /** A `-S` entry did not split on `:` into exactly two parts (the `ValueError` of the unpack). */
    | MalformedSubstitution(entry: string)
      /** `os.path.dirname` was handed the `False` default of `--output` (a `TypeError`). */
    | OutputNotAPath
}
