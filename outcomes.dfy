/** Result types shared by the whole model.

    The script never returns error values: it either returns normally,
    terminates the interpreter with `sys.exit(code)`, or lets an exception
    escape.  `Outcome` makes those three endings explicit values. */
module Outcomes {

  datatype Option<+T> = None | Some(value: T)

  /** How one step of the script ends. */
  datatype Outcome<+T> =
    | Done(value: T)        // the step returned normally
    | Exit(code: int)       // the step called exit(code) / sys.exit(code)
    | Raised(reason: string) // an exception escaped the step
}
