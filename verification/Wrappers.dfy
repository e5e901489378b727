/** Values that may be missing, and answers that may be refusals. */
module Wrappers {
  datatype Option<+T> = None | Some(value: T)

  datatype Result<+T, +E> = Success(value: T) | Failure(error: E)

  /** A step's answer: nothing was refused and the state is the new one, or it is as it was. */
  ghost predicate Answers<S, R>(spec: Result<S, R>, before: S, after: S, refusal: Option<R>) {
    match spec
    case Success(state) => refusal == None && after == state
    case Failure(why) => refusal == Some(why) && after == before
  }
}
