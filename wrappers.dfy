/** Missing values and failing steps.

    A pandas cell that holds NaN / None is `None`; a step of a script that
    raises (and so ends the run) yields `Failure`. */
module Wrappers {

  datatype Option<+T> = None | Some(value: T)

  datatype Result<+R, +E> = Success(value: R) | Failure(error: E)
}
