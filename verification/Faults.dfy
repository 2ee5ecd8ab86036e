/** Calls to a cloud API that may fail before or after taking effect. */
module Faults {
  /** FailAfter is an error reported although the call took effect. */
  datatype Outcome = Ok | FailBefore | FailAfter

  ghost predicate AllOk(schedule: nat -> Outcome) {
    forall n: nat :: schedule(n).Ok?
  }
}
