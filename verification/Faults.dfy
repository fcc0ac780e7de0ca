// Fault schedules shared by every transaction model.

module Faults {

  datatype Option<+T> = None | Some(value: T)

  /** What the operating system does with one call: it takes effect and reports
      success, it fails without effect, or it takes effect and still reports a
      failure (a lost acknowledgement, a failed final synchronization). */
  datatype Outcome = Succeeds | FailsBefore | FailsAfter

  /** A schedule assigns an outcome to every call, in call order. */
  type Schedule = nat -> Outcome

  /** No call from number `from` on is disturbed. */
  ghost predicate Quiet(schedule: Schedule, from: nat) {
    forall i: nat :: from <= i ==> schedule(i) == Succeeds
  }

  /** No call numbered `from` up to `upTo` is disturbed. */
  ghost predicate QuietBetween(schedule: Schedule, from: nat, upTo: nat) {
    forall i: nat :: from <= i < upTo ==> schedule(i) == Succeeds
  }
}
