// Shared vocabulary: optional values and the faults a durable step can meet.

module Common {

  datatype Option<+T> = None | Some(value: T)

  /** What happens to one durable step (a rename, a link, an unlink, a commit).
      `RaisesBefore` raises with no effect; `RaisesAfter` takes effect and then
      raises, as a failing directory fsync after a rename does; `Dies` stops the
      process before the step.  Stopping after a step is dying before the next. */
  datatype Fault = Completes | RaisesBefore | RaisesAfter | Dies

  /** What the code that issued the step observes. */
  datatype Step = Done | Raised | Died

  /** The faults still to come, one per durable step.  Steps past the end of the
      script complete, so a theorem about every script is a theorem about every
      pattern of exceptions and crashes. */
  type Script = seq<Fault>

  function NextFault(script: Script): Fault {
    if script == [] then Completes else script[0]
  }

  function Rest(script: Script): Script {
    if script == [] then [] else script[1..]
  }

  /** At most one step of the whole script is disturbed. */
  predicate AtMostOneFault(script: Script) {
    forall i, k :: 0 <= i < k < |script| ==> script[i] == Completes || script[k] == Completes
  }

  predicate NoFaults(script: Script) {
    forall i :: 0 <= i < |script| ==> script[i] == Completes
  }
}
