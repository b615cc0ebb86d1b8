/** Datatypes shared by the models: optional values, and the ways a call into
    the outside world can end. */
module Common {

  datatype Option<+T> = None | Some(value: T)

  /** How one call to the file system or to Docker ends. `Raised` is a Python
      exception; `Killed` means that the process died during the call, so no
      handler runs. */
  datatype Outcome = Done | Raised | Killed

  /** An arbitrary outcome: every claim about a method that calls this one is a
      claim about every pattern of failures. `calm` promises that the call does not
      fail, for the claims about what then happens. */
  method Attempt(calm: bool) returns (o: Outcome)
    ensures calm ==> o.Done?
  {
    o := *;
    if calm {
      o := Done;
    }
  }

  method Choose() returns (b: bool) {
    b := *;
  }
}
