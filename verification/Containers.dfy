/** A Docker container as the workers see it, and `DockerContainerController.stop`
    of app/restore_worker.py, which acts on the status it reads. */
module Containers {
  import opened Common

  /** `Restarting` is a crash loop: nothing runs now, and Docker will start it
      again by itself. Every other status without a process is `Halted`. */
  datatype Container = Running | Restarting | Halted

  /** What may become of a container while the worker does not touch it. */
  predicate MayBecome(before: Container, after: Container) {
    before.Halted? <==> after.Halted?
  }

  /** Time passes: the server may crash, and Docker may start it again. */
  method Drift(before: Container) returns (after: Container)
    ensures MayBecome(before, after)
  {
    var crashes := Choose();
    var starts := Choose();
    after := before;
    if before.Running? && crashes {
      after := Restarting;
    }
    if after.Restarting? && starts {
      after := Running;
    }
  }

  /** What a stop that returns normally leaves: it acts only on `running`. */
  function AfterStop(seen: Container): Container {
    if seen.Running? then Halted else seen
  }

  /** After a normal stop the server stays down, whatever time brings, exactly when
      the status that was read is not `restarting`. */
  lemma StopHolds(seen: Container)
    ensures (forall later :: MayBecome(AfterStop(seen), later) ==> !later.Running?) <==> !seen.Restarting?
  {
    if seen.Restarting? {
      assert MayBecome(AfterStop(seen), Running);
    }
  }

  /** The input that fails: a stop that reads `restarting` returns normally, and
      Docker may start the server right after it. */
  lemma CrashLoopComesBack()
    ensures AfterStop(Restarting) == Restarting && MayBecome(AfterStop(Restarting), Running)
  {
  }

  /** `stop`: the container, the status that decided, and how the call ended. A
      call that does not return may or may not have stopped the server. */
  method StopContainer(before: Container, calm: bool) returns (after: Container, seen: Container, o: Outcome)
    ensures calm ==> o.Done?
    ensures MayBecome(before, seen)
    ensures o.Done? ==> after == AfterStop(seen)
    ensures MayBecome(seen, after) || after.Halted?
  {
    seen := Drift(before);
    o := Attempt(calm);
    var halted := Choose();
    after := if o.Done? || (halted && seen.Running?) then AfterStop(seen) else seen;
  }
}
