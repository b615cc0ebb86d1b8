/** The two waiting loops of app/restore_worker.py: for Minecraft to come up, and
    for the doorman to go down. Observation `i` is made at time `clock(i)`, and
    each sleep lasts at least the poll interval. */
module Polling {
  import opened Common

  datatype Status = Running | Dying | Elsewhere

  datatype Health = Healthy | Unhealthy | NotYet

  datatype Observation = Observation(status: Status, health: Health, expected: bool)

  ghost predicate Sleeps(clock: nat -> real, start: real, poll: real) {
    0.0 < poll && start <= clock(0) && forall i: nat :: clock(i) + poll <= clock(i + 1)
  }

  lemma {:induction false} ClockGrows(clock: nat -> real, start: real, poll: real, n: nat)
    requires Sleeps(clock, start, poll)
    ensures start + n as real * poll <= clock(n)
  {
    if n != 0 {
      ClockGrows(clock, start, poll, n - 1);
      assert n as real * poll == (n - 1) as real * poll + poll;
      assert clock(n - 1) + poll <= clock(n - 1 + 1);
    }
  }

  /** All observations but the last one fit into the timeout. */
  ghost predicate FewPolls(last: nat, poll: real, timeout: real) {
    last == 0 || (last - 1) as real * poll < timeout
  }

  /** A number of polls that is sure to outlast the timeout. */
  lemma PollBound(timeout: real, poll: real) returns (bound: nat)
    requires 0.0 < timeout && 0.0 < poll
    ensures timeout <= bound as real * poll
  {
    var ratio := timeout / poll;
    bound := ratio.Floor + 1;
    assert ratio * poll == timeout;
    assert ratio <= bound as real;
    Grows(ratio, bound as real, poll);
  }

  lemma Grows(a: real, b: real, c: real)
    requires a <= b && 0.0 < c
    ensures a * c <= b * c
  {
    assert (b - a) * c >= 0.0;
  }

  /** While the deadline is ahead, the bound is not reached. */
  lemma UnderBound(clock: nat -> real, start: real, poll: real, timeout: real, n: nat, bound: nat)
    requires Sleeps(clock, start, poll) && clock(n) < start + timeout && timeout <= bound as real * poll
    ensures FewPolls(n + 1, poll, timeout) && n < bound
  {
    ClockGrows(clock, start, poll, n);
    if bound <= n {
      Grows(bound as real, n as real, poll);
    }
  }

  /** Without a healthcheck: seen running at `j`, and at every look since. */
  ghost predicate SteadySince(observe: nat -> Observation, j: nat, k: nat) {
    j <= k && !observe(j).expected && forall i: nat :: j <= i <= k ==> observe(i).status.Running?
  }

  lemma NoPolls(poll: real, timeout: real)
    ensures FewPolls(0, poll, timeout)
  {
  }

  /** A clock on which every sleep lasts just the poll interval. */
  function Ticking(poll: real): nat -> real {
    (n: nat) => n as real * poll
  }

  lemma TickingSleeps(poll: real)
    requires 0.0 < poll
    ensures Sleeps(Ticking(poll), 0.0, poll)
  {
    forall n: nat ensures Ticking(poll)(n) + poll <= Ticking(poll)(n + 1) {
      assert (n + 1) as real * poll == n as real * poll + poll;
    }
  }

  /** A look on which `start` returns: healthy where a healthcheck is expected, and
      otherwise running ever since an earlier look, two seconds or the timeout ago. */
  ghost predicate Good(observe: nat -> Observation, clock: nat -> real, timeout: real, k: nat) {
    && observe(k).status.Running?
    && if observe(k).expected then observe(k).health.Healthy?
       else exists j: nat ::
         SteadySince(observe, j, k) && clock(k) - clock(j) >= if timeout < 2.0 then timeout else 2.0
  }

  /** A look on which it gives up at once. */
  predicate Hopeless(o: Observation) {
    o.status.Dying? || (o.status.Running? && o.expected && o.health.Unhealthy?)
  }

  lemma {:induction false} ClockOrder(clock: nat -> real, start: real, poll: real, i: nat, j: nat)
    requires Sleeps(clock, start, poll) && i <= j
    ensures clock(i) <= clock(j)
    decreases j
  {
    if i < j {
      ClockOrder(clock, start, poll, i, j - 1);
      assert clock(j - 1) + poll <= clock(j - 1 + 1);
    }
  }

  /** `since` is the first look of the unbroken run that reaches look `k`, if any. */
  ghost predicate FirstSince(observe: nat -> Observation, since: Option<nat>, k: nat) {
    && (since.Some? ==> SteadySince(observe, since.value, k))
    && forall j: nat :: SteadySince(observe, j, k) ==> since.Some? && since.value <= j
  }

  lemma FirstStep(observe: nat -> Observation, since: Option<nat>, k: nat)
    requires if k == 0 then since.None? else FirstSince(observe, since, k - 1)
    ensures FirstSince(observe,
      if !observe(k).status.Running? then None
      else if since.None? && !observe(k).expected then Some(k)
      else since, k)
  {
    forall j: nat | SteadySince(observe, j, k) ensures j == k || (0 < k && SteadySince(observe, j, k - 1)) {
    }
  }

  /** Whether the look is good can be read off the first look of its run. */
  lemma GoodSince(
    observe: nat -> Observation, clock: nat -> real, start: real, poll: real, timeout: real, since: Option<nat>, k: nat)
    requires Sleeps(clock, start, poll) && 0.0 < timeout && FirstSince(observe, since, k)
    requires observe(k).status.Running? && !observe(k).expected
    ensures Good(observe, clock, timeout, k) <==>
      since.Some? && clock(k) - clock(since.value) >= if timeout < 2.0 then timeout else 2.0
  {
    hide Sleeps;
    forall j: nat | SteadySince(observe, j, k) ensures since.Some? && clock(since.value) <= clock(j) {
      ClockOrder(clock, start, poll, since.value, j);
    }
  }

  /** `DockerContainerController.start`, once the container has been started: it
      returns at the first good look, and raises at the first hopeless one or at the
      deadline, whichever comes first. `last` is the look that decided. */
  method AwaitStart(observe: nat -> Observation, clock: nat -> real, start: real, timeout: real, poll: real)
    returns (ok: bool, last: nat)
    requires 0.0 < timeout && 0.0 < poll && Sleeps(clock, start, poll)
    ensures FewPolls(last, poll, timeout)
    ensures ok <==> Good(observe, clock, timeout, last)
    ensures !ok ==> Hopeless(observe(last)) || clock(last) >= start + timeout
    ensures forall i: nat :: i < last ==>
      !Good(observe, clock, timeout, i) && !Hopeless(observe(i)) && clock(i) < start + timeout
  {
    var deadline := start + timeout;
    var runningSince: Option<real> := None;
    ghost var since: Option<nat> := None;
    last := 0;
    hide Sleeps, FewPolls, SteadySince, FirstSince;
    NoPolls(poll, timeout);
    ghost var bound := PollBound(timeout, poll);
    while true
      invariant FewPolls(last, poll, timeout)
      invariant if last == 0 then since.None? else FirstSince(observe, since, last - 1)
      invariant runningSince == if since.Some? then Some(clock(since.value)) else None
      invariant forall i: nat :: i < last ==>
        !Good(observe, clock, timeout, i) && !Hopeless(observe(i)) && clock(i) < deadline
      invariant last <= bound
      decreases bound - last
    {
      var seen, now := observe(last), clock(last);
      FirstStep(observe, since, last);
      if seen.status.Running? {
        if seen.expected {
          if seen.health.Healthy? {
            return true, last;
          }
          if seen.health.Unhealthy? {
            return false, last;
          }
        } else {
          ghost var first := if since.None? then Some(last) else since;
          GoodSince(observe, clock, start, poll, timeout, first, last);
          if runningSince.None? {
            runningSince, since := Some(now), first;
          } else if now - runningSince.value >= Smaller(2.0, timeout) {
            return true, last;
          }
        }
      } else {
        runningSince, since := None, None;
        if seen.status.Dying? {
          return false, last;
        }
      }
      if now >= deadline {
        return false, last;
      }
      UnderBound(clock, start, poll, timeout, last, bound);
      last := last + 1;
    }
  }

  function Smaller(a: real, b: real): real {
    if a < b then a else b
  }

  /** A server that comes up, healthy wherever that is expected, is found up. */
  lemma ComesUp(observe: nat -> Observation, poll: real, timeout: real, last: nat)
    requires 0.0 < poll && 2.0 <= timeout && last as real * poll >= 2.0
    requires forall i: nat :: observe(i).status.Running? && (observe(i).expected ==> observe(i).health.Healthy?)
    requires forall i: nat :: i < last ==> !Good(observe, Ticking(poll), timeout, i)
    ensures Good(observe, Ticking(poll), timeout, last)
  {
    if !observe(last).expected {
      forall i: nat | i < last ensures !observe(i).expected {
        assert !Good(observe, Ticking(poll), timeout, i);
      }
      assert SteadySince(observe, 0, last);
      assert 0 as real * poll == 0.0;
      assert Ticking(poll)(last) - Ticking(poll)(0) >= 2.0;
    }
  }

  /** What a look at the doorman shows: its state, or no container at all. */
  datatype Look = Up | Down | Missing | Mismatch

  /** What a look may show of a doorman that is up, or not: a lookup may always fail. */
  predicate Shows(up: bool, look: Look) {
    match look
    case Up => up
    case Down => !up
    case Missing => true
    case Mismatch => true
  }

  /** `release` takes two kinds of look for a free address. The address is free,
      whatever was shown, exactly when the look was not a failed lookup. */
  lemma ReleaseFrees(look: Look)
    requires look.Down? || look.Missing?
    ensures (forall up :: Shows(up, look) ==> !up) <==> !look.Missing?
  {
    if look.Missing? {
      assert Shows(true, look);
    }
  }

  /** The loop of `DoormanController.release`. */
  method AwaitRelease(look: nat -> Look, clock: nat -> real, start: real, timeout: real, poll: real)
    returns (ok: bool, last: nat)
    requires 0.0 < timeout && 0.0 < poll && Sleeps(clock, start, poll)
    ensures FewPolls(last, poll, timeout)
    ensures ok <==> look(last).Down? || look(last).Missing?
    ensures !ok ==> look(last).Mismatch? || (look(last).Up? && clock(last) >= start + timeout)
    ensures forall i: nat :: i < last ==> look(i).Up? && clock(i) < start + timeout
  {
    var deadline := start + timeout;
    last := 0;
    hide Sleeps, FewPolls;
    NoPolls(poll, timeout);
    ghost var bound := PollBound(timeout, poll);
    while true
      invariant FewPolls(last, poll, timeout)
      invariant forall i: nat :: i < last ==> look(i).Up? && clock(i) < deadline
      invariant last <= bound
      decreases bound - last
    {
      var seen := look(last);
      if !seen.Up? {
        return !seen.Mismatch?, last;
      }
      if clock(last) >= deadline {
        return false, last;
      }
      UnderBound(clock, start, poll, timeout, last, bound);
      last := last + 1;
    }
  }
}
