/** Scheduled and daily restarts (app/domain/services/actions.py,
    app/adapters/restart_schedule.py, app/adapters/recurring_restart.py): a state
    machine driven by ticks. The ghost `trace` lists what players and the server
    see; its invariant is the promise of the feature. */
module RestartScheduler {
  import opened Common
  import opened RestartTrace

  datatype Scheduled = Scheduled(restartAt: real, defer: bool)

  /** The daily appointment, as seconds after local midnight. */
  datatype Daily = Daily(timeOfDay: real, lead: int, defer: bool)

  ghost predicate Descending(s: seq<int>) {
    forall i, j :: 0 <= i < j < |s| ==> s[i] >= s[j]
  }

  /** `{t for t in thresholds if t > total}`. */
  function Passed(thresholds: seq<int>, total: real): set<int> {
    set i | 0 <= i < |thresholds| && thresholds[i] as real > total :: thresholds[i]
  }

  class Scheduler {
    const thresholds: seq<int>
    var state: Option<Scheduled>
    var announced: set<int>
    var daily: Option<Daily>
    var lastFired: Option<int>

    ghost var trace: seq<Event>
    ghost var id: nat         // of the latest programming
    ghost var total: real     // its whole delay
    ghost var epoch: nat      // of the latest daily configuration
    ghost var today: int

    /** What the present state says about one past event. */
    ghost predicate Recorded(e: Event)
      reads this`state, this`announced, this`lastFired, this`id, this`total, this`epoch, this`today
    {
      match e
      case Programmed(n, due, delay, defer) =>
        n <= id && (n == id ==> delay == total && (state.Some? ==> state.value == Scheduled(due, defer)))
      case Cancelled(n) => n <= id && (n == id ==> state.None?)
      case Warned(n, threshold, _) =>
        && n <= id
        && (n == id && state.Some? ==>
              forall k :: 0 <= k < |thresholds| && thresholds[k] >= threshold ==> thresholds[k] in announced)
      case Restart(n, _, _) => n <= id && (n == id ==> state.None?)
      case Configured(n) => n <= epoch
      case Armed(n, day, _, _) =>
        n <= epoch && day <= today && (n == epoch ==> lastFired.Some? && day <= lastFired.value)
    }

    ghost predicate Valid()
      reads this
    {
      && Descending(thresholds)
      && TraceOk(trace) && id == Programmings(trace) && epoch == Configurations(trace)
      && (forall i :: 0 <= i < |trace| ==> Recorded(trace[i]))
      && (lastFired.Some? ==> lastFired.value <= today)
      && (state.Some? ==> Passed(thresholds, total) <= announced)
    }

    constructor (thresholds: seq<int>, day: int)
      requires Descending(thresholds)
      ensures Valid() && trace == [] && state.None? && daily.None? && this.thresholds == thresholds && today == day
    {
      this.thresholds := thresholds;
      state, announced, daily, lastFired := None, {}, None, None;
      trace, id, total, epoch, today := [], 0, 0.0, 0, day;
    }

    /** `InMemoryRestartSchedule.schedule`: thresholds beyond the delay count as announced. */
    method Schedule(restartAt: real, delay: real, defer: bool)
      requires Valid()
      modifies this`state, this`announced, this`trace, this`id, this`total
      ensures Valid()
      ensures state == Some(Scheduled(restartAt, defer)) && announced == Passed(thresholds, delay)
      ensures id == old(id) + 1 && total == delay && trace == old(trace) + [Programmed(id, restartAt, delay, defer)]
    {
      hide TraceOk, Programmings, Configurations;
      state := Some(Scheduled(restartAt, defer));
      announced := Passed(thresholds, delay);
      id, total := id + 1, delay;
      TraceSnoc(trace, Programmed(id, restartAt, delay, defer));
      trace := trace + [Programmed(id, restartAt, delay, defer)];
    }

    /** `cancel`. */
    method Cancel() returns (had: bool)
      requires Valid()
      modifies this`state, this`announced
      ensures Valid()
      ensures had == old(state).Some? && state.None? && announced == {}
    {
      hide TraceOk, Programmings, Configurations;
      had := state.Some?;
      state, announced := None, {};
    }

    /** `take_due_warning`: the largest threshold that is due and not announced. */
    method TakeDueWarning(now: real) returns (due: Option<int>)
      requires Valid()
      modifies this`announced, this`trace
      ensures Valid()
      ensures due.Some? ==>
        && state.Some? && due.value in thresholds && due.value !in old(announced)
        && state.value.restartAt - now <= due.value as real
        && announced == old(announced) + {due.value}
        && trace == old(trace) + [Warned(id, due.value, now)]
        && (forall k :: 0 <= k < |thresholds| && thresholds[k] > due.value ==> thresholds[k] in old(announced))
      ensures due.None? ==> announced == old(announced) && trace == old(trace)
      ensures due.None? && state.Some? ==>
        forall k :: 0 <= k < |thresholds| && state.value.restartAt - now <= thresholds[k] as real ==>
          thresholds[k] in announced
    {
      hide TraceOk, Programmings, Configurations;
      if state.None? {
        return None;
      }
      var remaining := state.value.restartAt - now;
      for k := 0 to |thresholds|
        invariant announced == old(announced) && trace == old(trace) && Valid()
        invariant forall j :: 0 <= j < k && remaining <= thresholds[j] as real ==> thresholds[j] in announced
      {
        var threshold := thresholds[k];
        if remaining <= threshold as real && threshold !in announced {
          forall j | 0 <= j < |thresholds| && thresholds[j] > threshold ensures thresholds[j] in announced {
            assert j <= k;
          }
          Announce(threshold, k, now);
          return Some(threshold);
        }
      }
      due := None;
    }

    method Announce(threshold: int, k: nat, ghost now: real)
      requires Valid() && state.Some? && k < |thresholds| && thresholds[k] == threshold && threshold !in announced
      requires forall j :: 0 <= j < k && thresholds[j] >= threshold ==> thresholds[j] in announced
      requires state.value.restartAt - now <= threshold as real
      modifies this`announced, this`trace
      ensures Valid()
      ensures announced == old(announced) + {threshold} && trace == old(trace) + [Warned(id, threshold, now)]
    {
      hide TraceOk, Programmings, Configurations;
      assert threshold as real <= total by {
        assert threshold !in Passed(thresholds, total);
      }
      announced := announced + {threshold};
      forall j | 0 <= j < |thresholds| && thresholds[j] >= threshold ensures thresholds[j] in announced {
        if j > k {
          assert thresholds[k] >= thresholds[j];
        }
      }
      TraceSnoc(trace, Warned(id, threshold, now));
      trace := trace + [Warned(id, threshold, now)];
    }

    /** `schedule_restart`. */
    method ScheduleRestart(minutes: real, now: real, defer: bool) returns (ok: bool)
      requires Valid()
      modifies this`state, this`announced, this`trace, this`id, this`total
      ensures Valid() && (ok <==> minutes > 0.0)
      ensures ok ==> state == Some(Scheduled(now + minutes * 60.0, defer)) && total == minutes * 60.0
      ensures ok ==> announced == Passed(thresholds, total)
      ensures ok ==> trace == old(trace) + [Programmed(id, now + minutes * 60.0, minutes * 60.0, defer)]
      ensures !ok ==> state == old(state) && announced == old(announced) && trace == old(trace)
    {
      hide TraceOk, Programmings, Configurations;
      if minutes <= 0.0 {
        return false;
      }
      Schedule(now + minutes * 60.0, minutes * 60.0, defer);
      ok := true;
    }

    /** `cancel_scheduled_restart`. */
    method CancelScheduledRestart() returns (had: bool)
      requires Valid()
      modifies this`state, this`announced, this`trace
      ensures Valid() && state.None? && had == old(state).Some?
      ensures trace == if had then old(trace) + [Cancelled(id)] else old(trace)
    {
      hide TraceOk, Programmings, Configurations;
      had := Cancel();
      if had {
        TraceSnoc(trace, Cancelled(id));
        trace := trace + [Cancelled(id)];
      }
    }

    /** `JsonRecurringRestart.set_config`, or `clear` for no configuration: either
        starts afresh. */
    method SetDaily(config: Option<Daily>)
      requires Valid()
      modifies this`daily, this`lastFired, this`epoch, this`trace
      ensures Valid() && daily == config && lastFired.None?
      ensures epoch == old(epoch) + 1 && trace == old(trace) + [Configured(epoch)]
    {
      hide TraceOk, Programmings, Configurations;
      daily, lastFired, epoch := config, None, epoch + 1;
      TraceSnoc(trace, Configured(epoch));
      trace := trace + [Configured(epoch)];
    }

    /** `_tick_recurring_restart` on local day `day`, which began at `midnight`. */
    method TickDaily(now: real, midnight: real, day: int) returns (ghost armed: bool)
      requires Valid() && today <= day
      modifies this
      ensures Valid() && today == day && daily == old(daily) && epoch == old(epoch)
      ensures armed <==>
        && old(state).None? && daily.Some? && old(lastFired) != Some(day)
        && 0.0 < midnight + daily.value.timeOfDay - now <= daily.value.lead as real
      ensures if armed
        then
          var due, remaining := midnight + daily.value.timeOfDay, midnight + daily.value.timeOfDay - now;
          && state == Some(Scheduled(due, daily.value.defer)) && announced == Passed(thresholds, total)
          && trace == old(trace) + [Programmed(id, due, remaining, daily.value.defer),
                                    Armed(epoch, day, remaining, daily.value.lead)]
        else state == old(state) && announced == old(announced) && id == old(id) && trace == old(trace)
      ensures lastFired ==
        if daily.Some? && (now >= midnight + daily.value.timeOfDay
                           || midnight + daily.value.timeOfDay - now <= daily.value.lead as real)
        then Some(day) else old(lastFired)
    {
      hide TraceOk, Programmings, Configurations;
      armed, today := false, day;
      if daily.None? || lastFired == Some(day) {
        return;
      }
      var target := midnight + daily.value.timeOfDay;
      if now >= target {
        MarkFired(day);
        return;
      }
      var remaining := target - now;
      if remaining > daily.value.lead as real {
        return;
      }
      armed := state.None?;
      if state.None? {
        Schedule(target, remaining, daily.value.defer);
        Arm(day, remaining, daily.value.lead);
      } else {
        MarkFired(day);
      }
    }

    /** Marks the day and records the arming. */
    method Arm(day: int, ghost remaining: real, ghost lead: int)
      requires Valid() && today == day && lastFired != Some(day) && 0.0 < remaining <= lead as real
      modifies this`lastFired, this`trace
      ensures Valid() && lastFired == Some(day) && trace == old(trace) + [Armed(epoch, day, remaining, lead)]
    {
      hide TraceOk, Programmings, Configurations;
      lastFired := Some(day);
      TraceSnoc(trace, Armed(epoch, day, remaining, lead));
      trace := trace + [Armed(epoch, day, remaining, lead)];
    }

    method MarkFired(day: int)
      requires Valid() && today == day
      modifies this`lastFired
      ensures Valid() && lastFired == Some(day)
    {
      hide TraceOk, Programmings, Configurations;
      lastFired := Some(day);
    }

    /** `tick_scheduled_restart`. `empty` says that zero players were confirmed at
        this tick, `busy` that OP levels are being applied or that this is unknown.
        `part` is exactly what the tick adds to the trace. */
    method Tick(now: real, midnight: real, day: int, empty: bool, busy: bool)
      returns (heard: Heard, ghost part: seq<Event>, ghost armed: bool)
      requires Valid() && today <= day
      modifies this
      ensures Valid() && today == day && epoch == old(epoch) && daily == old(daily)
      ensures trace == old(trace) + part && TickPart(part, armed, now, day, empty, heard)
      ensures armed <==>
        && old(state).None? && daily.Some? && old(lastFired) != Some(day)
        && 0.0 < midnight + daily.value.timeOfDay - now <= daily.value.lead as real
      ensures heard.Restarted? <==>
        old(state).Some? && old(state).value.restartAt <= now && (old(state).value.defer ==> empty) && !busy
      ensures heard.Restarted? ==> state.None?
      ensures !heard.Restarted? && old(state).Some? ==> state == old(state)
      ensures !armed ==> id == old(id)
      ensures heard.Said? ==>
        && state.Some? && heard.threshold in thresholds
        && 0.0 < state.value.restartAt - now <= heard.threshold as real
        && (!armed ==> heard.threshold !in old(announced))
        && announced == (if armed then Passed(thresholds, total) else old(announced)) + {heard.threshold}
        && forall k :: 0 <= k < |thresholds| && thresholds[k] > heard.threshold ==> thresholds[k] in announced
      ensures heard.Quiet? && state.Some? && now < state.value.restartAt ==>
        forall k :: 0 <= k < |thresholds| && state.value.restartAt - now <= thresholds[k] as real ==>
          thresholds[k] in announced
    {
      hide TraceOk, Programmings, Configurations;
      armed := TickDaily(now, midnight, day);
      part := trace[|old(trace)|..];
      heard := Quiet;
      if state.None? {
        return;
      }
      if state.value.restartAt <= now {
        if (state.value.defer && !empty) || busy {
          return;
        }
        RestartNow(now, empty);
        heard, part := Restarted, part + [Restart(id, now, empty)];
        return;
      }
      var due := TakeDueWarning(now);
      if due.Some? {
        heard, part := Said(due.value), part + [Warned(id, due.value, now)];
      }
    }

    /** The restart itself: the programming is spent. */
    method RestartNow(ghost now: real, ghost empty: bool)
      requires Valid() && state.Some? && state.value.restartAt <= now && (state.value.defer ==> empty)
      modifies this`state, this`announced, this`trace
      ensures Valid() && state.None? && trace == old(trace) + [Restart(id, now, empty)]
    {
      hide TraceOk, Programmings, Configurations;
      TraceSnoc(trace, Restart(id, now, empty));
      state, announced := None, {};
      trace := trace + [Restart(id, now, empty)];
    }
  }

  // ---- late ticks ----

  /** How far a warning can overstate the time left: by less than the time since a
      moment at which every due warning had been given. */
  method WarningIsTimely(scheduler: Scheduler, before: real, now: real) returns (due: Option<int>)
    requires scheduler.Valid() && scheduler.state.Some? && before <= now
    requires forall threshold ::
      threshold in scheduler.thresholds && scheduler.state.value.restartAt - before <= threshold as real ==>
      threshold in scheduler.announced
    modifies scheduler
    ensures scheduler.Valid() && scheduler.state == old(scheduler.state)
    ensures due.Some? ==>
      0.0 <= due.value as real - (scheduler.state.value.restartAt - now) < now - before
  {
    due := scheduler.TakeDueWarning(now);
  }

  /** Without such a moment nothing bounds it: a restart is programmed an hour
      ahead, the first tick comes five seconds before it, and ten minutes are
      announced. */
  method LateTickOverstates() returns (due: Option<int>)
    ensures due == Some(600)
  {
    var scheduler := new Scheduler([600, 300, 60, 30, 10], 0);
    var _ := scheduler.ScheduleRestart(60.0, 0.0, false);
    assert scheduler.thresholds[0] == 600 && scheduler.announced == {};
    due := scheduler.TakeDueWarning(3595.0);
  }

  // ---- whole runs ----

  /** Every run keeps the promises of the trace, in any order of calls and at any
      times, as long as local days do not run backwards; and the trace grows by
      what the calls were heard to do and nothing else. */
  method RunAll(scheduler: Scheduler, calls: seq<Call>, times: seq<real>, days: seq<int>)
    returns (heard: seq<Heard>, ghost parts: seq<seq<Event>>)
    requires scheduler.Valid() && |calls| == |times| == |days|
    requires forall i :: 0 <= i < |days| ==> scheduler.today <= days[i]
    requires forall i, j :: 0 <= i < j < |days| ==> days[i] <= days[j]
    modifies scheduler
    ensures scheduler.Valid() && TraceOk(scheduler.trace)
    ensures scheduler.trace == old(scheduler.trace) + Flat(parts) && |heard| == |parts| == |calls|
    ensures forall i :: 0 <= i < |calls| ==> PartOk(calls[i], times[i], days[i], parts[i], heard[i])
  {
    hide TraceOk, Programmings, Configurations, Flat, PartOk;
    heard, parts := [], [];
    FlatNone(scheduler.trace);
    for i := 0 to |calls|
      invariant scheduler.Valid() && |heard| == |parts| == i
      invariant forall j :: i <= j < |days| ==> scheduler.today <= days[j]
      invariant scheduler.trace == old(scheduler.trace) + Flat(parts)
      invariant forall j :: 0 <= j < i ==> PartOk(calls[j], times[j], days[j], parts[j], heard[j])
    {
      var h;
      ghost var part;
      h, part := Perform(scheduler, calls[i], times[i], days[i]);
      FlatSnoc(old(scheduler.trace), parts, part);
      heard, parts := heard + [h], parts + [part];
    }
  }

  lemma FlatNone(first: seq<Event>)
    ensures first + Flat([]) == first
  {
  }

  /** One call, and exactly what it adds to the trace. */
  method Perform(scheduler: Scheduler, call: Call, now: real, day: int) returns (heard: Heard, ghost part: seq<Event>)
    requires scheduler.Valid() && scheduler.today <= day
    modifies scheduler
    ensures scheduler.Valid() && old(scheduler.today) <= scheduler.today <= day
    ensures scheduler.trace == old(scheduler.trace) + part && PartOk(call, now, day, part, heard)
  {
    hide TraceOk, Programmings, Configurations;
    heard := Quiet;
    match call {
      case ScheduleCall(minutes, defer) =>
        var ok := scheduler.ScheduleRestart(minutes, now, defer);
        part := scheduler.trace[|old(scheduler.trace)|..];
      case CancelCall =>
        var had := scheduler.CancelScheduledRestart();
        part := scheduler.trace[|old(scheduler.trace)|..];
      case SetDailyCall(timeOfDay, lead, defer) =>
        scheduler.SetDaily(Some(Daily(timeOfDay, lead, defer)));
        part := scheduler.trace[|old(scheduler.trace)|..];
      case ClearDailyCall =>
        scheduler.SetDaily(None);
        part := scheduler.trace[|old(scheduler.trace)|..];
      case TickCall(midnight, empty, busy) =>
        ghost var armed;
        heard, part, armed := scheduler.Tick(now, midnight, day, empty, busy);
    }
  }
}
