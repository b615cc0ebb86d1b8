/** What players and the server see of scheduled restarts, and the promises about
    it. A trace numbers its own programmings and configurations, so nothing outside
    it is needed to read it. */
module RestartTrace {
  import opened Common

  /** `Programmed` is a restart at time `due`, `delay` seconds ahead; the events that
      follow carry its number. `Configured` is a new or cleared daily appointment,
      and `Armed` the programming it makes. */
  datatype Event =
    | Programmed(id: nat, due: real, delay: real, defer: bool)
    | Cancelled(id: nat)
    | Warned(id: nat, threshold: int, now: real)
    | Restart(id: nat, now: real, empty: bool)
    | Configured(epoch: nat)
    | Armed(epoch: nat, day: int, remaining: real, lead: int)

  /** What an earlier event asks of a later one: a warning is within the delay of
      its programming, and not given before that much time is left; a restart is not
      early, and not with the defer flag unless zero players were confirmed; warnings
      of one programming count down; nothing follows its restart or its
      cancellation; a configuration arms once a day. */
  ghost predicate PairOk(a: Event, b: Event) {
    && (a.Programmed? && b.Warned? && a.id == b.id ==>
          b.threshold as real <= a.delay && a.due - b.now <= b.threshold as real)
    && (a.Programmed? && b.Restart? && a.id == b.id ==> a.due <= b.now && (a.defer ==> b.empty))
    && (a.Warned? && b.Warned? && a.id == b.id ==> a.threshold > b.threshold)
    && ((a.Restart? || a.Cancelled?) && (b.Warned? || b.Restart?) ==> a.id != b.id)
    && (a.Armed? && b.Armed? && a.epoch == b.epoch ==> a.day < b.day)
  }

  /** How many restarts were programmed, and how often the appointment was set. */
  function Programmings(trace: seq<Event>): nat {
    if trace == [] then 0
    else Programmings(trace[..|trace| - 1]) + if trace[|trace| - 1].Programmed? then 1 else 0
  }

  function Configurations(trace: seq<Event>): nat {
    if trace == [] then 0
    else Configurations(trace[..|trace| - 1]) + if trace[|trace| - 1].Configured? then 1 else 0
  }

  /** An event after `before` belongs to the latest programming or configuration. */
  ghost predicate NumberOk(before: seq<Event>, e: Event) {
    match e
    case Programmed(id, _, _, _) => id == Programmings(before) + 1
    case Cancelled(id) => id == Programmings(before)
    case Warned(id, _, _) => id == Programmings(before)
    case Restart(id, _, _) => id == Programmings(before)
    case Configured(epoch) => epoch == Configurations(before) + 1
    case Armed(epoch, _, remaining, lead) => epoch == Configurations(before) && 0.0 < remaining <= lead as real
  }

  ghost predicate Numbered(trace: seq<Event>) {
    forall i :: 0 <= i < |trace| ==> NumberOk(trace[..i], trace[i])
  }

  ghost predicate TraceOk(trace: seq<Event>) {
    Numbered(trace) && forall i, j :: 0 <= i < j < |trace| ==> PairOk(trace[i], trace[j])
  }

  lemma TraceSnoc(trace: seq<Event>, e: Event)
    requires TraceOk(trace) && NumberOk(trace, e)
    requires forall i :: 0 <= i < |trace| ==> PairOk(trace[i], e)
    ensures TraceOk(trace + [e])
    ensures Programmings(trace + [e]) == Programmings(trace) + if e.Programmed? then 1 else 0
    ensures Configurations(trace + [e]) == Configurations(trace) + if e.Configured? then 1 else 0
  {
    hide PairOk, NumberOk;
    var more := trace + [e];
    assert more[..|trace|] == trace;
    forall i | 0 <= i < |more| ensures NumberOk(more[..i], more[i]) {
      assert i < |trace| ==> more[..i] == trace[..i];
    }
  }

  // ---- what a call adds ----

  /** What a tick is heard to do. */
  datatype Heard = Quiet | Said(threshold: int) | Restarted

  datatype Call =
    | ScheduleCall(minutes: real, defer: bool)
    | CancelCall
    | SetDailyCall(timeOfDay: real, lead: int, defer: bool)
    | ClearDailyCall
    | TickCall(midnight: real, empty: bool, busy: bool)

  /** A tick adds what it is heard to do and nothing else, after a programming if the
      daily appointment arms. */
  ghost predicate TickPart(part: seq<Event>, armed: bool, now: real, day: int, empty: bool, heard: Heard) {
    && (armed ==>
          && |part| >= 2 && part[0].Programmed? && part[1].Armed?
          && part[1].day == day && part[0].delay == part[1].remaining)
    && var acts := if armed && |part| >= 2 then part[2..] else part;
      match heard
      case Quiet => acts == []
      case Said(threshold) => |acts| == 1 && acts[0].Warned? && acts[0].threshold == threshold && acts[0].now == now
      case Restarted => |acts| == 1 && acts[0].Restart? && acts[0].now == now && acts[0].empty == empty
  }

  ghost predicate PartOk(call: Call, now: real, day: int, part: seq<Event>, heard: Heard) {
    match call
    case ScheduleCall(minutes, defer) =>
      && heard.Quiet?
      && if minutes > 0.0
         then |part| == 1 && part[0].Programmed?
           && part[0] == Programmed(part[0].id, now + minutes * 60.0, minutes * 60.0, defer)
         else part == []
    case CancelCall => heard.Quiet? && (part == [] || (|part| == 1 && part[0].Cancelled?))
    case SetDailyCall(_, _, _) => heard.Quiet? && |part| == 1 && part[0].Configured?
    case ClearDailyCall => heard.Quiet? && |part| == 1 && part[0].Configured?
    case TickCall(_, empty, _) =>
      TickPart(part, true, now, day, empty, heard) || TickPart(part, false, now, day, empty, heard)
  }

  function Flat(parts: seq<seq<Event>>): seq<Event> {
    if parts == [] then [] else Flat(parts[..|parts| - 1]) + parts[|parts| - 1]
  }

  lemma FlatSnoc(first: seq<Event>, parts: seq<seq<Event>>, part: seq<Event>)
    ensures first + Flat(parts + [part]) == first + Flat(parts) + part
  {
    assert (parts + [part])[..|parts|] == parts;
  }
}
