/** The files of the OP-level transaction (app/op_levels_worker.py): what must hold
    between them, and what each durable step of the worker does to it. */
module OpTransaction {
  import opened Common
  import opened OpLevels
  import opened OpLedger

  datatype Phase = Claimed | Stopped | RollbackReady | AppliedPhase | Committed

  datatype Marker = Marker(phase: Phase, requested: seq<Item>, unresolved: seq<Item>)

  datatype RunEnd =
    | Completed(changed: nat, waiting: nat)
    | Cancelled    // undone, the requests are queued again
    | Failed       // undoing failed as well, or a raw exception
    | Dead         // the process was killed

  /** No file holds a request that nobody made. */
  ghost predicate Sourced(web: seq<Ask>, served: nat, pending: Queue, applying: Queue, marker: Option<Marker>) {
    && AskedFor(web, served, pending) && AskedFor(web, served, applying) && AskedFor(web, served, ClaimOf(marker))
    && (marker.Some? ==> AskedFor(web, served, ByKey(marker.value.unresolved)))
  }

  lemma SourcedWith(web: seq<Ask>, served: nat, pending: Queue, applying: Queue, marker: Option<Marker>, q: Queue)
    requires Sourced(web, served, pending, applying, marker) && AskedFor(web, served, q)
    ensures Sourced(web, served, q, applying, marker) && Sourced(web, served, pending, q, marker)
  {
    hide AskedFor, ByKey;
  }

  lemma SourcedMarked(web: seq<Ask>, served: nat, pending: Queue, applying: Queue, marker: Option<Marker>, next: Marker)
    requires Sourced(web, served, pending, applying, marker)
    requires AskedFor(web, served, ByKey(next.requested)) && AskedFor(web, served, ByKey(next.unresolved))
    ensures Sourced(web, served, pending, applying, Some(next)) && Sourced(web, served, pending, applying, None)
  {
    hide AskedFor, ByKey;
    AskedNothing(web, served);
  }

  lemma NothingKeyed()
    ensures ByKey([]) == map[]
  {
  }

  lemma AskedNothing(web: seq<Ask>, n: nat)
    ensures AskedFor(web, n, map[]) && AskedFor(web, n, ByKey([]))
  {
  }

  lemma NoClaim(web: seq<Ask>, served: nat, due: map<string, int>, pending: Queue, marker: Option<Marker>)
    requires Sourced(web, served, pending, map[], marker)
    ensures Sourced(web, served, pending, map[], None) && InTheFiles(due, map[], pending, None)
  {
  }

  lemma SourcedServe(web: seq<Ask>, served: nat, pending: Queue, applying: Queue, marker: Option<Marker>, after: Queue)
    requires Sourced(web, served, pending, applying, marker) && served < |web|
    requires var player := web[served].player;
      after == if web[served].Withdrawn? then pending - {player.folded}
               else if Fit(player, web[served].level) then pending[player.folded := Item(player, web[served].level)]
               else pending
    ensures Sourced(web, served + 1, after, applying, marker)
  {
    hide ByKey;
    AskedLater(web, served, served + 1, pending);
    AskedLater(web, served, served + 1, applying);
    AskedLater(web, served, served + 1, ClaimOf(marker));
    if marker.Some? {
      AskedLater(web, served, served + 1, ByKey(marker.value.unresolved));
    }
    assert web[served].Asked? ==> web[served] == Asked(web[served].player, web[served].level);
  }

  /** How far the exception handler has undone a transaction whose marker
      already says `committed`. */
  datatype Undo = Sound | Exposed | Requeued

  ghost predicate Carried(ops: seq<OpEntry>, key: string, level: int) {
    Listed(ops, key) && forall i :: 0 <= i < |ops| && Names(ops[i], key) ==> ops[i].level == Some(level)
  }

  ghost predicate HonouredAt(due: map<string, int>, queue: Queue, ops: seq<OpEntry>, key: string)
    requires key in due
  {
    if key in queue then queue[key].level == due[key] else Carried(ops, key, due[key])
  }

  ghost predicate Honoured(due: map<string, int>, queue: Queue, ops: seq<OpEntry>) {
    forall key {:trigger HonouredAt(due, queue, ops, key)} :: key in due ==> HonouredAt(due, queue, ops, key)
  }

  lemma SetHonours(due: map<string, int>, queue: Queue, ops: seq<OpEntry>, player: Name, level: int)
    ensures Honoured(due, queue, ops) ==>
      Honoured(due[player.folded := level], queue[player.folded := Item(player, level)], ops)
  {
    var due', queue' := due[player.folded := level], queue[player.folded := Item(player, level)];
    if Honoured(due, queue, ops) {
      forall key | key in due' ensures HonouredAt(due', queue', ops, key) {
        assert key != player.folded ==> HonouredAt(due, queue, ops, key);
      }
    }
  }

  lemma RemoveHonours(due: map<string, int>, backlog: Queue, pending: Queue, ops: seq<OpEntry>, key: string)
    ensures Honoured(due, backlog + pending, ops) ==> Honoured(due - {key}, backlog + (pending - {key}), ops)
  {
    if Honoured(due, backlog + pending, ops) {
      forall other | other in due - {key} ensures HonouredAt(due - {key}, backlog + (pending - {key}), ops, other) {
        assert HonouredAt(due, backlog + pending, ops, other);
      }
    }
  }

  lemma AppliedAt(ops: seq<OpEntry>, claimed: Queue, key: string)
    ensures Listed(Applied(ops, claimed), key) == Listed(ops, key)
    ensures key in claimed && Listed(ops, key) ==> Carried(Applied(ops, claimed), key, claimed[key].level)
    ensures key !in claimed ==>
      forall level :: Carried(Applied(ops, claimed), key, level) == Carried(ops, key, level)
  {
    var after := Applied(ops, claimed);
    assert forall i :: 0 <= i < |ops| ==> Names(after[i], key) == Names(ops[i], key);
    if Listed(ops, key) {
      var i :| 0 <= i < |ops| && Names(ops[i], key);
      assert Names(after[i], key);
    }
    if key !in claimed {
      assert forall i :: 0 <= i < |ops| && Names(ops[i], key) ==> after[i] == ops[i];
    }
  }

  /** Committing honours every request: what leaves the queue is in ops.json. */
  lemma CommitHonours(due: map<string, int>, applying: Queue, claimed: Queue, pending: Queue, ops: seq<OpEntry>)
    requires applying.Keys <= claimed.Keys
    requires Honoured(due, applying + claimed + pending, ops)
    ensures Honoured(due, Unlisted(ops, claimed) + pending, Applied(ops, claimed))
  {
    forall key | key in due
      ensures HonouredAt(due, Unlisted(ops, claimed) + pending, Applied(ops, claimed), key)
    {
      assert HonouredAt(due, applying + claimed + pending, ops, key);
      AppliedAt(ops, claimed, key);
    }
  }

  /** Undoing a commit honours every request, provided that the whole claim is
      queued again. */
  lemma UndoHonours(due: map<string, int>, applying: Queue, claimed: Queue, pending: Queue, ops: seq<OpEntry>)
    requires applying.Keys <= claimed.Keys
    requires Honoured(due, Unlisted(ops, claimed) + pending, Applied(ops, claimed))
    ensures Honoured(due, applying + claimed + pending, ops)
  {
    forall key | key in due ensures HonouredAt(due, applying + claimed + pending, ops, key) {
      assert HonouredAt(due, Unlisted(ops, claimed) + pending, Applied(ops, claimed), key);
      AppliedAt(ops, claimed, key);
      if key in claimed && Listed(ops, key) {
        var i :| 0 <= i < |ops| && Names(Applied(ops, claimed)[i], key);
      }
    }
  }

  /** The window that loses a request: ops.json is back to the original, the
      marker still says `committed`, and the claim is not queued again. Recovery
      then completes the claim, and the player is neither queued nor raised. */
  lemma CutShortLosesRequest()
    ensures
      var due, bob := map["bob" := 4], Name("Bob", "bob");
      var claimed := ByKey([Item(bob, 4)]);
      var original := [OpEntry(Some(bob), Some(1), "")];
      && Honoured(due, claimed, original)
      && Honoured(due, ByKey([]) + map[], Applied(original, claimed))
      && !Honoured(due, ByKey([]) + map[], original)
  {
    var bob := Name("Bob", "bob");
    var original := [OpEntry(Some(bob), Some(1), "")];
    assert [Item(bob, 4)][..0] == [];
    assert ByKey([Item(bob, 4)]) == map["bob" := Item(bob, 4)];
    assert Names(original[0], "bob");
    AppliedAt(original, ByKey([Item(bob, 4)]), "bob");
    assert !HonouredAt(map["bob" := 4], ByKey([]) + map[], original, "bob");
  }

  /** A claimed request that recovery drops when it finds ops.json put back under
      a `committed` marker: the player is listed there at another level, and
      nothing newer is pending. */
  ghost predicate Dropped(claimed: Queue, pending: Queue, ops: seq<OpEntry>, key: string) {
    key in claimed && key !in pending && Listed(ops, key) && !Carried(ops, key, claimed[key].level)
  }

  /** Exactly those requests are lost, and no other. */
  lemma CutShortDrops(due: map<string, int>, applying: Queue, claimed: Queue, pending: Queue, ops: seq<OpEntry>)
    requires applying.Keys <= claimed.Keys
    requires Honoured(due, applying + claimed + pending, ops)
    ensures forall key :: key in due ==>
      (HonouredAt(due, Unlisted(ops, claimed) + pending, ops, key) <==> !Dropped(claimed, pending, ops, key))
    ensures Honoured(due, Unlisted(ops, claimed) + pending, ops)
      <==> forall key :: key in due ==> !Dropped(claimed, pending, ops, key)
  {
    forall key | key in due
      ensures HonouredAt(due, Unlisted(ops, claimed) + pending, ops, key) <==> !Dropped(claimed, pending, ops, key)
    {
      assert HonouredAt(due, applying + claimed + pending, ops, key);
    }
  }

  ghost function DroppedFrom(due: map<string, int>, claimed: Queue, pending: Queue, ops: seq<OpEntry>): set<string> {
    set key | key in due && Dropped(claimed, pending, ops, key)
  }

  lemma CutShortKeepsRest(due: map<string, int>, applying: Queue, claimed: Queue, pending: Queue, ops: seq<OpEntry>)
    requires applying.Keys <= claimed.Keys
    requires Honoured(due, applying + claimed + pending, ops)
    ensures Honoured(due - DroppedFrom(due, claimed, pending, ops), Unlisted(ops, claimed) + pending, ops)
  {
    CutShortDrops(due, applying, claimed, pending, ops);
    var queue, left := Unlisted(ops, claimed) + pending, due - DroppedFrom(due, claimed, pending, ops);
    forall key | key in left ensures HonouredAt(left, queue, ops, key) {
      assert HonouredAt(due, queue, ops, key);
    }
  }

  /** What was owed after `n` calls, to players of whom no later call speaks: ops.json
      carries it if they are listed there, and otherwise it is pending. */
  ghost predicate Delivered(
    web: seq<Ask>, gaveUp: map<nat, set<string>>, n: nat, served: nat, pending: Queue, ops: seq<OpEntry>)
    requires n <= |web|
  {
    forall key :: key in Owed(web, gaveUp, n) && Undisturbed(web, n, served, key) ==>
      if Listed(ops, key) then Carried(ops, key, Owed(web, gaveUp, n)[key])
      else key in pending && pending[key].level == Owed(web, gaveUp, n)[key]
  }

  lemma DeliveredOk(
    web: seq<Ask>, gaveUp: map<nat, set<string>>, n: nat, served: nat, pending: Queue, ops: seq<OpEntry>,
    asked: Queue, before: seq<OpEntry>)
    requires n <= served <= |web| && (forall k :: k in gaveUp ==> k <= n) && ops == Applied(before, asked)
    requires Honoured(Owed(web, gaveUp, n), asked, before) && Honoured(Owed(web, gaveUp, served), pending, ops)
    ensures Delivered(web, gaveUp, n, served, pending, ops)
  {
    hide Owed, Applied, Undisturbed;
    var was, later := Owed(web, gaveUp, n), Owed(web, gaveUp, served);
    forall key | key in was && Undisturbed(web, n, served, key)
      ensures if Listed(ops, key) then Carried(ops, key, was[key])
        else key in pending && pending[key].level == was[key]
    {
      OwedUnchanged(web, gaveUp, n, served, key);
      AppliedAt(before, asked, key);
      assert HonouredAt(was, asked, before, key) && HonouredAt(later, pending, ops, key);
    }
  }

  predicate At(marker: Option<Marker>, phase: Phase) {
    marker.Some? && marker.value.phase == phase
  }

  ghost function ClaimOf(marker: Option<Marker>): Queue {
    if marker.Some? then ByKey(marker.value.requested) else map[]
  }

  /** What the transaction will put back into the queue, under what is pending. */
  ghost function Backlog(applying: Queue, marker: Option<Marker>, undo: Undo): Queue {
    if At(marker, Committed) && !undo.Exposed? then ByKey(marker.value.unresolved)
    else applying + ClaimOf(marker)
  }

  /** No request stands in the marker alone, and one that stands in the applying
      file alone has the level last asked for. */
  ghost predicate InTheFiles(due: map<string, int>, applying: Queue, pending: Queue, marker: Option<Marker>) {
    forall key {:trigger key in due} :: key in due && key !in pending ==>
      && (key in Backlog(applying, marker, Sound) ==> key in applying)
      && (key in applying ==> applying[key].level == due[key])
  }

  /** What players were promised is on file: pending at that level, or else being
      applied at that level, or else in ops.json itself. */
  ghost predicate OnFile(due: map<string, int>, pending: Queue, applying: Queue, ops: seq<OpEntry>) {
    forall key {:trigger key in due} :: key in due ==>
      if key in pending then pending[key].level == due[key]
      else if key in applying then applying[key].level == due[key]
      else Carried(ops, key, due[key])
  }

  /** Conservation on the three real files, in every state but the exposed one. */
  lemma Conserved(due: map<string, int>, pending: Queue, applying: Queue, ops: seq<OpEntry>,
                  rollback: Option<seq<OpEntry>>, marker: Option<Marker>, undo: Undo)
    requires Honoured(due, Backlog(applying, marker, undo) + pending, OpsKept(ops, rollback, marker))
    requires InTheFiles(due, applying, pending, marker) && OpsShaped(ops, rollback, marker, undo) && !undo.Exposed?
    ensures OnFile(due, pending, applying, ops)
  {
    hide Applied, Unlisted, ByKey, Carried;
    var queue, kept := Backlog(applying, marker, undo) + pending, OpsKept(ops, rollback, marker);
    forall key | key in due
      ensures if key in pending then pending[key].level == due[key]
        else if key in applying then applying[key].level == due[key]
        else Carried(ops, key, due[key])
    {
      assert HonouredAt(due, queue, kept, key);
      if key !in pending && key !in applying && ops != kept {
        AppliedAt(kept, ClaimOf(marker), key);
      }
    }
  }

  lemma SetOnFile(due: map<string, int>, applying: Queue, pending: Queue, marker: Option<Marker>, key: string,
                  level: int, item: Item)
    requires InTheFiles(due, applying, pending, marker)
    ensures InTheFiles(due[key := level], applying, pending[key := item], marker)
    ensures InTheFiles(due - {key}, applying, pending - {key}, marker)
  {
    hide Backlog;
  }

  /** After a claim the whole queue is in the applying file, at its newest levels. */
  lemma ClaimOnFile(due: map<string, int>, applying: Queue, pending: Queue, ops: seq<OpEntry>)
    requires InTheFiles(due, applying, pending, None) && Honoured(due, applying + map[] + pending, ops)
    ensures InTheFiles(due, applying + pending, pending, None)
    ensures InTheFiles(due, applying + pending, map[], None)
  {
    forall key | key in due && key in applying + pending ensures (applying + pending)[key].level == due[key] {
      assert HonouredAt(due, applying + map[] + pending, ops, key);
    }
  }

  lemma NoneApplying(due: map<string, int>, pending: Queue, marker: Option<Marker>)
    requires forall key :: key in due && key in Backlog(map[], marker, Sound) ==> key in pending
    ensures InTheFiles(due, map[], pending, marker)
  {
    hide Backlog;
  }

  lemma FewerOwed(due: map<string, int>, applying: Queue, pending: Queue, marker: Option<Marker>, gone: set<string>)
    requires InTheFiles(due, applying, pending, marker)
    ensures InTheFiles(due - gone, applying, pending, marker)
  {
    hide Backlog;
  }

  lemma NewMarker(due: map<string, int>, applying: Queue, pending: Queue, was: Option<Marker>, marker: Option<Marker>)
    requires InTheFiles(due, applying, pending, was)
    requires Backlog(applying, marker, Sound).Keys <= Backlog(applying, was, Sound).Keys
    ensures InTheFiles(due, applying, pending, marker)
  {
    hide Backlog;
  }

  lemma MorePending(due: map<string, int>, applying: Queue, pending: Queue, more: Queue, marker: Option<Marker>)
    requires InTheFiles(due, applying, pending, marker) && pending.Keys <= more.Keys
    ensures InTheFiles(due, applying, more, marker)
  {
    hide Backlog;
  }

  /** ops.json once the transaction is out of the way. */
  ghost function OpsKept(ops: seq<OpEntry>, rollback: Option<seq<OpEntry>>, marker: Option<Marker>): seq<OpEntry> {
    if rollback.Some? && !At(marker, Committed) then rollback.value else ops
  }

  ghost predicate MarkerShaped(marker: Option<Marker>) {
    marker.Some? ==>
      && Distinct(marker.value.requested) && Distinct(marker.value.unresolved)
      && ByKey(marker.value.unresolved).Keys <= ClaimOf(marker).Keys
  }

  ghost predicate OpsShaped(ops: seq<OpEntry>, rollback: Option<seq<OpEntry>>, marker: Option<Marker>, undo: Undo) {
    && (marker.None? ==> rollback.None?)
    && (!undo.Sound? ==> At(marker, Committed))
    && (rollback.Some? && !At(marker, Committed) ==>
          ops == rollback.value || ops == Applied(rollback.value, ClaimOf(marker)))
    && (undo.Exposed? ==> rollback == Some(ops))
    && (At(marker, Committed) && rollback.Some? && undo.Sound? ==> ops == Applied(rollback.value, ClaimOf(marker)))
    && (At(marker, Committed) && rollback.Some? && !undo.Requeued? ==>
          ByKey(marker.value.unresolved) == Unlisted(rollback.value, ClaimOf(marker)))
  }

  ghost predicate FilesShaped(pending: Queue, applying: Queue, marker: Option<Marker>) {
    Keyed(pending) && Keyed(applying) && (marker.Some? ==> applying.Keys <= ClaimOf(marker).Keys)
  }

  /** The files fit together, with each other and with what was promised. */
  ghost predicate Fits(
    pending: Queue, applying: Queue, ops: seq<OpEntry>, rollback: Option<seq<OpEntry>>, marker: Option<Marker>,
    undo: Undo, queue: Queue, kept: seq<OpEntry>, due: map<string, int>)
  {
    && MarkerShaped(marker)
    && OpsShaped(ops, rollback, marker, undo)
    && FilesShaped(pending, applying, marker)
    && queue == Backlog(applying, marker, undo) + pending
    && kept == OpsKept(ops, rollback, marker)
    && Honoured(due, queue, kept)
    && InTheFiles(due, applying, pending, marker)
  }

  /** The `committed` marker is written. */
  lemma CommitFits(
    pending: Queue, applying: Queue, ops: seq<OpEntry>, rollback: seq<OpEntry>, marker: Marker, undo: Undo,
    queue: Queue, kept: seq<OpEntry>, due: map<string, int>, unresolved: seq<Item>)
    requires Fits(pending, applying, ops, Some(rollback), Some(marker), undo, queue, kept, due)
    requires !marker.phase.Committed? && Distinct(unresolved)
    requires ops == Applied(rollback, ByKey(marker.requested))
    requires ByKey(unresolved) == Unlisted(rollback, ByKey(marker.requested))
    ensures kept == rollback
    ensures Fits(pending, applying, ops, Some(rollback), Some(Marker(Committed, marker.requested, unresolved)), undo,
                 ByKey(unresolved) + pending, ops, due)
  {
    hide Honoured, Applied, Unlisted, Distinct, Keyed, ByKey, InTheFiles;
    UnlistedKeys(rollback, ByKey(marker.requested));
    CommitHonours(due, applying, ByKey(marker.requested), pending, kept);
    NewMarker(due, applying, pending, Some(marker), Some(Marker(Committed, marker.requested, unresolved)));
  }

  /** The rollback is put back in place. */
  lemma RestoreFits(
    pending: Queue, applying: Queue, ops: seq<OpEntry>, rollback: seq<OpEntry>, marker: Option<Marker>,
    queue: Queue, kept: seq<OpEntry>, due: map<string, int>)
    requires Fits(pending, applying, ops, Some(rollback), marker, Sound, queue, kept, due)
    ensures marker.Some?
    ensures !At(marker, Committed) ==>
      kept == rollback && Fits(pending, applying, rollback, Some(rollback), marker, Sound, queue, kept, due)
    ensures At(marker, Committed) ==>
      Fits(pending, applying, rollback, Some(rollback), marker, Exposed,
           Backlog(applying, marker, Exposed) + pending, rollback, due)
  {
    hide Honoured, Applied, Unlisted, Distinct, Keyed, ByKey, InTheFiles;
    if At(marker, Committed) {
      UndoHonours(due, applying, ClaimOf(marker), pending, rollback);
    }
  }

  /** A marker before the commit is written, for the claim at hand. */
  lemma MarkFits(
    pending: Queue, applying: Queue, ops: seq<OpEntry>, rollback: Option<seq<OpEntry>>, marker: Option<Marker>,
    undo: Undo, queue: Queue, kept: seq<OpEntry>, due: map<string, int>, next: Marker)
    requires Fits(pending, applying, ops, rollback, marker, undo, queue, kept, due)
    requires !At(marker, Committed) && !next.phase.Committed? && Distinct(next.requested) && next.unresolved == []
    requires if marker.Some? then marker.value.requested == next.requested else applying == ByKey(next.requested)
    ensures Fits(pending, applying, ops, rollback, Some(next), undo, queue, kept, due)
  {
    hide Honoured, Applied, Unlisted, Keyed, InTheFiles;
    SelfMerge(applying);
    NewMarker(due, applying, pending, marker, Some(next));
  }

  /** The exposed claim is queued again. */
  lemma RequeuedFits(
    pending: Queue, applying: Queue, ops: seq<OpEntry>, rollback: Option<seq<OpEntry>>, marker: Option<Marker>,
    queue: Queue, kept: seq<OpEntry>, due: map<string, int>)
    requires Fits(pending, applying, ops, rollback, marker, Exposed, queue, kept, due)
    requires pending == queue && marker.Some?
    ensures Fits(pending, applying, ops, rollback, marker, Requeued, queue, kept, due)
  {
    hide Honoured, Applied, Unlisted, Distinct, Keyed, ByKey, InTheFiles;
    Absorb(ByKey(marker.value.unresolved), pending);
  }

  /** Recovery takes an exposed transaction at its marker's word. */
  lemma ForgoFits(
    pending: Queue, applying: Queue, ops: seq<OpEntry>, rollback: Option<seq<OpEntry>>, marker: Option<Marker>,
    queue: Queue, kept: seq<OpEntry>, due: map<string, int>)
    requires Fits(pending, applying, ops, rollback, marker, Exposed, queue, kept, due)
    ensures Fits(pending, applying, ops, rollback, marker, Requeued,
                 Backlog(applying, marker, Requeued) + pending, kept,
                 due - DroppedFrom(due, ClaimOf(marker), pending, ops))
  {
    hide Honoured, Applied, Unlisted, DroppedFrom, Distinct, Keyed, ByKey, InTheFiles;
    CutShortKeepsRest(due, applying, ClaimOf(marker), pending, ops);
    FewerOwed(due, applying, pending, marker, DroppedFrom(due, ClaimOf(marker), pending, ops));
  }

  /** What the marker and the rollback say about ops.json. */
  lemma KeptIs(
    pending: Queue, applying: Queue, ops: seq<OpEntry>, rollback: Option<seq<OpEntry>>, marker: Option<Marker>,
    undo: Undo, queue: Queue, kept: seq<OpEntry>, due: map<string, int>)
    requires Fits(pending, applying, ops, rollback, marker, undo, queue, kept, due)
    ensures kept == if rollback.Some? && !At(marker, Committed) then rollback.value else ops
    ensures (marker.None? ==> rollback.None?) && (!undo.Sound? ==> At(marker, Committed))
    ensures (undo.Exposed? ==> rollback == Some(ops)) && Keyed(pending) && Keyed(applying)
    ensures marker.Some? ==> Distinct(marker.value.requested) && Distinct(marker.value.unresolved)
    ensures queue == Backlog(applying, marker, undo) + pending
  {
    hide Honoured, Applied, Unlisted, Distinct, Keyed, ByKey, InTheFiles, Backlog;
  }
}
