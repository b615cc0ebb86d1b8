/** The OP-level transaction of app/op_levels_worker.py over the two queue files
    of app/adapters/pending_op_levels.py, with the web process setting and
    removing requests between any two of its steps.

    The list `web` is what the web process will ever ask, in order. The ledger `due`
    is computed from it: for every player the level last asked for and not
    withdrawn. The invariant `Honoured` says that each of them is queued at that
    level, or that ops.json carries it. */
module OpLevelsWorker {
  import opened Common
  import opened OpLevels
  import opened OpLedger
  import opened OpTransaction
  import opened Containers

  /** `_apply_requested_levels` on a copy of the entries that were read. */
  method NewEntries(ops: seq<OpEntry>, requested: seq<Item>)
    returns (entries: seq<OpEntry>, changed: nat, unresolved: seq<Item>)
    ensures |entries| == |ops| && entries == Applied(ops, ByKey(requested)) && changed == Differences(ops, entries)
    ensures Distinct(unresolved) && ByKey(unresolved) == Unlisted(ops, ByKey(requested))
  {
    var copy := new OpEntry[|ops|](i requires 0 <= i < |ops| => ops[i]);
    assert copy[..] == ops;
    changed, unresolved := ApplyRequestedLevels(copy, requested);
    entries := copy[..];
  }

  class Worker {
    var pending: Queue
    var applying: Queue
    var ops: seq<OpEntry>
    var rollback: Option<seq<OpEntry>>
    var marker: Option<Marker>
    var minecraft: Container

    // The calls of the web process, and how many of them have been served.
    const web: seq<Ask>
    var served: nat

    // The abstract state: the requests and the operators that remain once the
    // transaction is out of the way, and what players were promised.
    ghost var queue: Queue
    ghost var kept: seq<OpEntry>
    ghost var due: map<string, int>
    ghost var undo: Undo
    // Minecraft may be stopped because of this worker, and a later run will start it.
    ghost var down: bool
    // The last stop left a crash loop alone, so Docker may start Minecraft meanwhile.
    ghost var loose: bool
    // The players whose requests recoveries dropped, by the calls served until then.
    ghost var gaveUp: map<nat, set<string>>
    // Minecraft was stopped before any run.
    ghost const dormant: bool
    // A recovery once ended with Minecraft stopped because of this worker.
    ghost var stranded: bool

    ghost predicate Valid()
      reads this
    {
      && Core()
      && Recorded(web, served, gaveUp, due)
      && Sourced(web, served, pending, applying, marker)
      && (minecraft.Halted? && !dormant && !stranded ==> down)
    }

    /** What a single call of the web process keeps, whoever makes it. */
    ghost predicate Core()
      reads this
    {
      && Fits(pending, applying, ops, rollback, marker, undo, queue, kept, due)
      && (down ==> marker.Some?)
    }

    /** The handler was cut short while it undid a transaction already marked
        `committed`: recovery would drop the claim, or leave Minecraft stopped. */
    ghost predicate Cut()
      reads this`marker, this`undo, this`down
    {
      At(marker, Committed) && (undo.Exposed? || down)
    }

    /** Every request is honoured by the pending file and ops.json alone. */
    ghost predicate Settled()
      reads this`due, this`pending, this`ops
    {
      Honoured(due, pending, ops)
    }

    /** Minecraft stays down while ops.json is written. */
    ghost predicate Held()
      reads this`minecraft, this`loose
    {
      loose || minecraft.Halted?
    }

    constructor (ops: seq<OpEntry>, minecraft: Container, web: seq<Ask>)
      ensures Valid() && Settled() && undo.Sound? && marker.None? && !down
      ensures due == map[] && queue == map[] && kept == ops && gaveUp == map[] && !stranded
      ensures this.web == web && served == 0
    {
      this.ops, this.minecraft, this.web, served := ops, minecraft, web, 0;
      pending, applying, rollback, marker := map[], map[], None, None;
      queue, kept, due, undo, down := map[], ops, map[], Sound, false;
      gaveUp, stranded, loose, dormant := map[], false, false, minecraft.Halted?;
    }

    /** A worker killed at some point: any files and books that fit together. */
    constructor Resumed(pending: Queue, applying: Queue, ops: seq<OpEntry>, rollback: Option<seq<OpEntry>>,
                        marker: Option<Marker>, minecraft: Container, web: seq<Ask>, served: nat)
      requires served <= |web| && Sourced(web, served, pending, applying, marker)
      requires Fits(pending, applying, ops, rollback, marker, Sound, Backlog(applying, marker, Sound) + pending,
                    OpsKept(ops, rollback, marker), Owed(web, map[], served))
      requires minecraft.Halted? ==> marker.Some?
      ensures Valid() && undo.Sound? && down == minecraft.Halted? && !stranded && !loose
      ensures this.pending == pending && this.applying == applying && this.ops == ops && this.rollback == rollback
      ensures this.marker == marker && this.minecraft == minecraft && this.web == web && this.served == served
    {
      this.pending, this.applying, this.ops, this.rollback := pending, applying, ops, rollback;
      this.marker, this.minecraft, this.web, this.served := marker, minecraft, web, served;
      queue, kept := Backlog(applying, marker, Sound) + pending, OpsKept(ops, rollback, marker);
      due, undo, down := Owed(web, map[], served), Sound, minecraft.Halted?;
      gaveUp, stranded, loose, dormant := map[], false, false, false;
    }

    /** What callers need to know of the files. */
    lemma Facts()
      requires Valid()
      ensures kept == if rollback.Some? && !At(marker, Committed) then rollback.value else ops
      ensures (marker.None? ==> rollback.None?) && (!undo.Sound? ==> At(marker, Committed))
      ensures (undo.Exposed? ==> rollback == Some(ops)) && Keyed(pending) && Keyed(applying)
      ensures marker.Some? ==> Distinct(marker.value.requested) && Distinct(marker.value.unresolved)
      ensures queue == Backlog(applying, marker, undo) + pending
    {
      hide Fits, Recorded, Sourced;
      KeptIs(pending, applying, ops, rollback, marker, undo, queue, kept, due);
    }

    lemma SettledNow()
      requires Valid() && pending == queue && kept == ops
      ensures Settled()
    {
      hide Honoured, Recorded, Sourced;
    }

    // ---- the web process ----

    /** `set_level`: the newest request for a player takes the place of any other. */
    method SetLevel(player: Name, level: int) returns (ok: bool)
      requires Core()
      modifies this`pending, this`queue, this`due
      ensures Core() && (old(Settled()) ==> Settled())
      ensures ok <==> player.text != "" && 1 <= level <= 4
      ensures !ok ==> pending == old(pending) && queue == old(queue) && due == old(due)
      ensures ok ==> due == old(due)[player.folded := level]
      ensures ok ==> pending == old(pending)[player.folded := Item(player, level)]
      ensures ok ==> queue == old(queue)[player.folded := Item(player, level)]
    {
      hide Honoured, MarkerShaped, OpsShaped, OpsKept, Backlog, InTheFiles, Sourced, Recorded, AskedFor;
      if player.text == "" || level !in {1, 2, 3, 4} {
        return false;
      }
      PutLast(Backlog(applying, marker, undo), pending, player.folded, Item(player, level));
      SetHonours(due, queue, kept, player, level);
      SetHonours(due, pending, ops, player, level);
      SetOnFile(due, applying, pending, marker, player.folded, level, Item(player, level));
      pending := pending[player.folded := Item(player, level)];
      queue := queue[player.folded := Item(player, level)];
      due := due[player.folded := level];
      ok := true;
    }

    /** `remove`: withdraws the pending request; a claimed one is left alone, so
        the player stays queued exactly when the transaction holds a claim. */
    method Remove(player: Name)
      requires Core()
      modifies this`pending, this`queue, this`due
      ensures Core() && (old(Settled()) ==> Settled())
      ensures pending == old(pending) - {player.folded} && due == old(due) - {player.folded}
      ensures player.folded in queue <==> player.folded in Backlog(applying, marker, undo)
    {
      hide Honoured, MarkerShaped, OpsShaped, OpsKept, Backlog, InTheFiles, Sourced, Recorded, AskedFor;
      SetOnFile(due, applying, pending, marker, player.folded, 0, Item(player, 0));
      RemoveHonours(due, Backlog(applying, marker, undo), pending, kept, player.folded);
      SelfMerge(pending);
      RemoveHonours(due, map[], pending, ops, player.folded);
      pending := pending - {player.folded};
      SelfMerge(pending);
      queue := Backlog(applying, marker, undo) + pending;
      due := due - {player.folded};
    }

    /** The next call of the web process. */
    method Serve()
      requires Valid() && served < |web|
      modifies this`pending, this`queue, this`due, this`served
      ensures Valid() && (old(Settled()) ==> Settled()) && served == old(served) + 1
      ensures due == Heed(old(due), web[old(served)])
    {
      hide Honoured, MarkerShaped, OpsShaped, FilesShaped, OpsKept, Backlog, InTheFiles, Sourced, Owed, AskedFor;
      OwedNext(web, gaveUp, served);
      match web[served] {
        case Asked(player, level) =>
          var _ := SetLevel(player, level);
        case Withdrawn(player) =>
          Remove(player);
      }
      SourcedServe(web, served, old(pending), applying, marker, pending);
      served := served + 1;
    }

    /** Any number of calls by the web process, while time passes for the container. */
    method Interfere()
      requires Valid()
      modifies this`pending, this`queue, this`due, this`served, this`minecraft
      ensures Valid() && (old(Settled()) ==> Settled()) && MayBecome(old(minecraft), minecraft)
      ensures old(served) <= served
    {
      hide Fits, Recorded, Sourced;
      minecraft := Drift(minecraft);
      var more := Choose();
      while more && served < |web|
        invariant Valid() && (old(Settled()) ==> Settled()) && MayBecome(old(minecraft), minecraft)
        invariant old(served) <= served
        decreases |web| - served
      {
        Serve();
        more := Choose();
      }
    }

    // ---- the queue files, each written by an atomic replace that may still raise ----

    method WritePending(q: Queue, calm: bool) returns (o: Outcome)
      requires Valid() && Keyed(q) && Backlog(applying, marker, undo) + q == queue
      requires InTheFiles(due, applying, q, marker) && AskedFor(web, served, q)
      modifies this`pending
      ensures calm ==> o.Done?
      ensures Valid()
      ensures pending == q || (pending == old(pending) && !o.Done?)
    {
      hide Honoured, MarkerShaped, OpsShaped, OpsKept, Backlog, InTheFiles, Sourced, Recorded, AskedFor;
      SourcedWith(web, served, pending, applying, marker, q);
      o := Attempt(calm);
      var written := Choose();
      if o.Done? || written {
        pending := q;
      }
    }

    method WriteApplying(q: Queue, calm: bool) returns (o: Outcome)
      requires Valid() && Keyed(q) && (marker.Some? ==> q.Keys <= ClaimOf(marker).Keys)
      requires (At(marker, Committed) && !undo.Exposed?) || q + ClaimOf(marker) + pending == queue
      requires InTheFiles(due, q, pending, marker) && AskedFor(web, served, q)
      modifies this`applying
      ensures calm ==> o.Done?
      ensures Valid()
      ensures applying == q || (applying == old(applying) && !o.Done?)
    {
      hide Honoured, MarkerShaped, OpsShaped, OpsKept, InTheFiles, Sourced, Recorded, AskedFor;
      SourcedWith(web, served, pending, applying, marker, q);
      o := Attempt(calm);
      var written := Choose();
      if o.Done? || written {
        applying := q;
      }
    }

    lemma AskedParts()
      requires Valid()
      ensures AskedFor(web, served, pending) && AskedFor(web, served, applying)
    {
      hide AskedFor;
    }

    /** `claim`: applying file first, then the pending file is emptied. */
    method ClaimAll(calm: bool) returns (requested: seq<Item>, o: Outcome)
      requires Valid() && marker.None?
      modifies this`pending, this`applying
      ensures calm ==> o.Done?
      ensures Valid()
      ensures o.Done? ==> Distinct(requested) && ByKey(requested) == applying == queue && pending == map[]
    {
      hide Honoured, MarkerShaped, OpsShaped, InTheFiles, Sourced, Recorded, AskedFor;
      AskedParts();
      var merged := applying + pending;
      MergeTwice(applying, pending);
      ClaimOnFile(due, applying, pending, kept);
      AskedMerge(web, served, applying, pending);
      requested := ListItems(merged);
      o := WriteApplying(merged, calm);
      if o.Done? {
        o := WritePending(map[], calm);
      }
    }

    /** `complete_claim`: unresolved requests are queued again unless a newer one
        is there, then the applying file is emptied. */
    method CompleteClaim(calm: bool) returns (o: Outcome)
      requires Valid() && At(marker, Committed) && !undo.Exposed?
      modifies this`pending, this`applying
      ensures calm ==> o.Done?
      ensures Valid()
      ensures o.Done? ==> applying == map[] && pending == queue
    {
      hide Honoured, Applied, Unlisted, InTheFiles, FirstByKey, Sourced, Recorded, AskedFor;
      var queued := SetDefaults(pending, marker.value.unresolved);
      FirstIsOnly(marker.value.unresolved);
      ByKeyAt(marker.value.unresolved);
      Absorb(Backlog(applying, marker, undo), queued);
      MorePending(due, applying, pending, queued, marker);
      CompletedAsked(queued);
      o := WritePending(queued, calm);
      if o.Done? {
        NoneApplying(due, pending, marker);
        o := WriteApplying(map[], calm);
      }
    }

    lemma CompletedAsked(queued: Queue)
      requires Valid() && marker.Some? && queued == ByKey(marker.value.unresolved) + pending
      ensures AskedFor(web, served, queued) && AskedFor(web, served, map[])
    {
      AskedMerge(web, served, ByKey(marker.value.unresolved), pending);
    }

    lemma RestoredAsked(claimed: seq<Item>, queued: Queue)
      requires Valid() && queued == applying + ByKey(claimed) + pending
      requires if marker.Some? then marker.value.requested == claimed else applying == ByKey(claimed)
      ensures AskedFor(web, served, queued) && AskedFor(web, served, map[])
    {
      hide ByKey, AskedFor;
      AskedMerge(web, served, applying, ByKey(claimed));
      AskedMerge(web, served, applying + ByKey(claimed), pending);
    }

    /** `restore_claim`: the claim goes back to the pending file, under any newer
        request, then the applying file is emptied. */
    method RestoreClaim(claimed: seq<Item>, calm: bool) returns (o: Outcome)
      requires Valid() && Distinct(claimed)
      requires if marker.Some? then marker.value.requested == claimed else applying == ByKey(claimed)
      requires At(marker, Committed) ==> undo.Exposed?
      modifies this`pending, this`applying, this`undo
      ensures calm ==> o.Done?
      ensures Valid()
      ensures undo == old(undo) || (old(undo).Exposed? && undo.Requeued?)
      ensures o.Done? ==> applying == map[] && pending == queue && !undo.Exposed?
    {
      hide Honoured, Applied, Unlisted, Distinct, Keyed, ByKey, InTheFiles, Sourced, Recorded, AskedFor, OpsShaped;
      Facts();
      var queued := Overwrite(applying, claimed);
      queued := queued + pending;
      ByKeyAt(claimed);
      SelfMerge(applying);
      RequeueLaws(applying, ByKey(claimed), if marker.Some? then ByKey(marker.value.unresolved) else map[], pending);
      MorePending(due, applying, pending, queued, marker);
      RestoredAsked(claimed, queued);
      o := WritePending(queued, calm);
      if pending == queued && undo.Exposed? {
        RequeuedFits(pending, applying, ops, rollback, marker, queue, kept, due);
        undo := Requeued;
      }
      if o.Done? {
        NoneApplying(due, pending, marker);
        o := WriteApplying(map[], calm);
      }
    }

    // ---- the worker's other durable steps ----

    lemma ClaimAsked(requested: seq<Item>, unresolved: seq<Item>)
      requires Valid()
      requires if marker.Some? then marker.value.requested == requested else applying == ByKey(requested)
      requires forall key :: key in ByKey(unresolved) ==>
        key in ByKey(requested) && ByKey(unresolved)[key] == ByKey(requested)[key]
      ensures AskedFor(web, served, ByKey(requested)) && AskedFor(web, served, ByKey(unresolved))
    {
      hide AskedFor, ByKey;
      AskedPart(web, served, ByKey(requested), ByKey(unresolved));
    }

    /** A marker before the commit; a raised exception may follow the replace. */
    method WriteState(phase: Phase, requested: seq<Item>, calm: bool) returns (o: Outcome)
      requires Valid() && !At(marker, Committed) && !phase.Committed? && Distinct(requested)
      requires if marker.Some? then marker.value.requested == requested else applying == ByKey(requested)
      modifies this`marker, this`pending, this`queue, this`due, this`served, this`minecraft
      ensures calm ==> o.Done?
      ensures old(served) <= served
      ensures Valid() && MayBecome(old(minecraft), minecraft)
      ensures marker == Some(Marker(phase, requested, [])) || (marker == old(marker) && !o.Done?)
    {
      hide Fits, Recorded, Sourced, AskedFor, ByKey;
      Interfere();
      MarkFits(pending, applying, ops, rollback, marker, undo, queue, kept, due, Marker(phase, requested, []));
      NothingKeyed();
      ClaimAsked(requested, []);
      SourcedMarked(web, served, pending, applying, marker, Marker(phase, requested, []));
      o := Attempt(calm);
      var written := Choose();
      if o.Done? || written {
        marker := Some(Marker(phase, requested, []));
      }
    }

    /** The `committed` marker, the point where the claim leaves the queue. */
    method Commit(requested: seq<Item>, unresolved: seq<Item>, calm: bool) returns (o: Outcome)
      requires Valid() && marker.Some? && !At(marker, Committed) && rollback.Some?
      requires marker.value.requested == requested && Distinct(unresolved)
      requires ops == Applied(rollback.value, ByKey(requested))
      requires ByKey(unresolved) == Unlisted(rollback.value, ByKey(requested))
      modifies this`marker, this`queue, this`kept
      ensures calm ==> o.Done?
      ensures Valid()
      ensures !At(marker, Committed) ==> !o.Done? && marker == old(marker) && queue == old(queue) && kept == old(kept)
      ensures At(marker, Committed) ==>
        && marker == Some(Marker(Committed, requested, unresolved))
        && kept == Applied(old(kept), ByKey(requested))
        && queue == ByKey(unresolved) + pending
    {
      hide Fits, Applied, Unlisted, ByKey, Recorded, Sourced, AskedFor;
      CommitFits(
        pending, applying, ops, rollback.value, marker.value, undo, queue, kept, due, unresolved);
      UnlistedPart(rollback.value, ByKey(requested));
      ClaimAsked(requested, unresolved);
      SourcedMarked(web, served, pending, applying, marker, Marker(Committed, requested, unresolved));
      o := Attempt(calm);
      var written := Choose();
      if o.Done? || written {
        marker := Some(Marker(Committed, requested, unresolved));
        queue, kept := ByKey(unresolved) + pending, ops;
      }
    }

    method SaveRollback(calm: bool) returns (o: Outcome)
      requires Valid() && marker.Some? && !At(marker, Committed) && rollback.None?
      modifies this`rollback, this`pending, this`queue, this`due, this`served, this`minecraft
      ensures calm ==> o.Done?
      ensures old(served) <= served
      ensures Valid() && MayBecome(old(minecraft), minecraft)
      ensures rollback == Some(ops) || (rollback.None? && !o.Done?)
    {
      hide Honoured, Applied, Unlisted, Keyed, InTheFiles, Sourced, Recorded, AskedFor;
      Interfere();
      o := Attempt(calm);
      var written := Choose();
      if o.Done? || written {
        rollback := Some(ops);
      }
    }

    /** Replaces ops.json, only ever with Minecraft stopped. */
    method ReplaceOps(entries: seq<OpEntry>, calm: bool) returns (o: Outcome)
      requires Valid() && Held() && rollback.Some? && !At(marker, Committed)
      requires entries == Applied(rollback.value, ClaimOf(marker))
      modifies this`ops, this`pending, this`queue, this`due, this`served, this`minecraft
      ensures calm ==> o.Done?
      ensures old(served) <= served
      ensures Valid() && MayBecome(old(minecraft), minecraft) && (minecraft.Running? ==> loose)
      ensures ops == entries || (ops == old(ops) && !o.Done?)
    {
      hide Honoured, Applied, Unlisted, InTheFiles, ByKey, Sourced, Recorded, AskedFor;
      Interfere();
      o := Attempt(calm);
      var written := Choose();
      if o.Done? || written {
        ops := entries;
      }
    }

    /** `_restore_rollback`. Under a `committed` marker this opens the window in
        which recovery would drop the claim. */
    method RestoreOps(calm: bool) returns (o: Outcome)
      requires Valid() && Held() && rollback.Some? && undo.Sound?
      modifies this`ops, this`undo, this`queue, this`kept, this`minecraft
      ensures calm ==> o.Done?
      ensures Valid() && MayBecome(old(minecraft), minecraft) && (minecraft.Running? ==> loose)
      ensures undo.Sound? || (undo.Exposed? && kept == ops == rollback.value)
      ensures undo.Exposed? <==> At(marker, Committed) && ops == rollback.value && undo != old(undo)
      ensures undo.Sound? ==> queue == old(queue) && kept == old(kept)
      ensures o.Done? ==> ops == rollback.value && (At(marker, Committed) ==> undo.Exposed?)
    {
      hide Fits, Backlog, Recorded, Sourced;
      RestoreFits(pending, applying, ops, rollback.value, marker, queue, kept, due);
      minecraft := Drift(minecraft);
      o := Attempt(calm);
      var written := Choose();
      if o.Done? || written {
        ops := rollback.value;
        if At(marker, Committed) {
          undo, kept, queue := Exposed, ops, Backlog(applying, marker, Exposed) + pending;
        }
      }
    }

    /** Stops Minecraft; `seen` is the status that was read. */
    method Stop(calm: bool) returns (o: Outcome, seen: Container)
      requires Valid() && marker.Some?
      modifies this`minecraft, this`loose, this`down, this`pending, this`queue, this`due, this`served
      ensures calm ==> o.Done?
      ensures old(served) <= served
      ensures Valid() && MayBecome(old(minecraft), seen)
      ensures o.Done? ==> Held() && minecraft == AfterStop(seen) && loose == seen.Restarting?
    {
      hide Fits, Recorded, Sourced;
      Interfere();
      down := true;
      minecraft, seen, o := StopContainer(minecraft, calm);
      loose := if o.Done? then seen.Restarting? else loose;
    }

    /** Starts Minecraft; a start that raises may have left it in any state. */
    method Start(calm: bool) returns (o: Outcome)
      requires Valid() && marker.Some?
      modifies this`minecraft, this`down, this`pending, this`queue, this`due, this`served
      ensures calm ==> o.Done?
      ensures Valid() && old(served) <= served
      ensures o.Done? ==> minecraft.Running? && !down
    {
      hide Fits, Recorded, Sourced;
      Interfere();
      o := Attempt(calm);
      var state: Container := *;
      minecraft := if o.Done? then Running else state;
      down := !o.Done? && (down || minecraft.Halted?);
    }

    method DropRollback(calm: bool) returns (o: Outcome)
      requires Valid() && kept == ops && !undo.Exposed?
      modifies this`rollback
      ensures calm ==> o.Done?
      ensures Valid()
      ensures rollback.None? || (rollback == old(rollback) && !o.Done?)
    {
      hide Honoured, MarkerShaped, FilesShaped, Backlog, Applied, Unlisted, InTheFiles, Sourced, Recorded;
      o := Attempt(calm);
      var unlinked := Choose();
      if o.Done? || unlinked {
        rollback := None;
      }
    }

    method DropMarker(calm: bool) returns (o: Outcome)
      requires Valid() && Settled() && applying == map[] && kept == ops && rollback.None? && !down
      modifies this`marker, this`undo, this`queue
      ensures calm ==> o.Done?
      ensures Valid()
      ensures if marker.Some? then marker == old(marker) && undo == old(undo) else undo.Sound?
      ensures o.Done? ==> marker.None?
    {
      hide Honoured, Keyed, Distinct, Applied, Unlisted, ByKey, Recorded, Sourced, InTheFiles, AskedFor;
      NoClaim(web, served, due, pending, marker);
      o := Attempt(calm);
      var unlinked := Choose();
      if o.Done? || unlinked {
        marker, undo, queue := None, Sound, pending;
        SelfMerge(pending);
        SelfMerge(map[]);
      }
    }

    /** `_cleanup`: the rollback, then the marker. */
    method Cleanup(calm: bool) returns (o: Outcome)
      requires Valid() && Settled() && applying == map[] && kept == ops && !undo.Exposed? && !down
      modifies this`rollback, this`marker, this`undo, this`pending, this`queue, this`due, this`served, this`minecraft
      ensures calm ==> o.Done?
      ensures old(served) <= served
      ensures Valid() && Settled() && MayBecome(old(minecraft), minecraft)
      ensures if marker.Some? then marker == old(marker) && undo == old(undo) else undo.Sound?
      ensures o.Done? ==> marker.None?
    {
      hide Fits, Recorded, Sourced, Honoured;
      Facts();
      o := DropRollback(calm);
      if o.Done? {
        Interfere();
        o := DropMarker(calm);
      }
    }

    // ---- the transaction ----

    ghost predicate Claims(requested: seq<Item>)
      reads this`marker, this`applying
    {
      && Distinct(requested)
      && if marker.Some? then marker.value.requested == requested else applying == ByKey(requested)
    }

    /** Puts the requests back into the queue and drops the transaction's files. */
    method Requeue(requested: seq<Item>, calm: bool) returns (o: Outcome)
      requires Valid() && Claims(requested) && kept == ops && !down
      requires if At(marker, Committed) then undo.Exposed? else undo.Sound?
      modifies this`pending, this`applying, this`rollback, this`marker, this`minecraft
      modifies this`undo, this`queue, this`due, this`served
      ensures calm ==> o.Done?
      ensures old(served) <= served
      ensures MayBecome(old(minecraft), minecraft)
      ensures Valid() && (!old(At(marker, Committed)) ==> undo.Sound? && !At(marker, Committed))
      ensures o.Done? ==> marker.None? && undo.Sound? && Settled()
    {
      hide Fits, Recorded, Sourced, AskedFor, ByKey, Backlog;
      Facts();
      Interfere();
      o := RestoreClaim(requested, calm);
      if o.Done? {
        SettledNow();
        o := Cleanup(calm);
      }
    }

    /** Undoes a transaction: ops.json first if it was saved, then the requests.
        Under a `committed` marker, stopping half-way leaves it exposed. */
    method Revert(requested: seq<Item>, saved: bool, restart: bool, calm: bool) returns (o: Outcome)
      requires Valid() && Claims(requested) && undo.Sound?
      requires if saved then rollback.Some? else kept == ops && !At(marker, Committed)
      requires (saved ==> restart) && (restart ==> marker.Some?)
      requires restart || !down
      modifies this`pending, this`applying, this`ops, this`rollback, this`marker, this`minecraft
      modifies this`queue, this`kept, this`due, this`served, this`undo, this`down, this`loose
      ensures calm ==> o.Done?
      ensures old(served) <= served
      ensures Valid()
      ensures !old(At(marker, Committed)) ==> kept == old(kept) && undo.Sound? && !At(marker, Committed)
      ensures saved ==> kept == old(kept) || kept == old(rollback).value
      ensures o.Done? ==> marker.None? && undo.Sound? && Settled() && !down && (restart ==> !minecraft.Halted?)
      ensures o.Done? ==> kept == ops == if saved then old(rollback).value else old(ops)
    {
      hide Fits, Applied, Unlisted, Distinct, Recorded, Sourced, AskedFor;
      Facts();
      if saved {
        var seen;
        o, seen := Stop(calm);
        if !o.Done? {
          return;
        }
        o := RestoreOps(calm);
        if !o.Done? {
          return;
        }
      }
      if restart {
        o := Start(calm);
        if !o.Done? {
          return;
        }
      }
      o := Requeue(requested, calm);
    }

    ghost predicate NothingLost(before: map<nat, set<string>>, wasStranded: bool)
      reads this`gaveUp, this`stranded
    {
      gaveUp == before && stranded == wasStranded
    }

    /** What recovery gives up when it takes a `committed` marker at its word:
        nothing, unless the handler was cut short; and then exactly the dropped
        requests, and the restart of Minecraft. No file changes here. */
    ghost method Abandon()
      requires Valid() && At(marker, Committed)
      modifies this`undo, this`down, this`queue, this`due, this`gaveUp, this`stranded
      ensures Valid() && !Cut() && (undo.Sound? || undo.Requeued?)
      ensures var dropped := if old(undo).Exposed? then DroppedFrom(old(due), ClaimOf(marker), pending, ops) else {};
        && due == old(due) - dropped
        && gaveUp == if old(undo).Exposed? then GiveUp(old(gaveUp), served, dropped) else old(gaveUp)
      ensures stranded == (old(stranded) || old(down))
    {
      hide Fits, DroppedFrom, Recorded, Sourced;
      if undo.Exposed? {
        Forgo();
      }
      stranded, down := stranded || down, false;
    }

    /** The exposed case of it. */
    ghost method Forgo()
      requires Valid() && At(marker, Committed) && undo.Exposed?
      modifies this`undo, this`queue, this`due, this`gaveUp
      ensures Valid() && undo.Requeued?
      ensures var dropped := DroppedFrom(old(due), ClaimOf(marker), pending, ops);
        due == old(due) - dropped && gaveUp == GiveUp(old(gaveUp), served, dropped)
    {
      hide Fits, DroppedFrom, Backlog, Recorded, Sourced;
      var dropped := DroppedFrom(due, ClaimOf(marker), pending, ops);
      ForgoFits(pending, applying, ops, rollback, marker, queue, kept, due);
      RecordedGivingUp(web, served, gaveUp, due, dropped);
      undo, queue := Requeued, Backlog(applying, marker, Requeued) + pending;
      due, gaveUp := due - dropped, GiveUp(gaveUp, served, dropped);
    }

    /** `_recover_interrupted`: `None` when the run may go on. */
    method Recover(calm: bool) returns (r: Option<RunEnd>)
      requires Valid()
      modifies this
      ensures calm ==> r == if old(marker).None? || old(At(marker, Committed)) then None else Some(Cancelled)
      ensures old(served) <= served
      ensures Valid() && !Cut() && kept == old(kept)
      ensures gaveUp == if old(undo).Exposed?
        then GiveUp(old(gaveUp), old(served), DroppedFrom(old(due), ClaimOf(old(marker)), old(pending), old(ops)))
        else old(gaveUp)
      ensures stranded == (old(stranded) || (old(At(marker, Committed)) && old(down)))
      ensures r.None? ==> marker.None? && undo.Sound?
      ensures r.Some? ==> r.value in {Cancelled, Failed, Dead}
      ensures old(At(marker, Committed)) ==> MayBecome(old(minecraft), minecraft)
      ensures r == Some(Cancelled) ==> marker.None? && Settled() && !minecraft.Halted? && ops == kept
    {
      hide Fits, Applied, Unlisted, DroppedFrom, Distinct, Recorded, Sourced, AskedFor;
      Facts();
      if marker.None? {
        return None;
      }
      var o;
      if At(marker, Committed) {
        Abandon();
        o := CompleteClaim(calm);
        if o.Done? {
          Facts();
          SettledNow();
          o := Cleanup(calm);
        }
        return if o.Done? then None else Some(if o.Killed? then Dead else Failed);
      }
      o := Revert(marker.value.requested, rollback.Some?, true, calm);
      r := Some(if o.Done? then Cancelled else if o.Killed? then Dead else Failed);
    }

    /** From the claim to a stopped server: ops.json is not touched. */
    method Halt(requested: seq<Item>, calm: bool) returns (o: Outcome, stopped: bool)
      requires Valid() && marker.None? && Claims(requested)
      modifies this`marker, this`minecraft, this`loose, this`down, this`pending, this`queue, this`due, this`served
      ensures calm ==> o.Done?
      ensures old(served) <= served
      ensures Valid() && Claims(requested) && !At(marker, Committed)
      ensures o.Done? ==> stopped && marker.Some? && Held()
      ensures !stopped ==> !down
      ensures stopped ==> marker.Some?
    {
      hide Fits, Recorded, Sourced, AskedFor;
      Facts();
      stopped := false;
      o := WriteState(Claimed, requested, calm);
      if !o.Done? {
        return;
      }
      stopped := true;
      var seen;
      o, seen := Stop(calm);
      if !o.Done? {
        return;
      }
      o := WriteState(Stopped, requested, calm);
    }

    /** Reads ops.json and saves it. */
    method Save(requested: seq<Item>, calm: bool) returns (o: Outcome, saved: bool)
      requires Valid() && marker.Some? && rollback.None? && Claims(requested) && !At(marker, Committed)
      modifies this`marker, this`rollback, this`pending, this`queue, this`due, this`served, this`minecraft
      ensures calm ==> o.Done?
      ensures old(served) <= served
      ensures Valid() && Claims(requested) && marker.Some? && !At(marker, Committed)
      ensures MayBecome(old(minecraft), minecraft)
      ensures rollback == Some(ops) || (rollback.None? && !saved)
      ensures o.Done? ==> saved
    {
      hide Fits, Recorded, Sourced, AskedFor;
      Facts();
      saved := false;
      o := Attempt(calm);
      if !o.Done? {
        return;
      }
      o := SaveRollback(calm);
      if !o.Done? {
        return;
      }
      saved := true;
      o := WriteState(RollbackReady, requested, calm);
    }

    /** Rewrites ops.json with the requested levels. */
    method Rewrite(requested: seq<Item>, calm: bool) returns (o: Outcome, changed: nat, unresolved: seq<Item>)
      requires Valid() && Claims(requested) && marker.Some? && !At(marker, Committed)
      requires rollback == Some(ops) && Held()
      modifies this`ops, this`marker, this`pending, this`queue, this`due, this`served, this`minecraft
      ensures calm ==> o.Done?
      ensures old(served) <= served
      ensures Valid() && Claims(requested) && marker.Some? && !At(marker, Committed)
      ensures o.Done? ==>
        && ops == Applied(old(ops), ByKey(requested)) && Distinct(unresolved)
        && ByKey(unresolved) == Unlisted(old(ops), ByKey(requested))
      ensures o.Done? ==> changed == Differences(old(ops), ops)
    {
      hide Fits, Applied, Unlisted, Differences, ByKey, Recorded, Sourced;
      Facts();
      var entries;
      entries, changed, unresolved := NewEntries(ops, requested);
      NoDifferences(ops, entries);
      if changed != 0 {
        o := ReplaceOps(entries, calm);
        if !o.Done? {
          return;
        }
      }
      o := WriteState(AppliedPhase, requested, calm);
    }

    /** Starts Minecraft on the new levels and commits. */
    method Conclude(requested: seq<Item>, unresolved: seq<Item>, calm: bool) returns (o: Outcome)
      requires Valid() && Claims(requested) && marker.Some? && !At(marker, Committed)
      requires rollback.Some? && Distinct(unresolved) && ops == Applied(rollback.value, ByKey(requested))
      requires ByKey(unresolved) == Unlisted(rollback.value, ByKey(requested))
      modifies this`minecraft, this`down, this`marker, this`applying
      modifies this`pending, this`queue, this`due, this`served, this`kept
      ensures calm ==> o.Done?
      ensures old(served) <= served
      ensures Valid() && Claims(requested) && marker.Some? && (At(marker, Committed) ==> !down)
      ensures kept == if At(marker, Committed) then Applied(old(kept), ByKey(requested)) else old(kept)
      ensures o.Done? ==> At(marker, Committed) && !minecraft.Halted? && applying == map[] && Settled() && kept == ops
    {
      hide Fits, Applied, Unlisted, Distinct, Recorded, Sourced, AskedFor;
      Facts();
      o := Start(calm);
      if !o.Done? {
        return;
      }
      o := Commit(requested, unresolved, calm);
      if !o.Done? {
        return;
      }
      Interfere();
      o := CompleteClaim(calm);
      Facts();
      if o.Done? {
        SettledNow();
      }
    }

    /** The `try` block of `apply_pending_levels`. */
    method Proceed(requested: seq<Item>, calm: bool)
      returns (o: Outcome, stopped: bool, saved: bool, changed: nat, waiting: nat)
      requires Valid() && marker.None? && Claims(requested) && undo.Sound?
      modifies this`pending, this`applying, this`ops, this`rollback, this`marker, this`minecraft
      modifies this`queue, this`kept, this`due, this`served, this`undo, this`down, this`loose
      ensures calm ==> o.Done?
      ensures old(served) <= served
      ensures Valid() && Claims(requested) && undo.Sound? && !Cut()
      ensures !stopped && !saved ==> !down
      ensures saved || stopped ==> marker.Some?
      ensures kept == if At(marker, Committed) then Applied(old(kept), ByKey(requested)) else old(kept)
      ensures if saved then rollback == Some(old(kept)) else !At(marker, Committed) && kept == ops
      ensures o.Done? ==> At(marker, Committed) && !minecraft.Halted? && applying == map[] && Settled() && kept == ops
      ensures o.Done? ==> changed == Differences(old(kept), kept)
      ensures o.Done? ==> waiting == |Unlisted(old(kept), ByKey(requested))|
    {
      hide Fits, Applied, Unlisted, Differences, Distinct, Recorded, Sourced, AskedFor;
      Facts();
      saved, changed, waiting := false, 0, 0;
      o, stopped := Halt(requested, calm);
      if !o.Done? {
        return;
      }
      o, saved := Save(requested, calm);
      if !o.Done? {
        return;
      }
      var unresolved;
      o, changed, unresolved := Rewrite(requested, calm);
      if !o.Done? {
        return;
      }
      waiting := |unresolved|;
      ByKeySize(unresolved);
      o := Conclude(requested, unresolved, calm);
    }

    /** What `apply_pending_levels` does after the claim. `undone` says that the try
        block raised with the `committed` marker in place; only the handler of such
        a run can be cut short harmfully, never a run that is killed outright. */
    method Transact(requested: seq<Item>, calm: bool, undoes: bool) returns (r: RunEnd, ghost undone: bool)
      requires Valid() && marker.None? && Claims(requested) && undo.Sound?
      modifies this`pending, this`applying, this`ops, this`rollback, this`marker, this`minecraft
      modifies this`queue, this`kept, this`due, this`served, this`undo, this`down, this`loose
      ensures calm ==> r.Completed? && marker.None?
      ensures undoes ==> !r.Failed?
      ensures old(served) <= served
      ensures Valid()
      ensures Cut() ==> undone && (r.Failed? || r.Dead?)
      ensures kept == old(kept) || kept == Applied(old(kept), ByKey(requested))
      ensures r.Completed? ==>
        && ops == kept == Applied(old(kept), ByKey(requested))
        && !minecraft.Halted? && Settled() && (marker.None? || At(marker, Committed))
        && r.changed == Differences(old(kept), kept) && r.waiting == |Unlisted(old(kept), ByKey(requested))|
      ensures r.Cancelled? ==> ops == kept == old(kept) && marker.None? && Settled()
    {
      hide Fits, Applied, Unlisted, Differences, Distinct, Recorded, Sourced, AskedFor;
      Facts();
      var o, stopped, saved, changed, waiting := Proceed(requested, calm);
      undone := o.Raised? && At(marker, Committed);
      if o.Done? {
        o := Cleanup(calm);  // an exception here is only logged
        return if o.Killed? then Dead else Completed(changed, waiting), undone;
      }
      if o.Killed? {
        return Dead, undone;
      }
      o := Revert(requested, saved, saved || stopped, undoes);
      r := if o.Done? then Cancelled else if o.Killed? then Dead else Failed;
    }

    /** `apply_pending_levels`, one run of the worker. `asked` is what it claimed, after
        `claimedAt` calls of the web process: all that was owed then and not yet in
        ops.json. Once it completes, ops.json carries it for every player listed
        there, and the rest is pending. */
    method Run(calm: bool, undoes: bool)
      returns (r: RunEnd, ghost asked: Queue, ghost claimedAt: nat, ghost undone: bool)
      requires Valid()
      modifies this
      ensures calm ==> if old(marker).None? || old(At(marker, Committed)) then r.Completed? else r.Cancelled?
      ensures calm ==> marker.None? && !minecraft.Halted? && Settled()
      ensures Valid() && old(served) <= served
      ensures Cut() ==> undone && (r.Failed? || r.Dead?)
      ensures gaveUp == if old(undo).Exposed?
        then GiveUp(old(gaveUp), old(served), DroppedFrom(old(due), ClaimOf(old(marker)), old(pending), old(ops)))
        else old(gaveUp)
      ensures stranded == (old(stranded) || (old(At(marker, Committed)) && old(down)))
      ensures old(served) <= claimedAt <= served
      ensures r.Completed? ==>
        && Honoured(Owed(web, gaveUp, claimedAt), asked, old(kept))
        && Delivered(web, gaveUp, claimedAt, served, pending, ops)
      ensures AskedFor(web, served, asked) && (kept == old(kept) || kept == Applied(old(kept), asked))
      ensures r.Completed? ==>
        && ops == kept == Applied(old(kept), asked)
        && !minecraft.Halted? && Settled() && (marker.None? || At(marker, Committed))
        && r.changed == Differences(old(kept), kept) && r.waiting == |Unlisted(old(kept), asked)|
      ensures r.Cancelled? ==> ops == kept == old(kept) && marker.None? && Settled()
    {
      hide Honoured, Applied, Unlisted, Differences, Keyed, InTheFiles, Recorded, AskedFor;
      asked, claimedAt, undone := map[], served, false;
      AskedNothing(web, served);
      var recovered := Recover(calm);
      if recovered.Some? {
        AskedNothing(web, served);
        return recovered.value, asked, claimedAt, undone;
      }
      Interfere();
      var requested, o := ClaimAll(calm);
      AskedNothing(web, served);
      if !o.Done? {
        return if o.Killed? then Dead else Failed, asked, claimedAt, undone;
      }
      asked, claimedAt := ByKey(requested), served;
      ClaimHonours();
      r, undone := Transact(requested, calm, undoes);
      AskedLater(web, claimedAt, served, asked);
      if r.Completed? {
        Deliver(claimedAt, asked, old(kept));
      }
    }

    /** What is owed is in the queue or carried. */
    lemma ClaimHonours()
      requires Valid()
      ensures Honoured(Owed(web, gaveUp, served), queue, kept)
      ensures forall n :: n in gaveUp ==> n <= served
    {
      hide Honoured, Sourced, Owed;
    }

    lemma Deliver(claimedAt: nat, asked: Queue, before: seq<OpEntry>)
      requires Valid() && Settled() && claimedAt <= served && ops == Applied(before, asked)
      requires forall n :: n in gaveUp ==> n <= claimedAt
      requires Honoured(Owed(web, gaveUp, claimedAt), asked, before)
      ensures Delivered(web, gaveUp, claimedAt, served, pending, ops)
    {
      hide Honoured, Sourced, Owed, Fits, Applied;
      DeliveredOk(web, gaveUp, claimedAt, served, pending, ops, asked, before);
    }

    /** Any number of runs, each ending in any way, with the web process at work
        throughout. Whatever it has asked for so far, and has not withdrawn, is in
        the pending file at the level last asked for, or else in the applying file
        at that level, or else ops.json carries it; and a server that is down makes
        the next run start it. This can fail only after a run whose handler was cut
        short while it undid a commit: then a request may stand in the marker alone,
        the next recovery gives up exactly the dropped ones, and may leave Minecraft
        stopped. */
    method RunAll(calm: seq<bool>, undoes: seq<bool>) returns (ends: seq<RunEnd>, ghost undone: seq<bool>)
      requires Valid() && |calm| == |undoes|
      modifies this
      ensures Valid() && old(served) <= served <= |web| && |ends| == |undone| == |calm|
      ensures !undo.Exposed? ==> OnFile(Owed(web, gaveUp, served), pending, applying, ops)
      ensures Honoured(Owed(web, gaveUp, served), Backlog(applying, marker, undo) + pending,
                       OpsKept(ops, rollback, marker))
      ensures !old(Cut()) && !AnyCut(ends, undone) ==>
        && NothingLost(old(gaveUp), old(stranded)) && !Cut() && !undo.Exposed?
      ensures minecraft.Halted? && !dormant && !stranded ==> marker.Some? && (At(marker, Committed) ==> Cut())
      ensures forall i :: 0 <= i < |calm| && calm[i] ==> ends[i].Completed? || ends[i].Cancelled?
    {
      hide Honoured, Applied, Unlisted, Differences, Keyed, InTheFiles, Sourced, Owed, MarkerShaped, FilesShaped;
      ends, undone := [], [];
      for i := 0 to |calm|
        invariant Valid() && old(served) <= served && |ends| == |undone| == i
        invariant forall k :: 0 <= k < i && calm[k] ==> ends[k].Completed? || ends[k].Cancelled?
        invariant !old(Cut()) && !AnyCut(ends, undone) ==> NothingLost(old(gaveUp), old(stranded)) && !Cut()
      {
        ghost var ends0, undone0 := ends, undone;
        var end;
        ghost var asked, claimedAt, back;
        end, asked, claimedAt, back := Run(calm[i], undoes[i]);
        ends, undone := ends + [end], undone + [back];
        CutStep(ends0, undone0, end, back);
        Interfere();
      }
      if !undo.Exposed? {
        Conserved(due, pending, applying, ops, rollback, marker, undo);
      }
    }
  }

  /** Some run raised under a `committed` marker and its handler failed or died. */
  ghost predicate AnyCut(ends: seq<RunEnd>, undone: seq<bool>)
    requires |ends| == |undone|
  {
    exists i :: 0 <= i < |ends| && undone[i] && (ends[i].Failed? || ends[i].Dead?)
  }

  lemma CutStep(ends: seq<RunEnd>, undone: seq<bool>, end: RunEnd, back: bool)
    requires |ends| == |undone|
    ensures AnyCut(ends + [end], undone + [back]) <==> AnyCut(ends, undone) || (back && (end.Failed? || end.Dead?))
  {
    var ends', undone' := ends + [end], undone + [back];
    assert ends'[|ends|] == end && undone'[|ends|] == back;
    if AnyCut(ends, undone) {
      var i :| 0 <= i < |ends| && undone[i] && (ends[i].Failed? || ends[i].Dead?);
      assert undone'[i] && ends'[i] == ends[i];
    }
  }

  // ---- inputs that show where it fails ----

  /** A recovery that finds a `committed` marker does not start Minecraft: the server
      is stopped after it exactly if it was stopped before it. */
  method CommittedStaysDown(worker: Worker, calm: bool) returns (r: Option<RunEnd>)
    requires worker.Valid() && At(worker.marker, Committed)
    modifies worker
    ensures worker.minecraft.Halted? <==> old(worker.minecraft).Halted?
    ensures (calm ==> r.None?) && (r.None? ==> worker.marker.None?)
  {
    r := worker.Recover(calm);
  }

  /** Bob was raised and the transaction committed; then the handler stopped the
      server and died. Nothing later starts it. */
  method StrandedInstance(calm: bool) returns (worker: Worker, ghost cut: bool, r: Option<RunEnd>)
    ensures cut && worker.minecraft.Halted? && (calm ==> r.None? && worker.marker.None?)
  {
    var bob := Name("Bob", "bob");
    var item := Item(bob, 4);
    var original, raised := [OpEntry(Some(bob), Some(1), "")], [OpEntry(Some(bob), Some(4), "")];
    var marker := Some(Marker(Committed, [item], []));
    var web := [Asked(bob, 4)];
    BobAsks(item, web);
    worker := new Worker.Resumed(map[], map["bob" := item], raised, Some(original), marker, Halted, web, 1);
    cut := worker.Cut();
    r := CommittedStaysDown(worker, calm);
  }

  lemma {:induction false} BobAsks(item: Item, web: seq<Ask>)
    requires item == Item(Name("Bob", "bob"), 4) && web != [] && web[0] == Asked(item.name, 4)
    ensures
      var bob, claimed := Name("Bob", "bob"), map["bob" := item];
      var original, raised := [OpEntry(Some(bob), Some(1), "")], [OpEntry(Some(bob), Some(4), "")];
      && ByKey([item]) == claimed && ByKey([]) == map[] && Distinct([item]) && Distinct([])
      && raised == Applied(original, claimed) && Unlisted(original, claimed) == map[]
      && Owed(web, map[], 1) == map["bob" := 4] && AskedFor(web, 1, claimed) && AskedFor(web, 1, map[])
      && Carried(raised, "bob", 4) && Listed(original, "bob")
  {
    var bob := Name("Bob", "bob");
    var original, raised := [OpEntry(Some(bob), Some(1), "")], [OpEntry(Some(bob), Some(4), "")];
    assert [item][..0] == [];
    assert Names(original[0], "bob") && Names(raised[0], "bob");
    assert Owed(web, map[], 0) == map[];
  }

  /** A withdrawal that comes after the claim is too late: once the entries are
      rewritten, the player holds the level that was withdrawn. */
  method WithdrawnTooLate(worker: Worker, player: Name, requested: seq<Item>, calm: bool)
    returns (o: Outcome, changed: nat, unresolved: seq<Item>)
    requires worker.Valid() && worker.Claims(requested) && worker.marker.Some? && !At(worker.marker, Committed)
    requires worker.rollback == Some(worker.ops) && worker.Held()
    requires worker.served < |worker.web| && worker.web[worker.served] == Withdrawn(player)
    requires player.folded in ByKey(requested) && Listed(worker.ops, player.folded)
    modifies worker
    ensures calm ==> o.Done?
    ensures o.Done? ==> Carried(worker.ops, player.folded, ByKey(requested)[player.folded].level)
  {
    worker.Serve();
    AppliedAt(worker.ops, ByKey(requested), player.folded);
    o, changed, unresolved := worker.Rewrite(requested, calm);
  }

  /** Bob's request is claimed, then withdrawn, then applied. */
  method WithdrawnInstance(calm: bool) returns (worker: Worker, o: Outcome)
    ensures (calm ==> o.Done?) && (o.Done? ==> Carried(worker.ops, "bob", 4))
  {
    var bob := Name("Bob", "bob");
    var item := Item(bob, 4);
    var original := [OpEntry(Some(bob), Some(1), "")];
    var marker := Some(Marker(RollbackReady, [item], []));
    var web := [Asked(bob, 4), Withdrawn(bob)];
    BobAsks(item, web);
    worker := new Worker.Resumed(map[], map["bob" := item], original, Some(original), marker, Halted, web, 1);
    var changed, unresolved;
    o, changed, unresolved := WithdrawnTooLate(worker, bob, [item], calm);
  }
}
