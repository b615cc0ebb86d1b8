/** The restore transaction of app/restore_worker.py: a write-ahead phase
    marker, a rollback clone and an in-place synchronisation, with recovery of
    an interrupted run.

    Every call that touches a file or a container may raise, and the process may
    be killed at any of them. The ghost `history` lists the archives that were
    committed; `Truth` is the world that recovery would leave. The object
    invariant says that they agree at every point where a run can end. */
module RestoreWorker {
  import opened Common
  import opened FileTree
  import opened Containers
  import opened Extraction
  import opened History
  import Inspection
  import Polling

  datatype Phase =
    | Staged | Stopping | Stopped
    | RollbackReady | Applying | Applied | Starting
    | RollingBack | RollbackFailed
    | Started

  /** The phases in which an interrupted run is undone from the rollback. */
  predicate UsesRollback(phase: Phase) {
    && !phase.Staged? && !phase.Stopping? && !phase.Stopped? && !phase.Started?
  }

  /** The phases after which recovery starts Minecraft even without a rollback. */
  predicate StartsWithout(phase: Phase) {
    phase.Staged? || phase.Stopping? || phase.Stopped? || phase.RollbackReady? || phase.Applied? || phase.Starting?
  }

  datatype Marker = Marker(phase: Phase, target: string)

  /** How a run of the worker ends. All but `Returned` and `Dead` are exceptions,
      named after the message they carry. */
  datatype RunEnd =
    | Returned(target: string)
    | Refused            // nothing was begun: bad target, bad archive, or a raw exception
    | RolledBack         // cancelled, old world back in place
    | CancelledEarly     // cancelled before anything was applied
    | RollbackLost       // restarted with no local rollback to be found
    | NeedsOperator      // manual intervention requested
    | Dead               // the process was killed

  /** A stop that left a crash loop alone has read `restarting`. */
  ghost predicate LooseSeen(loose: bool, looks: seq<Container>) {
    loose ==> Restarting in looks
  }

  lemma LooseStep(looks: seq<Container>, seen: Container)
    ensures LooseSeen(seen.Restarting?, looks + [seen])
  {
  }

  class Worker {
    // The data root. Its marker file is kept apart as a decoded value.
    var root: Entries
    var marker: Option<Marker>
    // The two containers that compete for one address.
    var minecraft: Container
    var doorman: bool

    // The members of each archive, and how a world name is read off its properties.
    const archives: map<string, seq<Member>>
    const levelName: string -> string
    const hasDoorman: bool

    ghost const genesis: Forest
    // What was committed, and what was torn.
    ghost var history: seq<Deed>
    // A failed lookup was taken for an absent doorman while the doorman was running.
    ghost var blind: bool
    // The last stop left a crash loop alone, so Docker may start Minecraft meanwhile.
    ghost var loose: bool
    // The statuses that completed stops have read.
    ghost var looks: seq<Container>
    // Minecraft was stopped before any run.
    ghost const dormant: bool
    // Minecraft may be stopped because of this worker.
    ghost var down: bool
    // The phases written so far.
    ghost var journal: seq<Phase>

    /** The data root without the transaction's own names. */
    ghost function Live(): Entries
      reads this`root
    {
      Unprotected(root, PROTECTED)
    }

    ghost function World(): Forest
      reads this`root
    {
      Contents(Live())
    }

    predicate RecoveryUsesRollback()
      reads this`root, this`marker
    {
      ROLLBACK in root && (marker.None? || UsesRollback(marker.value.phase))
    }

    /** The world that recovery would leave from here. */
    ghost function Truth(): Forest
      requires ROLLBACK in root ==> root[ROLLBACK].Dir?
      reads this`root, this`marker
    {
      if RecoveryUsesRollback() then Contents(root[ROLLBACK].entries) else World()
    }

    ghost function Committed(): Forest
      reads this`history
    {
      Replay(genesis, history, Trees(archives))
    }

    /** The two containers never hold the shared address together. */
    ghost predicate Exclusive()
      reads this`minecraft, this`doorman, this`blind, this`loose, this`looks
    {
      && (doorman ==> hasDoorman)
      && LooseSeen(loose, looks)
      && (!blind && !loose ==> doorman ==> minecraft.Halted?)
    }

    /** Minecraft stays down while the worker reads or writes the world. */
    ghost predicate Held()
      reads this`minecraft, this`loose
    {
      loose || minecraft.Halted?
    }

    /** An interrupted transaction that recovery gives up on. */
    predicate Stuck()
      reads this`root, this`marker
    {
      ROLLBACK !in root && (At(Applying) || At(RollingBack) || At(RollbackFailed))
    }

    /** The next run's recovery would start Minecraft. */
    predicate RecoveryStarts()
      reads this`root, this`marker
    {
      marker.Some? && !At(Started) && (RecoveryUsesRollback() || StartsWithout(marker.value.phase))
    }

    predicate Clean()
      reads this`root, this`marker
    {
      marker.None? && STAGE !in root && ROLLBACK !in root
    }

    ghost predicate Shaped()
      reads this`root, this`marker, this`history, this`minecraft, this`down
    {
      && (STAGE in root ==> root[STAGE].Dir?)
      && (ROLLBACK in root ==> root[ROLLBACK].Dir? && root[ROLLBACK].entries.Keys !! PROTECTED)
      && (marker.None? ==> ROLLBACK !in root)
      && (marker.Some? && marker.value.phase.Started? ==>
            && history != [] && history[|history| - 1] == Restored(marker.value.target)
            && !minecraft.Halted?)
      && (down ==> RecoveryStarts())
      && (minecraft.Halted? && !dormant ==> down)
    }

    ghost predicate Valid()
      reads this
    {
      && Shaped()
      && Exclusive()
      && Truth() == Committed()
      && Sound(genesis, history, Trees(archives))
    }

    ghost predicate WorldIntact()
      reads this`root, this`history
    {
      World() == Committed()
    }

    ghost predicate RollbackIntact()
      reads this`root, this`history
    {
      ROLLBACK in root && root[ROLLBACK].Dir? && Contents(root[ROLLBACK].entries) == Committed()
    }

    /** The world has been read, at most, but not written. */
    predicate Untouched()
      reads this`marker
    {
      marker.Some? && (marker.value.phase.Staged? || marker.value.phase.Stopping? || marker.value.phase.Stopped?)
    }

    predicate At(phase: Phase)
      reads this`marker
    {
      marker.Some? && marker.value.phase == phase
    }

    constructor (root: Entries, archives: map<string, seq<Member>>, levelName: string -> string,
                 minecraft: Container, hasDoorman: bool)
      requires root.Keys !! PROTECTED
      ensures Valid() && !blind && !loose && history == [] && looks == []
      ensures World() == Contents(root) && Truth() == genesis && dormant == minecraft.Halted?
    {
      this.root, this.archives, this.levelName, this.hasDoorman := root, archives, levelName, hasDoorman;
      this.minecraft, this.doorman := minecraft, false;
      marker := None;
      genesis, history, dormant := Contents(root), [], minecraft.Halted?;
      blind, loose, looks, down, journal := false, false, [], false, [];
      new;
      assert Unprotected(root, PROTECTED) == root;
    }

    /** A worker that was killed in `_cleanup_transaction` after a rollback: the old
        world is back, and of its full copy an interrupted removal left `half`. */
    constructor Interrupted(live: Entries, full: Entries, half: Entries)
      requires live.Keys !! PROTECTED && full.Keys !! PROTECTED && Contents(full) == Contents(live)
      requires Remnant(Dir(0, full), Dir(0, half)) && Contents(half) != Contents(full)
      ensures Valid() && RecoveryUsesRollback() && TornBy([])
      ensures World() == Contents(live) && root[ROLLBACK].entries == half
    {
      hide Contents, Unprotected, Replay, Trees, Sound, Remnant, ForestRemnant;
      root, archives, levelName, hasDoorman := live[ROLLBACK := Dir(0, half)], map[], (text: string) => "", false;
      minecraft, doorman := Running, false;
      marker := Some(Marker(RollingBack, ""));
      genesis, history, dormant := Contents(live), [Torn(Contents(half))], false;
      blind, loose, looks, down, journal := false, false, [], false, [];
      new;
      AddRollback(live, Dir(0, half));
      LeftOver(Dir(0, full), Dir(0, half));
      RemnantContents(Dir(0, full), Dir(0, half));
      TornAtOnce(genesis, Contents(half), Trees(archives));
    }

    // ---- durable steps ----

    /** Writing `phase` now would leave recovery with the committed world, and
        with a reason to start Minecraft if it is down. */
    ghost predicate Supports(phase: Phase)
      reads this`root, this`history, this`down
    {
      if UsesRollback(phase) && ROLLBACK in root then RollbackIntact()
      else WorldIntact() && (down ==> StartsWithout(phase))
    }

    /** Time passes for the container. */
    method Wait()
      requires Valid()
      modifies this`minecraft
      ensures Valid() && MayBecome(old(minecraft), minecraft)
    {
      hide Contents, Unprotected, Replay, Trees, Sound, LooseSeen;
      minecraft := Drift(minecraft);
    }

    /** `_write_state` for a phase before the commit: temporary file, then replace. */
    method WriteState(phase: Phase, target: string, calm: bool) returns (o: Outcome)
      requires Valid() && !At(Started) && !phase.Started? && Supports(phase)
      modifies this`marker, this`journal, this`minecraft
      ensures calm ==> o.Done?
      ensures Valid() && MayBecome(old(minecraft), minecraft)
      ensures marker == old(marker) || marker == Some(Marker(phase, target))
      ensures o.Done? ==> marker == Some(Marker(phase, target)) && journal == old(journal) + [phase]
      ensures o.Raised? ==> marker == old(marker)
    {
      hide Contents, Unprotected, Replay, Trees, Sound, LooseSeen;
      Wait();
      o := Attempt(calm);
      var replaced := Choose();
      if o.Done? || (o.Killed? && replaced) {
        PutMarker(phase, target);
      }
    }

    method PutMarker(phase: Phase, target: string)
      requires Valid() && !At(Started) && !phase.Started? && Supports(phase)
      modifies this`marker, this`journal
      ensures Valid() && marker == Some(Marker(phase, target)) && journal == old(journal) + [phase]
    {
      hide Contents, Unprotected, Replay, Trees, Sound, LooseSeen;
      marker := Some(Marker(phase, target));
      journal := journal + [phase];
    }

    /** `_write_state` for `started`, the commit point: it takes effect together
        with the marker or not at all. */
    method Commit(target: string, calm: bool) returns (o: Outcome)
      requires Valid() && !At(Started) && !minecraft.Halted? && !down && target in Trees(archives)
      requires World() == Committed() + Contents(Trees(archives)[target])
      modifies this`marker, this`history, this`journal, this`minecraft
      ensures calm ==> o.Done?
      ensures Valid() && MayBecome(old(minecraft), minecraft)
      ensures o.Done? ==> journal == old(journal) + [Started]
      ensures if history == old(history) then marker == old(marker) && !o.Done?
        else history == old(history) + [Restored(target)] && marker == Some(Marker(Started, target)) && !o.Raised?
    {
      hide Contents, Unprotected, Replay, Trees, Sound, LooseSeen;
      Wait();
      o := Attempt(calm);
      var replaced := Choose();
      if o.Done? || (o.Killed? && replaced) {
        PutStarted(target);
      }
    }

    method PutStarted(target: string)
      requires Valid() && !minecraft.Halted? && !down && target in Trees(archives)
      requires World() == Committed() + Contents(Trees(archives)[target])
      modifies this`marker, this`history, this`journal
      ensures Valid() && marker == Some(Marker(Started, target))
      ensures history == old(history) + [Restored(target)] && journal == old(journal) + [Started]
    {
      hide Contents, Unprotected, Replay, Trees, Sound, LooseSeen;
      ReplaySnoc(genesis, history, Trees(archives), Restored(target));
      SoundSnoc(genesis, history, Trees(archives), Restored(target));
      marker := Some(Marker(Started, target));
      history, journal := history + [Restored(target)], journal + [Started];
    }

    /** The archive is there, names a world that it holds, and can be extracted. */
    ghost predicate Restorable(target: string) {
      && target in archives && Acceptable(archives[target])
      && Inspection.Readable(archives[target]) && Inspection.HasFile(archives[target])
      && exists world :: Inspection.NamesWorld(archives[target], levelName, world)
    }

    /** `_extract_verified_archive`: the tree of a restorable archive lands in the
        stage, or an exception; a changed fingerprint is one of the failures. */
    method Extract(target: string, calm: bool) returns (o: Outcome)
      requires Valid()
      modifies this`root
      ensures calm ==> o == if Restorable(target) then Done else Raised
      ensures calm && o.Raised? ==> STAGE in root ==> STAGE in old(root)
      ensures Valid() && Live() == old(Live()) && Get(root, ROLLBACK) == old(Get(root, ROLLBACK))
      ensures o.Done? ==>
        && Restorable(target) && target in Trees(archives)
        && STAGE in root && root[STAGE].entries == Trees(archives)[target]
    {
      hide Contents, Replay, Trees, Sound, Acceptable, Built, Unpacked;
      hide Inspection.Readable, Inspection.HasFile, Inspection.NamesWorld;
      if target !in archives {
        return Raised;
      }
      var verdict := Inspection.Inspect(archives[target], levelName);
      if !verdict.restorable {
        return Raised;
      }
      o := RemoveStage(calm);
      if !o.Done? {
        return;
      }
      var stage := ExtractMembers(archives[target]);
      o := Attempt(calm);
      if stage.Some? {
        TreeOf(archives, target);
      }
      o := if o.Done? && stage.None? then Raised else o;
      var partial: Entries := *;
      var ino: nat := *;
      root := root[STAGE := Dir(ino, if o.Done? then stage.value else partial)];
      assert Live() == old(Live());
      if o.Raised? {
        var removed := RemoveStage(calm);
        o := if removed.Killed? then Killed else Raised;
      }
    }

    method RemoveStage(calm: bool) returns (o: Outcome)
      requires Valid()
      modifies this`root
      ensures calm ==> o.Done?
      ensures Valid() && Live() == old(Live()) && Get(root, ROLLBACK) == old(Get(root, ROLLBACK))
      ensures o.Done? ==> STAGE !in root
    {
      var left;
      left, o := RemovePath(Get(root, STAGE), calm);
      root := Put(root, STAGE, left);
      assert Live() == old(Live()) && Get(root, ROLLBACK) == old(Get(root, ROLLBACK));
    }

    ghost function RollbackContents(): Forest
      reads this`root
    {
      if ROLLBACK in root && root[ROLLBACK].Dir? then Contents(root[ROLLBACK].entries) else map[]
    }

    /** Removes the rollback tree. The removal tears it exactly when it is cut short
        after it has begun and while recovery would still use what is left. The live
        world is whole even then, but recovery will not leave it so. */
    method RemoveRollback(calm: bool) returns (o: Outcome)
      requires Valid() && WorldIntact() && (down ==> At(Stopped))
      modifies this`root, this`history
      ensures calm ==> o.Done?
      ensures Valid() && Live() == old(Live()) && Get(root, STAGE) == old(Get(root, STAGE))
      ensures o.Done? ==> ROLLBACK !in root
      ensures if old(RecoveryUsesRollback()) && ROLLBACK in root && RollbackContents() != old(RollbackContents())
        then !o.Done? && TornBy(old(history))
        else history == old(history) && WorldIntact()
    {
      hide Contents, Replay, Trees, Sound, Remnant, ForestRemnant;
      var left;
      left, o := RemovePath(Get(root, ROLLBACK), calm);
      root := Put(root, ROLLBACK, left);
      assert Live() == old(Live());
      if left.Some? {
        LeftOver(old(root)[ROLLBACK], left.value);
        if old(RecoveryUsesRollback()) && RollbackContents() != old(RollbackContents()) {
          Tear(old(root)[ROLLBACK]);
        }
      }
    }

    /** Records a torn rollback, of which `full` was the whole. */
    ghost method Tear(full: Node)
      requires ROLLBACK in root && root[ROLLBACK].Dir? && full.Dir? && Remnant(full, root[ROLLBACK])
      requires Contents(full.entries) == Committed() && Sound(genesis, history, Trees(archives))
      modifies this`history
      ensures history == old(history) + [Torn(RollbackContents())]
      ensures Committed() == RollbackContents() && Sound(genesis, history, Trees(archives))
    {
      hide Contents, Replay, Trees, Sound, Remnant, ForestRemnant;
      RemnantContents(full, root[ROLLBACK]);
      ReplaySnoc(genesis, history, Trees(archives), Torn(RollbackContents()));
      SoundSnoc(genesis, history, Trees(archives), Torn(RollbackContents()));
      history := history + [Torn(RollbackContents())];
    }

    /** `_clone_live_tree`: only ever called with Minecraft stopped. */
    method CloneLiveTree(calm: bool) returns (o: Outcome)
      requires Valid() && Held() && At(Stopped)
      modifies this`root, this`history, this`minecraft
      ensures calm ==> o.Done?
      ensures Valid() && Live() == old(Live()) && Get(root, STAGE) == old(Get(root, STAGE))
      ensures history == old(history) && MayBecome(old(minecraft), minecraft) && (minecraft.Running? ==> loose)
      ensures o.Done? ==> RollbackIntact() && RollbackContents() == World()
    {
      hide Replay, Trees, Sound, LooseSeen;
      Wait();
      o := RemoveRollback(calm);
      if !o.Done? {
        return;
      }
      o := Attempt(calm);
      if !o.Done? {
        return;
      }
      var ino: nat := *;
      var copy;
      copy, o := CloneChildren(Dir(ino, root), PROTECTED, calm);
      root := root[ROLLBACK := Dir(ino, copy)];
      assert Live() == old(Live());
      if o.Raised? {
        var removed := RemoveRollback(calm);
        o := if removed.Killed? then Killed else Raised;
      }
    }

    /** Lays the stage over the live world, keeping root entries the archive lacks.
        Complete or not, the rollback stays what it was. The stage never has a
        reserved name, so the sync is never refused. */
    method ApplyStage(target: string, calm: bool) returns (o: Outcome, refused: bool)
      requires Valid() && Held() && RollbackIntact() && At(Applying)
      requires STAGE in root && target in Trees(archives) && root[STAGE].entries == Trees(archives)[target]
      modifies this`root, this`minecraft
      ensures calm ==> o.Done?
      ensures Valid() && RollbackIntact() && MayBecome(old(minecraft), minecraft)
      ensures !refused && (minecraft.Running? ==> loose)
      ensures o.Done? ==> World() == old(World()) + Contents(Trees(archives)[target])
    {
      hide Replay, Trees, Sound, LooseSeen;
      Wait();
      TreesUnprotected(archives, target);
      root, o, refused := SyncTree(root[STAGE], root, PROTECTED, false, calm);
      Kept(old(root), root);
    }

    /** Makes the live world exactly the rollback again; never refused either. */
    method RestoreRollback(calm: bool) returns (o: Outcome, refused: bool)
      requires Valid() && Held() && RollbackIntact() && RecoveryUsesRollback()
      modifies this`root, this`minecraft
      ensures calm ==> o.Done?
      ensures Valid() && RollbackIntact() && Truth() == old(Truth()) && MayBecome(old(minecraft), minecraft)
      ensures !refused && (minecraft.Running? ==> loose)
      ensures o.Done? ==> World() == Truth()
    {
      hide Replay, Trees, Sound, LooseSeen;
      Wait();
      root, o, refused := SyncTree(root[ROLLBACK], root, PROTECTED, true, calm);
      Kept(old(root), root);
    }

    /** A removal of the rollback was cut short here, and recovery will trust what is
        left of it, although the live world is still whole. */
    ghost predicate TornBy(was: seq<Deed>)
      reads this`root, this`marker, this`history
    {
      && history == was + [Torn(RollbackContents())]
      && marker.Some? && UsesRollback(marker.value.phase) && ROLLBACK in root
      && World() == Replay(genesis, was, Trees(archives)) && World() != RollbackContents()
    }

    /** `_cleanup_transaction`: stage, then rollback, then marker. */
    method Cleanup(calm: bool) returns (o: Outcome)
      requires Valid() && WorldIntact() && !down
      modifies this`root, this`marker, this`history, this`minecraft
      ensures calm ==> o.Done?
      ensures Valid() && MayBecome(old(minecraft), minecraft)
      ensures Live() == old(Live())
      ensures o.Done? ==> Clean()
      ensures (history == old(history) && WorldIntact()) || (!o.Done? && TornBy(old(history)))
      ensures marker == old(marker) || (marker.None? && ROLLBACK !in root)
    {
      hide Contents, Replay, Trees, Sound, LooseSeen;
      Wait();
      o := RemoveStage(calm);
      if !o.Done? {
        return;
      }
      o := RemoveRollback(calm);
      if !o.Done? {
        return;
      }
      o := Attempt(calm);
      var unlinked := Choose();
      if o.Done? || (o.Killed? && unlinked) {
        marker := None;
      }
      if o.Done? {
        o := Attempt(calm);  // the temporary marker file
      }
    }

    // ---- containers ----

    /** Stops Minecraft, then lets the doorman answer in its place. Failing to
        post the doorman is ignored. `seen` is the status that was read: the server
        stays down unless it is `restarting`. */
    method Stop(calm: bool) returns (o: Outcome, seen: Container)
      requires Valid() && RecoveryStarts()
      modifies this`minecraft, this`doorman, this`down, this`loose, this`looks
      ensures calm ==> doorman == (old(doorman) || hasDoorman)
      ensures calm ==> o.Done?
      ensures Valid() && MayBecome(old(minecraft), seen)
      ensures o.Done? ==> Held() && minecraft == AfterStop(seen) && loose == seen.Restarting?
      ensures loose ==> old(loose) || seen.Restarting?
      ensures looks == old(looks) || looks == old(looks) + [seen]
    {
      hide Contents, Unprotected, Replay, Trees, Sound, LooseSeen;
      o, seen := StopMinecraft(calm);
      if o.Done? && hasDoorman {
        o := Engage(calm);
      }
    }

    /** The Minecraft half of it. */
    method StopMinecraft(calm: bool) returns (o: Outcome, seen: Container)
      requires Valid() && RecoveryStarts()
      modifies this`minecraft, this`down, this`loose, this`looks
      ensures calm ==> o.Done?
      ensures Valid() && MayBecome(old(minecraft), seen)
      ensures if o.Done?
        then Held() && minecraft == AfterStop(seen) && loose == seen.Restarting? && looks == old(looks) + [seen]
        else loose == old(loose) && looks == old(looks)
    {
      hide Contents, Unprotected, Replay, Trees, Sound, LooseSeen;
      ExpectDown();
      minecraft, seen, o := StopContainer(minecraft, calm);
      if o.Done? {
        LooseStep(looks, seen);
        loose, looks := seen.Restarting?, looks + [seen];
      }
    }

    /** From here on Minecraft may be stopped because of this worker. */
    ghost method ExpectDown()
      requires Valid() && RecoveryStarts()
      modifies this`down
      ensures Valid() && down
    {
      hide Contents, Unprotected, Replay, Trees, Sound, LooseSeen;
      down := true;
    }

    /** `DoormanController.engage`; only a kill is more than a warning. */
    method Engage(calm: bool) returns (o: Outcome)
      requires Exclusive() && Held() && hasDoorman
      modifies this`doorman
      ensures doorman || (doorman == old(doorman) && !calm)
      ensures calm ==> o.Done?
      ensures Exclusive() && !o.Raised?
    {
      var engaged := Attempt(calm);
      var up := Choose();
      if engaged.Done? || up {
        doorman := true;
      }
      o := if engaged.Killed? then Killed else Done;
    }

    /** `DoormanController.release`. `lookup` is the look that decided: a normal
        return means that it showed the doorman down, or that it failed; and then
        the doorman is up exactly if it was up when the lookup failed. */
    method ReleaseDoorman(calm: bool) returns (o: Outcome, lookup: Polling.Look)
      requires Exclusive()
      modifies this`doorman, this`blind
      ensures calm ==> !doorman
      ensures calm ==> o.Done?
      ensures Exclusive() && (old(blind) ==> blind)
      ensures o.Done? ==> lookup.Down? || lookup.Missing?
      ensures o.Done? && lookup.Down? ==> !doorman && blind == old(blind)
      ensures o.Done? && lookup.Missing? ==> blind == (old(blind) || doorman)
    {
      var found := Attempt(calm);
      lookup := Polling.Up;
      if found.Killed? {
        return Killed, lookup;
      }
      if found.Raised? {
        var mismatch := Choose();
        lookup := if mismatch then Polling.Mismatch else Polling.Missing;
        blind := blind || (!mismatch && doorman);
        return if mismatch then Raised else Done, lookup;
      }
      o := Attempt(calm);
      var stopped := Choose();
      if stopped {
        doorman := false;
      }
      if !o.Done? {
        return;
      }
      var look: nat -> Polling.Look := *;
      if calm {
        look := n => Polling.Down;
      }
      var released, last := AwaitDown(look);
      lookup := look(last);
      var end := Attempt(calm);
      o := if !end.Done? then end else if released then Done else Raised;
    }

    /** The waiting loop of `release`, given what each look shows. */
    method AwaitDown(look: nat -> Polling.Look) returns (released: bool, last: nat)
      requires Exclusive()
      modifies this`doorman, this`blind
      ensures Exclusive()
      ensures released <==> look(last).Down? || look(last).Missing?
      ensures forall i: nat :: i < last ==> look(i).Up?
      ensures doorman == (old(doorman) && !look(last).Down?)
      ensures blind == (old(blind) || (doorman && look(last).Missing?))
    {
      Polling.TickingSleeps(0.5);
      released, last := Polling.AwaitRelease(look, Polling.Ticking(0.5), 0.0, 15.0, 0.5);
      doorman := doorman && !look(last).Down?;
      blind := blind || (doorman && look(last).Missing?);
    }

    lemma CalmStart(observe: nat -> Polling.Observation, ok: bool, last: nat)
      requires forall i: nat ::
        observe(i).status.Running? && (observe(i).expected ==> observe(i).health.Healthy?)
      requires ok <==> Polling.Good(observe, Polling.Ticking(2.0), 300.0, last)
      requires !ok ==> Polling.Hopeless(observe(last)) || Polling.Ticking(2.0)(last) >= 300.0
      requires forall i: nat :: i < last ==> !Polling.Good(observe, Polling.Ticking(2.0), 300.0, i)
      ensures ok
    {
      if !ok {
        Polling.ComesUp(observe, 2.0, 300.0, last);
      }
    }

    /** `DockerContainerController.start` on the container alone: `ok` says that it
        was seen running, steadily or healthy. */
    method StartContainer(calm: bool) returns (ok: bool, o: Outcome)
      ensures calm ==> o.Done?
      ensures o.Done? ==> ok
    {
      o := Attempt(calm);
      if !o.Done? {
        return false, o;
      }
      Polling.TickingSleeps(2.0);
      var observe: nat -> Polling.Observation := *;
      var healthcheck := Choose();
      if calm {
        observe := n => Polling.Observation(Polling.Running, Polling.Healthy, healthcheck);
      }
      var last;
      ok, last := Polling.AwaitStart(observe, Polling.Ticking(2.0), 0.0, 300.0, 2.0);
      if calm {
        CalmStart(observe, ok, last);
      }
      var end := Attempt(calm);
      o := if !end.Done? then end else if ok then Done else Raised;
    }

    /** Releases the doorman, then starts Minecraft and waits for it. A start that
        raises may have left the container in any state. */
    method Start(calm: bool) returns (o: Outcome)
      requires Valid() && RecoveryStarts()
      modifies this`minecraft, this`doorman, this`blind, this`down, this`loose
      ensures calm && hasDoorman ==> !doorman
      ensures calm ==> o.Done?
      ensures Valid() && (old(blind) ==> blind)
      ensures o.Done? ==> minecraft.Running? && !down && !loose
      ensures loose ==> old(loose)
    {
      hide Contents, Unprotected, Replay, Trees, Sound, LooseSeen;
      if hasDoorman {
        var lookup;
        o, lookup := ReleaseDoorman(calm);
        if !o.Done? {
          return;
        }
      }
      o := StartMinecraft(calm);
    }

    /** What `start` does once the doorman is out of the way, or taken to be. */
    method StartMinecraft(calm: bool) returns (o: Outcome)
      requires Valid() && RecoveryStarts() && (blind || !doorman)
      modifies this`minecraft, this`down, this`loose
      ensures calm ==> o.Done?
      ensures Valid() && !loose
      ensures o.Done? ==> minecraft.Running? && !down
    {
      hide Contents, Unprotected, Replay, Trees, Sound;
      var ok;
      ok, o := StartContainer(calm);
      var state: Container := *;
      minecraft := if ok then Running else state;
      loose, down := false, !o.Done? && (down || minecraft.Halted?);
    }

    // ---- the transaction ----

    /** `_recover_interrupted_transaction`: `None` when nothing was left behind.
        Whenever it runs to its end, the live world is the one `Truth` announced. */
    method Recover(calm: bool) returns (r: Option<RunEnd>)
      requires Valid()
      modifies this
      ensures Valid() && (old(blind) ==> blind)
      ensures r.None? ==>
        && old(marker).None? && Clean() && journal == old(journal)
        && MayBecome(old(minecraft), minecraft) && Live() == old(Live())
      ensures r.Some? && r.value.Returned? ==>
        && old(At(Started)) && r.value.target == old(marker).value.target
        && Clean() && !minecraft.Halted? && Live() == old(Live())
      ensures r.Some? && r.value in {RolledBack, CancelledEarly, RollbackLost} ==>
        Clean() && !minecraft.Halted? && World() == old(Truth())
      ensures old(RecoveryUsesRollback()) ==> r in {Some(RolledBack), Some(Refused), Some(Dead)}
      ensures r == Some(NeedsOperator) <==> old(Stuck())
      ensures old(Stuck()) ==> root == old(root) && marker == old(marker) && World() == Truth() && !down
      ensures history == old(history) || (r in {Some(Refused), Some(Dead)} && TornBy(old(history)))
      ensures calm ==>
        var phase := if old(marker).Some? then old(marker).value.phase else Staged;
        var saved := ROLLBACK in old(root);
        r ==
          if old(marker).None? then None
          else if phase.Started? then Some(Returned(old(marker).value.target))
          else if saved && phase in {RollbackReady, Applying, Applied, Starting, RollingBack, RollbackFailed}
          then Some(RolledBack)
          else if phase in {Staged, Stopping, Stopped, RollbackReady} then Some(CancelledEarly)
          else if phase in {Applied, Starting} then Some(RollbackLost)
          else Some(NeedsOperator)
      ensures calm && r.Some? && !r.value.NeedsOperator? ==> Clean() && !minecraft.Halted?
    {
      hide Contents, Unprotected, Replay, Trees, Sound, LooseSeen;
      if marker.None? {
        Wait();
        var o := RemoveStage(calm);
        if !o.Done? {
          return Some(if o.Killed? then Dead else Refused);
        }
        return None;
      }
      var phase, target := marker.value.phase, marker.value.target;
      if phase.Started? {
        var o := Cleanup(calm);
        if !o.Done? {
          return Some(if o.Killed? then Dead else Refused);
        }
        return Some(Returned(target));
      }
      if ROLLBACK in root && UsesRollback(phase) {
        var o := PutBack(calm);
        return Some(if o.Done? then RolledBack else if o.Killed? then Dead else Refused);
      }
      if phase in {Staged, Stopping, Stopped, RollbackReady, Applied, Starting} {
        var o := Start(calm);
        if o.Done? {
          o := Cleanup(calm);
        }
        return Some(
          if o.Killed? then Dead
          else if o.Raised? then Refused
          else if phase in {Applied, Starting} then RollbackLost
          else CancelledEarly);
      }
      return Some(NeedsOperator);
    }

    /** From `stopping` to a completed rollback clone; the world is not touched. */
    method Prepare(target: string, calm: bool) returns (o: Outcome, stopped: bool)
      requires Valid() && WorldIntact() && marker == Some(Marker(Staged, target)) && !down
      modifies this
      ensures calm ==> o.Done?
      ensures Valid() && history == old(history) && (old(blind) ==> blind)
      ensures WorldIntact() && Untouched()
      ensures Get(root, STAGE) == old(Get(root, STAGE))
      ensures o.Done? ==> RollbackIntact() && Held() && At(Stopped)
      ensures o.Done? ==> journal == old(journal) + [Stopping, Stopped]
      ensures !stopped ==> !down
    {
      hide Contents, Unprotected, Replay, Trees, Sound, LooseSeen;
      stopped := false;
      o := WriteState(Stopping, target, calm);
      if !o.Done? {
        return;
      }
      stopped := true;
      var seen;
      o, seen := Stop(calm);
      if !o.Done? {
        return;
      }
      o := WriteState(Stopped, target, calm);
      if !o.Done? {
        return;
      }
      o := CloneLiveTree(calm);
    }

    /** From `rollback_ready` to `applied`. */
    method Overlay(target: string, calm: bool) returns (o: Outcome)
      requires Valid() && RollbackIntact() && WorldIntact() && Held() && At(Stopped)
      requires target in Trees(archives) && STAGE in root && root[STAGE].entries == Trees(archives)[target]
      modifies this`root, this`marker, this`journal, this`minecraft
      ensures calm ==> o.Done?
      ensures Valid() && RollbackIntact() && marker.Some? && !At(Started)
      ensures o.Done? ==> journal == old(journal) + [RollbackReady, Applying, Applied]
      ensures o.Done? ==> At(Applied) && World() == Committed() + Contents(Trees(archives)[target])
    {
      hide Contents, Unprotected, Replay, Trees, Sound, LooseSeen;
      o := WriteState(RollbackReady, target, calm);
      if !o.Done? {
        return;
      }
      o := WriteState(Applying, target, calm);
      if !o.Done? {
        return;
      }
      var refused;
      o, refused := ApplyStage(target, calm);
      if !o.Done? {
        return;
      }
      o := WriteState(Applied, target, calm);
    }

    /** From `starting` to `started`: the rollback stays intact until the commit. */
    method Launch(target: string, calm: bool) returns (o: Outcome)
      requires Valid() && RollbackIntact() && At(Applied) && target in Trees(archives)
      requires World() == Committed() + Contents(Trees(archives)[target])
      modifies this`marker, this`history, this`journal
      modifies this`minecraft, this`doorman, this`blind, this`loose, this`down
      ensures calm ==> o.Done?
      ensures Valid() && (old(blind) ==> blind)
      ensures o.Done? ==> journal == old(journal) + [Starting, Started]
      ensures o.Done? ==> marker == Some(Marker(Started, target)) && history == old(history) + [Restored(target)]
      ensures history == old(history) || (history == old(history) + [Restored(target)] && !o.Raised?)
      ensures o.Raised? ==> RollbackIntact() && marker.Some? && !At(Started)
    {
      hide Contents, Unprotected, Replay, Trees, Sound, LooseSeen;
      o := WriteState(Starting, target, calm);
      if !o.Done? {
        return;
      }
      o := Start(calm);
      if !o.Done? {
        return;
      }
      o := Commit(target, calm);
    }

    /** The steps of the rollback itself, in the handler and in recovery alike. */
    method PutBack(calm: bool) returns (o: Outcome)
      requires Valid() && RollbackIntact() && RecoveryUsesRollback() && marker.Some?
      modifies this
      ensures calm ==> o.Done?
      ensures Valid() && (old(blind) ==> blind)
      ensures !At(Started) && Supports(RollbackFailed)
      ensures o.Done? ==> Clean() && !minecraft.Halted? && WorldIntact() && World() == old(Truth())
      ensures history == old(history) || (!o.Done? && TornBy(old(history)))
    {
      hide Contents, Unprotected, Replay, Trees, Sound, LooseSeen;
      var seen;
      o, seen := Stop(calm);
      if !o.Done? {
        return;
      }
      var refused;
      o, refused := RestoreRollback(calm);
      if !o.Done? {
        return;
      }
      o := Start(calm);
      if !o.Done? {
        return;
      }
      o := Cleanup(calm);
    }

    /** The `except` block once the rollback exists. */
    method RollBack(target: string, calm: bool) returns (r: RunEnd)
      requires Valid() && RollbackIntact() && marker.Some? && !At(Started)
      modifies this
      ensures calm ==> r.RolledBack?
      ensures Valid() && (old(blind) ==> blind)
      ensures r in {RolledBack, NeedsOperator, Dead}
      ensures r.RolledBack? ==> Clean() && !minecraft.Halted? && WorldIntact()
      ensures history == old(history) || (!r.RolledBack? && TornBy(old(history)))
    {
      hide Contents, Unprotected, Replay, Trees, Sound, LooseSeen;
      var o := WriteState(RollingBack, target, calm);
      if o.Done? {
        o := PutBack(calm);
      }
      if o.Done? {
        return RolledBack;
      }
      if o.Killed? {
        return Dead;
      }
      o := WriteState(RollbackFailed, target, calm);
      r := if o.Killed? then Dead else NeedsOperator;
    }

    /** A run adds at most one deed: it commits what was requested, or it is cut short
        while it removes a rollback in use. */
    ghost predicate Did(was: seq<Deed>, request: string, r: RunEnd)
      reads this`root, this`marker, this`history
    {
      || history == was
      || (history == was + [Restored(request)] && (r.Returned? || r.Dead?))
      || (MayTear(r) && TornBy(was))
    }

    /** The `try` block of `restore_transaction`. */
    method Proceed(request: string, calm: bool) returns (o: Outcome, stopped: bool, rollbackReady: bool)
      requires Valid() && At(Staged) && marker.value.target == request && !down
      requires request in Trees(archives) && STAGE in root && root[STAGE].entries == Trees(archives)[request]
      modifies this
      ensures calm ==> o.Done?
      ensures Valid() && (old(blind) ==> blind)
      ensures history == old(history) || (history == old(history) + [Restored(request)] && !o.Raised?)
      ensures o.Done? ==>
        && marker == Some(Marker(Started, request)) && history == old(history) + [Restored(request)]
        && journal == old(journal) + [Stopping, Stopped, RollbackReady, Applying, Applied, Starting, Started]
      ensures o.Raised? ==> marker.Some? && !At(Started)
      ensures o.Raised? && rollbackReady ==> RollbackIntact()
      ensures o.Raised? && !rollbackReady ==> WorldIntact() && Untouched() && (down ==> stopped)
    {
      hide Contents, Unprotected, Replay, Trees, Sound, LooseSeen;
      rollbackReady := false;
      o, stopped := Prepare(request, calm);
      if !o.Done? {
        return;
      }
      rollbackReady := true;
      o := Overlay(request, calm);
      if !o.Done? {
        return;
      }
      o := Launch(request, calm);
    }

    /** What `restore_transaction` does once the archive is staged. */
    method Transact(request: string, calm: bool, undoes: bool) returns (r: RunEnd)
      requires Valid() && At(Staged) && marker.value.target == request && !down
      requires request in Trees(archives) && STAGE in root && root[STAGE].entries == Trees(archives)[request]
      modifies this
      ensures calm ==> r == Returned(request)
      ensures calm ==> Clean()
      ensures undoes ==> r in {Returned(request), RolledBack, CancelledEarly, Dead}
      ensures Valid() && (old(blind) ==> blind)
      ensures Did(old(history), request, r)
      ensures r.Returned? ==>
        && r.target == request && history == old(history) + [Restored(request)]
        && !minecraft.Halted? && WorldIntact() && (marker.None? || At(Started))
        && journal == old(journal) + [Stopping, Stopped, RollbackReady, Applying, Applied, Starting, Started]
      ensures r in {RolledBack, CancelledEarly, NeedsOperator, Refused, Dead, Returned(request)}
      ensures r.RolledBack? || r.CancelledEarly? ==> Clean() && WorldIntact()
      ensures r.RolledBack? ==> !minecraft.Halted?
    {
      hide Contents, Unprotected, Replay, Trees, Sound, LooseSeen;
      var o, stopped, rollbackReady := Proceed(request, calm);
      if o.Killed? {
        return Dead;
      }
      if o.Done? {
        o := Cleanup(calm);  // an exception here is only logged
        return if o.Killed? then Dead else Returned(request);
      }
      if rollbackReady {
        r := RollBack(request, undoes);
        return;
      }
      if stopped {
        o := Start(undoes);
        if !o.Done? {
          return if o.Killed? then Dead else NeedsOperator;
        }
      }
      o := Cleanup(undoes);
      r := if o.Done? then CancelledEarly else if o.Killed? then Dead else Refused;
    }

    /** `restore_transaction` after a recovery that found nothing. */
    method Begin(request: string, calm: bool, undoes: bool) returns (r: RunEnd)
      requires Valid() && Clean()
      modifies this
      ensures calm ==> Clean() && r == if Restorable(request) then Returned(request) else Refused
      ensures undoes ==> !r.NeedsOperator?
      ensures Valid() && (old(blind) ==> blind)
      ensures Did(old(history), request, r)
      ensures r.Returned? ==>
        && r.target == request && history == old(history) + [Restored(request)]
        && !minecraft.Halted? && WorldIntact() && (marker.None? || marker.value == Marker(Started, request))
        && journal == old(journal)
             + [Staged, Stopping, Stopped, RollbackReady, Applying, Applied, Starting, Started]
      ensures r in {Returned(request), RolledBack, CancelledEarly, NeedsOperator, Refused, Dead}
      ensures r in {RolledBack, CancelledEarly} ==> Clean() && WorldIntact()
    {
      hide Contents, Unprotected, Replay, Trees, Sound, Acceptable;
      hide Inspection.Readable, Inspection.HasFile, Inspection.NamesWorld;
      var o := Extract(request, calm);
      if o.Done? {
        o := WriteState(Staged, request, calm);
      }
      if !o.Done? {
        return if o.Killed? then Dead else Refused;
      }
      r := Transact(request, calm, undoes);
    }

    /** `restore_transaction`, one run for one requested target. */
    method Run(request: string, calm: bool, undoes: bool) returns (r: RunEnd)
      requires Valid()
      modifies this
      ensures calm ==> old(Stuck()) || (Clean() && WorldIntact() && (minecraft.Halted? ==> dormant))
      ensures calm && old(marker).None? ==> r == if Restorable(request) then Returned(request) else Refused
      ensures calm && old(marker).Some? && !old(Stuck()) ==>
        r in {RolledBack, CancelledEarly, RollbackLost} || (r.Returned? && old(At(Started)))
      ensures undoes ==> (r.NeedsOperator? <==> old(Stuck()))
      ensures Valid() && (old(blind) ==> blind)
      ensures Did(old(history), request, r)
      ensures r.Returned? ==>
        && !minecraft.Halted? && WorldIntact()
        && (marker.None? || marker.value == Marker(Started, r.target))
        && history != [] && history[|history| - 1] == Restored(r.target)
      ensures r.Returned? ==>
        if old(At(Started))
        then r.target == old(marker).value.target && history == old(history)
        else
          && r.target == request && history == old(history) + [Restored(request)]
          && journal == old(journal)
               + [Staged, Stopping, Stopped, RollbackReady, Applying, Applied, Starting, Started]
      ensures r in {RolledBack, CancelledEarly, RollbackLost} ==> Clean() && WorldIntact()
      ensures old(Stuck()) ==> r.NeedsOperator? && root == old(root) && marker == old(marker)
    {
      hide Contents, Unprotected, Replay, Trees, Sound, LooseSeen;
      var recovered := Recover(calm);
      if recovered.Some? {
        return recovered.value;
      }
      r := Begin(request, calm, undoes);
    }

    lemma Chaptered(was: seq<Deed>, request: string, end: RunEnd)
      requires Did(was, request, end)
      ensures ChapterOk(Chapter(was, history, World()), request, end, genesis, Trees(archives))
    {
      hide Replay, Trees;
    }

    /** Any number of runs, each for its own target and each ending in any way. Each
        adds at most one deed, and the world that recovery leaves is the first one
        with these deeds replayed: the requested archives laid over it, whole and in
        order, and remnants where a run was cut short while it removed a rollback in
        use; that run still left the live world whole. If Minecraft is down, and was
        not before any run, the next run's recovery starts it. */
    method RunAll(requests: seq<string>, calm: seq<bool>, undoes: seq<bool>)
      returns (ends: seq<RunEnd>, ghost story: seq<Chapter>)
      requires Valid() && |calm| == |undoes| == |requests|
      modifies this
      ensures Valid() && (old(blind) ==> blind) && |ends| == |story| == |requests|
      ensures forall i :: 0 <= i < |ends| ==> ChapterOk(story[i], requests[i], ends[i], genesis, Trees(archives))
      ensures Linked(story, old(history), history)
      ensures story != [] ==> story[|story| - 1].world == World()
      ensures Truth() == Replay(genesis, history, Trees(archives)) && Sound(genesis, history, Trees(archives))
      ensures !blind && Restarting !in looks ==> !(minecraft.Running? && doorman)
      ensures minecraft.Halted? && !dormant ==> RecoveryStarts()
      ensures requests != [] && calm[|calm| - 1] ==>
        Stuck() || (Clean() && WorldIntact() && (minecraft.Halted? ==> dormant))
    {
      hide Contents, Unprotected, Replay, Trees, Sound, ChapterOk, Linked;
      ends, story := [], [];
      LinkedNone(history);
      for i := 0 to |requests|
        invariant Valid() && (old(blind) ==> blind) && |ends| == |story| == i
        invariant forall k :: 0 <= k < i ==> ChapterOk(story[k], requests[k], ends[k], genesis, Trees(archives))
        invariant Linked(story, old(history), history)
        invariant story != [] ==> story[|story| - 1].world == World()
        invariant 0 < i && calm[i - 1] ==> Stuck() || (Clean() && WorldIntact() && (minecraft.Halted? ==> dormant))
      {
        ghost var was := history;
        var end := Run(requests[i], calm[i], undoes[i]);
        ends := ends + [end];
        Chaptered(was, requests[i], end);
        LinkedStep(story, old(history), was, Chapter(was, history, World()));
        story := story + [Chapter(was, history, World())];
      }
    }
  }

  /** What one run did: the history before and after it, and the world it left. */
  datatype Chapter = Chapter(before: seq<Deed>, after: seq<Deed>, world: Forest)

  ghost predicate ChapterOk(c: Chapter, request: string, end: RunEnd, genesis: Forest, trees: map<string, Entries>) {
    || c.after == c.before
    || (c.after == c.before + [Restored(request)] && (end.Returned? || end.Dead?))
    || (exists left :: c.after == c.before + [Torn(left)]
          && MayTear(end) && c.world == Replay(genesis, c.before, trees))
  }

  /** The history before run `i`. */
  ghost function StandsAt(story: seq<Chapter>, first: seq<Deed>, i: nat): seq<Deed>
    requires i <= |story|
  {
    if i == 0 then first else story[i - 1].after
  }

  /** Each run takes up the history where the one before it stopped. */
  ghost predicate Linked(story: seq<Chapter>, first: seq<Deed>, last: seq<Deed>) {
    && (forall i :: 0 <= i < |story| ==> story[i].before == StandsAt(story, first, i))
    && last == StandsAt(story, first, |story|)
  }

  lemma LinkedNone(first: seq<Deed>)
    ensures Linked([], first, first)
  {
  }

  lemma LinkedStep(story: seq<Chapter>, first: seq<Deed>, last: seq<Deed>, next: Chapter)
    requires Linked(story, first, last) && next.before == last
    ensures Linked(story + [next], first, next.after)
  {
    var more := story + [next];
    forall i | 0 <= i < |more| ensures more[i].before == StandsAt(more, first, i) {
      assert StandsAt(more, first, i) == StandsAt(story, first, i);
      assert more[i] == if i < |story| then story[i] else next;
    }
  }

  /** The ways a run can end that was cut short while it removed a rollback. */
  predicate MayTear(end: RunEnd) {
    end.Refused? || end.NeedsOperator? || end.Dead?
  }

  /** Once recovery has asked for an operator, every later run does the same and
      touches nothing, although the world is intact and nothing is down. */
  method StaysStuck(worker: Worker, requests: seq<string>, calm: bool) returns (ends: seq<RunEnd>)
    requires worker.Valid() && worker.Stuck()
    modifies worker
    ensures worker.Valid() && worker.root == old(worker.root) && worker.marker == old(worker.marker)
    ensures |ends| == |requests| && forall i :: 0 <= i < |ends| ==> ends[i].NeedsOperator?
    ensures worker.WorldIntact() && !worker.down
  {
    hide Contents, Unprotected, Replay, Trees, Sound, LooseSeen;
    ends := [];
    for i := 0 to |requests|
      invariant worker.Valid() && worker.root == old(worker.root) && worker.marker == old(worker.marker)
      invariant |ends| == i && forall k :: 0 <= k < i ==> ends[k].NeedsOperator?
    {
      var end := worker.Run(requests[i], calm, calm);
      ends := ends + [end];
    }
  }

  lemma AddRollback(live: Entries, node: Node)
    requires live.Keys !! PROTECTED
    ensures Unprotected(live[ROLLBACK := node], PROTECTED) == live
  {
  }

  lemma LeftOver(before: Node, after: Node)
    requires Remnant(before, after) && before.Dir?
    ensures after.Dir? && after.entries.Keys <= before.entries.Keys
  {
  }

  lemma Kept(before: Entries, after: Entries)
    requires SameOn(PROTECTED, before, after)
    ensures forall name :: name in PROTECTED ==> Get(before, name) == Get(after, name)
    ensures STAGE in before <==> STAGE in after
    ensures ROLLBACK in before <==> ROLLBACK in after
  {
  }

  /** Minecraft and the doorman together: the lookup of a running doorman fails, it is
      taken for released, and Minecraft is started beside it. */
  method FailedLookupShares(worker: Worker, calm: bool) returns (released: bool, o: Outcome)
    requires worker.Valid() && worker.RecoveryStarts() && worker.doorman
    modifies worker
    ensures released && worker.doorman && worker.blind
    ensures (calm ==> o.Done?) && (o.Done? ==> worker.minecraft.Running? && worker.doorman)
  {
    hide Contents, Unprotected, Replay, Trees, Sound, LooseSeen;
    var last;
    released, last := worker.AwaitDown(n => Polling.Missing);
    o := worker.StartMinecraft(calm);
  }

  /** Why a torn removal matters: the world is the committed one, the rollback
      lacks an entry of it, and recovery still relies on the rollback. A recovery
      that runs to its end then deletes that entry. */
  method HalfRemovedRollbackIsTrusted(worker: Worker, was: seq<Deed>, lost: string, calm: bool)
    returns (r: Option<RunEnd>)
    requires worker.Valid() && worker.TornBy(was)
    requires lost in worker.World() && lost !in worker.root[ROLLBACK].entries
    modifies worker
    ensures r in {Some(RolledBack), Some(Refused), Some(Dead)}
    ensures r == Some(RolledBack) ==> lost !in worker.World()
    ensures calm ==> r == Some(RolledBack)
  {
    r := worker.Recover(calm);
  }

  /** A world of two entries is back in place, and the removal of its full copy was
      interrupted after one of them. */
  method HalfRemovedRollbackLosesAnEntry(calm: bool) returns (worker: Worker, r: Option<RunEnd>)
    ensures r in {Some(RolledBack), Some(Refused), Some(Dead)}
    ensures r == Some(RolledBack) ==> "b" !in worker.World()
    ensures calm ==> r == Some(RolledBack)
  {
    var live := map["a" := File(1, "x"), "b" := File(2, "y")];
    var full := map["a" := File(3, "x"), "b" := File(4, "y")];
    var half := map["a" := File(3, "x")];
    HalfIsRemnant();
    assert Contents(full) == Contents(live);
    assert "b" in Contents(full) && "b" !in Contents(half);
    worker := new Worker.Interrupted(live, full, half);
    assert "b" in Contents(live);
    r := HalfRemovedRollbackIsTrusted(worker, [], "b", calm);
  }

  /** An interrupted removal can leave one of two entries. */
  lemma HalfIsRemnant()
    ensures Remnant(
      Dir(0, map["a" := File(3, "x"), "b" := File(4, "y")]), Dir(0, map["a" := File(3, "x")]))
  {
    var full, half := map["a" := File(3, "x"), "b" := File(4, "y")], map["a" := File(3, "x")];
    assert Remnant(full["a"], half["a"]);
  }
}
