/** What has befallen the world: archives that were restored, and rollbacks that
    were torn. Replaying these deeds gives the world that recovery leaves. */
module History {
  import opened Common
  import opened FileTree
  import opened Extraction

  /** `Torn(left)`: the removal of a rollback was cut short, recovery trusts what is
      left of it, and that is the world from now on. */
  datatype Deed = Restored(target: string) | Torn(left: Forest)

  /** The trees of the archives that can be extracted. */
  ghost function Trees(archives: map<string, seq<Member>>): map<string, Entries> {
    map t | t in archives && Unpacked(archives[t]).Some? :: Unpacked(archives[t]).value
  }

  ghost function After(world: Forest, deed: Deed, trees: map<string, Entries>): Forest {
    match deed
    case Restored(target) => world + if target in trees then Contents(trees[target]) else map[]
    case Torn(left) => left
  }

  /** The world after all deeds, in order. */
  ghost function Replay(world: Forest, deeds: seq<Deed>, trees: map<string, Entries>): Forest {
    if deeds == [] then world
    else After(Replay(world, deeds[..|deeds| - 1], trees), deeds[|deeds| - 1], trees)
  }

  lemma ReplaySnoc(world: Forest, deeds: seq<Deed>, trees: map<string, Entries>, deed: Deed)
    ensures Replay(world, deeds + [deed], trees) == After(Replay(world, deeds, trees), deed, trees)
  {
    assert (deeds + [deed])[..|deeds|] == deeds;
  }

  lemma TreeOf(archives: map<string, seq<Member>>, target: string)
    requires target in archives && Unpacked(archives[target]).Some?
    ensures target in Trees(archives) && Trees(archives)[target] == Unpacked(archives[target]).value
  {
  }

  lemma TreesUnprotected(archives: map<string, seq<Member>>, target: string)
    requires target in Trees(archives)
    ensures Trees(archives)[target].Keys !! PROTECTED
  {
    hide Unpacked;
    UnpackedLaws(archives[target]);
  }

  // ---- what is left of a torn world ----

  /** Some entries are missing; of the others nothing is new and nothing changed. */
  ghost predicate TreeRemnant(before: Tree, after: Tree)
    decreases before
  {
    || after == before
    || (before.DirT? && after.DirT?
        && after.entries.Keys <= before.entries.Keys
        && forall name :: name in after.entries ==> TreeRemnant(before.entries[name], after.entries[name]))
  }

  ghost predicate ForestRemnant(before: Forest, after: Forest) {
    after.Keys <= before.Keys && forall name :: name in after ==> TreeRemnant(before[name], after[name])
  }

  lemma {:induction false} RemnantContent(before: Node, after: Node)
    requires Remnant(before, after)
    ensures TreeRemnant(Content(before), Content(after))
    decreases before
  {
    if after != before {
      forall name | name in after.entries
        ensures TreeRemnant(Content(before.entries[name]), Content(after.entries[name]))
      {
        RemnantContent(before.entries[name], after.entries[name]);
      }
    }
  }

  lemma RemnantContents(before: Node, after: Node)
    requires Remnant(before, after) && before.Dir? && after.Dir?
    ensures ForestRemnant(Contents(before.entries), Contents(after.entries))
  {
    forall name | name in after.entries && after != before
      ensures TreeRemnant(Content(before.entries[name]), Content(after.entries[name]))
    {
      RemnantContent(before.entries[name], after.entries[name]);
    }
  }

  /** Every tear left a remnant of the world of its time. */
  ghost predicate Sound(world: Forest, deeds: seq<Deed>, trees: map<string, Entries>) {
    forall i :: 0 <= i < |deeds| && deeds[i].Torn? ==> ForestRemnant(Replay(world, deeds[..i], trees), deeds[i].left)
  }

  lemma SoundSnoc(world: Forest, deeds: seq<Deed>, trees: map<string, Entries>, deed: Deed)
    requires Sound(world, deeds, trees)
    requires deed.Torn? ==> ForestRemnant(Replay(world, deeds, trees), deed.left)
    ensures Sound(world, deeds + [deed], trees)
  {
    hide Replay, ForestRemnant;
    var more := deeds + [deed];
    forall i | 0 <= i < |more| && more[i].Torn? ensures ForestRemnant(Replay(world, more[..i], trees), more[i].left) {
      assert more[..i] == deeds[..i];
      assert i == |deeds| ==> deeds[..i] == deeds;
    }
  }

  lemma TornAtOnce(world: Forest, left: Forest, trees: map<string, Entries>)
    requires ForestRemnant(world, left)
    ensures Replay(world, [Torn(left)], trees) == left && Replay(world, [], trees) == world
    ensures Sound(world, [Torn(left)], trees) && [] + [Torn(left)] == [Torn(left)]
  {
    hide ForestRemnant;
    assert [Torn(left)][..0] == [];
  }

  // ---- laws of the replay ----

  predicate Provides(trees: map<string, Entries>, deed: Deed, name: string) {
    deed.Restored? && deed.target in trees && name in trees[deed.target]
  }

  /** An entry comes whole from the last archive that has its name. */
  lemma {:induction false} ReplayTakesLastArchive(
    world: Forest, deeds: seq<Deed>, trees: map<string, Entries>, name: string, i: nat)
    requires i < |deeds| && Provides(trees, deeds[i], name)
    requires forall j :: i < j < |deeds| ==> deeds[j].Restored? && !Provides(trees, deeds[j], name)
    ensures name in Replay(world, deeds, trees)
    ensures Replay(world, deeds, trees)[name] == Content(trees[deeds[i].target][name])
  {
    var n := |deeds| - 1;
    if i < n {
      assert deeds[n].Restored? && !Provides(trees, deeds[n], name);
      ReplayTakesLastArchive(world, deeds[..n], trees, name, i);
    }
  }

  /** An entry that no archive has stays as it was at first, unless it is torn away
      in whole or in part. */
  lemma {:induction false} ReplayKeepsOtherNames(
    world: Forest, deeds: seq<Deed>, trees: map<string, Entries>, name: string)
    requires Sound(world, deeds, trees)
    requires forall j :: 0 <= j < |deeds| ==> !Provides(trees, deeds[j], name)
    ensures name in Replay(world, deeds, trees) ==>
      name in world && TreeRemnant(world[name], Replay(world, deeds, trees)[name])
    ensures (forall j :: 0 <= j < |deeds| ==> deeds[j].Restored?) && name in world ==>
      name in Replay(world, deeds, trees) && Replay(world, deeds, trees)[name] == world[name]
  {
    if deeds != [] {
      var n := |deeds| - 1;
      assert !Provides(trees, deeds[n], name);
      SoundBefore(world, deeds, trees, n);
      ReplayKeepsOtherNames(world, deeds[..n], trees, name);
      if deeds[n].Torn? && name in deeds[n].left {
        RemnantTrans(world[name], Replay(world, deeds[..n], trees)[name], deeds[n].left[name]);
      }
    }
  }

  lemma SoundBefore(world: Forest, deeds: seq<Deed>, trees: map<string, Entries>, n: nat)
    requires Sound(world, deeds, trees) && n <= |deeds|
    ensures Sound(world, deeds[..n], trees)
  {
    hide Replay, ForestRemnant;
    forall i | 0 <= i < n && deeds[..n][i].Torn?
      ensures ForestRemnant(Replay(world, deeds[..n][..i], trees), deeds[..n][i].left)
    {
      assert deeds[..n][..i] == deeds[..i];
    }
  }

  lemma {:induction false} RemnantTrans(a: Tree, b: Tree, c: Tree)
    requires TreeRemnant(a, b) && TreeRemnant(b, c)
    ensures TreeRemnant(a, c)
    decreases a
  {
    if a != b && b != c {
      forall name | name in c.entries ensures TreeRemnant(a.entries[name], c.entries[name]) {
        RemnantTrans(a.entries[name], b.entries[name], c.entries[name]);
      }
    }
  }
}
