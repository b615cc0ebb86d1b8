/** `inspect_archive` of app/adapters/archive_validation.py: reads a whole archive
    without extracting it, and says whether a world can be restored from it. */
module Inspection {
  import opened Common
  import opened ArchiveNames
  import opened Extraction

  const PROPERTIES := "server.properties"
  const MAX_PROPERTIES := 1048576

  datatype Verdict = Verdict(ok: bool, restorable: bool, world: string)

  /** A regular file whose normal name is `name`. */
  predicate IsFile(m: Member, name: string) {
    m.kind.Regular? && SafeMemberName(m.name) == Some(name)
  }

  predicate TooLong(m: Member) {
    IsFile(m, PROPERTIES) && |m.kind.data| > MAX_PROPERTIES
  }

  /** Two regular files of one normal name. */
  predicate Repeats(a: Member, b: Member) {
    a.kind.Regular? && b.kind.Regular? && SafeMemberName(a.name) == SafeMemberName(b.name)
  }

  ghost predicate NoRepeats(members: seq<Member>) {
    forall i, j :: 0 <= i < j < |members| ==> !Repeats(members[i], members[j])
  }

  /** The checks made on every member. */
  ghost predicate Readable(members: seq<Member>) {
    && (forall i :: 0 <= i < |members| ==> Accepted(members[i]) && !TooLong(members[i]))
    && NoRepeats(members)
  }

  ghost predicate HasFile(members: seq<Member>) {
    exists i :: 0 <= i < |members| && members[i].kind.Regular?
  }

  /** The world that `server.properties` names is there, with its `level.dat`.
      `levelName` reads the name off the text of that file; it gives "" for none. */
  ghost predicate NamesWorld(members: seq<Member>, levelName: string -> string, world: string) {
    exists i, j ::
      && 0 <= i < |members| && IsFile(members[i], PROPERTIES)
      && 0 <= j < |members| && IsFile(members[j], world + "/level.dat")
      && levelName(members[i].kind.data) != ""
      && SafeMemberName(levelName(members[i].kind.data)) == Some(world)
      && members[j].kind.data != ""
  }

  /** The sizes by normal name, and what `server.properties` holds. */
  ghost predicate Tallied(members: seq<Member>, sizes: map<string, int>, properties: Option<string>) {
    && (forall i :: 0 <= i < |members| && members[i].kind.Regular? ==>
          var name := SafeMemberName(members[i].name);
          && name.Some? && name.value in sizes && sizes[name.value] == |members[i].kind.data|
          && (name.value == PROPERTIES ==> properties == Some(members[i].kind.data)))
    && (forall name :: name in sizes ==> exists i :: 0 <= i < |members| && IsFile(members[i], name))
    && (properties.Some? ==> PROPERTIES in sizes)
  }

  lemma TallyStep(members: seq<Member>, sizes: map<string, int>, properties: Option<string>, m: Member)
    requires Tallied(members, sizes, properties) && NoRepeats(members) && Accepted(m)
    ensures m.kind.Directory? ==> Tallied(members + [m], sizes, properties) && NoRepeats(members + [m])
    ensures m.kind.Regular? ==>
      var name := SafeMemberName(m.name).value;
      if name in sizes then !NoRepeats(members + [m])
      else
        && NoRepeats(members + [m])
        && Tallied(members + [m], sizes[name := |m.kind.data|],
                   if name == PROPERTIES then Some(m.kind.data) else properties)
  {
    hide SafeMemberName, Tallied, NoRepeats, IsFile;
    RepeatStep(members, sizes, properties, m);
    if m.kind.Directory? || SafeMemberName(m.name).value !in sizes {
      TallyMore(members, sizes, properties, m);
    }
  }

  lemma RepeatStep(members: seq<Member>, sizes: map<string, int>, properties: Option<string>, m: Member)
    requires Tallied(members, sizes, properties) && NoRepeats(members) && Accepted(m)
    ensures NoRepeats(members + [m]) <==> m.kind.Directory? || SafeMemberName(m.name).value !in sizes
  {
    hide SafeMemberName;
    var more := members + [m];
    assert more[|members|] == m && forall i :: 0 <= i < |members| ==> more[i] == members[i];
    if m.kind.Regular? && SafeMemberName(m.name).value in sizes {
      var i :| 0 <= i < |members| && IsFile(members[i], SafeMemberName(m.name).value);
      assert Repeats(more[i], more[|members|]);
    } else {
      forall i, j | 0 <= i < j < |more| ensures !Repeats(more[i], more[j]) {
        assert j < |members| ==> !Repeats(members[i], members[j]);
      }
    }
  }

  lemma TallyMore(members: seq<Member>, sizes: map<string, int>, properties: Option<string>, m: Member)
    requires Tallied(members, sizes, properties) && Accepted(m)
    requires m.kind.Directory? || SafeMemberName(m.name).value !in sizes
    ensures m.kind.Directory? ==> Tallied(members + [m], sizes, properties)
    ensures m.kind.Regular? ==>
      var name := SafeMemberName(m.name).value;
      Tallied(members + [m], sizes[name := |m.kind.data|],
              if name == PROPERTIES then Some(m.kind.data) else properties)
  {
    hide SafeMemberName;
    var more := members + [m];
    assert more[|members|] == m && forall i :: 0 <= i < |members| ==> more[i] == members[i];
    forall name | name in sizes ensures exists i :: 0 <= i < |more| && IsFile(more[i], name) {
      var i :| 0 <= i < |members| && IsFile(members[i], name);
      assert IsFile(more[i], name);
    }
    assert m.kind.Regular? ==> IsFile(more[|members|], SafeMemberName(m.name).value);
  }

  /** The loop over the members: what it has read, or `None` for an archive that
      is not fit. */
  method ReadMembers(members: seq<Member>) returns (r: Option<(map<string, int>, Option<string>)>)
    ensures r.Some? <==> Readable(members)
    ensures r.Some? ==> Tallied(members, r.value.0, r.value.1)
  {
    hide SafeMemberName, NoRepeats, Tallied;
    var sizes: map<string, int>, properties: Option<string> := map[], None;
    NothingRead();
    for n := 0 to |members|
      invariant forall i :: 0 <= i < n ==> Accepted(members[i]) && !TooLong(members[i])
      invariant NoRepeats(members[..n]) && Tallied(members[..n], sizes, properties)
    {
      var m := members[n];
      assert members[..n + 1] == members[..n] + [m];
      var name := SafeMemberName(m.name);
      if name.None? || m.kind.Other? {
        assert !Accepted(members[n]);
        return None;
      }
      TallyStep(members[..n], sizes, properties, m);
      if m.kind.Directory? {
        continue;
      }
      if name.value in sizes {
        RepeatsStay(members, n + 1);
        return None;
      }
      sizes := sizes[name.value := |m.kind.data|];
      if name.value == PROPERTIES {
        if |m.kind.data| > MAX_PROPERTIES {
          assert TooLong(members[n]);
          return None;
        }
        properties := Some(m.kind.data);
      }
    }
    assert members[..|members|] == members;
    r := Some((sizes, properties));
  }

  lemma NothingRead()
    ensures NoRepeats([]) && Tallied([], map[], None)
  {
  }

  lemma RepeatsStay(members: seq<Member>, n: nat)
    requires n <= |members| && !NoRepeats(members[..n])
    ensures !NoRepeats(members)
  {
    hide SafeMemberName;
    var i, j :| 0 <= i < j < n && Repeats(members[..n][i], members[..n][j]);
    assert Repeats(members[i], members[j]);
  }

  lemma TallyHasFile(members: seq<Member>, sizes: map<string, int>, properties: Option<string>)
    requires Tallied(members, sizes, properties)
    ensures sizes == map[] <==> !HasFile(members)
  {
    hide SafeMemberName;
    if sizes != map[] {
      var name :| name in sizes;
    }
  }

  lemma TallyNamesWorld(
    members: seq<Member>, sizes: map<string, int>, properties: Option<string>, levelName: string -> string)
    requires Tallied(members, sizes, properties)
    ensures forall world :: NamesWorld(members, levelName, world) <==>
      && properties.Some? && levelName(properties.value) != ""
      && SafeMemberName(levelName(properties.value)) == Some(world)
      && world + "/level.dat" in sizes && sizes[world + "/level.dat"] > 0
  {
    hide SafeMemberName;
    forall world |
      && properties.Some? && levelName(properties.value) != ""
      && SafeMemberName(levelName(properties.value)) == Some(world)
      && world + "/level.dat" in sizes && sizes[world + "/level.dat"] > 0
      ensures NamesWorld(members, levelName, world)
    {
      var i :| 0 <= i < |members| && IsFile(members[i], PROPERTIES);
      var j :| 0 <= j < |members| && IsFile(members[j], world + "/level.dat");
    }
  }

  /** `inspect_archive`: fit exactly when every member passes and there is a file;
      restorable exactly when, besides, the world it names is there. */
  method Inspect(members: seq<Member>, levelName: string -> string) returns (v: Verdict)
    ensures v.ok <==> Readable(members) && HasFile(members)
    ensures v.restorable <==> v.ok && NamesWorld(members, levelName, v.world)
    ensures !v.restorable ==> !v.ok || forall world :: !NamesWorld(members, levelName, world)
  {
    hide SafeMemberName, Tallied, Readable, NamesWorld, HasFile;
    var read := ReadMembers(members);
    if read.None? {
      return Verdict(false, false, "");
    }
    var sizes, properties := read.value.0, read.value.1;
    TallyHasFile(members, sizes, properties);
    TallyNamesWorld(members, sizes, properties, levelName);
    if sizes == map[] {
      return Verdict(false, false, "");
    }
    if properties.None? {
      return Verdict(true, false, "");
    }
    var level := levelName(properties.value);
    if level == "" {
      return Verdict(true, false, "");
    }
    var world := SafeMemberName(level);
    if world.None? {
      return Verdict(true, false, "");
    }
    var dat := world.value + "/level.dat";
    v := Verdict(true, dat in sizes && sizes[dat] > 0, world.value);
  }

  // ---- what inspection lets through and extraction refuses ----

  /** `a` is a file where `b` is a directory, or needs one. */
  predicate Obstructs(a: Member, b: Member) {
    && a.kind.Regular? && Parts(a.name) != []
    && (Parts(a.name) < Parts(b.name) || (Parts(a.name) == Parts(b.name) && b.kind.Directory?))
  }

  ghost predicate NoObstacle(members: seq<Member>) {
    forall i, j :: 0 <= i < |members| && 0 <= j < |members| && i != j ==> !Obstructs(members[i], members[j])
  }

  /** At most one regular file is named after the root itself. */
  ghost predicate OneRootFile(members: seq<Member>) {
    forall i, j :: 0 <= i < j < |members| && IsFile(members[i], ".") ==> !IsFile(members[j], ".")
  }

  lemma SameName(a: Member, b: Member)
    requires Accepted(a) && Accepted(b)
    ensures SafeMemberName(a.name) == SafeMemberName(b.name) <==> Parts(a.name) == Parts(b.name)
    ensures IsFile(a, ".") <==> a.kind.Regular? && Parts(a.name) == []
  {
    hide Parts, SafeMemberName;
    AcceptedNameIsSafe(a.name);
    AcceptedNameIsSafe(b.name);
    if Parts(a.name) == Parts(b.name) {
      NameOfParts(a.name, b.name);
    }
  }

  lemma NameOfParts(a: string, b: string)
    requires SafeMemberName(a).Some? && SafeMemberName(b).Some? && Parts(a) == Parts(b)
    ensures SafeMemberName(a) == SafeMemberName(b)
  {
    hide Parts;
  }

  /** For members that each pass, extraction and inspection differ in two ways: a
      file in the way of a directory stops only extraction, and a second file named
      after the root stops only inspection. */
  lemma ChecksDiffer(members: seq<Member>)
    requires forall i :: 0 <= i < |members| ==> Accepted(members[i])
    ensures Acceptable(members) && OneRootFile(members) <==> NoRepeats(members) && NoObstacle(members)
  {
    hide Parts, SafeMemberName;
    forall i, j | 0 <= i < |members| && 0 <= j < |members|
      ensures Repeats(members[i], members[j]) <==>
        members[i].kind.Regular? && members[j].kind.Regular? && Parts(members[i].name) == Parts(members[j].name)
      ensures IsFile(members[i], ".") <==> members[i].kind.Regular? && Parts(members[i].name) == []
    {
      SameName(members[i], members[j]);
    }
    if NoRepeats(members) && NoObstacle(members) {
      forall i, j | 0 <= i < |members| && 0 <= j < |members| && i != j ensures !Clash(members[i], members[j]) {
        assert !Obstructs(members[i], members[j]) && Accepted(members[j]);
        assert !Repeats(members[if i < j then i else j], members[if i < j then j else i]);
        assert Parts(members[i].name) <= Parts(members[j].name) ==>
          Parts(members[i].name) < Parts(members[j].name) || Parts(members[i].name) == Parts(members[j].name);
      }
      forall i, j | 0 <= i < j < |members| && IsFile(members[i], ".") ensures !IsFile(members[j], ".") {
        assert !Repeats(members[i], members[j]);
      }
    }
    if Acceptable(members) && OneRootFile(members) {
      forall i, j | 0 <= i < |members| && 0 <= j < |members| && i != j ensures !Obstructs(members[i], members[j]) {
        assert !Clash(members[i], members[j]);
      }
      forall i, j | 0 <= i < j < |members| ensures !Repeats(members[i], members[j]) {
        assert !Clash(members[i], members[j]);
        assert IsFile(members[i], ".") ==> !IsFile(members[j], ".");
      }
    }
  }

  /** A file and a directory of one name pass inspection and cannot be extracted. */
  lemma FileAndDirectoryPassInspection()
    ensures var members := [Member("a", Regular("x")), Member("a", Directory)];
      Readable(members) && HasFile(members) && Unpacked(members).None?
  {
    var members := [Member("a", Regular("x")), Member("a", Directory)];
    PartsOfOne("a");
    assert SafeMemberName("a") == Some("a");
    assert members[0].kind.Regular?;
    assert Clash(members[0], members[1]);
    UnpackedLaws(members);
  }

  lemma PartsOfOne(name: string)
    requires Component(name)
    ensures Parts(name) == [name] && Join([name]) == name
  {
    assert AllComponents([name]);
    PartsOfJoin([name]);
  }
}
