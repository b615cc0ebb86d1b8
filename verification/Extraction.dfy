/** The members of a backup archive, and the tree that `_extract_verified_archive`
    of app/restore_worker.py builds from them. */
module Extraction {
  import opened Common
  import opened FileTree
  import opened ArchiveNames

  datatype Kind = Directory | Regular(data: string) | Other

  datatype Member = Member(name: string, kind: Kind)

  /** Puts one member into the tree, creating missing parents. A file in the way
      of a directory, or an entry that is already there, is refused. */
  function Place(entries: Entries, parts: seq<string>, kind: Kind): Option<Entries>
    requires parts != [] && !kind.Other?
    decreases |parts|
  {
    var name := parts[0];
    if |parts| == 1 then
      if kind.Directory? then
        if name !in entries then Some(entries[name := Dir(0, map[])])
        else if entries[name].Dir? then Some(entries)
        else None
      else if name in entries then None
      else Some(entries[name := File(0, kind.data)])
    else if name in entries && !entries[name].Dir? then None
    else
      var inner := Place(if name in entries then entries[name].entries else map[], parts[1..], kind);
      if inner.Some? then Some(entries[name := Dir(0, inner.value)]) else None
  }

  function KindOf(node: Node): Kind {
    match node
    case File(_, data) => Regular(data)
    case Dir(_, _) => Directory
    case Link(_, _) => Other
  }

  /** What stands at a path, if anything. */
  function Shape(entries: Entries, path: seq<string>): Option<Kind>
    requires path != []
    decreases |path|
  {
    var name := path[0];
    if name !in entries then None
    else if |path| == 1 then Some(KindOf(entries[name]))
    else if entries[name].Dir? then Shape(entries[name].entries, path[1..])
    else None
  }

  lemma {:induction false} ShapeOfNone(path: seq<string>)
    requires path != []
    ensures Shape(map[], path).None?
  {
  }

  /** Placing a member adds it and its missing parents, and changes nothing else. */
  lemma {:induction false} PlaceIsExact(entries: Entries, parts: seq<string>, kind: Kind, other: seq<string>)
    requires parts != [] && other != [] && !kind.Other? && Place(entries, parts, kind).Some?
    ensures Shape(Place(entries, parts, kind).value, other)
      == if other == parts then Some(kind) else if other < parts then Some(Directory) else Shape(entries, other)
    ensures Place(entries, parts, kind).value.Keys == entries.Keys + {parts[0]}
    decreases |parts|
  {
    var name := parts[0];
    if 1 < |parts| {
      var inside := if name in entries then entries[name].entries else map[];
      assert parts == [parts[0]] + parts[1..];
      if 1 < |other| {
        PlaceIsExact(inside, parts[1..], kind, other[1..]);
        assert other == [other[0]] + other[1..];
        if name !in entries {
          ShapeOfNone(other[1..]);
        }
      } else {
        PlaceIsExact(inside, parts[1..], kind, parts[1..]);
        assert other == [other[0]];
      }
    } else {
      assert parts == [name];
      assert 1 == |other| ==> other == [other[0]];
      if 1 < |other| {
        ShapeOfNone(other[1..]);
      }
    }
  }

  /** Something other than a directory stands on the way. */
  predicate Blocked(entries: Entries, parts: seq<string>) {
    exists k :: 1 <= k < |parts| && Shape(entries, parts[..k]) !in {None, Some(Directory)}
  }

  /** Placing fails exactly when the way is blocked or the place is taken; only a
      directory may be placed where a directory is. */
  lemma {:induction false} PlaceFails(entries: Entries, parts: seq<string>, kind: Kind)
    requires parts != [] && !kind.Other?
    ensures Place(entries, parts, kind).None? <==>
      || Blocked(entries, parts)
      || (Shape(entries, parts).Some? && !(kind.Directory? && Shape(entries, parts) == Some(Directory)))
    decreases |parts|
  {
    var name := parts[0];
    if |parts| == 1 {
      assert !Blocked(entries, parts);
    } else if name in entries && !entries[name].Dir? {
      assert parts[..1][0] == name;
      assert Blocked(entries, parts);
    } else {
      var inside := if name in entries then entries[name].entries else map[];
      PlaceFails(inside, parts[1..], kind);
      if name !in entries {
        ShapeOfNone(parts[1..]);
      }
      BlockedInside(entries, parts);
    }
  }

  lemma BlockedInside(entries: Entries, parts: seq<string>)
    requires 1 < |parts| && (parts[0] in entries ==> entries[parts[0]].Dir?)
    ensures var inside := if parts[0] in entries then entries[parts[0]].entries else map[];
      Blocked(entries, parts) <==> Blocked(inside, parts[1..])
  {
    var inside := if parts[0] in entries then entries[parts[0]].entries else map[];
    if Blocked(entries, parts) {
      var k :| 1 <= k < |parts| && Shape(entries, parts[..k]) !in {None, Some(Directory)};
      assert parts[..k][1..] == parts[1..][..k - 1];
    }
    if Blocked(inside, parts[1..]) {
      var k :| 1 <= k < |parts[1..]| && Shape(inside, parts[1..][..k]) !in {None, Some(Directory)};
      ShapeOfNone(parts[1..][..k]);
      assert parts[..k + 1][1..] == parts[1..][..k];
      assert Shape(entries, parts[..k + 1]) == Shape(inside, parts[1..][..k]);
    }
  }

  /** Member `a` is a file where `b` needs a directory, or another entry. */
  predicate Clash(a: Member, b: Member) {
    a.kind.Regular? && Parts(a.name) != [] && Parts(a.name) <= Parts(b.name)
  }

  predicate Accepted(m: Member) {
    SafeMemberName(m.name).Some? && !m.kind.Other?
  }

  /** Every name is safe, every member a file or a directory, and no two clash. */
  ghost predicate Acceptable(members: seq<Member>) {
    && (forall i :: 0 <= i < |members| ==> Accepted(members[i]))
    && NoClash(members)
  }

  ghost predicate NoClash(members: seq<Member>) {
    forall i, j :: 0 <= i < |members| && 0 <= j < |members| && i != j ==> !Clash(members[i], members[j])
  }

  /** Member `m` has `path` on its way or at its end. */
  predicate Reaches(m: Member, path: seq<string>) {
    path <= Parts(m.name)
  }

  /** `path` holds what the members say, and nothing else. */
  ghost predicate BuiltAt(tree: Entries, members: seq<Member>, path: seq<string>)
    requires path != []
  {
    match Shape(tree, path)
    case None => forall i :: 0 <= i < |members| ==> !Reaches(members[i], path)
    case Some(Directory) =>
      exists i :: 0 <= i < |members| && Reaches(members[i], path)
        && (path == Parts(members[i].name) ==> members[i].kind.Directory?)
    case Some(Regular(data)) =>
      exists i :: 0 <= i < |members| && Reaches(members[i], path)
        && path == Parts(members[i].name) && members[i].kind == Regular(data)
    case Some(Other) => false
  }

  ghost predicate Built(tree: Entries, members: seq<Member>) {
    forall path :: path != [] ==> BuiltAt(tree, members, path)
  }

  lemma OnlyOne(members: seq<Member>, i: nat, j: nat)
    requires NoClash(members) && i < |members| && j < |members|
    requires members[i].kind.Regular? && Parts(members[i].name) != [] && Reaches(members[j], Parts(members[i].name))
    ensures i == j
  {
  }

  /** Without clashes, the tree holds every file of the archive. */
  lemma BuiltHolds(tree: Entries, members: seq<Member>, i: nat)
    requires Built(tree, members) && NoClash(members) && i < |members|
    requires members[i].kind.Regular? && Parts(members[i].name) != []
    ensures Shape(tree, Parts(members[i].name)) == Some(members[i].kind)
  {
    hide Parts, Shape;
    var path := Parts(members[i].name);
    assert BuiltAt(tree, members, path) && Reaches(members[i], path);
    if Shape(tree, path) == Some(Directory) {
      var j :| 0 <= j < |members| && Reaches(members[j], path)
        && (path == Parts(members[j].name) ==> members[j].kind.Directory?);
      OnlyOne(members, i, j);
    }
    if Shape(tree, path).Some? && Shape(tree, path).value.Regular? {
      var j :| 0 <= j < |members| && Reaches(members[j], path)
        && path == Parts(members[j].name) && members[j].kind == Shape(tree, path).value;
      OnlyOne(members, i, j);
    }
  }

  /** A member fails to be placed exactly when it clashes with one before it. */
  lemma ClashDecides(tree: Entries, members: seq<Member>, m: Member)
    requires Built(tree, members) && NoClash(members) && Accepted(m) && Parts(m.name) != []
    ensures Place(tree, Parts(m.name), m.kind).None? <==>
      exists i :: 0 <= i < |members| && (Clash(members[i], m) || Clash(m, members[i]))
  {
    hide Parts, Shape, Place;
    var parts := Parts(m.name);
    PlaceFails(tree, parts, m.kind);
    assert BuiltAt(tree, members, parts);
    if Blocked(tree, parts) {
      var k :| 1 <= k < |parts| && Shape(tree, parts[..k]) !in {None, Some(Directory)};
      assert BuiltAt(tree, members, parts[..k]);
      var i :| 0 <= i < |members| && Reaches(members[i], parts[..k]) && parts[..k] == Parts(members[i].name)
        && members[i].kind.Regular?;
      assert Clash(members[i], m);
    } else if Shape(tree, parts).Some? && Shape(tree, parts).value.Regular? {
      var i :| 0 <= i < |members| && Reaches(members[i], parts) && parts == Parts(members[i].name)
        && members[i].kind.Regular?;
      assert Clash(members[i], m);
    } else if Shape(tree, parts) == Some(Directory) && m.kind.Regular? {
      var i :| 0 <= i < |members| && Reaches(members[i], parts);
      assert Clash(m, members[i]);
    }
    forall i | 0 <= i < |members| && (Clash(members[i], m) || Clash(m, members[i]))
      ensures Place(tree, parts, m.kind).None?
    {
      if Clash(members[i], m) {
        BuiltHolds(tree, members, i);
        var k := |Parts(members[i].name)|;
        assert parts[..k] == Parts(members[i].name);
      } else {
        assert Reaches(members[i], parts);
      }
    }
  }

  lemma BuiltStep(tree: Entries, next: Entries, members: seq<Member>, m: Member)
    requires Built(tree, members) && Accepted(m) && Parts(m.name) != []
    requires Place(tree, Parts(m.name), m.kind) == Some(next)
    ensures Built(next, members + [m])
  {
    hide Parts, Shape, Place;
    var parts, more := Parts(m.name), members + [m];
    forall path | path != [] ensures BuiltAt(next, more, path) {
      PlaceIsExact(tree, parts, m.kind, path);
      assert more[|members|] == m;
      if path <= parts {
        assert Reaches(more[|members|], path);
      } else {
        BuiltSame(tree, next, members, m, path);
      }
    }
  }

  lemma BuiltSame(tree: Entries, next: Entries, members: seq<Member>, m: Member, path: seq<string>)
    requires path != [] && BuiltAt(tree, members, path) && !Reaches(m, path)
    requires Shape(next, path) == Shape(tree, path)
    ensures BuiltAt(next, members + [m], path)
  {
    hide Parts, Shape;
    var more := members + [m];
    match Shape(tree, path)
    case None =>
    case Some(Directory) =>
      var i :| 0 <= i < |members| && Reaches(members[i], path)
        && (path == Parts(members[i].name) ==> members[i].kind.Directory?);
      assert more[i] == members[i];
    case Some(Regular(data)) =>
      var i :| 0 <= i < |members| && Reaches(members[i], path)
        && path == Parts(members[i].name) && members[i].kind == Regular(data);
      assert more[i] == members[i];
  }

  lemma BuiltSkip(tree: Entries, members: seq<Member>, m: Member)
    requires Built(tree, members) && Parts(m.name) == []
    ensures Built(tree, members + [m])
  {
    forall path | path != [] ensures BuiltAt(tree, members + [m], path) {
      BuiltSame(tree, tree, members, m, path);
    }
  }

  lemma NoClashStep(members: seq<Member>, m: Member)
    requires NoClash(members)
    requires forall i :: 0 <= i < |members| ==> !Clash(members[i], m) && !Clash(m, members[i])
    ensures NoClash(members + [m])
  {
  }

  lemma BuiltFromNone()
    ensures Built(map[], [])
  {
  }

  lemma NoneClash()
    ensures NoClash([])
  {
  }

  lemma NothingClashes(members: seq<Member>, m: Member)
    requires NoClash(members) && Parts(m.name) == []
    ensures NoClash(members + [m])
  {
  }

  lemma ClashRefuses(members: seq<Member>, m: Member, i: nat)
    requires i < |members| && (Clash(members[i], m) || Clash(m, members[i]))
    ensures !NoClash(members + [m])
  {
    hide Clash;
    var more := members + [m];
    assert more[i] == members[i] && more[|members|] == m;
  }

  lemma NoClashBefore(members: seq<Member>, m: Member)
    requires NoClash(members + [m])
    ensures NoClash(members)
  {
    hide Clash;
    var more := members + [m];
    forall i, j | 0 <= i < |members| && 0 <= j < |members| && i != j ensures !Clash(members[i], members[j]) {
      assert more[i] == members[i] && more[j] == members[j];
    }
  }

  /** The tree after one more member. */
  function Add(tree: Entries, m: Member): Option<Entries> {
    if !Accepted(m) then None
    else if Parts(m.name) == [] then Some(tree)
    else Place(tree, Parts(m.name), m.kind)
  }

  /** The tree of a list of members, if they can be extracted. */
  function Unpacked(members: seq<Member>): Option<Entries> {
    if members == [] then Some(map[])
    else
      var n := |members| - 1;
      var before := Unpacked(members[..n]);
      if before.Some? then Add(before.value, members[n]) else None
  }

  lemma AddLaws(tree: Entries, members: seq<Member>, m: Member)
    requires Built(tree, members) && NoClash(members) && tree.Keys !! PROTECTED
    ensures Add(tree, m).Some? <==> Accepted(m) && NoClash(members + [m])
    ensures Add(tree, m).Some? ==> Add(tree, m).value.Keys !! PROTECTED && Built(Add(tree, m).value, members + [m])
  {
    hide Parts, Place, Built, NoClash, Clash, SafeMemberName;
    if Accepted(m) {
      AcceptedNameIsSafe(m.name);
      if Parts(m.name) == [] {
        BuiltSkip(tree, members, m);
        NothingClashes(members, m);
      } else {
        ClashDecides(tree, members, m);
        var next := Place(tree, Parts(m.name), m.kind);
        if next.None? {
          var i :| 0 <= i < |members| && (Clash(members[i], m) || Clash(m, members[i]));
          ClashRefuses(members, m, i);
        } else {
          BuiltStep(tree, next.value, members, m);
          NoClashStep(members, m);
          PlaceIsExact(tree, Parts(m.name), m.kind, Parts(m.name));
        }
      }
    }
  }

  /** Extraction succeeds exactly when the members are acceptable, in whatever
      order they come. The tree then holds the members and their parents and
      nothing else, and no reserved name at its root. */
  lemma {:induction false} UnpackedLaws(members: seq<Member>)
    ensures Unpacked(members).Some? <==> Acceptable(members)
    ensures Unpacked(members).Some? ==>
      Unpacked(members).value.Keys !! PROTECTED && Built(Unpacked(members).value, members)
  {
    hide Add, Accepted, Built, NoClash;
    if members == [] {
      BuiltFromNone();
      NoneClash();
    } else {
      var n := |members| - 1;
      UnpackedLaws(members[..n]);
      assert members == members[..n] + [members[n]];
      if Unpacked(members[..n]).Some? {
        AddLaws(Unpacked(members[..n]).value, members[..n], members[n]);
      } else if Acceptable(members) {
        NoClashBefore(members[..n], members[n]);
      }
    }
  }

  lemma {:induction false} UnpackedPrefix(members: seq<Member>, n: nat)
    requires n <= |members| && Unpacked(members[..n]).None?
    ensures Unpacked(members).None?
    decreases |members|
  {
    if n < |members| {
      assert members[..|members| - 1][..n] == members[..n];
      UnpackedPrefix(members[..|members| - 1], n);
    } else {
      assert members[..n] == members;
    }
  }

  /** The loop over the members in `_extract_verified_archive`. */
  method ExtractMembers(members: seq<Member>) returns (stage: Option<Entries>)
    ensures stage == Unpacked(members)
    ensures stage.Some? <==> Acceptable(members)
    ensures stage.Some? ==> stage.value.Keys !! PROTECTED && Built(stage.value, members)
  {
    hide Parts, Place, Acceptable, Built, SafeMemberName;
    UnpackedLaws(members);
    var tree: Entries := map[];
    for n := 0 to |members|
      invariant Unpacked(members[..n]) == Some(tree)
    {
      var m := members[n];
      assert members[..n + 1][..n] == members[..n];
      UnpackedStep(members, n);
      var name := SafeMemberName(m.name);
      if name.None? || m.kind.Other? {
        return None;
      }
      AcceptedNameIsSafe(m.name);
      if name.value != "." {
        var next := Place(tree, Parts(name.value), m.kind);
        if next.None? {
          return None;
        }
        tree := next.value;
      }
    }
    assert members[..|members|] == members;
    stage := Some(tree);
  }

  lemma UnpackedStep(members: seq<Member>, n: nat)
    requires n < |members| && Unpacked(members[..n]).Some?
    ensures Unpacked(members[..n + 1]) == Add(Unpacked(members[..n]).value, members[n])
    ensures Add(Unpacked(members[..n]).value, members[n]).None? ==> Unpacked(members).None?
  {
    hide Add;
    assert members[..n + 1][..n] == members[..n];
    if Add(Unpacked(members[..n]).value, members[n]).None? {
      UnpackedPrefix(members, n + 1);
    }
  }
}
