/** Member names of a backup archive (app/adapters/archive_validation.py). */
module ArchiveNames {
  import opened Common
  import opened FileTree

  // ---- paths ----

  function Split(s: string): (r: seq<string>)
    ensures r != []
  {
    if s == "" then [""]
    else
      var r := Split(s[1..]);
      if s[0] == '/' then [""] + r else [[s[0]] + r[0]] + r[1..]
  }

  function Join(parts: seq<string>): string {
    if parts == [] then ""
    else if |parts| == 1 then parts[0]
    else parts[0] + "/" + Join(parts[1..])
  }

  function DropIdle(parts: seq<string>): seq<string> {
    if parts == [] then []
    else (if parts[0] == "" || parts[0] == "." then [] else [parts[0]]) + DropIdle(parts[1..])
  }

  /** `PurePosixPath(name).parts` of a relative name. */
  function Parts(name: string): seq<string> {
    DropIdle(Split(name))
  }

  /** A path component as it can appear in a parsed path. */
  predicate Component(p: string) {
    p != "" && p != "." && '/' !in p
  }

  ghost predicate AllComponents(parts: seq<string>) {
    forall i :: 0 <= i < |parts| ==> Component(parts[i])
  }

  lemma {:induction false} SplitHasNoSlash(s: string)
    ensures forall i :: 0 <= i < |Split(s)| ==> '/' !in Split(s)[i] && forall c :: c in Split(s)[i] ==> c in s
  {
    if s != "" {
      SplitHasNoSlash(s[1..]);
      var r := Split(s[1..]);
      assert s == [s[0]] + s[1..];
      forall i | 0 <= i < |Split(s)|
        ensures '/' !in Split(s)[i] && forall c :: c in Split(s)[i] ==> c in s
      {
        if s[0] == '/' {
          assert 0 < i ==> Split(s)[i] == r[i - 1];
        } else {
          assert Split(s)[i] == if i == 0 then [s[0]] + r[0] else r[i];
        }
      }
    }
  }

  lemma {:induction false} DropIdleKeeps(parts: seq<string>)
    requires forall i :: 0 <= i < |parts| ==> '/' !in parts[i]
    ensures AllComponents(DropIdle(parts))
    ensures forall p :: p in DropIdle(parts) ==> p in parts
  {
    if parts != [] {
      DropIdleKeeps(parts[1..]);
    }
  }

  lemma {:induction false} SplitOne(p: string)
    requires '/' !in p
    ensures Split(p) == [p]
  {
    if p != "" {
      assert p == [p[0]] + p[1..];
      SplitOne(p[1..]);
      assert [p[1..]][1..] == [];
    }
  }

  lemma {:induction false} SplitFirst(p: string, rest: string)
    requires '/' !in p
    ensures Split(p + "/" + rest) == [p] + Split(rest)
  {
    var s := p + "/" + rest;
    if p == "" {
      assert s[1..] == rest;
    } else {
      assert p == [p[0]] + p[1..];
      SplitFirst(p[1..], rest);
      assert s[1..] == p[1..] + "/" + rest;
      assert ([p[1..]] + Split(rest))[1..] == Split(rest);
    }
  }

  /** Parsing a joined path gives the components back. */
  lemma {:induction false} PartsOfJoin(parts: seq<string>)
    requires AllComponents(parts)
    ensures Parts(Join(parts)) == parts
  {
    if parts == [] {
      assert Split("") == [""];
      assert [""][1..] == [];
    } else if |parts| == 1 {
      assert Component(parts[0]);
      SplitOne(parts[0]);
      assert [parts[0]][1..] == [];
      assert DropIdle([parts[0]]) == [parts[0]] + DropIdle([]);
      assert parts == [parts[0]];
    } else {
      assert Component(parts[0]);
      SplitFirst(parts[0], Join(parts[1..]));
      PartsOfJoin(parts[1..]);
      var split := Split(Join(parts[1..]));
      assert ([parts[0]] + split)[1..] == split;
      assert parts == [parts[0]] + parts[1..];
    }
  }

  lemma {:induction false} JoinChars(parts: seq<string>)
    ensures forall c :: c in Join(parts) ==> c == '/' || exists i :: 0 <= i < |parts| && c in parts[i]
  {
    if 1 < |parts| {
      JoinChars(parts[1..]);
      forall c | c in Join(parts) ensures c == '/' || exists i :: 0 <= i < |parts| && c in parts[i] {
        if c in Join(parts[1..]) && c != '/' {
          var i :| 0 <= i < |parts[1..]| && c in parts[1..][i];
          assert c in parts[i + 1];
        } else if c in parts[0] {
        }
      }
    } else if |parts| == 1 {
      forall c | c in Join(parts) ensures exists i :: 0 <= i < |parts| && c in parts[i] {
        assert c in parts[0];
      }
    }
  }

  // ---- `safe_archive_member_name` ----

  predicate Forbidden(c: char) {
    c == '\0' || c == '\n' || c == '\r' || c == '\\'
  }

  predicate CleanChars(name: string) {
    forall i :: 0 <= i < |name| ==> !Forbidden(name[i])
  }

  function SafeMemberName(name: string): Option<string> {
    if name == "" || !CleanChars(name) then None
    else if name[0] == '/' || ".." in Parts(name) then None
    else if Parts(name) != [] && Parts(name)[0] in PROTECTED then None
    else Some(if Join(Parts(name)) == "" then "." else Join(Parts(name)))
  }

  lemma PartsAreComponents(name: string)
    ensures AllComponents(Parts(name))
    ensures forall i, c :: 0 <= i < |Parts(name)| && c in Parts(name)[i] ==> c in name
  {
    SplitHasNoSlash(name);
    DropIdleKeeps(Split(name));
    forall i, c | 0 <= i < |Parts(name)| && c in Parts(name)[i] ensures c in name {
      assert Parts(name)[i] in Split(name);
      var j :| 0 <= j < |Split(name)| && Split(name)[j] == Parts(name)[i];
    }
  }

  lemma PartsOfDot()
    ensures Parts(".") == [] && Join([]) == ""
  {
  }

  lemma JoinNonempty(parts: seq<string>)
    requires AllComponents(parts) && parts != []
    ensures Join(parts) != "" && Join(parts)[0] != '/'
  {
  }

  // ---- which names are accepted ----

  /** Splitting at slashes loses nothing. */
  lemma {:induction false} JoinOfSplit(s: string)
    ensures Join(Split(s)) == s
  {
    if s == "" {
      assert Split("") == [""];
    } else {
      JoinOfSplit(s[1..]);
      var r := Split(s[1..]);
      assert s == [s[0]] + s[1..];
      if s[0] == '/' {
        assert ([""] + r)[1..] == r;
        assert Join([""] + r) == "" + "/" + Join(r);
      } else {
        assert ([[s[0]] + r[0]] + r[1..])[1..] == r[1..];
        assert 1 < |r| ==> r == [r[0]] + r[1..];
      }
    }
  }

  /** An empty component or a dot says nothing. */
  predicate SaysNothing(p: string) {
    p == "" || p == "."
  }

  /** The first component that says something, if any, is not reserved. */
  ghost predicate NotReserved(split: seq<string>) {
    forall i ::
      0 <= i < |split| && !SaysNothing(split[i]) && (forall j :: 0 <= j < i ==> SaysNothing(split[j])) ==>
      split[i] !in PROTECTED
  }

  lemma {:induction false} DropIdleFirst(split: seq<string>)
    ensures (DropIdle(split) != [] ==> DropIdle(split)[0] !in PROTECTED) <==> NotReserved(split)
  {
    if split != [] {
      DropIdleFirst(split[1..]);
      if SaysNothing(split[0]) {
        FirstInRest(split);
      }
    }
  }

  lemma FirstInRest(split: seq<string>)
    requires split != [] && SaysNothing(split[0])
    ensures NotReserved(split) <==> NotReserved(split[1..])
  {
    var rest := split[1..];
    if NotReserved(split) {
      forall i | 0 <= i < |rest| && !SaysNothing(rest[i]) && (forall j :: 0 <= j < i ==> SaysNothing(rest[j]))
        ensures rest[i] !in PROTECTED
      {
        assert split[i + 1] == rest[i];
        forall j | 0 <= j < i + 1 ensures SaysNothing(split[j]) {
          assert 0 < j ==> split[j] == rest[j - 1];
        }
      }
    }
    if NotReserved(rest) {
      forall i | 0 <= i < |split| && !SaysNothing(split[i]) && (forall j :: 0 <= j < i ==> SaysNothing(split[j]))
        ensures split[i] !in PROTECTED
      {
        assert split[i] == rest[i - 1];
        forall j | 0 <= j < i - 1 ensures SaysNothing(rest[j]) {
          assert rest[j] == split[j + 1];
        }
      }
    }
  }

  lemma {:induction false} DropIdleClimbs(split: seq<string>)
    ensures ".." in DropIdle(split) <==> ".." in split
  {
    if split != [] {
      DropIdleClimbs(split[1..]);
      assert split == [split[0]] + split[1..];
    }
  }

  /** A name is accepted exactly when it is not empty, has no forbidden character and
      no slash in front, climbs nowhere between its slashes, and does not begin with
      a reserved name. How deep it goes does not matter. */
  lemma AcceptedExactly(name: string)
    ensures SafeMemberName(name).Some? <==>
      && name != "" && (forall i :: 0 <= i < |name| ==> name[i] !in {'\0', '\n', '\r', '\\'})
      && name[0] != '/' && ".." !in Split(name) && NotReserved(Split(name))
  {
    hide Split, DropIdle, NotReserved;
    DropIdleClimbs(Split(name));
    DropIdleFirst(Split(name));
  }

  /** A path in normal form is accepted as it is. */
  lemma NormalNameIsKept(parts: seq<string>)
    requires AllComponents(parts) && parts != [] && ".." !in parts && parts[0] !in PROTECTED
    requires CleanChars(Join(parts))
    ensures SafeMemberName(Join(parts)) == Some(Join(parts))
  {
    hide Parts, Join;
    PartsOfJoin(parts);
    JoinNonempty(parts);
  }

  /** An accepted name normalises to a path that stays under the stage, climbs
      nowhere and touches no reserved name; the normal form keeps the components. */
  lemma AcceptedNameIsSafe(name: string)
    requires SafeMemberName(name).Some?
    ensures var n := SafeMemberName(name).value;
      && Parts(n) == Parts(name) && AllComponents(Parts(n))
      && ".." !in Parts(n)
      && (Parts(n) != [] ==> Parts(n)[0] !in PROTECTED)
      && n != "" && n[0] != '/' && CleanChars(n)
      && (n == "." <==> Parts(name) == [])
  {
    hide Parts, Join;
    var n := SafeMemberName(name).value;
    PartsAreComponents(name);
    PartsOfJoin(Parts(name));
    PartsOfDot();
    JoinChars(Parts(name));
    if Parts(name) != [] {
      JoinNonempty(Parts(name));
      forall i | 0 <= i < |n| ensures !Forbidden(n[i]) {
        assert n[i] in n;
        assert n[i] != '/' ==> n[i] in name;
      }
    }
  }

  /** Normalising twice is normalising once. */
  lemma NormalisationIsIdempotent(name: string)
    requires SafeMemberName(name).Some?
    ensures SafeMemberName(SafeMemberName(name).value) == SafeMemberName(name)
  {
    hide Parts, Join;
    AcceptedNameIsSafe(name);
  }
}
