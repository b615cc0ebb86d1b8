/** The data root as a tree of inodes, and the recursive copy and in-place
    synchronisation of app/restore_worker.py. */
module FileTree {
  import opened Common

  const STAGE := ".mc-restore-stage"
  const ROLLBACK := ".mc-restore-rollback"
  const STATE := ".mc-restore-transaction.json"
  const STATE_TMP := ".mc-restore-transaction.json.tmp"

  /** The transaction's own names in the data root. */
  const PROTECTED: set<string> := {STAGE, ROLLBACK, STATE, STATE_TMP}

  datatype Node =
    | File(ino: nat, data: string)
    | Link(ino: nat, target: string)
    | Dir(ino: nat, entries: map<string, Node>)

  type Entries = map<string, Node>

  /** What a node holds once inode numbers are forgotten. */
  datatype Tree = FileT(data: string) | LinkT(target: string) | DirT(entries: Forest)

  type Forest = map<string, Tree>

  function Content(n: Node): Tree {
    match n
    case File(_, data) => FileT(data)
    case Link(_, target) => LinkT(target)
    case Dir(_, entries) => DirT(map name | name in entries :: Content(entries[name]))
  }

  function Contents(entries: Entries): Forest {
    map name | name in entries :: Content(entries[name])
  }

  function Unprotected(entries: Entries, protected: set<string>): Entries {
    map name | name in entries && name !in protected :: entries[name]
  }

  /** The entries a caller outside the transaction can see. */
  function Visible(entries: Entries, protected: set<string>): Forest {
    Contents(Unprotected(entries, protected))
  }

  ghost predicate SameOn(names: set<string>, a: Entries, b: Entries) {
    forall name :: name in names ==>
      (name in a <==> name in b) && (name in a ==> a[name] == b[name])
  }

  /** Inodes survive synchronisation wherever source and destination are of one
      kind: bind mounts that point at them stay attached. */
  ghost predicate KeepsInodes(source: Node, before: Node, after: Node)
    decreases source
  {
    match source
    case File(_, _) => before.File? ==> after.ino == before.ino
    case Link(_, target) => before.Link? && before.target == target ==> after == before
    case Dir(_, entries) =>
      before.Dir? ==>
        && after.Dir?
        && after.ino == before.ino
        && forall name :: name in entries && name in before.entries && name in after.entries ==>
          KeepsInodes(entries[name], before.entries[name], after.entries[name])
  }

  ghost predicate EntrySynced(source: Node, before: Option<Node>, after: Option<Node>) {
    && after.Some?
    && Content(after.value) == Content(source)
    && (before.Some? ==> KeepsInodes(source, before.value, after.value))
  }

  function Get(entries: Entries, name: string): Option<Node> {
    if name in entries then Some(entries[name]) else None
  }

  function Put(entries: Entries, name: string, node: Option<Node>): (r: Entries)
    ensures Get(r, name) == node
    ensures forall other :: other != name ==> Get(r, other) == Get(entries, other)
  {
    if node.Some? then entries[name := node.value] else entries - {name}
  }

  /** What an interrupted removal may leave of a node: the node itself, or a
      directory without some of its entries, of which at most one is itself
      removed in part. Entries go one after the other, in any order. */
  ghost predicate Remnant(before: Node, after: Node)
    decreases before
  {
    || after == before
    || (before.Dir? && after.Dir? && after.ino == before.ino
        && after.entries.Keys <= before.entries.Keys
        && (forall name :: name in after.entries ==> Remnant(before.entries[name], after.entries[name]))
        && (forall a, b ::
              a in after.entries && b in after.entries && a != b ==>
              after.entries[a] == before.entries[a] || after.entries[b] == before.entries[b]))
  }

  /** `_remove_path`: one path, with everything below it. */
  method RemovePath(node: Option<Node>, calm: bool) returns (left: Option<Node>, o: Outcome)
    ensures calm ==> o.Done?
    ensures o.Done? ==> left.None?
    ensures left.Some? ==> node.Some? && Remnant(node.value, left.value)
  {
    if node.Some? {
      left, o := RemoveNode(node.value, calm);
    } else {
      o := Attempt(calm);
      left := None;
    }
  }

  method RemoveNode(node: Node, calm: bool) returns (left: Option<Node>, o: Outcome)
    ensures calm ==> o.Done?
    ensures o.Done? ==> left.None?
    ensures left.Some? ==> Remnant(node, left.value)
    decreases node, 1
  {
    if node.Dir? {
      left, o := RemoveTree(node, calm);
      return;
    }
    o := Attempt(calm);
    var gone := Choose();
    left := if o.Done? || gone then None else Some(node);
  }

  /** `shutil.rmtree`: each entry in turn, then the directory. */
  method RemoveTree(dir: Node, calm: bool) returns (left: Option<Node>, o: Outcome)
    requires dir.Dir?
    ensures calm ==> o.Done?
    ensures o.Done? ==> left.None?
    ensures left.Some? ==> Remnant(dir, left.value)
    decreases dir, 0
  {
    var entries := dir.entries;
    while entries.Keys != {}
      invariant entries.Keys <= dir.entries.Keys
      invariant forall name :: name in entries ==> entries[name] == dir.entries[name]
      decreases entries.Keys
    {
      var name :| name in entries.Keys;
      var rest;
      rest, o := RemoveNode(dir.entries[name], calm);
      entries := Put(entries, name, rest);
      if !o.Done? {
        left := Some(Dir(dir.ino, entries));
        return;
      }
    }
    o := Attempt(calm);
    var gone := Choose();
    left := if o.Done? || gone then None else Some(Dir(dir.ino, entries));
  }

  /** Copies file data over an existing file: the inode stays, and an
      interruption leaves arbitrary data in it. */
  method CopyInPlace(data: string, ino: nat, calm: bool) returns (after: Node, o: Outcome)
    ensures calm ==> o.Done?
    ensures after.File? && after.ino == ino
    ensures o.Done? ==> after.data == data
  {
    o := Attempt(calm);
    var part: string := *;
    after := File(ino, if o.Done? then data else part);
  }

  method CopyFile(data: string, calm: bool) returns (after: Option<Node>, o: Outcome)
    ensures calm ==> o.Done?
    ensures o.Done? ==> after.Some? && Content(after.value) == FileT(data)
  {
    var made := Choose();
    if !made {
      o := Attempt(calm);
      if !o.Done? {
        return None, o;
      }
    }
    var ino: nat := *;
    var node;
    node, o := CopyInPlace(data, ino, calm);
    after := Some(node);
  }

  /** `_sync_entry`: makes one destination entry equal to a source entry. */
  method SyncEntry(source: Node, before: Option<Node>, calm: bool) returns (after: Option<Node>, o: Outcome)
    ensures calm ==> o.Done?
    ensures o.Done? ==> EntrySynced(source, before, after)
    decreases source, 1
  {
    after := before;
    match source {
      case Link(_, target) =>
        if before.Some? && before.value.Link? && before.value.target == target {
          o := Attempt(calm);
          return;
        }
        after, o := RemovePath(before, calm);
        if !o.Done? {
          return;
        }
        o := Attempt(calm);
        if o.Done? {
          var ino: nat := *;
          after := Some(Link(ino, target));
          o := Attempt(calm);  // its metadata
        }
      case Dir(_, _) =>
        if before.Some? && !before.value.Dir? {
          after, o := RemovePath(before, calm);
          if !o.Done? {
            return;
          }
        }
        if after.None? {
          o := Attempt(calm);
          if !o.Done? {
            return;
          }
          var ino: nat := *;
          after := Some(Dir(ino, map[]));
        }
        var entries;
        var refused;
        entries, o, refused := SyncTree(source, after.value.entries, {}, true, calm);
        after := Some(Dir(after.value.ino, entries));
        if o.Done? {
          assert Unprotected(entries, {}) == entries;
          o := Attempt(calm);  // its metadata
        }
      case File(_, data) =>
        if before.Some? && before.value.File? {
          var node;
          node, o := CopyInPlace(data, before.value.ino, calm);
          after := Some(node);
        } else {
          after, o := RemovePath(before, calm);
          if !o.Done? {
            return;
          }
          after, o := CopyFile(data, calm);
        }
    }
  }

  /** The forest a completed synchronisation shows outside `protected`. */
  function SyncedForest(source: Entries, before: Forest, removeAbsent: bool): Forest {
    if removeAbsent then Contents(source) else before + Contents(source)
  }

  /** `_sync_tree`: exact from any starting point when `removeAbsent`, a
      root-level overlay otherwise; protected names are never touched, whether
      or not the call completes. `refused` is the error of a source that has
      protected names itself. */
  method SyncTree(source: Node, before: Entries, protected: set<string>, removeAbsent: bool, calm: bool)
    returns (after: Entries, o: Outcome, refused: bool)
    requires source.Dir?
    ensures calm && !refused ==> o.Done?
    ensures SameOn(protected, before, after)
    ensures refused <==> !(source.entries.Keys !! protected)
    ensures refused ==> o.Raised? && after == before
    ensures o.Done? ==>
      Visible(after, protected)
        == SyncedForest(source.entries, Visible(before, protected), removeAbsent)
    ensures o.Done? ==>
      forall name :: name in source.entries && name in before && name in after ==>
        KeepsInodes(source.entries[name], before[name], after[name])
    ensures !removeAbsent ==> SameOn(before.Keys - source.entries.Keys, before, after)
    decreases source, 0
  {
    after := before;
    if !(source.entries.Keys !! protected) {
      return before, Raised, true;
    }
    refused := false;
    o := Attempt(calm);  // listing the two directories
    if !o.Done? {
      return;
    }
    var absent := if removeAbsent then before.Keys - source.entries.Keys - protected else {};
    ghost var gone := absent;
    while absent != {}
      invariant absent <= gone
      invariant forall name :: name !in gone ==> Get(after, name) == Get(before, name)
      invariant forall name :: name in gone - absent ==> name !in after
    {
      var name :| name in absent;
      var left;
      left, o := RemovePath(Get(after, name), calm);
      after := Put(after, name, left);
      if !o.Done? {
        return;
      }
      absent := absent - {name};
    }
    var todo := source.entries.Keys;
    while todo != {}
      invariant todo <= source.entries.Keys
      invariant forall name :: name !in source.entries && name !in gone ==> Get(after, name) == Get(before, name)
      invariant forall name :: name in gone ==> name !in after
      invariant forall name :: name in todo ==> Get(after, name) == Get(before, name)
      invariant forall name :: name in source.entries.Keys - todo ==>
        EntrySynced(source.entries[name], Get(before, name), Get(after, name))
    {
      var name :| name in todo;
      var entry;
      entry, o := SyncEntry(source.entries[name], Get(after, name), calm);
      after := Put(after, name, entry);
      if !o.Done? {
        return;
      }
      todo := todo - {name};
    }
    o := Done;
    SyncedVisible(source.entries, before, after, protected, removeAbsent);
    forall name | name in source.entries && name in before && name in after
      ensures KeepsInodes(source.entries[name], before[name], after[name])
    {
      assert EntrySynced(source.entries[name], Get(before, name), Get(after, name));
    }
  }

  lemma SyncedVisible(source: Entries, before: Entries, after: Entries, protected: set<string>, removeAbsent: bool)
    requires source.Keys !! protected
    requires forall name :: name in source ==> name in after && Content(after[name]) == Content(source[name])
    requires forall name :: name !in source && (name in protected || !removeAbsent) ==>
      Get(after, name) == Get(before, name)
    requires removeAbsent ==> forall name :: name !in source && name !in protected ==> name !in after
    ensures Visible(after, protected)
      == SyncedForest(source, Visible(before, protected), removeAbsent)
  {
  }

  /** `_clone_entry`: a copy with fresh inodes. */
  method CloneEntry(source: Node, calm: bool) returns (copy: Option<Node>, o: Outcome)
    ensures calm ==> o.Done?
    ensures o.Done? ==> copy.Some? && Content(copy.value) == Content(source)
    decreases source, 1
  {
    o := Attempt(calm);
    copy := None;
    if !o.Done? {
      return;
    }
    var ino: nat := *;
    match source {
      case Link(_, target) =>
        copy := Some(Link(ino, target));
        o := Attempt(calm);  // its metadata
      case File(_, data) =>
        copy, o := CopyFile(data, calm);
      case Dir(_, _) =>
        var entries;
        entries, o := CloneChildren(source, {}, calm);
        copy := Some(Dir(ino, entries));
        if o.Done? {
          assert Unprotected(source.entries, {}) == source.entries;
          o := Attempt(calm);  // its metadata
        }
    }
  }

  method CloneChildren(source: Node, protected: set<string>, calm: bool) returns (copy: Entries, o: Outcome)
    requires source.Dir?
    ensures calm ==> o.Done?
    ensures copy.Keys !! protected
    ensures o.Done? ==> Contents(copy) == Visible(source.entries, protected)
    decreases source, 0
  {
    copy := map[];
    var todo := source.entries.Keys - protected;
    ghost var names := todo;
    while todo != {}
      invariant todo <= names
      invariant copy.Keys == names - todo
      invariant forall name :: name in copy ==>
        Content(copy[name]) == Content(source.entries[name])
    {
      var name :| name in todo;
      var entry;
      entry, o := CloneEntry(source.entries[name], calm);
      if entry.Some? {
        copy := copy[name := entry.value];
      }
      if !o.Done? {
        return;
      }
      todo := todo - {name};
    }
    o := Done;
  }

}
