/** Pending OP levels: the two-file queue of app/adapters/pending_op_levels.py
    and the transaction of app/op_levels_worker.py that applies it to ops.json. */
module OpLevels {
  import opened Common

  /** A player name together with its lower-case form, which is what requests
      and operators are matched by. */
  datatype Name = Name(text: string, folded: string)

  datatype Item = Item(name: Name, level: int)

  /** One entry of ops.json. `name` is absent when it is not a string; `other`
      stands for every remaining field. */
  datatype OpEntry = OpEntry(name: Option<Name>, level: Option<int>, other: string)

  /** Requests by lower-case player name. */
  type Queue = map<string, Item>

  function ByKey(items: seq<Item>): Queue {
    if items == [] then map[]
    else ByKey(items[..|items| - 1])[items[|items| - 1].name.folded := items[|items| - 1]]
  }

  ghost predicate Keyed(q: Queue) {
    forall key :: key in q ==> q[key].name.folded == key
  }

  ghost predicate Distinct(items: seq<Item>) {
    forall i, j :: 0 <= i < j < |items| ==> items[i].name.folded != items[j].name.folded
  }

  /** No later item is for the same player. */
  ghost predicate LastFor(items: seq<Item>, i: int)
    requires 0 <= i < |items|
  {
    forall j :: i < j < |items| ==> items[j].name.folded != items[i].name.folded
  }

  lemma {:induction false} ByKeyOf(items: seq<Item>, i: nat)
    requires i < |items|
    ensures items[i].name.folded in ByKey(items)
    ensures LastFor(items, i) ==> ByKey(items)[items[i].name.folded] == items[i]
    decreases |items|
  {
    var n := |items| - 1;
    if i < n {
      ByKeyOf(items[..n], i);
      assert items[..n][i] == items[i];
      assert LastFor(items, i) ==> LastFor(items[..n], i) && items[n].name.folded != items[i].name.folded;
    }
  }

  lemma {:induction false} ByKeyFrom(items: seq<Item>, key: string) returns (i: nat)
    requires key in ByKey(items)
    ensures ByKey(items)[key].name.folded == key && i < |items| && items[i].name.folded == key
    decreases |items|
  {
    var n := |items| - 1;
    i := n;
    if items[n].name.folded != key {
      i := ByKeyFrom(items[..n], key);
    }
  }

  /** `{item.name.lower(): item for item in items}`: each player's last item, and no
      other player. */
  lemma ByKeyAt(items: seq<Item>)
    ensures Keyed(ByKey(items))
    ensures forall i :: 0 <= i < |items| ==> items[i].name.folded in ByKey(items)
    ensures forall i :: 0 <= i < |items| && LastFor(items, i) ==> ByKey(items)[items[i].name.folded] == items[i]
    ensures forall key :: key in ByKey(items) ==> exists i :: 0 <= i < |items| && items[i].name.folded == key
  {
    hide ByKey, LastFor;
    forall key | key in ByKey(items)
      ensures ByKey(items)[key].name.folded == key && exists i :: 0 <= i < |items| && items[i].name.folded == key
    {
      var i := ByKeyFrom(items, key);
    }
    forall i | 0 <= i < |items|
      ensures items[i].name.folded in ByKey(items)
      ensures LastFor(items, i) ==> ByKey(items)[items[i].name.folded] == items[i]
    {
      ByKeyOf(items, i);
    }
  }

  lemma {:induction false} ByKeySize(items: seq<Item>)
    requires Distinct(items)
    ensures |ByKey(items)| == |items|
  {
    if items != [] {
      var n := |items| - 1;
      ByKeySize(items[..n]);
      FreshKey(items, n);
    }
  }

  // ---- applying levels to ops.json ----

  predicate Names(e: OpEntry, key: string) {
    e.name.Some? && e.name.value.folded == key
  }

  function ApplyTo(e: OpEntry, q: Queue): OpEntry {
    if e.name.Some? && e.name.value.folded in q
    then e.(level := Some(q[e.name.value.folded].level))
    else e
  }

  function Applied(ops: seq<OpEntry>, q: Queue): seq<OpEntry> {
    seq(|ops|, i requires 0 <= i < |ops| => ApplyTo(ops[i], q))
  }

  predicate Listed(ops: seq<OpEntry>, key: string) {
    exists i :: 0 <= i < |ops| && Names(ops[i], key)
  }

  function Unlisted(ops: seq<OpEntry>, q: Queue): Queue {
    map key | key in q && !Listed(ops, key) :: q[key]
  }

  function Differences(a: seq<OpEntry>, b: seq<OpEntry>): nat
    requires |a| == |b|
  {
    if a == [] then 0
    else Differences(a[..|a| - 1], b[..|b| - 1]) + if a[|a| - 1] != b[|b| - 1] then 1 else 0
  }

  lemma {:induction false} NoDifferences(a: seq<OpEntry>, b: seq<OpEntry>)
    requires |a| == |b|
    ensures Differences(a, b) == 0 <==> a == b
  {
    if a != [] {
      var n := |a| - 1;
      NoDifferences(a[..n], b[..n]);
      assert a == a[..n] + [a[n]] && b == b[..n] + [b[n]];
    }
  }

  /** Entry by entry: a requested player gets the level, and nothing else changes. */
  lemma AppliedIs(ops: seq<OpEntry>, q: Queue, i: nat)
    requires i < |ops|
    ensures var e, was := Applied(ops, q)[i], ops[i];
      && |Applied(ops, q)| == |ops| && e.name == was.name && e.other == was.other
      && forall key :: Names(was, key) ==> e.level == if key in q then Some(q[key].level) else was.level
    ensures ops[i].name.None? ==> Applied(ops, q)[i] == ops[i]
  {
  }

  /** The changes are counted once each. */
  lemma {:induction false} DifferencesCount(a: seq<OpEntry>, b: seq<OpEntry>)
    requires |a| == |b|
    ensures Differences(a, b) == |set i | 0 <= i < |a| && a[i] != b[i]|
  {
    if a != [] {
      var n := |a| - 1;
      DifferencesCount(a[..n], b[..n]);
      var before := set i | 0 <= i < n && a[..n][i] != b[..n][i];
      var here: set<int> := if a[n] != b[n] then {n} else {};
      assert (set i | 0 <= i < |a| && a[i] != b[i]) == before + here;
    }
  }

  lemma AppliedTwice(ops: seq<OpEntry>, q: Queue)
    ensures Applied(Applied(ops, q), q) == Applied(ops, q)
    ensures Unlisted(Applied(ops, q), q) == Unlisted(ops, q)
  {
    var once := Applied(ops, q);
    assert forall i :: 0 <= i < |ops| ==> once[i].name == ops[i].name;
    forall key | key in q ensures Listed(once, key) == Listed(ops, key) {
      if i :| 0 <= i < |ops| && Names(ops[i], key) {
        assert Names(once[i], key);
      }
      if i :| 0 <= i < |once| && Names(once[i], key) {
        assert Names(ops[i], key);
      }
    }
  }

  /** The requested players that some entry names. */
  function Matches(ops: seq<OpEntry>, q: Queue): set<string> {
    if ops == [] then {}
    else
      var n := |ops| - 1;
      var here := if ops[n].name.Some? && ops[n].name.value.folded in q then {ops[n].name.value.folded} else {};
      Matches(ops[..n], q) + here
  }

  lemma {:induction false} MatchesAreListed(ops: seq<OpEntry>, q: Queue)
    ensures forall key :: key in Matches(ops, q) <==> key in q && Listed(ops, key)
  {
    if ops != [] {
      var n := |ops| - 1;
      MatchesAreListed(ops[..n], q);
      assert ops == ops[..n] + [ops[n]];
      ListedStep(ops[..n], ops[n]);
    }
  }

  /** `_apply_requested_levels`: edits the entries in place, counts the changes
      and returns the requests no entry matches. Of several requests for one player
      the last one counts. */
  method ApplyRequestedLevels(entries: array<OpEntry>, requested: seq<Item>)
    returns (changed: nat, unresolved: seq<Item>)
    modifies entries
    ensures entries[..] == Applied(old(entries[..]), ByKey(requested))
    ensures changed == Differences(old(entries[..]), entries[..])
    ensures Distinct(unresolved)
    ensures ByKey(unresolved) == Unlisted(old(entries[..]), ByKey(requested))
  {
    var byName := ByKey(requested);
    ghost var was := entries[..];
    var matched;
    changed, matched := EditEntries(entries, byName);
    UnlistedAre(was, byName);
    ByKeyAt(requested);
    unresolved := ListItems(byName - matched);
  }

  method EditEntries(entries: array<OpEntry>, byName: Queue) returns (changed: nat, matched: set<string>)
    modifies entries
    ensures entries[..] == Applied(old(entries[..]), byName)
    ensures changed == Differences(old(entries[..]), entries[..])
    ensures matched == Matches(old(entries[..]), byName)
  {
    hide Differences, Matches, Applied;
    changed, matched := 0, {};
    StepNone(entries[..], byName);
    ghost var was := entries[..];
    ghost var goal := Applied(was, byName);
    for n := 0 to entries.Length
      invariant forall i :: n <= i < entries.Length ==> entries[i] == was[i]
      invariant forall i :: 0 <= i < n ==> entries[i] == goal[i]
      invariant changed == Differences(was[..n], goal[..n])
      invariant matched == Matches(was[..n], byName)
    {
      var entry := entries[n];
      StepAt(was, goal, byName, n);
      if entry.name.Some? && entry.name.value.folded in byName {
        var key := entry.name.value.folded;
        matched := matched + {key};
        if entry.level != Some(byName[key].level) {
          entries[n] := entry.(level := Some(byName[key].level));
          changed := changed + 1;
        }
      }
    }
    assert was[..entries.Length] == was && goal[..entries.Length] == goal;
    assert entries[..] == goal;
  }

  lemma StepAt(was: seq<OpEntry>, goal: seq<OpEntry>, q: Queue, n: nat)
    requires n < |was| && goal == Applied(was, q)
    ensures |goal| == |was| && goal[n] == ApplyTo(was[n], q)
    ensures Differences(was[..n + 1], goal[..n + 1])
      == Differences(was[..n], goal[..n]) + if was[n] != goal[n] then 1 else 0
    ensures Matches(was[..n + 1], q) == Matches(was[..n], q)
      + if was[n].name.Some? && was[n].name.value.folded in q then {was[n].name.value.folded} else {}
  {
    assert was[..n + 1][..n] == was[..n] && goal[..n + 1][..n] == goal[..n];
  }

  lemma StepNone(was: seq<OpEntry>, q: Queue)
    ensures |Applied(was, q)| == |was| && Differences([], []) == 0 && Matches([], q) == {}
  {
  }

  lemma UnlistedAre(ops: seq<OpEntry>, q: Queue)
    ensures q - Matches(ops, q) == Unlisted(ops, q)
  {
    MatchesAreListed(ops, q);
  }

  lemma FreshKey(items: seq<Item>, n: nat)
    requires Distinct(items) && n < |items|
    ensures Distinct(items[..n]) && items[n].name.folded !in ByKey(items[..n])
  {
    ByKeyAt(items[..n]);
  }

  lemma Snoc(items: seq<Item>, item: Item)
    requires Distinct(items) && item.name.folded !in ByKey(items)
    ensures Distinct(items + [item])
    ensures ByKey(items + [item]) == ByKey(items)[item.name.folded := item]
  {
    ByKeyAt(items);
    assert (items + [item])[..|items|] == items;
  }

  lemma ListedStep(ops: seq<OpEntry>, e: OpEntry)
    ensures forall key :: Listed(ops + [e], key) <==> Listed(ops, key) || Names(e, key)
  {
    var longer := ops + [e];
    forall key ensures Listed(longer, key) <==> Listed(ops, key) || Names(e, key) {
      if Listed(ops, key) {
        var i :| 0 <= i < |ops| && Names(ops[i], key);
        assert Names(longer[i], key);
      }
      if Names(e, key) {
        assert Names(longer[|ops|], key);
      }
      if Listed(longer, key) {
        var i :| 0 <= i < |longer| && Names(longer[i], key);
        assert i < |ops| ==> Names(ops[i], key);
      }
    }
  }

  // ---- dictionaries ----

  /** Each player's first item. */
  function FirstByKey(items: seq<Item>): Queue {
    if items == [] then map[]
    else
      var n := |items| - 1;
      map[items[n].name.folded := items[n]] + FirstByKey(items[..n])
  }

  lemma {:induction false} FirstIsOnly(items: seq<Item>)
    requires Distinct(items)
    ensures FirstByKey(items) == ByKey(items)
  {
    if items != [] {
      var n := |items| - 1;
      FirstIsOnly(items[..n]);
      FreshKey(items, n);
    }
  }

  /** `queue.setdefault(key, item)` for each item. */
  method SetDefaults(queue: Queue, items: seq<Item>) returns (r: Queue)
    ensures r == FirstByKey(items) + queue
  {
    hide FirstByKey;
    r := queue;
    NoneFirst();
    SelfMerge(queue);
    for n := 0 to |items|
      invariant r == FirstByKey(items[..n]) + queue
    {
      FirstStep(items, n, queue);
      if items[n].name.folded !in r {
        r := r[items[n].name.folded := items[n]];
      }
    }
    assert items[..|items|] == items;
  }

  lemma NoneFirst()
    ensures FirstByKey([]) == map[]
  {
  }

  lemma FirstStep(items: seq<Item>, n: nat, queue: Queue)
    requires n < |items|
    ensures var r, key := FirstByKey(items[..n]) + queue, items[n].name.folded;
      FirstByKey(items[..n + 1]) + queue == if key in r then r else r[key := items[n]]
  {
    assert items[..n + 1][..n] == items[..n];
    assert items[..n + 1][n] == items[n];
  }

  /** `queue[key] = item` for each item. */
  method Overwrite(queue: Queue, items: seq<Item>) returns (r: Queue)
    ensures r == queue + ByKey(items)
  {
    r := queue;
    for n := 0 to |items|
      invariant r == queue + ByKey(items[..n])
    {
      assert items[..n + 1][..n] == items[..n];
      PutLast(queue, ByKey(items[..n]), items[n].name.folded, items[n]);
      r := r[items[n].name.folded := items[n]];
    }
    assert items[..|items|] == items;
  }

  /** The values of a dictionary as a list. */
  method ListItems(queue: Queue) returns (items: seq<Item>)
    requires Keyed(queue)
    ensures Distinct(items) && ByKey(items) == queue
  {
    items := [];
    var todo := queue.Keys;
    while todo != {}
      invariant todo <= queue.Keys && Distinct(items)
      invariant ByKey(items) == queue - todo
    {
      var key :| key in todo;
      Snoc(items, queue[key]);
      items := items + [queue[key]];
      todo := todo - {key};
    }
  }

  lemma PutLast(q: Queue, pending: Queue, key: string, item: Item)
    ensures q + pending[key := item] == (q + pending)[key := item]
  {
  }

  lemma MergeTwice(applying: Queue, pending: Queue)
    ensures applying + map[] + pending == applying + pending
    ensures (applying + pending) + map[] + pending == applying + pending
    ensures (applying + pending) + map[] + map[] == applying + pending
  {
  }

  lemma UnlistedKeys(ops: seq<OpEntry>, q: Queue)
    ensures Unlisted(ops, q).Keys <= q.Keys
  {
  }

  lemma RequeueLaws(applying: Queue, claimed: Queue, unresolved: Queue, pending: Queue)
    requires Keyed(applying) && Keyed(claimed) && Keyed(pending)
    requires unresolved.Keys <= claimed.Keys
    ensures var q := applying + claimed + pending;
      && Keyed(q) && Keyed(map[])
      && applying + claimed + q == q && map[] + claimed + q == q && unresolved + q == q
  {
    var q := applying + claimed + pending;
    Absorb(applying + claimed, q);
    Absorb(map[] + claimed, q);
    Absorb(unresolved, q);
  }

  lemma SelfMerge(q: Queue)
    ensures q + q == q == q + map[] == map[] + q
  {
  }

  lemma Absorb(a: Queue, b: Queue)
    requires a.Keys <= b.Keys
    ensures a + b == b
  {
  }
}
