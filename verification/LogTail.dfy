/** The tail of the server log across rotated archives (app/adapters/log_file.py). */
module LogTail {
  import opened Common

  type Test = string -> bool

  const MAX_ARCHIVES := 7
  const CACHED_LINES := 500

  // ---- the simple form ----

  function Filter(lines: seq<string>, keep: Test): seq<string> {
    if lines == [] then []
    else
      var n := |lines| - 1;
      Filter(lines[..n], keep) + if keep(lines[n]) then [lines[n]] else []
  }

  function Last(lines: seq<string>, n: int): seq<string>
    requires 0 <= n
  {
    if |lines| <= n then lines else lines[|lines| - n..]
  }

  /** The index of the last boot line, or -1. */
  function LastBoot(lines: seq<string>, boot: Test): (r: int)
    ensures -1 <= r < |lines|
    ensures 0 <= r ==> boot(lines[r])
    ensures forall i :: r < i < |lines| ==> !boot(lines[i])
  {
    if lines == [] then -1
    else if boot(lines[|lines| - 1]) then |lines| - 1
    else
      LastBoot(lines[..|lines| - 1], boot)
  }

  /** From the last boot line on, or everything when there is none. */
  function SinceBoot(lines: seq<string>, boot: Test): seq<string> {
    var cut := LastBoot(lines, boot);
    if cut < 0 then lines else lines[cut..]
  }

  /** What one archive holds; `None` when it cannot be read. */
  datatype Archive = Archive(path: string, mtime: real)

  type Disk = Archive -> Option<seq<string>>

  function Kept(disk: Disk, archive: Archive, keep: Test): seq<string> {
    match disk(archive)
    case Some(lines) => Filter(lines, keep)
    case None => []
  }

  /** The archives' useful lines in time order; the list is newest first, and
      `cap` bounds what is taken from each. */
  function Joined(disk: Disk, archives: seq<Archive>, keep: Test, cap: Option<nat>): seq<string> {
    if archives == [] then []
    else
      var lines := Kept(disk, archives[0], keep);
      Joined(disk, archives[1..], keep, cap) + if cap.Some? then Last(lines, cap.value) else lines
  }

  /** Puts an archive after all that are as new or newer: a stable sort. */
  function InsertOlder(sorted: seq<Archive>, x: Archive): (r: seq<Archive>)
    ensures multiset(r) == multiset(sorted) + multiset{x}
  {
    if sorted == [] then [x]
    else
      var n := |sorted| - 1;
      assert sorted == sorted[..n] + [sorted[n]];
      if sorted[n].mtime >= x.mtime then sorted + [x] else InsertOlder(sorted[..n], x) + [sorted[n]]
  }

  /** The listing, newest first. */
  function NewestFirst(listing: seq<Archive>): (r: seq<Archive>)
    ensures multiset(r) == multiset(listing)
  {
    if listing == [] then []
    else
      assert listing == listing[..|listing| - 1] + [listing[|listing| - 1]];
      InsertOlder(NewestFirst(listing[..|listing| - 1]), listing[|listing| - 1])
  }

  /** `_archives_newest_first`. */
  function Newest(listing: seq<Archive>): seq<Archive> {
    var sorted := NewestFirst(listing);
    if |sorted| <= MAX_ARCHIVES then sorted else sorted[..MAX_ARCHIVES]
  }

  ghost predicate Descending(archives: seq<Archive>) {
    forall i, j :: 0 <= i < j < |archives| ==> archives[i].mtime >= archives[j].mtime
  }

  lemma {:induction false} InsertHas(sorted: seq<Archive>, x: Archive)
    ensures forall y :: y in InsertOlder(sorted, x) ==> y in sorted || y == x
  {
    if sorted != [] && sorted[|sorted| - 1].mtime < x.mtime {
      InsertHas(sorted[..|sorted| - 1], x);
    }
  }

  lemma DescendingSnoc(archives: seq<Archive>, x: Archive)
    requires Descending(archives) && forall y :: y in archives ==> y.mtime >= x.mtime
    ensures Descending(archives + [x])
  {
    assert forall i :: 0 <= i < |archives| ==> archives[i] in archives;
  }

  lemma {:induction false} InsertDescends(sorted: seq<Archive>, x: Archive)
    requires Descending(sorted)
    ensures Descending(InsertOlder(sorted, x))
  {
    if sorted != [] {
      var n := |sorted| - 1;
      if sorted[n].mtime < x.mtime {
        InsertDescends(sorted[..n], x);
        InsertHas(sorted[..n], x);
        DescendingSnoc(InsertOlder(sorted[..n], x), sorted[n]);
      } else {
        DescendingSnoc(sorted, x);
      }
    }
  }

  lemma {:induction false} NewestFirstDescends(listing: seq<Archive>)
    ensures Descending(NewestFirst(listing))
  {
    if listing != [] {
      NewestFirstDescends(listing[..|listing| - 1]);
      InsertDescends(NewestFirst(listing[..|listing| - 1]), listing[|listing| - 1]);
    }
  }

  /** The archives consulted are at most seven, in descending time, and none that is
      left out is newer than one of them. */
  lemma NewestAreNewest(listing: seq<Archive>)
    ensures var r := Newest(listing);
      && |r| == (if |listing| <= 7 then |listing| else 7) && Descending(r) && multiset(r) <= multiset(listing)
      && forall a, b :: a in r && b in multiset(listing) - multiset(r) ==> b.mtime <= a.mtime
  {
    hide NewestFirst, Descending;
    var sorted, r := NewestFirst(listing), Newest(listing);
    NewestFirstDescends(listing);
    SameSize(sorted, listing);
    TopDominates(sorted, |r|);
    assert sorted == r + sorted[|r|..];
    RestIs(listing, r, sorted[|r|..]);
  }

  lemma TopDominates(sorted: seq<Archive>, k: nat)
    requires Descending(sorted) && k <= |sorted|
    ensures Descending(sorted[..k])
    ensures forall a, b :: a in sorted[..k] && b in sorted[k..] ==> b.mtime <= a.mtime
  {
    forall a, b | a in sorted[..k] && b in sorted[k..] ensures b.mtime <= a.mtime {
      var i :| 0 <= i < k && sorted[..k][i] == a;
      var j :| 0 <= j < |sorted| - k && sorted[k..][j] == b;
      assert sorted[i] == a && sorted[k + j] == b;
    }
  }

  lemma SameSize(a: seq<Archive>, b: seq<Archive>)
    requires multiset(a) == multiset(b)
    ensures |a| == |b|
  {
    assert |multiset(a)| == |a| && |multiset(b)| == |b|;
  }

  lemma RestIs(all: seq<Archive>, first: seq<Archive>, rest: seq<Archive>)
    requires multiset(all) == multiset(first + rest)
    ensures multiset(first) <= multiset(all)
    ensures forall x :: x in multiset(all) - multiset(first) ==> x in rest
  {
    assert multiset(first + rest) == multiset(first) + multiset(rest);
    assert multiset(all) - multiset(first) == multiset(rest);
  }

  function Useful(latest: Option<seq<string>>, keep: Test): seq<string> {
    if latest.Some? then Filter(latest.value, keep) else []
  }

  /** The promise: the last `n` lines since the last boot, over everything. */
  function Recent(disk: Disk, listing: seq<Archive>, latest: Option<seq<string>>, keep: Test, boot: Test,
                  cap: Option<nat>, n: int): seq<string> {
    if n <= 0 then []
    else Last(SinceBoot(Joined(disk, Newest(listing), keep, cap) + Useful(latest, keep), boot), n)
  }

  // ---- laws ----

  lemma FilterSnoc(lines: seq<string>, line: string, keep: Test)
    ensures Filter(lines + [line], keep) == Filter(lines, keep) + if keep(line) then [line] else []
  {
    assert (lines + [line])[..|lines|] == lines;
  }

  /** Filtering is line by line, and keeps exactly the useful lines in order. */
  lemma FilterOne(line: string, keep: Test)
    ensures Filter([line], keep) == if keep(line) then [line] else []
  {
    FilterSnoc([], line, keep);
    assert [] + [line] == [line];
  }

  lemma {:induction false} FilterJoins(a: seq<string>, b: seq<string>, keep: Test)
    ensures Filter(a + b, keep) == Filter(a, keep) + Filter(b, keep)
    decreases |b|
  {
    hide Filter;
    if b == [] {
      FilterNone(keep);
      assert a + b == a;
    } else {
      var n := |b| - 1;
      FilterJoins(a, b[..n], keep);
      FilterSnoc(a + b[..n], b[n], keep);
      FilterSnoc(b[..n], b[n], keep);
      assert b == b[..n] + [b[n]] && a + b == a + b[..n] + [b[n]];
    }
  }

  lemma FilterNone(keep: Test)
    ensures Filter([], keep) == []
  {
  }

  /** The last lines are a suffix, as long as asked for or as there is. */
  lemma LastIsSuffix(lines: seq<string>, n: nat)
    ensures |Last(lines, n)| == if |lines| <= n then |lines| else n
    ensures exists first :: lines == first + Last(lines, n)
  {
    var first := lines[..|lines| - |Last(lines, n)|];
    assert lines == first + Last(lines, n);
  }

  /** Archives are joined in time order: what is later in the list comes first. */
  lemma {:induction false} JoinedJoins(disk: Disk, a: seq<Archive>, b: seq<Archive>, keep: Test)
    ensures Joined(disk, a + b, keep, None) == Joined(disk, b, keep, None) + Joined(disk, a, keep, None)
  {
    hide Joined, Kept;
    if a == [] {
      JoinedNothing(disk, keep);
      assert a + b == b && Joined(disk, b, keep, None) + [] == Joined(disk, b, keep, None);
    } else {
      JoinedJoins(disk, a[1..], b, keep);
      JoinedFirst(disk, a, keep);
      JoinedFirst(disk, a + b, keep);
      assert (a + b)[1..] == a[1..] + b && (a + b)[0] == a[0];
    }
  }

  lemma JoinedNothing(disk: Disk, keep: Test)
    ensures Joined(disk, [], keep, None) == []
  {
  }

  lemma JoinedFirst(disk: Disk, archives: seq<Archive>, keep: Test)
    requires archives != []
    ensures Joined(disk, archives, keep, None)
      == Joined(disk, archives[1..], keep, None) + Kept(disk, archives[0], keep)
  {
  }

  lemma JoinedCapped(disk: Disk, archives: seq<Archive>, keep: Test, cap: nat)
    requires archives != []
    ensures Joined(disk, archives, keep, Some(cap))
      == Joined(disk, archives[1..], keep, Some(cap)) + Last(Kept(disk, archives[0], keep), cap)
  {
  }

  lemma JoinedOne(disk: Disk, archive: Archive, keep: Test)
    ensures Joined(disk, [archive], keep, None)
      == if disk(archive).Some? then Filter(disk(archive).value, keep) else []
  {
    hide Filter;
    assert [archive][1..] == [];
  }

  lemma BootIsUnique(lines: seq<string>, boot: Test, cut: int)
    requires -1 <= cut < |lines|
    requires 0 <= cut ==> boot(lines[cut])
    requires forall i :: cut < i < |lines| ==> !boot(lines[i])
    ensures LastBoot(lines, boot) == cut
  {
  }

  lemma LastOfNone(n: int)
    requires 0 <= n
    ensures Last([], n) == []
  {
  }

  lemma LastCovered(older: seq<string>, newer: seq<string>, n: int)
    requires 0 <= n <= |newer|
    ensures Last(older + newer, n) == Last(newer, n)
  {
  }

  lemma LastSplits(older: seq<string>, newer: seq<string>, n: int)
    requires |newer| <= n
    ensures Last(older + newer, n) == Last(older, n - |newer|) + newer
  {
  }

  /** Only the end of a prefix matters to the last lines of the whole. */
  lemma LastOfPrefix(older: seq<string>, newer: seq<string>, m: int, n: int)
    requires 0 <= n <= m
    ensures Last(Last(older, m) + newer, n) == Last(older + newer, n)
  {
    if m < |older| {
      var first, tail := older[..|older| - m], Last(older, m);
      assert older + newer == first + (tail + newer);
      LastCovered(first, tail + newer, n);
    }
  }

  lemma BootOfSuffix(older: seq<string>, newer: seq<string>, boot: Test)
    ensures LastBoot(newer, boot) >= 0 ==> SinceBoot(older + newer, boot) == SinceBoot(newer, boot)
    ensures LastBoot(newer, boot) < 0 ==> SinceBoot(older + newer, boot) == SinceBoot(older, boot) + newer
  {
    hide LastBoot;
    var all, cut := older + newer, LastBoot(newer, boot);
    var where := if 0 <= cut then |older| + cut else LastBoot(older, boot);
    forall i | where < i < |all| ensures !boot(all[i]) {
      if |older| <= i {
        assert all[i] == newer[i - |older|];
      } else {
        assert all[i] == older[i];
      }
    }
    BootIsUnique(all, boot, where);
    if 0 <= cut {
      assert all[where..] == newer[cut..];
    } else if 0 <= where {
      assert all[where..] == older[where..] + newer;
    }
  }

  /** Cutting at the boot and keeping the last `n` lines can be swapped. */
  lemma SwapCuts(lines: seq<string>, boot: Test, n: int)
    requires 0 <= n
    ensures Last(SinceBoot(lines, boot), n) == SinceBoot(Last(lines, n), boot)
  {
    if n < |lines| {
      var first, tail := lines[..|lines| - n], Last(lines, n);
      assert lines == first + tail;
      BootOfSuffix(first, tail, boot);
      if LastBoot(tail, boot) < 0 {
        LastCovered(SinceBoot(first, boot), tail, n);
      }
    }
  }

  lemma CapMiddle(older: seq<string>, lines: seq<string>, newer: seq<string>, cap: int, n: int)
    requires 0 <= n <= cap
    ensures Last(older + (Last(lines, cap) + newer), n) == Last(older + (lines + newer), n)
  {
    if cap < |lines| {
      LastCovered(older, Last(lines, cap) + newer, n);
      LastCovered(older, lines + newer, n);
      LastOfPrefix(lines, newer, cap, n);
    }
  }

  /** Capping each archive at `cap` lines is invisible to a request for at most `cap`. */
  lemma {:induction false} CapIsInvisible(
    disk: Disk, archives: seq<Archive>, keep: Test, newer: seq<string>, cap: nat, n: int)
    requires 0 <= n <= cap
    ensures Last(Joined(disk, archives, keep, Some(cap)) + newer, n)
      == Last(Joined(disk, archives, keep, None) + newer, n)
    decreases |archives|
  {
    hide Last, Kept, Joined;
    if archives == [] {
      JoinedNone(disk, archives, keep, cap);
      JoinedNothing(disk, keep);
    } else {
      var lines := Kept(disk, archives[0], keep);
      var capped, whole := Joined(disk, archives[1..], keep, Some(cap)), Joined(disk, archives[1..], keep, None);
      JoinedCapped(disk, archives, keep, cap);
      JoinedFirst(disk, archives, keep);
      calc {
        Last(Joined(disk, archives, keep, Some(cap)) + newer, n);
        { assert capped + Last(lines, cap) + newer == capped + (Last(lines, cap) + newer); }
        Last(capped + (Last(lines, cap) + newer), n);
        { CapMiddle(capped, lines, newer, cap, n); }
        Last(capped + (lines + newer), n);
        { CapIsInvisible(disk, archives[1..], keep, lines + newer, cap, n); }
        Last(whole + (lines + newer), n);
        { assert whole + lines + newer == whole + (lines + newer); }
        Last(Joined(disk, archives, keep, None) + newer, n);
      }
    }
  }

  lemma CapKeepsRecent(disk: Disk, archives: seq<Archive>, latest: Option<seq<string>>, keep: Test, boot: Test, n: int)
    requires n <= CACHED_LINES
    ensures Recent(disk, archives, latest, keep, boot, Some(CACHED_LINES), n)
      == Recent(disk, archives, latest, keep, boot, None, n)
  {
    if 0 < n {
      var newer := Useful(latest, keep);
      SwapCuts(Joined(disk, Newest(archives), keep, Some(CACHED_LINES)) + newer, boot, n);
      SwapCuts(Joined(disk, Newest(archives), keep, None) + newer, boot, n);
      CapIsInvisible(disk, Newest(archives), keep, newer, CACHED_LINES, n);
    }
  }

  function Anything(line: string): bool { true }

  function Nothing(line: string): bool { false }

  function LongArchive(archive: Archive): Option<seq<string>> {
    Some(seq(CACHED_LINES + 1, _ => ""))
  }

  /** A request that outgrows the cache is served short: one archive of 501
      lines, asked for all of them. */
  lemma CapShortensLargeRequests(n: int)
    requires CACHED_LINES < n
    ensures Recent(LongArchive, [Archive("", 0.0)], None, Anything, Nothing, Some(CACHED_LINES), n)
      != Recent(LongArchive, [Archive("", 0.0)], None, Anything, Nothing, None, n)
  {
    var archives := [Archive("", 0.0)];
    var lines := Kept(LongArchive, archives[0], Anything);
    KeepAll(LongArchive(archives[0]).value);
    assert archives[1..] == [] && archives[..0] == [] && NewestFirst([]) == [];
    assert NewestFirst(archives) == archives && Newest(archives) == archives;
    var capped := Joined(LongArchive, archives, Anything, Some(CACHED_LINES)) + [];
    var whole := Joined(LongArchive, archives, Anything, None) + [];
    BootIsUnique(capped, Nothing, -1);
    BootIsUnique(whole, Nothing, -1);
    assert |capped| == CACHED_LINES && |whole| == CACHED_LINES + 1;
  }

  lemma {:induction false} KeepAll(lines: seq<string>)
    ensures Filter(lines, Anything) == lines
  {
    if lines != [] {
      var n := |lines| - 1;
      KeepAll(lines[..n]);
      assert Anything(lines[n]) && Filter(lines, Anything) == lines[..n] + [lines[n]];
    }
  }

  /** Whatever the logs, a request for `n` lines does not notice the cap. */
  ghost predicate CapHarmless(n: int) {
    forall disk: Disk, archives, latest, keep: Test, boot: Test
      {:trigger Recent(disk, archives, latest, keep, boot, Some(CACHED_LINES), n)} ::
      Recent(disk, archives, latest, keep, boot, Some(CACHED_LINES), n)
        == Recent(disk, archives, latest, keep, boot, None, n)
  }

  lemma CapHarmlessUpTo500(n: int)
    ensures CapHarmless(n) <==> n <= 500
  {
    hide Recent;
    if n <= CACHED_LINES {
      forall disk: Disk, archives, latest, keep: Test, boot: Test
        ensures Recent(disk, archives, latest, keep, boot, Some(CACHED_LINES), n)
          == Recent(disk, archives, latest, keep, boot, None, n)
      {
        CapKeepsRecent(disk, archives, latest, keep, boot, n);
      }
    } else {
      CapShortensLargeRequests(n);
    }
  }

  // ---- the scanning form ----

  /** `deque(..., maxlen)` over the lines that pass the filter. */
  method ReadTail(lines: seq<string>, keep: Test, max: nat) returns (tail: seq<string>)
    requires 0 < max
    ensures tail == Last(Filter(lines, keep), max)
  {
    hide Last;
    LastOfNone(max);
    tail := [];
    for n := 0 to |lines|
      invariant tail == Last(Filter(lines[..n], keep), max)
    {
      assert lines[..n + 1][..n] == lines[..n];
      if keep(lines[n]) {
        LastSnoc(Filter(lines[..n], keep), lines[n], max);
        tail := tail + [lines[n]];
        if |tail| > max {
          tail := tail[1..];
        }
      } else {
        assert Filter(lines[..n], keep) + [] == Filter(lines[..n], keep);
      }
    }
    assert lines[..|lines|] == lines;
  }

  lemma LastSnoc(lines: seq<string>, line: string, max: int)
    requires 0 < max
    ensures Last(lines + [line], max) ==
      var longer := Last(lines, max) + [line]; if |longer| > max then longer[1..] else longer
  {
  }

  /** `_last_boot_index`: scans backwards. */
  method LastBootIndex(lines: seq<string>, boot: Test) returns (cut: int)
    ensures cut == LastBoot(lines, boot)
  {
    cut := |lines| - 1;
    while 0 <= cut
      invariant -1 <= cut < |lines|
      invariant forall i :: cut < i < |lines| ==> !boot(lines[i])
    {
      if boot(lines[cut]) {
        break;
      }
      cut := cut - 1;
    }
    BootIsUnique(lines, boot, cut);
  }

  lemma JoinedAt(disk: Disk, archives: seq<Archive>, keep: Test, cap: nat, i: nat, newer: seq<string>)
    requires i < |archives|
    ensures Joined(disk, archives[i..], keep, Some(cap)) + newer
      == Joined(disk, archives[i + 1..], keep, Some(cap)) + (Last(Kept(disk, archives[i], keep), cap) + newer)
  {
    assert archives[i..][1..] == archives[i + 1..];
  }

  lemma JoinedNone(disk: Disk, archives: seq<Archive>, keep: Test, cap: nat)
    requires archives == []
    ensures Joined(disk, archives, keep, Some(cap)) == []
  {
  }

  lemma Enough(older: seq<string>, seen: seq<string>, boot: Test, wanted: nat)
    requires LastBoot(seen, boot) < 0 && |Last(seen, wanted)| >= wanted
    ensures Last(SinceBoot(older + seen, boot), wanted) == Last(seen, wanted)
  {
    BootOfSuffix(older, seen, boot);
    LastCovered(SinceBoot(older, boot), seen, wanted);
  }

  lemma ShortLast(lines: seq<string>, n: nat)
    ensures |Last(lines, n)| < n ==> |lines| < n && Last(lines, n) == lines
  {
  }

  lemma FoundBoot(older: seq<string>, archived: seq<string>, seen: seq<string>, boot: Test, wanted: nat)
    requires LastBoot(seen, boot) < 0 && 0 <= LastBoot(archived, boot) && |Last(seen, wanted)| < wanted
    ensures Last(SinceBoot(older + (archived + seen), boot), wanted)
      == Last(archived[LastBoot(archived, boot)..], wanted - |Last(seen, wanted)|) + Last(seen, wanted)
  {
    hide LastBoot, Last;
    ShortLast(seen, wanted);
    assert older + (archived + seen) == (older + archived) + seen;
    BootOfSuffix(older + archived, seen, boot);
    BootOfSuffix(older, archived, boot);
    LastSplits(archived[LastBoot(archived, boot)..], seen, wanted);
  }

  lemma NoBootYet(archived: seq<string>, seen: seq<string>, boot: Test, wanted: nat)
    requires LastBoot(seen, boot) < 0 && LastBoot(archived, boot) < 0 && |Last(seen, wanted)| < wanted
    ensures LastBoot(archived + seen, boot) < 0
    ensures var take := Last(archived, wanted - |Last(seen, wanted)|);
      Last(archived + seen, wanted) == take + Last(seen, wanted)
  {
    BootIsUnique(archived + seen, boot, -1);
    LastSplits(archived, seen, wanted);
  }

  lemma Exhausted(seen: seq<string>, boot: Test, wanted: nat)
    requires LastBoot(seen, boot) < 0
    ensures Last(SinceBoot([] + seen, boot), wanted) == Last(seen, wanted)
  {
    assert [] + seen == seen;
  }

  /** How the end of the current log decides: a boot in it, enough lines in it,
      or the rest from the archives. */
  lemma Current(older: seq<string>, newer: seq<string>, boot: Test, n: nat)
    requires 0 < n
    ensures var current := Last(newer, n); var cut := LastBoot(current, boot);
      Last(SinceBoot(older + newer, boot), n) ==
        if 0 <= cut then current[cut..]
        else if n <= |current| then current
        else Last(SinceBoot(older, boot), n - |current|) + current
  {
    var current := Last(newer, n);
    SwapCuts(older + newer, boot, n);
    if n <= |newer| {
      LastCovered(older, newer, n);
    } else {
      BootOfSuffix(older, newer, boot);
      if LastBoot(newer, boot) < 0 {
        LastSplits(SinceBoot(older, boot), newer, n);
      }
    }
  }

  class FileLog {
    const keep: Test
    const boot: Test
    var cache: map<string, (real, seq<string>)>
    // What each version of an archive holds: archives are never rewritten.
    const disk: Disk

    /** The cache holds nothing but what reading again would give. */
    ghost predicate Valid()
      reads this
    {
      forall path :: path in cache ==>
        && disk(Archive(path, cache[path].0)).Some?
        && cache[path].1 == Last(Kept(disk, Archive(path, cache[path].0), keep), CACHED_LINES)
    }

    constructor (keep: Test, boot: Test, disk: Disk)
      ensures Valid() && this.keep == keep && this.boot == boot && this.disk == disk
    {
      this.keep, this.boot, this.disk, cache := keep, boot, disk, map[];
    }

    /** `_archive_lines`: the same with a cache as without. */
    method ArchiveLines(archive: Archive) returns (lines: seq<string>)
      requires Valid()
      modifies this`cache
      ensures Valid()
      ensures lines == Last(Kept(disk, archive, keep), CACHED_LINES)
    {
      if archive.path in cache && cache[archive.path].0 == archive.mtime {
        return cache[archive.path].1;
      }
      var content := disk(archive);
      if content.None? {
        return [];
      }
      lines := ReadTail(content.value, keep, CACHED_LINES);
      cache := cache[archive.path := (archive.mtime, lines)];
    }

    /** `_backfill_from_archives`: from the newest archive back, until the last
        boot or until nothing is missing. */
    method Backfill(archives: seq<Archive>, wanted: nat) returns (prefix: seq<string>)
      requires Valid() && 0 < wanted
      modifies this`cache
      ensures Valid()
      ensures prefix == Last(SinceBoot(Joined(disk, archives, keep, Some(CACHED_LINES)), boot), wanted)
    {
      hide Last, Kept, SinceBoot, Joined, LastBoot;
      prefix := [];
      LastOfNone(wanted);
      var missing := wanted;
      ghost var seen: seq<string> := [];
      ghost var older := Joined(disk, archives, keep, Some(CACHED_LINES));
      ghost var all := older;
      assert archives[0..] == archives && older + seen == older;
      BootIsUnique(seen, boot, -1);
      for i := 0 to |archives|
        invariant Valid()
        invariant older == Joined(disk, archives[i..], keep, Some(CACHED_LINES)) && all == older + seen
        invariant LastBoot(seen, boot) < 0
        invariant prefix == Last(seen, wanted) && missing == wanted - |prefix|
      {
        if missing <= 0 {
          Enough(older, seen, boot, wanted);
          return;
        }
        var archived := ArchiveLines(archives[i]);
        var cut := LastBootIndex(archived, boot);
        JoinedAt(disk, archives, keep, CACHED_LINES, i, seen);
        older := Joined(disk, archives[i + 1..], keep, Some(CACHED_LINES));
        if 0 <= cut {
          FoundBoot(older, archived, seen, boot, wanted);
          return Last(archived[cut..], missing) + prefix;
        }
        NoBootYet(archived, seen, boot, wanted);
        var take := Last(archived, missing);
        prefix := take + prefix;
        missing := missing - |take|;
        seen := archived + seen;
      }
      JoinedNone(disk, archives[|archives|..], keep, CACHED_LINES);
      Exhausted(seen, boot, wanted);
    }

    /** `recent`, for any number of lines. */
    method Tail(lines: int, latest: Option<seq<string>>, listing: seq<Archive>) returns (r: seq<string>)
      requires Valid()
      modifies this`cache
      ensures Valid()
      ensures r == Recent(disk, listing, latest, keep, boot, Some(CACHED_LINES), lines)
      ensures lines <= 500 ==> r == Recent(disk, listing, latest, keep, boot, None, lines)
    {
      hide Last, Kept, SinceBoot, Joined, LastBoot, Newest, Filter;
      if lines <= CACHED_LINES {
        CapKeepsRecent(disk, listing, latest, keep, boot, lines);
      }
      if lines <= 0 {
        return [];
      }
      var current := [];
      LastOfNone(lines);
      if latest.Some? {
        current := ReadTail(latest.value, keep, lines);
      }
      ghost var newer := Useful(latest, keep);
      ghost var older := Joined(disk, Newest(listing), keep, Some(CACHED_LINES));
      Current(older, newer, boot, lines);
      var cut := LastBootIndex(current, boot);
      if 0 <= cut {
        return current[cut..];
      }
      var missing := lines - |current|;
      if missing <= 0 {
        return current;
      }
      var prefix := Backfill(Newest(listing), missing);
      r := prefix + current;
    }
  }
}
