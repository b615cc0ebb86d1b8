/** Buckets of the login limiter (app/api/login_security.py): sliding windows,
    locks, eviction, and the accounting that ties buckets to live leases. */
module LimiterTable {
  import opened Common

  /** The key of a bucket, already normalised: an address with a user name, or an
      address alone. */
  datatype Key = PairKey(ip: string, user: string) | IpKey(ip: string)

  /** Strings and keys in the order in which Python compares them. */
  predicate StringAtMost(a: string, b: string) {
    a == "" || (b != "" && (a[0] < b[0] || (a[0] == b[0] && StringAtMost(a[1..], b[1..]))))
  }

  predicate KeyAtMost(a: Key, b: Key) {
    if a.PairKey? && b.PairKey? && a.ip == b.ip then StringAtMost(a.user, b.user)
    else if a.PairKey? == b.PairKey? then StringAtMost(a.ip, b.ip)
    else a.PairKey?
  }

  lemma {:induction false} StringOrder(a: string, b: string, c: string)
    ensures StringAtMost(a, b) || StringAtMost(b, a)
    ensures StringAtMost(a, b) && StringAtMost(b, a) ==> a == b
    ensures StringAtMost(a, b) && StringAtMost(b, c) ==> StringAtMost(a, c)
  {
    if a != "" && b != "" {
      StringOrder(a[1..], b[1..], if c == "" then "" else c[1..]);
      assert a == [a[0]] + a[1..] && b == [b[0]] + b[1..];
    }
  }

  lemma KeyOrder(a: Key, b: Key, c: Key)
    ensures KeyAtMost(a, b) || KeyAtMost(b, a)
    ensures KeyAtMost(a, b) && KeyAtMost(b, a) ==> a == b
    ensures KeyAtMost(a, b) && KeyAtMost(b, c) ==> KeyAtMost(a, c)
  {
    hide StringAtMost;
    StringOrder(a.ip, b.ip, c.ip);
    StringOrder(a.ip, c.ip, b.ip);
    if a.PairKey? && b.PairKey? && c.PairKey? {
      StringOrder(a.user, b.user, c.user);
    } else if a.PairKey? && b.PairKey? {
      StringOrder(a.user, b.user, "");
    }
  }

  datatype Bucket = Bucket(failures: seq<real>, blockedUntil: real, lastSeen: real, inFlight: int)

  type Table = map<Key, Bucket>

  ghost predicate Sorted(times: seq<real>) {
    forall i, j :: 0 <= i < j < |times| ==> times[i] <= times[j]
  }

  function After(times: seq<real>, cutoff: real): seq<real> {
    if times == [] then []
    else (if times[0] > cutoff then [times[0]] else []) + After(times[1..], cutoff)
  }

  lemma {:induction false} AfterAll(times: seq<real>, cutoff: real)
    requires forall i :: 0 <= i < |times| ==> times[i] > cutoff
    ensures After(times, cutoff) == times
  {
    if times != [] {
      AfterAll(times[1..], cutoff);
    }
  }

  lemma {:induction false} AfterShrinks(times: seq<real>, cutoff: real)
    requires Sorted(times)
    ensures |After(times, cutoff)| <= |times| && Sorted(After(times, cutoff))
    ensures forall i :: 0 <= i < |After(times, cutoff)| ==> After(times, cutoff)[i] in times
  {
    if times != [] {
      AfterShrinks(times[1..], cutoff);
    }
  }

  predicate Locked(b: Bucket, now: real) {
    b.blockedUntil > now
  }

  predicate Empty(b: Bucket) {
    b.failures == [] && b.blockedUntil == 0.0 && b.inFlight == 0
  }

  /** A bucket as `_prepare_bucket` leaves it: an expired lock clears the
      failures, and only failures inside the window remain. */
  function Prepared(b: Bucket, now: real, window: real): Bucket {
    if Locked(b, now) && b.blockedUntil != 0.0 then b
    else
      b.(blockedUntil := 0.0,
         failures := After(if b.blockedUntil != 0.0 then [] else b.failures, now - window))
  }

  /** `kept` is what is left of `all` after the cutoff, in the same order. */
  ghost predicate Trims(all: seq<real>, kept: seq<real>, cutoff: real) {
    exists k :: 0 <= k <= |all| && TrimsAt(all, kept, cutoff, k)
  }

  ghost predicate TrimsAt(all: seq<real>, kept: seq<real>, cutoff: real, k: int)
    requires 0 <= k <= |all|
  {
    && kept == all[k..]
    && (forall i :: 0 <= i < k ==> all[i] <= cutoff)
    && (forall i :: k <= i < |all| ==> all[i] > cutoff)
  }

  lemma {:induction false} AfterTrims(times: seq<real>, cutoff: real)
    requires Sorted(times)
    ensures Trims(times, After(times, cutoff), cutoff)
  {
    if times == [] {
      assert TrimsAt(times, [], cutoff, 0);
    } else if times[0] > cutoff {
      AfterAll(times, cutoff);
      assert TrimsAt(times, times, cutoff, 0);
    } else {
      AfterTrims(times[1..], cutoff);
      var k :| 0 <= k <= |times[1..]| && TrimsAt(times[1..], After(times[1..], cutoff), cutoff, k);
      assert times == [times[0]] + times[1..];
      assert TrimsAt(times, After(times, cutoff), cutoff, k + 1);
    }
  }

  /** A lock that is set and has not run out. */
  predicate Barred(b: Bucket, now: real) {
    b.blockedUntil != 0.0 && b.blockedUntil > now
  }

  /** `earlier` are the failures of `b` that still count at `now`: all while it is
      barred, none once its lock has run out, and otherwise those in the window. */
  ghost predicate Counting(b: Bucket, earlier: seq<real>, now: real, window: real) {
    if Barred(b, now) then earlier == b.failures
    else if b.blockedUntil != 0.0 then earlier == []
    else Trims(b.failures, earlier, now - window)
  }

  /** A bucket made ready: only failures that count, and only a lock that runs. */
  ghost predicate Tidied(b: Bucket, r: Bucket, now: real, window: real) {
    && Counting(b, r.failures, now, window)
    && r.blockedUntil == (if Barred(b, now) then b.blockedUntil else 0.0)
    && r.inFlight == b.inFlight && r.lastSeen == b.lastSeen
  }

  lemma PreparedIsTidied(b: Bucket, now: real, window: real)
    requires Sorted(b.failures)
    ensures Tidied(b, Prepared(b, now, window), now, window)
  {
    AfterTrims(b.failures, now - window);
  }

  /** The larger of two times, once the threshold is reached. */
  function NextLock(until: real, reached: bool, longer: real): real {
    if reached && until < longer then longer else until
  }

  lemma TrimsOnce(all: seq<real>, a: seq<real>, b: seq<real>, cutoff: real)
    requires Trims(all, a, cutoff) && Trims(all, b, cutoff)
    ensures a == b
  {
    var i :| 0 <= i <= |all| && TrimsAt(all, a, cutoff, i);
    var j :| 0 <= j <= |all| && TrimsAt(all, b, cutoff, j);
    CutOnce(all, a, b, cutoff, i, j);
  }

  lemma CutOnce(all: seq<real>, a: seq<real>, b: seq<real>, cutoff: real, i: nat, j: nat)
    requires i <= |all| && j <= |all| && TrimsAt(all, a, cutoff, i) && TrimsAt(all, b, cutoff, j)
    ensures i == j
  {
    var first := if i < |all| then all[i] else cutoff;
    var second := if j < |all| then all[j] else cutoff;
  }

  /** A failure, seen from outside: the failures that count, then this one; a lock
      from now on if they reach the threshold, never a shorter one; a lease less. */
  ghost predicate Charged(b: Bucket, r: Bucket, now: real, window: real, limit: int, lock: real) {
    && r.failures != [] && r.failures[|r.failures| - 1] == now
    && Counting(b, r.failures[..|r.failures| - 1], now, window)
    && r.blockedUntil == NextLock(if Barred(b, now) then b.blockedUntil else 0.0, |r.failures| >= limit, now + lock)
    && r.inFlight == b.inFlight - 1 && r.lastSeen == now
  }

  /** `_prepare_bucket`: dropping from the left is filtering, because failures
      are recorded in clock order. */
  method PrepareBucket(b: Bucket, now: real, window: real) returns (r: Bucket)
    requires Sorted(b.failures)
    ensures Tidied(b, r, now, window)
    ensures r == Prepared(b, now, window)
  {
    PreparedIsTidied(b, now, window);
    r := b;
    if r.blockedUntil != 0.0 {
      if r.blockedUntil > now {
        return;
      }
      r := r.(blockedUntil := 0.0, failures := []);
    }
    var cutoff := now - window;
    ghost var all := r.failures;
    while r.failures != [] && r.failures[0] <= cutoff
      invariant Sorted(r.failures)
      invariant r == r.(failures := r.failures)
      invariant r.blockedUntil == 0.0 && r.lastSeen == b.lastSeen && r.inFlight == b.inFlight
      invariant After(r.failures, cutoff) == After(all, cutoff)
      decreases |r.failures|
    {
      r := r.(failures := r.failures[1..]);
    }
    AfterAll(r.failures, cutoff);
  }

  // ---- accounting ----

  ghost function Tokens(owner: map<nat, Key>, key: Key): set<nat> {
    set t | t in owner && owner[t] == key
  }

  /** Every lease has its bucket, and every bucket counts its leases. */
  ghost predicate Accounted(buckets: Table, owner: map<nat, Key>) {
    && (forall t :: t in owner ==> owner[t] in buckets)
    && (forall key :: key in buckets ==> buckets[key].inFlight == |Tokens(owner, key)|)
  }

  ghost predicate BucketOk(b: Bucket, limit: int, now: real) {
    && |b.failures| + b.inFlight <= limit
    && 0 <= b.inFlight
    && 0.0 <= b.blockedUntil
    && Sorted(b.failures)
    && (forall i :: 0 <= i < |b.failures| ==> b.failures[i] <= now)
  }

  ghost predicate TableOk(buckets: Table, limit: int, now: real) {
    forall key :: key in buckets ==> BucketOk(buckets[key], limit, now)
  }

  ghost predicate NoneEmpty(buckets: Table, but: set<Key>) {
    forall key :: key in buckets && key !in but ==> !Empty(buckets[key])
  }

  /** Locks that still run are neither dropped nor shortened. */
  ghost predicate LocksKept(before: Table, after: Table, now: real) {
    forall key :: key in before && Locked(before[key], now) ==>
      key in after && after[key].blockedUntil >= before[key].blockedUntil
  }

  lemma PreparedOk(b: Bucket, limit: int, now: real, window: real)
    requires BucketOk(b, limit, now) && 0.0 <= now
    ensures BucketOk(Prepared(b, now, window), limit, now)
    ensures Prepared(b, now, window).inFlight == b.inFlight
    ensures Locked(b, now) ==> Prepared(b, now, window) == b
  {
    AfterShrinks(if b.blockedUntil != 0.0 then [] else b.failures, now - window);
  }

  lemma Acquired(buckets: Table, owner: map<nat, Key>, key: Key, token: nat, b: Bucket)
    requires Accounted(buckets, owner) && key in buckets && token !in owner
    requires b.inFlight == buckets[key].inFlight + 1
    ensures Accounted(buckets[key := b], owner[token := key])
  {
    var owner' := owner[token := key];
    assert Tokens(owner', key) == Tokens(owner, key) + {token};
    forall other | other in buckets && other != key ensures Tokens(owner', other) == Tokens(owner, other) {
    }
  }

  /** Releasing a live lease always finds its bucket with a positive count. */
  lemma Released(buckets: Table, owner: map<nat, Key>, token: nat, b: Bucket)
    requires Accounted(buckets, owner) && token in owner
    requires b.inFlight == buckets[owner[token]].inFlight - 1
    ensures buckets[owner[token]].inFlight > 0
    ensures Accounted(buckets[owner[token] := b], owner - {token})
  {
    var key, owner' := owner[token], owner - {token};
    assert token in Tokens(owner, key);
    assert Tokens(owner', key) == Tokens(owner, key) - {token};
    forall other | other in buckets && other != key ensures Tokens(owner', other) == Tokens(owner, other) {
    }
  }

  lemma Dropped(buckets: Table, owner: map<nat, Key>, key: Key)
    requires Accounted(buckets, owner)
    requires key in buckets ==> buckets[key].inFlight == 0
    ensures Accounted(buckets - {key}, owner)
  {
    if key in buckets {
      assert Tokens(owner, key) == {};
      forall t | t in owner ensures owner[t] != key {
        assert t !in Tokens(owner, key);
      }
    }
  }

  // ---- totals ----

  ghost function KeysTotal(buckets: Table, keys: seq<Key>): int
    requires forall i :: 0 <= i < |keys| ==> keys[i] in buckets
  {
    if keys == [] then 0
    else KeysTotal(buckets, keys[..|keys| - 1]) + buckets[keys[|keys| - 1]].inFlight
  }

  ghost predicate Enumerates(keys: seq<Key>, all: set<Key>) {
    && (forall i, j :: 0 <= i < j < |keys| ==> keys[i] != keys[j])
    && (forall key :: key in keys <==> key in all)
  }

  ghost function Held(owner: map<nat, Key>, keys: seq<Key>): set<nat> {
    set t | t in owner && owner[t] in keys
  }

  lemma HeldStep(owner: map<nat, Key>, keys: seq<Key>, key: Key)
    requires key !in keys
    ensures |Held(owner, keys + [key])| == |Held(owner, keys)| + |Tokens(owner, key)|
  {
    forall t ensures t in Held(owner, keys + [key]) <==> t in Held(owner, keys) + Tokens(owner, key) {
      assert t in owner ==> (owner[t] in keys + [key] <==> owner[t] in keys || owner[t] == key);
    }
    assert Held(owner, keys + [key]) == Held(owner, keys) + Tokens(owner, key);
    assert Held(owner, keys) !! Tokens(owner, key);
  }

  lemma {:induction false} PrefixTotal(buckets: Table, owner: map<nat, Key>, keys: seq<Key>)
    requires Accounted(buckets, owner)
    requires forall i, j :: 0 <= i < j < |keys| ==> keys[i] != keys[j]
    requires forall i :: 0 <= i < |keys| ==> keys[i] in buckets
    ensures KeysTotal(buckets, keys) == |Held(owner, keys)|
  {
    if keys != [] {
      var n := |keys| - 1;
      PrefixTotal(buckets, owner, keys[..n]);
      HeldStep(owner, keys[..n], keys[n]);
      assert keys == keys[..n] + [keys[n]];
    }
  }

  /** The in-flight counts of a table add up to the number of live leases. */
  lemma TotalIsLeases(buckets: Table, owner: map<nat, Key>, keys: seq<Key>)
    requires Accounted(buckets, owner) && Enumerates(keys, buckets.Keys)
    ensures KeysTotal(buckets, keys) == |owner|
  {
    PrefixTotal(buckets, owner, keys);
    assert Held(owner, keys) == owner.Keys;
  }
}
