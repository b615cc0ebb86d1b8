/** The login attempt limiter of app/api/login_security.py: attempts are leased
    before a password is checked, counted per address and user name and per
    address, and locked out past a threshold. Calls come in clock order. */
module LoginLimiter {
  import opened Common
  import opened LimiterTable

  datatype Lease = Lease(pairKey: Key, ipKey: Key, startedAt: real)

  datatype Config = Config(
    pairMaxFailures: int, ipMaxFailures: int, window: real, pairLock: real, ipLock: real,
    maxPairKeys: int, maxIpKeys: int, leaseTimeout: real, cleanupInterval: real)

  /** The settings the limiter accepts; it refuses all others. */
  predicate ConfigOk(c: Config) {
    && c.pairMaxFailures > 0 && c.ipMaxFailures > 0 && c.window > 0.0
    && c.pairLock > 0.0 && c.ipLock > 0.0 && c.maxPairKeys > 0 && c.maxIpKeys > 0
    && c.leaseTimeout > 0.0 && c.cleanupInterval >= 0.0
  }

  ghost function PairOwner(leases: map<nat, Lease>): map<nat, Key> {
    map t | t in leases :: leases[t].pairKey
  }

  ghost function IpOwner(leases: map<nat, Lease>): map<nat, Key> {
    map t | t in leases :: leases[t].ipKey
  }

  lemma OwnersGrow(leases: map<nat, Lease>, token: nat, lease: Lease)
    ensures PairOwner(leases[token := lease]) == PairOwner(leases)[token := lease.pairKey]
    ensures IpOwner(leases[token := lease]) == IpOwner(leases)[token := lease.ipKey]
    ensures token !in leases ==> token !in PairOwner(leases) && token !in IpOwner(leases)
  {
  }

  lemma OwnersShrink(leases: map<nat, Lease>, token: nat)
    requires token in leases
    ensures PairOwner(leases - {token}) == PairOwner(leases) - {token}
    ensures IpOwner(leases - {token}) == IpOwner(leases) - {token}
    ensures token in PairOwner(leases) && PairOwner(leases)[token] == leases[token].pairKey
    ensures token in IpOwner(leases) && IpOwner(leases)[token] == leases[token].ipKey
  {
  }

  lemma OwnersCount(leases: map<nat, Lease>)
    ensures |PairOwner(leases)| == |leases| == |IpOwner(leases)|
  {
    assert PairOwner(leases).Keys == leases.Keys == IpOwner(leases).Keys;
    assert |PairOwner(leases).Keys| == |PairOwner(leases)| && |IpOwner(leases).Keys| == |IpOwner(leases)|;
  }

  ghost predicate TableValid(b: Table, owner: map<nat, Key>, limit: int, cap: int, now: real, but: set<Key>) {
    Accounted(b, owner) && TableOk(b, limit, now) && NoneEmpty(b, but) && |b| <= cap
  }

  lemma IdleAccounted(b: Table)
    requires forall key :: key in b ==> b[key].inFlight == 0
    ensures Accounted(b, map[])
  {
    forall key | key in b ensures Tokens(map[], key) == {} {
    }
  }

  lemma LocksSame(b: Table, now: real)
    ensures LocksKept(b, b, now)
  {
  }

  lemma LocksTrans(a: Table, b: Table, c: Table, now: real)
    requires LocksKept(a, b, now) && LocksKept(b, c, now)
    ensures LocksKept(a, c, now)
  {
  }

  predicate LockedIn(b: Table, key: Key, now: real) {
    key in b && Locked(b[key], now)
  }

  // ---- one table ----

  function DropEmpty(b: Table, key: Key): Table {
    if key in b && Empty(b[key]) then b - {key} else b
  }

  lemma DropEmptyOk(b: Table, owner: map<nat, Key>, limit: int, cap: int, now: real, key: Key)
    requires TableValid(b, owner, limit, cap, now, {key}) && 0.0 <= now
    ensures TableValid(DropEmpty(b, key), owner, limit, cap, now, {})
    ensures LocksKept(b, DropEmpty(b, key), now)
  {
    if key in b && Empty(b[key]) {
      Dropped(b, owner, key);
      assert |b - {key}| <= |b| by {
        assert (b - {key}).Keys == b.Keys - {key};
      }
    }
  }

  predicate Evictable(b: Bucket, now: real) {
    b.inFlight == 0 && b.blockedUntil <= now
  }

  /** Buckets without failures go first, then those seen longest ago, then by key. */
  predicate EvictedBefore(b: Table, c: Key, d: Key)
    requires c in b && d in b
  {
    if (b[c].failures == []) != (b[d].failures == []) then b[c].failures == []
    else if b[c].lastSeen != b[d].lastSeen then b[c].lastSeen < b[d].lastSeen
    else KeyAtMost(c, d)
  }

  lemma EvictionOrder(b: Table, c: Key, d: Key, e: Key)
    requires c in b && d in b && e in b
    ensures EvictedBefore(b, c, d) || EvictedBefore(b, d, c)
    ensures EvictedBefore(b, c, d) && EvictedBefore(b, d, c) ==> c == d
    ensures EvictedBefore(b, c, d) && EvictedBefore(b, d, e) ==> EvictedBefore(b, c, e)
  {
    KeyOrder(c, d, e);
  }

  predicate HasRoom(b: Table, key: Key, cap: int, now: real) {
    key in b || |b| < cap || exists c :: c in b && Evictable(b[c], now)
  }

  method LeastUseful(b: Table, candidates: set<Key>) returns (oldest: Key)
    requires candidates != {} && candidates <= b.Keys
    ensures oldest in candidates
    ensures forall d :: d in candidates ==> EvictedBefore(b, oldest, d)
  {
    hide EvictedBefore;
    oldest :| oldest in candidates;
    EvictionOrder(b, oldest, oldest, oldest);
    var todo := candidates - {oldest};
    while todo != {}
      invariant oldest in candidates && todo <= candidates
      invariant forall d :: d in candidates - todo ==> EvictedBefore(b, oldest, d)
    {
      var c :| c in todo;
      forall d | d in candidates
        ensures EvictedBefore(b, c, oldest) && EvictedBefore(b, oldest, d) ==> EvictedBefore(b, c, d)
      {
        EvictionOrder(b, c, oldest, d);
      }
      EvictionOrder(b, c, oldest, c);
      EvictionOrder(b, c, c, c);
      if !EvictedBefore(b, oldest, c) {
        oldest := c;
      }
      todo := todo - {c};
    }
  }

  /** Gives up the least useful idle bucket, if there is one; there is only one
      such bucket. */
  method Evict(b: Table, now: real) returns (r: Table, gone: Option<Key>)
    ensures gone.None? ==> r == b && forall c :: c in b ==> !Evictable(b[c], now)
    ensures gone.Some? ==>
      && gone.value in b && r == b - {gone.value} && Evictable(b[gone.value], now)
      && forall d :: d in b && Evictable(b[d], now) ==>
        EvictedBefore(b, gone.value, d) && (EvictedBefore(b, d, gone.value) ==> d == gone.value)
  {
    hide EvictedBefore;
    var candidates := set c | c in b && Evictable(b[c], now);
    if candidates == {} {
      forall c | c in b ensures !Evictable(b[c], now) {
        assert c !in candidates;
      }
      return b, None;
    }
    var oldest := LeastUseful(b, candidates);
    assert oldest in candidates;
    forall d | d in b && Evictable(b[d], now)
      ensures EvictedBefore(b, oldest, d) && (EvictedBefore(b, d, oldest) ==> d == oldest)
    {
      assert d in candidates;
      EvictionOrder(b, oldest, d, d);
    }
    return b - {oldest}, Some(oldest);
  }

  /** `_get_or_create`: a full table gives up its least useful idle bucket, never
      one that is locked or in use. */
  method GetOrCreate(b: Table, key: Key, cap: int, now: real) returns (r: Table, found: bool)
    requires |b| <= cap && 0 < cap
    ensures found <==> HasRoom(b, key, cap, now)
    ensures !found ==> r == b
    ensures found ==> key in r && r[key] == if key in b then b[key] else Bucket([], 0.0, now, 0)
    ensures forall c :: c in r && c != key ==> c in b && r[c] == b[c]
    ensures forall c :: c in b && c !in r ==>
      && key !in b && |b| >= cap && Evictable(b[c], now)
      && forall d :: d in b && Evictable(b[d], now) ==> EvictedBefore(b, c, d)
    ensures |r| <= cap && |b| <= |r|
  {
    r := b;
    if key in b {
      return r, true;
    }
    if |b| >= cap {
      var gone;
      r, gone := Evict(b, now);
      if gone.None? {
        return r, false;
      }
      assert r.Keys == b.Keys - {gone.value};
    }
    assert key !in r;
    r := r[key := Bucket([], 0.0, now, 0)];
    found := true;
  }

  lemma {:induction false} GotOk(b: Table, r: Table, owner: map<nat, Key>, limit: int, cap: int, now: real, key: Key)
    requires TableValid(b, owner, limit, cap, now, {}) && 0 < limit && |r| <= cap
    requires key in r && r[key] == if key in b then b[key] else Bucket([], 0.0, now, 0)
    requires forall c :: c in r && c != key ==> c in b && r[c] == b[c]
    requires forall c :: c in b && c !in r ==> Evictable(b[c], now)
    ensures TableValid(r, owner, limit, cap, now, {key})
    ensures LocksKept(b, r, now)
  {
    forall t | t in owner ensures owner[t] in r {
      assert t in Tokens(owner, owner[t]);
    }
    forall c | c in r ensures r[c].inFlight == |Tokens(owner, c)| {
      if c !in b {
        assert Tokens(owner, c) == {};
      }
    }
  }

  lemma PutOk(b: Table, owner: map<nat, Key>, limit: int, cap: int, now: real, key: Key, v: Bucket, but: set<Key>)
    requires TableValid(b, owner, limit, cap, now, but) && key in b
    requires BucketOk(v, limit, now) && v.inFlight == b[key].inFlight
    ensures TableValid(b[key := v], owner, limit, cap, now, but + {key})
    ensures !Empty(v) ==> TableValid(b[key := v], owner, limit, cap, now, but - {key})
    ensures v.blockedUntil >= b[key].blockedUntil || !Locked(b[key], now) ==> LocksKept(b, b[key := v], now)
  {
    assert b[key := v].Keys == b.Keys;
  }

  lemma LaterOk(b: Table, owner: map<nat, Key>, limit: int, cap: int, was: real, now: real, but: set<Key>)
    requires TableValid(b, owner, limit, cap, was, but) && was <= now
    ensures TableValid(b, owner, limit, cap, now, but)
  {
    forall key | key in b ensures BucketOk(b[key], limit, now) {
      assert BucketOk(b[key], limit, was);
    }
  }

  lemma Widen(b: Table, owner: map<nat, Key>, limit: int, cap: int, now: real, but: set<Key>, more: set<Key>)
    requires TableValid(b, owner, limit, cap, now, but) && but <= more
    ensures TableValid(b, owner, limit, cap, now, more)
  {
  }

  function ReleasedBucket(b: Bucket, now: real): Bucket {
    b.(inFlight := if b.inFlight - 1 < 0 then 0 else b.inFlight - 1, lastSeen := now)
  }

  /** Releasing a lease: the clamp at zero is never what decides. */
  lemma ReleaseOk(b: Table, owner: map<nat, Key>, limit: int, cap: int, now: real, token: nat, but: set<Key>)
    requires TableValid(b, owner, limit, cap, now, but) && token in owner
    ensures owner[token] in b && b[owner[token]].inFlight > 0
    ensures var key := owner[token]; var b' := b[key := ReleasedBucket(b[key], now)];
      TableValid(b', owner - {token}, limit, cap, now, but + {key}) && LocksKept(b, b', now)
  {
    var key := owner[token];
    Released(b, owner, token, b[key].(inFlight := b[key].inFlight - 1, lastSeen := now));
    assert b[key := ReleasedBucket(b[key], now)].Keys == b.Keys;
  }

  /** Every bucket prepared, those then empty left out. */
  function SweptTable(b: Table, now: real, window: real): Table {
    map key | key in b && !Empty(Prepared(b[key], now, window)) :: Prepared(b[key], now, window)
  }

  /** The end of `_cleanup_if_due`: every bucket prepared, empty ones dropped. */
  method Sweep(b: Table, now: real, window: real) returns (r: Table)
    requires forall key :: key in b ==> Sorted(b[key].failures)
    ensures r == SweptTable(b, now, window)
  {
    r := b;
    var todo := b.Keys;
    while todo != {}
      invariant todo <= b.Keys && r.Keys <= b.Keys && todo <= r.Keys
      invariant forall key :: key in todo ==> r[key] == b[key]
      invariant forall key :: key in b.Keys - todo ==> (key in r <==> !Empty(Prepared(b[key], now, window)))
      invariant forall key :: key in r && key !in todo ==> r[key] == Prepared(b[key], now, window)
    {
      var key :| key in todo;
      var v := PrepareBucket(r[key], now, window);
      r := r[key := v];
      r := DropEmpty(r, key);
      todo := todo - {key};
    }
  }

  lemma SweepOk(b: Table, r: Table, owner: map<nat, Key>, limit: int, cap: int, now: real, window: real, but: set<Key>)
    requires TableValid(b, owner, limit, cap, now, but) && 0.0 <= now
    requires r == SweptTable(b, now, window)
    ensures TableValid(r, owner, limit, cap, now, {}) && LocksKept(b, r, now)
  {
    forall key | key in b
      ensures BucketOk(Prepared(b[key], now, window), limit, now)
      ensures Prepared(b[key], now, window).inFlight == b[key].inFlight
      ensures Locked(b[key], now) ==> Prepared(b[key], now, window) == b[key]
    {
      assert BucketOk(b[key], limit, now);
      PreparedOk(b[key], limit, now, window);
    }
    forall t | t in owner ensures owner[t] in r {
      assert t in Tokens(owner, owner[t]);
    }
    assert r.Keys <= b.Keys;
    SubsetSize(r.Keys, b.Keys);
  }

  predicate Stale(lease: Lease, now: real, timeout: real) {
    now - lease.startedAt >= timeout
  }

  function Fresh(leases: map<nat, Lease>, now: real, timeout: real): map<nat, Lease> {
    map t | t in leases && !Stale(leases[t], now, timeout) :: leases[t]
  }

  lemma FreshWithout(leases: map<nat, Lease>, now: real, timeout: real, token: nat)
    requires token in leases && Stale(leases[token], now, timeout)
    ensures Fresh(leases - {token}, now, timeout) == Fresh(leases, now, timeout)
  {
  }

  /** A table once only the leases of `owner` are left of those in `was`. */
  ghost function ReleasedTable(b: Table, was: map<nat, Key>, owner: map<nat, Key>, now: real): Table {
    map key | key in b ::
      b[key].(inFlight := |Tokens(owner, key)|,
              lastSeen := if Tokens(owner, key) == Tokens(was, key) then b[key].lastSeen else now)
  }

  lemma ReleasedNone(b: Table, owner: map<nat, Key>, now: real)
    requires Accounted(b, owner)
    ensures ReleasedTable(b, owner, owner, now) == b
  {
  }

  ghost predicate Within(owner: map<nat, Key>, was: map<nat, Key>) {
    forall t :: t in owner ==> t in was && was[t] == owner[t]
  }

  lemma WithinLess(owner: map<nat, Key>, was: map<nat, Key>, token: nat)
    requires Within(owner, was)
    ensures Within(owner - {token}, was)
  {
  }

  lemma ReleasedStep(b: Table, was: map<nat, Key>, owner: map<nat, Key>, now: real, token: nat)
    requires Within(owner, was) && token in owner && owner[token] in b
    ensures var r, key := ReleasedTable(b, was, owner, now), owner[token];
      ReleasedTable(b, was, owner - {token}, now) == With(r, key, ReleasedBucket(r[key], now))
  {
    var key, left := owner[token], owner - {token};
    assert token in Tokens(owner, key) && token in Tokens(was, key) && token !in Tokens(left, key);
    assert Tokens(left, key) == Tokens(owner, key) - {token};
    forall other | other != key ensures Tokens(left, other) == Tokens(owner, other) {
    }
  }

  lemma SubsetSize(a: set<Key>, b: set<Key>)
    requires a <= b
    ensures |a| <= |b|
  {
    assert a + (b - a) == b;
  }

  /** A failed attempt on one bucket, once its lease is released. */
  function FailedBucket(b: Bucket, now: real, window: real, limit: int, lock: real): Bucket {
    var p := Prepared(b, now, window);
    var q := p.(failures := p.failures + [now]);
    if |q.failures| >= limit && q.blockedUntil < now + lock then q.(blockedUntil := now + lock) else q
  }

  lemma FailedOk(b: Bucket, now: real, window: real, limit: int, lock: real)
    requires BucketOk(b, limit - 1, now) && 0.0 <= now && 0.0 < lock
    ensures BucketOk(FailedBucket(b, now, window, limit, lock), limit, now)
    ensures !Empty(FailedBucket(b, now, window, limit, lock))
    ensures FailedBucket(b, now, window, limit, lock).inFlight == b.inFlight
    ensures Locked(b, now) ==> FailedBucket(b, now, window, limit, lock).blockedUntil >= b.blockedUntil
    ensures |FailedBucket(b, now, window, limit, lock).failures| >= limit ==>
      Locked(FailedBucket(b, now, window, limit, lock), now)
  {
    PreparedOk(b, limit - 1, now, window);
  }

  function With(b: Table, key: Key, v: Bucket): Table {
    b[key := v]
  }

  lemma WithTwice(b: Table, key: Key, v: Bucket, w: Bucket)
    ensures With(With(b, key, v), key, w) == With(b, key, w)
  {
  }

  function Cleared(b: Bucket): Bucket {
    b.(failures := [], blockedUntil := 0.0)
  }

  lemma ClearOk(b: Table, owner: map<nat, Key>, limit: int, cap: int, now: real, key: Key)
    requires TableValid(b, owner, limit, cap, now, {key}) && key in b
    ensures TableValid(b[key := Cleared(b[key])], owner, limit, cap, now, {key})
    ensures LocksKept(b - {key}, b[key := Cleared(b[key])], now)
  {
    assert BucketOk(b[key], limit, now);
    PutOk(b, owner, limit, cap, now, key, Cleared(b[key]), {key});
    assert {key} + {key} == {key};
  }

  lemma FreshenOk(b: Table, owner: map<nat, Key>, limit: int, cap: int, now: real, key: Key, window: real)
    requires TableValid(b, owner, limit, cap, now, {key}) && key in b && 0.0 <= now
    ensures Sorted(b[key].failures) && BucketOk(Prepared(b[key], now, window), limit, now)
    ensures TableValid(b[key := Prepared(b[key], now, window)], owner, limit, cap, now, {key})
    ensures LocksKept(b, b[key := Prepared(b[key], now, window)], now)
  {
    assert BucketOk(b[key], limit, now);
    PreparedOk(b[key], limit, now, window);
    PutOk(b, owner, limit, cap, now, key, Prepared(b[key], now, window), {key});
    assert {key} + {key} == {key};
  }

  lemma LocksMinus(a: Table, b: Table, now: real, key: Key)
    requires LocksKept(a, b, now)
    ensures LocksKept(a - {key}, b - {key}, now)
  {
  }

  function FailuresOf(b: Table, key: Key): seq<real> {
    if key in b then b[key].failures else []
  }

  function LockOf(b: Table, key: Key): real {
    if key in b then b[key].blockedUntil else 0.0
  }

  lemma DroppedClean(b: Table, key: Key, v: Bucket)
    requires v.failures == [] && v.blockedUntil == 0.0
    ensures var after := DropEmpty(With(b, key, v), key);
      && FailuresOf(after, key) == [] && LockOf(after, key) == 0.0
      && forall other :: other in b && other != key ==> other in after && after[other] == b[other]
  {
  }

  lemma ChargedOk(b: Bucket, now: real, window: real, limit: int, lock: real)
    requires Sorted(b.failures) && b.inFlight > 0
    ensures Charged(b, FailedBucket(ReleasedBucket(b, now), now, window, limit, lock), now, window, limit, lock)
  {
    PreparedIsTidied(ReleasedBucket(b, now), now, window);
    var p := Prepared(ReleasedBucket(b, now), now, window);
    assert (p.failures + [now])[..|p.failures|] == p.failures;
  }

  /** What it takes to be admitted, on the failures that count. */
  lemma AdmitsMeans(b: Bucket, limit: int, now: real, window: real)
    requires Sorted(b.failures) && 0.0 <= now
    ensures Admits(b, limit, now, window) <==>
      b.blockedUntil <= now
      && exists earlier :: Counting(b, earlier, now, window) && |earlier| + b.inFlight < limit
  {
    PreparedIsTidied(b, now, window);
    var p := Prepared(b, now, window);
    forall earlier | Counting(b, earlier, now, window) ensures |earlier| == |p.failures| {
      if !Barred(b, now) && b.blockedUntil == 0.0 {
        TrimsOnce(b.failures, earlier, p.failures, now - window);
      }
    }
  }

  /** The bucket holds a failure of this moment, and is locked if at its threshold. */
  ghost predicate Counted(b: Table, key: Key, limit: int, now: real) {
    && key in b && b[key].failures != [] && b[key].failures[|b[key].failures| - 1] == now
    && (|b[key].failures| >= limit ==> Locked(b[key], now))
  }

  /** What `failure` does to one bucket. */
  method FailBucket(b: Bucket, now: real, window: real, limit: int, lock: real) returns (r: Bucket)
    requires Sorted(b.failures)
    ensures r == FailedBucket(b, now, window, limit, lock)
  {
    r := PrepareBucket(b, now, window);
    r := r.(failures := r.failures + [now]);
    if |r.failures| >= limit {
      r := r.(blockedUntil := if r.blockedUntil < now + lock then now + lock else r.blockedUntil);
    }
  }

  /** `held` is the table before the lease on `key` was released, `b` the one after. */
  lemma FailOk(held: Table, holder: map<nat, Key>, b: Table, owner: map<nat, Key>, limit: int, cap: int, now: real,
               key: Key, window: real, lock: real)
    requires TableValid(b, owner, limit, cap, now, {key}) && 0.0 <= now && 0.0 < lock
    requires TableValid(held, holder, limit, cap, now, {}) && key in held && held[key].inFlight > 0
    requires key in b && b[key] == ReleasedBucket(held[key], now)
    ensures Sorted(b[key].failures)
    ensures var b' := b[key := FailedBucket(b[key], now, window, limit, lock)];
      TableValid(b', owner, limit, cap, now, {}) && LocksKept(b, b', now) && Counted(b', key, limit, now)
  {
    assert BucketOk(held[key], limit, now);
    FailedOk(b[key], now, window, limit, lock);
    PutOk(b, owner, limit, cap, now, key, FailedBucket(b[key], now, window, limit, lock), {key});
    assert {key} - {key} == {};
  }

  lemma AllSorted(b: Table, owner: map<nat, Key>, limit: int, cap: int, now: real, but: set<Key>)
    requires TableValid(b, owner, limit, cap, now, but)
    ensures forall key :: key in b ==> Sorted(b[key].failures)
  {
    forall key | key in b ensures Sorted(b[key].failures) {
      assert BucketOk(b[key], limit, now);
    }
  }

  /** A prepared bucket lets one more attempt in. */
  predicate Admits(b: Bucket, limit: int, now: real, window: real) {
    var p := Prepared(b, now, window);
    !Locked(p, now) && |p.failures| + p.inFlight < limit
  }

  predicate CanEnter(b: Table, key: Key, limit: int, cap: int, now: real, window: real) {
    HasRoom(b, key, cap, now) && (key in b ==> Admits(b[key], limit, now, window))
  }

  lemma SeenOk(b: Table, owner: map<nat, Key>, limit: int, cap: int, now: real, key: Key, window: real)
    requires TableValid(b, owner, limit, cap, now, {key}) && key in b && 0.0 <= now
    ensures Sorted(b[key].failures)
    ensures var b' := b[key := Prepared(b[key], now, window).(lastSeen := now)];
      TableValid(b', owner, limit, cap, now, {key}) && LocksKept(b, b', now)
  {
    assert BucketOk(b[key], limit, now);
    PreparedOk(b[key], limit, now, window);
    PutOk(b, owner, limit, cap, now, key, Prepared(b[key], now, window).(lastSeen := now), {key});
    assert {key} + {key} == {key};
  }

  lemma TakeOk(b: Table, owner: map<nat, Key>, limit: int, cap: int, now: real, key: Key, token: nat)
    requires TableValid(b, owner, limit, cap, now, {key}) && key in b && token !in owner
    requires |b[key].failures| + b[key].inFlight < limit
    ensures var b' := b[key := b[key].(inFlight := b[key].inFlight + 1)];
      TableValid(b', owner[token := key], limit, cap, now, {}) && LocksKept(b, b', now)
  {
    assert BucketOk(b[key], limit, now);
    Acquired(b, owner, key, token, b[key].(inFlight := b[key].inFlight + 1));
    assert b[key := b[key].(inFlight := b[key].inFlight + 1)].Keys == b.Keys;
  }

  /** The bucket an attempt finds, created if need be. */
  function Found(b: Table, key: Key, now: real): Bucket {
    if key in b then b[key] else Bucket([], 0.0, now, 0)
  }

  /** That bucket once prepared and noted as seen. */
  function Seen(b: Bucket, now: real, window: real): Bucket {
    Prepared(b, now, window).(lastSeen := now)
  }

  function Leased(b: Bucket): Bucket {
    b.(inFlight := b.inFlight + 1)
  }

  /** Other buckets stay as they are; only a full table gives one up, and then
      its least useful idle one. */
  ghost predicate OthersKept(before: Table, after: Table, key: Key, cap: int, now: real) {
    && (forall c :: c in after && c != key ==> c in before && after[c] == before[c])
    && (forall c :: c in before && c !in after && c != key ==>
          && key !in before && |before| >= cap && Evictable(before[c], now)
          && forall d :: d in before && Evictable(before[d], now) ==> EvictedBefore(before, c, d))
  }

  ghost predicate Entered(before: Table, after: Table, key: Key, cap: int, now: real, window: real) {
    && OthersKept(before, after, key, cap, now)
    && key in after && after[key] == Leased(Seen(Found(before, key, now), now, window))
  }

  ghost predicate TurnedAway(before: Table, after: Table, key: Key, cap: int, now: real, window: real) {
    var found := Found(before, key, now);
    && OthersKept(before, after, key, cap, now)
    && if key in after then after[key] == found || after[key] == Seen(found, now, window)
       else key in before ==> Empty(found) || Empty(Seen(found, now, window))
  }

  lemma OthersWith(before: Table, after: Table, key: Key, cap: int, now: real, v: Bucket)
    requires OthersKept(before, after, key, cap, now)
    ensures OthersKept(before, With(after, key, v), key, cap, now)
  {
  }

  lemma OthersDrop(before: Table, after: Table, key: Key, cap: int, now: real)
    requires OthersKept(before, after, key, cap, now)
    ensures OthersKept(before, DropEmpty(after, key), key, cap, now)
  {
  }

  lemma EnteredOk(before: Table, mid: Table, key: Key, cap: int, now: real, window: real)
    requires OthersKept(before, mid, key, cap, now) && key in mid && mid[key] == Found(before, key, now)
    ensures Entered(before, With(mid, key, Leased(Seen(mid[key], now, window))), key, cap, now, window)
  {
    hide OthersKept, Prepared;
    OthersWith(before, mid, key, cap, now, Leased(Seen(mid[key], now, window)));
  }

  /** What a refused attempt leaves of a bucket it found, seen or not. */
  lemma TurnedAwayOk(before: Table, mid: Table, key: Key, cap: int, now: real, window: real, seen: bool)
    requires OthersKept(before, mid, key, cap, now)
    requires if key in mid then mid[key] == Found(before, key, now) else key !in before && !seen
    ensures
      var after := if seen then With(mid, key, Seen(mid[key], now, window)) else mid;
      TurnedAway(before, DropEmpty(after, key), key, cap, now, window)
  {
    var after := if seen then With(mid, key, Seen(mid[key], now, window)) else mid;
    assert OthersKept(before, after, key, cap, now);
    OthersDrop(before, after, key, cap, now);
  }

  /** `_get_or_create` on a valid table. */
  method Open(b: Table, ghost owner: map<nat, Key>, ghost limit: int, cap: int, now: real, key: Key, ghost window: real)
    returns (r: Table, found: bool)
    requires TableValid(b, owner, limit, cap, now, {}) && 0 < limit && 0 < cap && 0.0 < window && 0.0 <= now
    ensures TableValid(r, owner, limit, cap, now, {key}) && LocksKept(b, r, now)
    ensures found <==> HasRoom(b, key, cap, now)
    ensures if found then key in r && r[key] == Found(b, key, now) else r == b && key !in b
    ensures key !in b && found ==> Admits(r[key], limit, now, window)
    ensures OthersKept(b, r, key, cap, now)
  {
    r, found := GetOrCreate(b, key, cap, now);
    if found {
      GotOk(b, r, owner, limit, cap, now, key);
    }
  }

  /** Prepares the bucket of an attempt and notes when it was seen. */
  method See(b: Table, ghost owner: map<nat, Key>, ghost limit: int, ghost cap: int, now: real, key: Key, window: real)
    returns (r: Table)
    requires TableValid(b, owner, limit, cap, now, {key}) && key in b && 0.0 <= now
    ensures TableValid(r, owner, limit, cap, now, {key}) && LocksKept(b, r, now)
    ensures key in r && r == With(b, key, Seen(b[key], now, window))
    ensures Admits(b[key], limit, now, window) <==> !Locked(r[key], now) && |r[key].failures| + r[key].inFlight < limit
  {
    SeenOk(b, owner, limit, cap, now, key, window);
    var v := PrepareBucket(b[key], now, window);
    r := b[key := v.(lastSeen := now)];
  }

  class Limiter {
    const config: Config
    var pairs: Table
    var ips: Table
    var leases: map<nat, Lease>
    var nextToken: nat
    var lastCleanup: real
    ghost var clock: real

    ghost predicate LeasesOk()
      reads this`leases, this`nextToken
    {
      forall t :: t in leases ==>
        && t < nextToken
        && leases[t].pairKey.PairKey? && leases[t].ipKey == IpKey(leases[t].pairKey.ip)
    }

    /** Outside a call: every lease has its two buckets, every bucket counts its
        leases, failures and leases together stay within the threshold, no bucket
        is empty, and both tables stay within their sizes. */
    ghost predicate Valid()
      reads this
    {
      && ConfigOk(config) && 0.0 <= clock && LeasesOk()
      && TableValid(pairs, PairOwner(leases), config.pairMaxFailures, config.maxPairKeys, clock, {})
      && TableValid(ips, IpOwner(leases), config.ipMaxFailures, config.maxIpKeys, clock, {})
    }

    /** Both tables hold as many attempts in flight as there are leases. */
    lemma TotalsAgree(pairKeys: seq<Key>, ipKeys: seq<Key>)
      requires Valid() && Enumerates(pairKeys, pairs.Keys) && Enumerates(ipKeys, ips.Keys)
      ensures KeysTotal(pairs, pairKeys) == |leases| == KeysTotal(ips, ipKeys)
    {
      hide TableOk, NoneEmpty, KeysTotal, Enumerates;
      TotalIsLeases(pairs, PairOwner(leases), pairKeys);
      TotalIsLeases(ips, IpOwner(leases), ipKeys);
      OwnersCount(leases);
    }

    constructor (config: Config)
      requires ConfigOk(config)
      ensures Valid() && this.config == config && pairs == map[] && ips == map[] && leases == map[]
    {
      this.config := config;
      pairs, ips, leases, nextToken, lastCleanup, clock := map[], map[], map[], 1, 0.0, 0.0;
    }

    /** A limiter in use: no attempt is in flight, and any buckets that can be left. */
    constructor Idle(config: Config, pairs: Table, ips: Table, now: real)
      requires ConfigOk(config) && 0.0 <= now && |pairs| <= config.maxPairKeys && |ips| <= config.maxIpKeys
      requires TableOk(pairs, config.pairMaxFailures, now) && TableOk(ips, config.ipMaxFailures, now)
      requires NoneEmpty(pairs, {}) && NoneEmpty(ips, {})
      requires forall key :: key in pairs ==> pairs[key].inFlight == 0
      requires forall key :: key in ips ==> ips[key].inFlight == 0
      ensures Valid() && clock == now && lastCleanup == now
      ensures this.config == config && this.pairs == pairs && this.ips == ips && leases == map[]
    {
      this.config, this.pairs, this.ips := config, pairs, ips;
      leases, nextToken, lastCleanup, clock := map[], 1, now, now;
      new;
      IdleAccounted(pairs);
      IdleAccounted(ips);
      assert PairOwner(leases) == map[] && IpOwner(leases) == map[];
    }

    ghost predicate PairsOk(now: real, but: set<Key>)
      reads this`pairs, this`leases
    {
      TableValid(pairs, PairOwner(leases), config.pairMaxFailures, config.maxPairKeys, now, but)
    }

    ghost predicate IpsOk(now: real, but: set<Key>)
      reads this`ips, this`leases
    {
      TableValid(ips, IpOwner(leases), config.ipMaxFailures, config.maxIpKeys, now, but)
    }

    /** Time moves on: what held at an earlier clock still holds. */
    ghost method Tick(now: real)
      requires Valid() && clock <= now
      modifies this`clock
      ensures Valid() && clock == now
    {
      LaterOk(pairs, PairOwner(leases), config.pairMaxFailures, config.maxPairKeys, clock, now, {});
      LaterOk(ips, IpOwner(leases), config.ipMaxFailures, config.maxIpKeys, clock, now, {});
      clock := now;
    }

    /** `_release_lease`, together with the removal of the lease. */
    method Release(token: nat, now: real, ghost but: set<Key>) returns (lease: Lease)
      requires token in leases && LeasesOk() && PairsOk(now, but) && IpsOk(now, but)
      modifies this`pairs, this`ips, this`leases
      ensures lease == old(leases)[token] && leases == old(leases) - {token} && LeasesOk()
      ensures lease.pairKey in old(pairs) && old(pairs)[lease.pairKey].inFlight > 0
      ensures lease.ipKey in old(ips) && old(ips)[lease.ipKey].inFlight > 0
      ensures pairs == old(pairs)[lease.pairKey := ReleasedBucket(old(pairs)[lease.pairKey], now)]
      ensures ips == old(ips)[lease.ipKey := ReleasedBucket(old(ips)[lease.ipKey], now)]
      ensures PairsOk(now, but + {lease.pairKey}) && IpsOk(now, but + {lease.ipKey})
      ensures LocksKept(old(pairs), pairs, now) && LocksKept(old(ips), ips, now)
    {
      hide TableValid, LocksKept;
      lease := leases[token];
      ReleaseOk(pairs, PairOwner(leases), config.pairMaxFailures, config.maxPairKeys, now, token, but);
      ReleaseOk(ips, IpOwner(leases), config.ipMaxFailures, config.maxIpKeys, now, token, but);
      leases := leases - {token};
      assert PairOwner(leases) == PairOwner(old(leases)) - {token};
      assert IpOwner(leases) == IpOwner(old(leases)) - {token};
      pairs := pairs[lease.pairKey := ReleasedBucket(pairs[lease.pairKey], now)];
      ips := ips[lease.ipKey := ReleasedBucket(ips[lease.ipKey], now)];
    }

    method DropBoth(pairKey: Key, ipKey: Key, now: real)
      requires PairsOk(now, {pairKey}) && IpsOk(now, {ipKey}) && 0.0 <= now
      modifies this`pairs, this`ips
      ensures pairs == DropEmpty(old(pairs), pairKey) && ips == DropEmpty(old(ips), ipKey)
      ensures PairsOk(now, {}) && IpsOk(now, {})
      ensures LocksKept(old(pairs), pairs, now) && LocksKept(old(ips), ips, now)
    {
      hide TableValid, LocksKept;
      DropEmptyOk(pairs, PairOwner(leases), config.pairMaxFailures, config.maxPairKeys, now, pairKey);
      DropEmptyOk(ips, IpOwner(leases), config.ipMaxFailures, config.maxIpKeys, now, ipKey);
      pairs := DropEmpty(pairs, pairKey);
      ips := DropEmpty(ips, ipKey);
    }

    /** `cancel`: the lease goes, nothing is counted against anyone. */
    method Cancel(token: nat, now: real)
      requires Valid() && clock <= now
      modifies this
      ensures Valid() && clock == now
      ensures token !in leases && leases == old(leases) - {token}
      ensures token !in old(leases) ==> pairs == old(pairs) && ips == old(ips)
      ensures token in old(leases) ==>
        var lease := old(leases)[token];
        && lease.pairKey in old(pairs) && lease.ipKey in old(ips)
        && pairs == DropEmpty(
             With(old(pairs), lease.pairKey, ReleasedBucket(old(pairs)[lease.pairKey], now)), lease.pairKey)
        && ips == DropEmpty(With(old(ips), lease.ipKey, ReleasedBucket(old(ips)[lease.ipKey], now)), lease.ipKey)
      ensures LocksKept(old(pairs), pairs, now) && LocksKept(old(ips), ips, now)
    {
      hide TableValid, LocksKept, DropEmpty;
      Tick(now);
      LocksSame(pairs, now);
      LocksSame(ips, now);
      if token !in leases {
        return;
      }
      var lease := Release(token, now, {});
      ghost var pairs', ips' := pairs, ips;
      assert {} + {lease.pairKey} == {lease.pairKey} && {} + {lease.ipKey} == {lease.ipKey};
      DropBoth(lease.pairKey, lease.ipKey, now);
      LocksTrans(old(pairs), pairs', pairs, now);
      LocksTrans(old(ips), ips', ips, now);
    }

    /** `success`: clears the pair and only the pair. */
    method Success(token: nat, now: real)
      requires Valid() && clock <= now
      modifies this
      ensures Valid() && clock == now
      ensures token !in leases && leases == old(leases) - {token}
      ensures LocksKept(old(ips), ips, now)
      ensures token in old(leases) ==>
        FailuresOf(pairs, old(leases)[token].pairKey) == [] && LockOf(pairs, old(leases)[token].pairKey) == 0.0
      ensures forall key :: key in old(pairs) && (token in old(leases) ==> key != old(leases)[token].pairKey) ==>
        key in pairs && pairs[key] == old(pairs)[key]
      ensures LocksKept(
        if token in old(leases) then old(pairs) - {old(leases)[token].pairKey} else old(pairs), pairs, now)
      ensures token !in old(leases) ==> pairs == old(pairs) && ips == old(ips)
      ensures token in old(leases) ==>
        var lease := old(leases)[token];
        && lease.pairKey in old(pairs) && lease.ipKey in old(ips)
        && pairs == DropEmpty(
             With(old(pairs), lease.pairKey, Cleared(ReleasedBucket(old(pairs)[lease.pairKey], now))), lease.pairKey)
        && ips == DropEmpty(
             With(old(ips), lease.ipKey, Prepared(ReleasedBucket(old(ips)[lease.ipKey], now), now, config.window)),
             lease.ipKey)
    {
      hide TableValid, LocksKept, DropEmpty, Prepared, FailuresOf, LockOf;
      Tick(now);
      LocksSame(pairs, now);
      LocksSame(ips, now);
      if token !in leases {
        return;
      }
      var lease := Release(token, now, {});
      ghost var pairs1, ips1 := pairs, ips;
      assert {} + {lease.pairKey} == {lease.pairKey} && {} + {lease.ipKey} == {lease.ipKey};
      ClearPair(lease.pairKey, lease.ipKey, now);
      WithTwice(old(pairs), lease.pairKey, pairs1[lease.pairKey], Cleared(pairs1[lease.pairKey]));
      DroppedClean(old(pairs), lease.pairKey, Cleared(pairs1[lease.pairKey]));
      WithTwice(old(ips), lease.ipKey, ips1[lease.ipKey], Prepared(ips1[lease.ipKey], now, config.window));
      LocksTrans(old(ips), ips1, ips, now);
      LocksMinus(old(pairs), pairs1, now, lease.pairKey);
      LocksTrans(old(pairs) - {lease.pairKey}, pairs1 - {lease.pairKey}, pairs, now);
    }

    method ClearPair(pairKey: Key, ipKey: Key, now: real)
      requires PairsOk(now, {pairKey}) && IpsOk(now, {ipKey}) && 0.0 <= now
      requires pairKey in pairs && ipKey in ips
      modifies this`pairs, this`ips
      ensures PairsOk(now, {}) && IpsOk(now, {})
      ensures pairs == DropEmpty(With(old(pairs), pairKey, Cleared(old(pairs)[pairKey])), pairKey)
      ensures ips == DropEmpty(With(old(ips), ipKey, Prepared(old(ips)[ipKey], now, config.window)), ipKey)
      ensures LocksKept(old(pairs) - {pairKey}, pairs, now) && LocksKept(old(ips), ips, now)
    {
      hide TableValid, LocksKept;
      ClearOk(pairs, PairOwner(leases), config.pairMaxFailures, config.maxPairKeys, now, pairKey);
      FreshenOk(ips, IpOwner(leases), config.ipMaxFailures, config.maxIpKeys, now, ipKey, config.window);
      var ip := PrepareBucket(ips[ipKey], now, config.window);
      ips := ips[ipKey := ip];
      pairs := pairs[pairKey := Cleared(pairs[pairKey])];
      ghost var pairs2, ips2 := pairs, ips;
      DropBoth(pairKey, ipKey, now);
      LocksTrans(old(ips), ips2, ips, now);
      LocksTrans(old(pairs) - {pairKey}, pairs2, pairs, now);
    }

    /** `failure`: counts on both buckets, and locks those at their threshold. */
    method Failure(token: nat, now: real)
      requires Valid() && clock <= now
      modifies this
      ensures Valid() && clock == now
      ensures token !in leases && leases == old(leases) - {token}
      ensures LocksKept(old(pairs), pairs, now) && LocksKept(old(ips), ips, now)
      ensures token in old(leases) ==>
        && Counted(pairs, old(leases)[token].pairKey, config.pairMaxFailures, now)
        && Counted(ips, old(leases)[token].ipKey, config.ipMaxFailures, now)
      ensures token !in old(leases) ==> pairs == old(pairs) && ips == old(ips)
      ensures token in old(leases) ==>
        var lease := old(leases)[token];
        && lease.pairKey in old(pairs) && lease.pairKey in pairs && lease.ipKey in old(ips) && lease.ipKey in ips
        && Charged(old(pairs)[lease.pairKey], pairs[lease.pairKey], now, config.window,
                   config.pairMaxFailures, config.pairLock)
        && Charged(old(ips)[lease.ipKey], ips[lease.ipKey], now, config.window, config.ipMaxFailures, config.ipLock)
      ensures token in old(leases) ==>
        var lease := old(leases)[token];
        && lease.pairKey in old(pairs) && lease.ipKey in old(ips)
        && pairs == With(old(pairs), lease.pairKey,
             FailedBucket(ReleasedBucket(old(pairs)[lease.pairKey], now), now, config.window,
                          config.pairMaxFailures, config.pairLock))
        && ips == With(old(ips), lease.ipKey,
             FailedBucket(ReleasedBucket(old(ips)[lease.ipKey], now), now, config.window,
                          config.ipMaxFailures, config.ipLock))
    {
      hide TableValid, LocksKept, FailedBucket, Counted, Charged;
      Tick(now);
      LocksSame(pairs, now);
      LocksSame(ips, now);
      if token !in leases {
        return;
      }
      BothCharged(token, now);
      var lease := Release(token, now, {});
      ghost var pairs1, ips1 := pairs, ips;
      assert {} + {lease.pairKey} == {lease.pairKey} && {} + {lease.ipKey} == {lease.ipKey};
      CountBoth(old(pairs), old(ips), old(leases), lease, now);
      WithTwice(old(pairs), lease.pairKey, pairs1[lease.pairKey], pairs[lease.pairKey]);
      WithTwice(old(ips), lease.ipKey, ips1[lease.ipKey], ips[lease.ipKey]);
      LocksTrans(old(pairs), pairs1, pairs, now);
      LocksTrans(old(ips), ips1, ips, now);
    }

    lemma BothCharged(token: nat, now: real)
      requires PairsOk(now, {}) && IpsOk(now, {}) && token in leases
      ensures var key := leases[token].pairKey;
        key in pairs && var after := FailedBucket(
          ReleasedBucket(pairs[key], now), now, config.window, config.pairMaxFailures, config.pairLock);
        Charged(pairs[key], after, now, config.window, config.pairMaxFailures, config.pairLock)
      ensures var key := leases[token].ipKey;
        key in ips && var after := FailedBucket(
          ReleasedBucket(ips[key], now), now, config.window, config.ipMaxFailures, config.ipLock);
        Charged(ips[key], after, now, config.window, config.ipMaxFailures, config.ipLock)
    {
      hide FailedBucket, Charged;
      ReleaseOk(pairs, PairOwner(leases), config.pairMaxFailures, config.maxPairKeys, now, token, {});
      ReleaseOk(ips, IpOwner(leases), config.ipMaxFailures, config.maxIpKeys, now, token, {});
      var pairKey, ipKey := leases[token].pairKey, leases[token].ipKey;
      assert BucketOk(pairs[pairKey], config.pairMaxFailures, now) && BucketOk(ips[ipKey], config.ipMaxFailures, now);
      ChargedOk(pairs[pairKey], now, config.window, config.pairMaxFailures, config.pairLock);
      ChargedOk(ips[ipKey], now, config.window, config.ipMaxFailures, config.ipLock);
    }

    method CountBoth(ghost pairs0: Table, ghost ips0: Table, ghost leases0: map<nat, Lease>, lease: Lease, now: real)
      requires PairsOk(now, {lease.pairKey}) && IpsOk(now, {lease.ipKey}) && 0.0 <= now && ConfigOk(config)
      requires TableValid(pairs0, PairOwner(leases0), config.pairMaxFailures, config.maxPairKeys, now, {})
      requires TableValid(ips0, IpOwner(leases0), config.ipMaxFailures, config.maxIpKeys, now, {})
      requires lease.pairKey in pairs0 && pairs0[lease.pairKey].inFlight > 0
      requires lease.ipKey in ips0 && ips0[lease.ipKey].inFlight > 0
      requires lease.pairKey in pairs && pairs[lease.pairKey] == ReleasedBucket(pairs0[lease.pairKey], now)
      requires lease.ipKey in ips && ips[lease.ipKey] == ReleasedBucket(ips0[lease.ipKey], now)
      modifies this`pairs, this`ips
      ensures PairsOk(now, {}) && IpsOk(now, {})
      ensures Counted(pairs, lease.pairKey, config.pairMaxFailures, now)
      ensures Counted(ips, lease.ipKey, config.ipMaxFailures, now)
      ensures pairs == With(old(pairs), lease.pairKey,
        FailedBucket(old(pairs)[lease.pairKey], now, config.window, config.pairMaxFailures, config.pairLock))
      ensures ips == With(old(ips), lease.ipKey,
        FailedBucket(old(ips)[lease.ipKey], now, config.window, config.ipMaxFailures, config.ipLock))
      ensures LocksKept(old(pairs), pairs, now) && LocksKept(old(ips), ips, now)
    {
      hide TableValid, LocksKept, Counted;
      FailOk(pairs0, PairOwner(leases0), pairs, PairOwner(leases), config.pairMaxFailures, config.maxPairKeys, now,
             lease.pairKey, config.window, config.pairLock);
      FailOk(ips0, IpOwner(leases0), ips, IpOwner(leases), config.ipMaxFailures, config.maxIpKeys, now,
             lease.ipKey, config.window, config.ipLock);
      var pair := FailBucket(pairs[lease.pairKey], now, config.window, config.pairMaxFailures, config.pairLock);
      var ip := FailBucket(ips[lease.ipKey], now, config.window, config.ipMaxFailures, config.ipLock);
      pairs := pairs[lease.pairKey := pair];
      ips := ips[lease.ipKey := ip];
    }

    predicate CleanupDue(now: real)
      reads this`lastCleanup
    {
      now - lastCleanup >= config.cleanupInterval
    }

    /** The leases, and each table, as a cleanup at `now` leaves them: stale leases
        forgotten, every bucket prepared, empty ones dropped. Without a cleanup
        they stay as they are. */
    ghost function TidyLeases(now: real): map<nat, Lease>
      reads this`leases, this`lastCleanup
    {
      if CleanupDue(now) then Fresh(leases, now, config.leaseTimeout) else leases
    }

    ghost function TidyPairs(now: real): Table
      reads this`pairs, this`leases, this`lastCleanup
    {
      if CleanupDue(now) then
        var left := ReleasedTable(pairs, PairOwner(leases), PairOwner(TidyLeases(now)), now);
        SweptTable(left, now, config.window)
      else pairs
    }

    ghost function TidyIps(now: real): Table
      reads this`ips, this`leases, this`lastCleanup
    {
      if CleanupDue(now) then
        var left := ReleasedTable(ips, IpOwner(leases), IpOwner(TidyLeases(now)), now);
        SweptTable(left, now, config.window)
      else ips
    }

    /** `_cleanup_if_due`: forgets stale leases, then sweeps both tables. */
    method CleanupIfDue(now: real)
      requires Valid() && clock == now
      modifies this`pairs, this`ips, this`leases, this`lastCleanup
      ensures Valid() && clock == now
      ensures lastCleanup == if now - old(lastCleanup) >= config.cleanupInterval then now else old(lastCleanup)
      ensures forall t :: t in leases <==>
        t in old(leases)
        && (now - old(lastCleanup) >= config.cleanupInterval ==> now - old(leases)[t].startedAt < config.leaseTimeout)
      ensures leases == old(TidyLeases(now)) && pairs == old(TidyPairs(now)) && ips == old(TidyIps(now))
      ensures LocksKept(old(pairs), pairs, now) && LocksKept(old(ips), ips, now)
    {
      hide TableValid, LocksKept, ReleasedTable, SweptTable;
      LocksSame(pairs, now);
      LocksSame(ips, now);
      if !CleanupDue(now) {
        return;
      }
      lastCleanup := now;
      var stale := set t | t in leases && Stale(leases[t], now, config.leaseTimeout);
      ghost var but := ForgetStale(stale, now);
      ghost var pairs1, ips1 := pairs, ips;
      SweepAll(now, but);
      LocksTrans(old(pairs), pairs1, pairs, now);
      LocksTrans(old(ips), ips1, ips, now);
    }

    /** Releases the stale leases one by one. */
    method ForgetStale(tokens: set<nat>, now: real) returns (ghost but: set<Key>)
      requires PairsOk(now, {}) && IpsOk(now, {}) && LeasesOk() && tokens <= leases.Keys
      requires forall t :: t in leases ==> (t in tokens <==> Stale(leases[t], now, config.leaseTimeout))
      modifies this`pairs, this`ips, this`leases
      ensures PairsOk(now, but) && IpsOk(now, but) && LeasesOk()
      ensures leases == Fresh(old(leases), now, config.leaseTimeout)
      ensures pairs == ReleasedTable(old(pairs), PairOwner(old(leases)), PairOwner(leases), now)
      ensures ips == ReleasedTable(old(ips), IpOwner(old(leases)), IpOwner(leases), now)
      ensures LocksKept(old(pairs), pairs, now) && LocksKept(old(ips), ips, now)
    {
      hide TableValid, LocksKept, ReleasedTable, PairOwner, IpOwner, Within, With;
      var stale := tokens;
      but := {};
      LocksSame(pairs, now);
      LocksSame(ips, now);
      NoneReleased(now);
      while stale != {}
        invariant stale <= leases.Keys && LeasesOk()
        invariant forall t :: t in leases ==> (t in stale <==> Stale(leases[t], now, config.leaseTimeout))
        invariant Fresh(leases, now, config.leaseTimeout) == Fresh(old(leases), now, config.leaseTimeout)
        invariant pairs == ReleasedTable(old(pairs), PairOwner(old(leases)), PairOwner(leases), now)
        invariant ips == ReleasedTable(old(ips), IpOwner(old(leases)), IpOwner(leases), now)
        invariant Within(PairOwner(leases), PairOwner(old(leases))) && Within(IpOwner(leases), IpOwner(old(leases)))
        invariant pairs.Keys == old(pairs).Keys && ips.Keys == old(ips).Keys
        invariant PairsOk(now, but) && IpsOk(now, but)
        invariant LocksKept(old(pairs), pairs, now) && LocksKept(old(ips), ips, now)
      {
        var token :| token in stale;
        but := ForgetOne(old(pairs), old(ips), old(leases), token, now, but);
        stale := stale - {token};
      }
      assert leases == Fresh(leases, now, config.leaseTimeout);
    }

    lemma NoneReleased(now: real)
      requires PairsOk(now, {}) && IpsOk(now, {})
      ensures pairs == ReleasedTable(pairs, PairOwner(leases), PairOwner(leases), now)
      ensures ips == ReleasedTable(ips, IpOwner(leases), IpOwner(leases), now)
      ensures Within(PairOwner(leases), PairOwner(leases)) && Within(IpOwner(leases), IpOwner(leases))
    {
      hide ReleasedTable, PairOwner, IpOwner;
      ReleasedNone(pairs, PairOwner(leases), now);
      ReleasedNone(ips, IpOwner(leases), now);
    }

    /** One stale lease less, on the way from the state of `pairs0`, `ips0`, `leases0`. */
    method ForgetOne(
      ghost pairs0: Table, ghost ips0: Table, ghost leases0: map<nat, Lease>, token: nat, now: real,
      ghost was: set<Key>)
      returns (ghost but: set<Key>)
      requires token in leases && LeasesOk() && PairsOk(now, was) && IpsOk(now, was)
      requires Stale(leases[token], now, config.leaseTimeout)
      requires pairs == ReleasedTable(pairs0, PairOwner(leases0), PairOwner(leases), now)
      requires ips == ReleasedTable(ips0, IpOwner(leases0), IpOwner(leases), now)
      requires Within(PairOwner(leases), PairOwner(leases0)) && Within(IpOwner(leases), IpOwner(leases0))
      requires pairs.Keys == pairs0.Keys && ips.Keys == ips0.Keys
      requires LocksKept(pairs0, pairs, now) && LocksKept(ips0, ips, now)
      modifies this`pairs, this`ips, this`leases
      ensures leases == old(leases) - {token} && LeasesOk() && PairsOk(now, but) && IpsOk(now, but)
      ensures Fresh(leases, now, config.leaseTimeout) == Fresh(old(leases), now, config.leaseTimeout)
      ensures pairs == ReleasedTable(pairs0, PairOwner(leases0), PairOwner(leases), now)
      ensures ips == ReleasedTable(ips0, IpOwner(leases0), IpOwner(leases), now)
      ensures Within(PairOwner(leases), PairOwner(leases0)) && Within(IpOwner(leases), IpOwner(leases0))
      ensures pairs.Keys == pairs0.Keys && ips.Keys == ips0.Keys
      ensures LocksKept(pairs0, pairs, now) && LocksKept(ips0, ips, now)
    {
      hide TableValid, LocksKept, ReleasedTable, PairOwner, IpOwner, Within, Fresh;
      ghost var pairs', ips' := pairs, ips;
      FreshWithout(leases, now, config.leaseTimeout, token);
      OwnersShrink(leases, token);
      var lease := Release(token, now, was);
      ReleasedStep(pairs0, PairOwner(leases0), PairOwner(old(leases)), now, token);
      ReleasedStep(ips0, IpOwner(leases0), IpOwner(old(leases)), now, token);
      WithinLess(PairOwner(old(leases)), PairOwner(leases0), token);
      WithinLess(IpOwner(old(leases)), IpOwner(leases0), token);
      LocksTrans(pairs0, pairs', pairs, now);
      LocksTrans(ips0, ips', ips, now);
      but := was + {lease.pairKey, lease.ipKey};
      Widen(pairs, PairOwner(leases), config.pairMaxFailures, config.maxPairKeys, now, was + {lease.pairKey}, but);
      Widen(ips, IpOwner(leases), config.ipMaxFailures, config.maxIpKeys, now, was + {lease.ipKey}, but);
    }

    method SweepAll(now: real, ghost but: set<Key>)
      requires PairsOk(now, but) && IpsOk(now, but) && 0.0 <= now
      modifies this`pairs, this`ips
      ensures PairsOk(now, {}) && IpsOk(now, {})
      ensures pairs == SweptTable(old(pairs), now, config.window)
      ensures ips == SweptTable(old(ips), now, config.window)
      ensures LocksKept(old(pairs), pairs, now) && LocksKept(old(ips), ips, now)
    {
      hide TableValid, LocksKept, SweptTable;
      AllSorted(pairs, PairOwner(leases), config.pairMaxFailures, config.maxPairKeys, now, but);
      AllSorted(ips, IpOwner(leases), config.ipMaxFailures, config.maxIpKeys, now, but);
      var swept := Sweep(pairs, now, config.window);
      SweepOk(pairs, swept, PairOwner(leases), config.pairMaxFailures, config.maxPairKeys, now, config.window, but);
      pairs := swept;
      swept := Sweep(ips, now, config.window);
      SweepOk(ips, swept, IpOwner(leases), config.ipMaxFailures, config.maxIpKeys, now, config.window, but);
      ips := swept;
    }

    /** `begin` after its cleanup: a lease is given exactly when both buckets admit it. */
    method Reserve(pairKey: Key, ipKey: Key, now: real) returns (token: Option<nat>)
      requires Valid() && clock == now && pairKey.PairKey? && ipKey == IpKey(pairKey.ip)
      modifies this`pairs, this`ips, this`leases, this`nextToken
      ensures Valid() && clock == now
      ensures token.Some? <==>
        && CanEnter(old(pairs), pairKey, config.pairMaxFailures, config.maxPairKeys, now, config.window)
        && CanEnter(old(ips), ipKey, config.ipMaxFailures, config.maxIpKeys, now, config.window)
      ensures token.Some? ==>
        token.value !in old(leases) && leases == old(leases)[token.value := Lease(pairKey, ipKey, now)]
      ensures token.None? ==> leases == old(leases)
      ensures token.Some? ==>
        && Entered(old(pairs), pairs, pairKey, config.maxPairKeys, now, config.window)
        && Entered(old(ips), ips, ipKey, config.maxIpKeys, now, config.window)
      ensures token.None? ==>
        && TurnedAway(old(pairs), pairs, pairKey, config.maxPairKeys, now, config.window)
        && TurnedAway(old(ips), ips, ipKey, config.maxIpKeys, now, config.window)
      ensures LocksKept(old(pairs), pairs, now) && LocksKept(old(ips), ips, now)
    {
      hide TableValid, LocksKept, HasRoom, Admits, OthersKept, Entered, TurnedAway, DropEmpty, Prepared;
      var pairFound, ipFound;
      pairs, pairFound := Open(
        pairs, PairOwner(leases), config.pairMaxFailures, config.maxPairKeys, now, pairKey, config.window);
      ips, ipFound := Open(
        ips, IpOwner(leases), config.ipMaxFailures, config.maxIpKeys, now, ipKey, config.window);
      ghost var pairs1, ips1 := pairs, ips;
      token := TryTake(pairKey, ipKey, now, pairFound && ipFound, old(pairs), old(ips));
      LocksTrans(old(pairs), pairs1, pairs, now);
      LocksTrans(old(ips), ips1, ips, now);
    }

    /** What `begin` does with the buckets it found or made in `pairs0` and `ips0`. */
    method TryTake(pairKey: Key, ipKey: Key, now: real, found: bool, ghost pairs0: Table, ghost ips0: Table)
      returns (token: Option<nat>)
      requires PairsOk(now, {pairKey}) && IpsOk(now, {ipKey}) && 0.0 <= now && LeasesOk() && ConfigOk(config)
      requires pairKey.PairKey? && ipKey == IpKey(pairKey.ip) && (found ==> pairKey in pairs && ipKey in ips)
      requires if pairKey in pairs then pairs[pairKey] == Found(pairs0, pairKey, now) else pairKey !in pairs0
      requires if ipKey in ips then ips[ipKey] == Found(ips0, ipKey, now) else ipKey !in ips0
      requires OthersKept(pairs0, pairs, pairKey, config.maxPairKeys, now)
      requires OthersKept(ips0, ips, ipKey, config.maxIpKeys, now)
      modifies this`pairs, this`ips, this`leases, this`nextToken
      ensures PairsOk(now, {}) && IpsOk(now, {}) && LeasesOk()
      ensures token.Some? <==>
        && found
        && Admits(old(pairs)[pairKey], config.pairMaxFailures, now, config.window)
        && Admits(old(ips)[ipKey], config.ipMaxFailures, now, config.window)
      ensures token.Some? ==>
        && token.value !in old(leases) && leases == old(leases)[token.value := Lease(pairKey, ipKey, now)]
        && Entered(pairs0, pairs, pairKey, config.maxPairKeys, now, config.window)
        && Entered(ips0, ips, ipKey, config.maxIpKeys, now, config.window)
      ensures token.None? ==>
        && leases == old(leases)
        && TurnedAway(pairs0, pairs, pairKey, config.maxPairKeys, now, config.window)
        && TurnedAway(ips0, ips, ipKey, config.maxIpKeys, now, config.window)
      ensures LocksKept(old(pairs), pairs, now) && LocksKept(old(ips), ips, now)
    {
      hide TableValid, LocksKept, Admits, OthersKept, Entered, TurnedAway, DropEmpty, Prepared;
      if found {
        token := Take(pairKey, ipKey, now);
      } else {
        DropBoth(pairKey, ipKey, now);
        token := None;
      }
      if token.Some? {
        EnteredOk(pairs0, old(pairs), pairKey, config.maxPairKeys, now, config.window);
        EnteredOk(ips0, old(ips), ipKey, config.maxIpKeys, now, config.window);
      } else {
        TurnedAwayOk(pairs0, old(pairs), pairKey, config.maxPairKeys, now, config.window, found);
        TurnedAwayOk(ips0, old(ips), ipKey, config.maxIpKeys, now, config.window, found);
      }
    }

    /** The part of `begin` that has both buckets at hand. */
    method Take(pairKey: Key, ipKey: Key, now: real) returns (token: Option<nat>)
      requires PairsOk(now, {pairKey}) && IpsOk(now, {ipKey}) && 0.0 <= now && LeasesOk() && ConfigOk(config)
      requires pairKey in pairs && ipKey in ips && pairKey.PairKey? && ipKey == IpKey(pairKey.ip)
      modifies this`pairs, this`ips, this`leases, this`nextToken
      ensures PairsOk(now, {}) && IpsOk(now, {}) && LeasesOk()
      ensures token.Some? <==>
        && Admits(old(pairs)[pairKey], config.pairMaxFailures, now, config.window)
        && Admits(old(ips)[ipKey], config.ipMaxFailures, now, config.window)
      ensures token.Some? ==>
        token.value !in old(leases) && leases == old(leases)[token.value := Lease(pairKey, ipKey, now)]
      ensures token.None? ==> leases == old(leases)
      ensures
        var pair, ip := Seen(old(pairs)[pairKey], now, config.window), Seen(old(ips)[ipKey], now, config.window);
        if token.Some?
        then pairs == With(old(pairs), pairKey, Leased(pair)) && ips == With(old(ips), ipKey, Leased(ip))
        else
          && pairs == DropEmpty(With(old(pairs), pairKey, pair), pairKey)
          && ips == DropEmpty(With(old(ips), ipKey, ip), ipKey)
      ensures LocksKept(old(pairs), pairs, now) && LocksKept(old(ips), ips, now)
    {
      hide TableValid, LocksKept, Prepared, DropEmpty;
      pairs := See(pairs, PairOwner(leases), config.pairMaxFailures, config.maxPairKeys, now, pairKey, config.window);
      ips := See(ips, IpOwner(leases), config.ipMaxFailures, config.maxIpKeys, now, ipKey, config.window);
      var pair, ip := pairs[pairKey], ips[ipKey];
      ghost var pairs1, ips1 := pairs, ips;
      if pair.blockedUntil > now || ip.blockedUntil > now
         || |pair.failures| + pair.inFlight >= config.pairMaxFailures
         || |ip.failures| + ip.inFlight >= config.ipMaxFailures {
        DropBoth(pairKey, ipKey, now);
        token := None;
      } else {
        token := Issue(pairKey, ipKey, now);
        WithTwice(old(pairs), pairKey, pair, Leased(pair));
        WithTwice(old(ips), ipKey, ip, Leased(ip));
      }
      LocksTrans(old(pairs), pairs1, pairs, now);
      LocksTrans(old(ips), ips1, ips, now);
    }

    method Issue(pairKey: Key, ipKey: Key, now: real) returns (token: Option<nat>)
      requires PairsOk(now, {pairKey}) && IpsOk(now, {ipKey}) && LeasesOk()
      requires pairKey in pairs && ipKey in ips && pairKey.PairKey? && ipKey == IpKey(pairKey.ip)
      requires |pairs[pairKey].failures| + pairs[pairKey].inFlight < config.pairMaxFailures
      requires |ips[ipKey].failures| + ips[ipKey].inFlight < config.ipMaxFailures
      modifies this`pairs, this`ips, this`leases, this`nextToken
      ensures PairsOk(now, {}) && IpsOk(now, {}) && LeasesOk()
      ensures token.Some? && token.value !in old(leases)
      ensures leases == old(leases)[token.value := Lease(pairKey, ipKey, now)]
      ensures pairs == With(old(pairs), pairKey, Leased(old(pairs)[pairKey]))
      ensures ips == With(old(ips), ipKey, Leased(old(ips)[ipKey]))
      ensures LocksKept(old(pairs), pairs, now) && LocksKept(old(ips), ips, now)
    {
      hide TableValid, LocksKept, PairOwner, IpOwner;
      OwnersGrow(leases, nextToken, Lease(pairKey, ipKey, now));
      TakeOk(pairs, PairOwner(leases), config.pairMaxFailures, config.maxPairKeys, now, pairKey, nextToken);
      TakeOk(ips, IpOwner(leases), config.ipMaxFailures, config.maxIpKeys, now, ipKey, nextToken);
      token := Some(nextToken);
      pairs := pairs[pairKey := pairs[pairKey].(inFlight := pairs[pairKey].inFlight + 1)];
      ips := ips[ipKey := ips[ipKey].(inFlight := ips[ipKey].inFlight + 1)];
      leases := leases[nextToken := Lease(pairKey, ipKey, now)];
      nextToken := nextToken + 1;
    }

    /** `begin`: a lease, or `None` when the attempt is limited. */
    method Begin(ip: string, user: string, now: real) returns (token: Option<nat>)
      requires Valid() && clock <= now
      modifies this
      ensures Valid() && clock == now
      ensures LocksKept(old(pairs), pairs, now) && LocksKept(old(ips), ips, now)
      ensures LockedIn(old(pairs), PairKey(ip, user), now) || LockedIn(old(ips), IpKey(ip), now) ==> token.None?
      ensures token.Some? ==>
        token.value in leases && leases[token.value] == Lease(PairKey(ip, user), IpKey(ip), now)
      ensures leases ==
        if token.Some? then old(TidyLeases(now))[token.value := Lease(PairKey(ip, user), IpKey(ip), now)]
        else old(TidyLeases(now))
      ensures token.Some? ==> token.value !in old(TidyLeases(now))
      ensures token.Some? <==>
        && CanEnter(old(TidyPairs(now)), PairKey(ip, user), config.pairMaxFailures, config.maxPairKeys, now,
                    config.window)
        && CanEnter(old(TidyIps(now)), IpKey(ip), config.ipMaxFailures, config.maxIpKeys, now, config.window)
      ensures token.Some? ==>
        && Entered(old(TidyPairs(now)), pairs, PairKey(ip, user), config.maxPairKeys, now, config.window)
        && Entered(old(TidyIps(now)), ips, IpKey(ip), config.maxIpKeys, now, config.window)
      ensures token.None? ==>
        && TurnedAway(old(TidyPairs(now)), pairs, PairKey(ip, user), config.maxPairKeys, now, config.window)
        && TurnedAway(old(TidyIps(now)), ips, IpKey(ip), config.maxIpKeys, now, config.window)
    {
      hide TableValid, SweptTable, ReleasedTable, HasRoom, Entered, TurnedAway;
      Tick(now);
      CleanupIfDue(now);
      ghost var pairs1, ips1 := pairs, ips;
      token := Reserve(PairKey(ip, user), IpKey(ip), now);
      LocksTrans(old(pairs), pairs1, pairs, now);
      LocksTrans(old(ips), ips1, ips, now);
    }
  }
}
