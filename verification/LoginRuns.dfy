/** Whole runs of the login limiter: how long locks last, and what brings them
    about. Calls come in clock order. */
module LoginRuns {
  import opened Common
  import opened LimiterTable
  import opened LoginLimiter

  datatype Call =
    | BeginCall(ip: string, user: string, now: real)
    | FailureCall(token: nat, now: real)
    | SuccessCall(token: nat, now: real)
    | CancelCall(token: nat, now: real)

  ghost predicate InClockOrder(calls: seq<Call>, start: real) {
    && (forall i :: 0 <= i < |calls| ==> start <= calls[i].now)
    && (forall i, j :: 0 <= i < j < |calls| ==> calls[i].now <= calls[j].now)
  }

  /** The pairs a call may not unlock: all but the one a success is for. */
  ghost function Kept(pairs: Table, leases: map<nat, Lease>, call: Call): Table {
    if call.SuccessCall? && call.token in leases then pairs - {leases[call.token].pairKey} else pairs
  }

  ghost predicate Clears(call: Call, leases: map<nat, Lease>, key: Key) {
    call.SuccessCall? && call.token in leases && leases[call.token].pairKey == key
  }

  /** The call is a failure of this key. */
  ghost predicate Fails(call: Call, leases: map<nat, Lease>, key: Key) {
    call.FailureCall? && call.token in leases && leases[call.token].pairKey == key
  }

  // ---- how failures age ----

  /** Only the oldest failures are gone, and only such as are out of the window. */
  ghost predicate Drops(all: seq<real>, kept: seq<real>, cutoff: real) {
    exists k :: 0 <= k <= |all| && DropsAt(all, kept, cutoff, k)
  }

  ghost predicate DropsAt(all: seq<real>, kept: seq<real>, cutoff: real, k: int)
    requires 0 <= k <= |all|
  {
    kept == all[k..] && forall i :: 0 <= i < k ==> all[i] <= cutoff
  }

  lemma DropsNone(all: seq<real>, cutoff: real)
    ensures Drops(all, all, cutoff)
  {
    assert DropsAt(all, all, cutoff, 0);
  }

  lemma DropsTrans(a: seq<real>, b: seq<real>, c: seq<real>, early: real, late: real)
    requires Drops(a, b, early) && Drops(b, c, late) && early <= late
    ensures Drops(a, c, late)
  {
    var i :| 0 <= i <= |a| && DropsAt(a, b, early, i);
    var j :| 0 <= j <= |b| && DropsAt(b, c, late, j);
    forall n | 0 <= n < i + j ensures a[n] <= late {
      assert i <= n ==> a[n] == b[n - i];
    }
    assert DropsAt(a, c, late, i + j);
  }

  lemma TrimsDrops(all: seq<real>, kept: seq<real>, cutoff: real)
    requires Trims(all, kept, cutoff)
    ensures Drops(all, kept, cutoff)
  {
    var k :| 0 <= k <= |all| && TrimsAt(all, kept, cutoff, k);
    assert DropsAt(all, kept, cutoff, k);
  }

  /** An unlocked key stays unlocked and loses no failure of the window. */
  ghost predicate Ages(before: Table, after: Table, key: Key, now: real, window: real) {
    LockOf(before, key) == 0.0 ==>
      LockOf(after, key) == 0.0 && Drops(FailuresOf(before, key), FailuresOf(after, key), now - window)
  }

  lemma AgesTrans(a: Table, b: Table, c: Table, key: Key, now: real, window: real)
    requires Ages(a, b, key, now, window) && Ages(b, c, key, now, window)
    ensures Ages(a, c, key, now, window)
  {
    hide Drops;
    if LockOf(a, key) == 0.0 {
      DropsTrans(FailuresOf(a, key), FailuresOf(b, key), FailuresOf(c, key), now - window, now - window);
    }
  }

  lemma AgesSame(before: Table, after: Table, key: Key, now: real, window: real)
    requires FailuresOf(after, key) == FailuresOf(before, key) && LockOf(after, key) == LockOf(before, key)
    ensures Ages(before, after, key, now, window)
  {
    DropsNone(FailuresOf(before, key), now - window);
  }

  lemma PreparedAges(b: Bucket, now: real, window: real)
    requires Sorted(b.failures) && b.blockedUntil == 0.0
    ensures Prepared(b, now, window).blockedUntil == 0.0
    ensures Drops(b.failures, Prepared(b, now, window).failures, now - window)
  {
    PreparedIsTidied(b, now, window);
    TrimsDrops(b.failures, Prepared(b, now, window).failures, now - window);
  }

  /** A cleanup ages every key. */
  lemma TidyAges(limiter: Limiter, now: real)
    requires limiter.Valid() && limiter.clock <= now
    ensures var tidy := limiter.TidyPairs(now);
      && |tidy| <= |limiter.pairs|
      && (forall key :: key in tidy ==> Sorted(tidy[key].failures))
      && forall key :: Ages(limiter.pairs, tidy, key, now, limiter.config.window)
  {
    var pairs, tidy, window := limiter.pairs, limiter.TidyPairs(now), limiter.config.window;
    AllSorted(pairs, PairOwner(limiter.leases), limiter.config.pairMaxFailures, limiter.config.maxPairKeys,
              limiter.clock, {});
    assert tidy.Keys <= pairs.Keys;
    SubsetSize(tidy.Keys, pairs.Keys);
    if limiter.CleanupDue(now) {
      var left := ReleasedTable(pairs, PairOwner(limiter.leases), PairOwner(limiter.TidyLeases(now)), now);
      SweptAges(pairs, left, now, window);
    } else {
      forall key ensures Ages(pairs, tidy, key, now, window) {
        AgesSame(pairs, tidy, key, now, window);
      }
    }
  }

  lemma SweptAges(before: Table, left: Table, now: real, window: real)
    requires left.Keys == before.Keys
    requires forall key :: key in before ==>
      && Sorted(before[key].failures)
      && left[key].failures == before[key].failures && left[key].blockedUntil == before[key].blockedUntil
    ensures forall key :: Ages(before, SweptTable(left, now, window), key, now, window)
    ensures forall key :: key in SweptTable(left, now, window) ==> Sorted(SweptTable(left, now, window)[key].failures)
  {
    hide Drops;
    var after := SweptTable(left, now, window);
    forall key ensures Ages(before, after, key, now, window) {
      if key in before && before[key].blockedUntil == 0.0 {
        PreparedAges(left[key], now, window);
      } else if key !in before {
        DropsNone([], now - window);
      }
    }
    forall key | key in after ensures Sorted(after[key].failures) {
      AfterShrinks(left[key].failures, now - window);
    }
  }

  /** An attempt ages its own key, and leaves others alone unless the table is full. */
  lemma EnterAges(before: Table, after: Table, own: Key, cap: int, now: real, window: real)
    requires |before| < cap && forall key :: key in before ==> Sorted(before[key].failures)
    requires Entered(before, after, own, cap, now, window) || TurnedAway(before, after, own, cap, now, window)
    ensures forall key :: Ages(before, after, key, now, window)
  {
    hide Drops, Prepared;
    forall key ensures Ages(before, after, key, now, window) {
      if key != own {
        AgesSame(before, after, key, now, window);
      } else {
        var found := Found(before, own, now);
        DropsNone(found.failures, now - window);
        if found.blockedUntil == 0.0 {
          PreparedAges(found, now, window);
        }
      }
    }
  }

  lemma CancelAges(before: Table, after: Table, own: Key, now: real, window: real)
    requires own in before && after == DropEmpty(With(before, own, ReleasedBucket(before[own], now)), own)
    ensures forall key :: Ages(before, after, key, now, window)
  {
    forall key ensures Ages(before, after, key, now, window) {
      AgesSame(before, after, key, now, window);
    }
  }

  // ---- one call ----

  /** What a call does to the failures of a key: a failure of it is charged, a
      success on it may clear it, and any other call only ages it. */
  ghost predicate Treats(
    call: Call, leases: map<nat, Lease>, before: Table, after: Table, key: Key, config: Config)
  {
    if Fails(call, leases, key) then
      key in before && key in after
      && Charged(before[key], after[key], call.now, config.window, config.pairMaxFailures, config.pairLock)
    else Clears(call, leases, key) || Ages(before, after, key, call.now, config.window)
  }

  method Perform(limiter: Limiter, call: Call) returns (token: Option<nat>)
    requires limiter.Valid() && limiter.clock <= call.now
    modifies limiter
    ensures limiter.Valid() && limiter.clock == call.now
    ensures LocksKept(old(limiter.ips), limiter.ips, call.now)
    ensures LocksKept(Kept(old(limiter.pairs), old(limiter.leases), call), limiter.pairs, call.now)
    ensures call.BeginCall? && LockedIn(old(limiter.ips), IpKey(call.ip), call.now) ==> token.None?
    ensures call.BeginCall? && LockedIn(old(limiter.pairs), PairKey(call.ip, call.user), call.now) ==> token.None?
    ensures |old(limiter.pairs)| < limiter.config.maxPairKeys ==>
      forall key :: Treats(call, old(limiter.leases), old(limiter.pairs), limiter.pairs, key, limiter.config)
  {
    hide TableValid, Charged, Ages, Entered, TurnedAway, SweptTable, ReleasedTable, DropEmpty, Prepared, FailedBucket;
    token := None;
    ghost var before, leases, window := limiter.pairs, limiter.leases, limiter.config.window;
    match call
    case BeginCall(ip, user, now) =>
      TidyAges(limiter, now);
      ghost var tidy := limiter.TidyPairs(now);
      token := limiter.Begin(ip, user, now);
      if |before| < limiter.config.maxPairKeys {
        EnterAges(tidy, limiter.pairs, PairKey(ip, user), limiter.config.maxPairKeys, now, window);
        forall key ensures Ages(before, limiter.pairs, key, now, window) {
          AgesTrans(before, tidy, limiter.pairs, key, now, window);
        }
      }
    case FailureCall(t, now) =>
      limiter.Failure(t, now);
      OthersAge(before, limiter.pairs, if t in leases then {leases[t].pairKey} else {}, now, window);
    case SuccessCall(t, now) =>
      limiter.Success(t, now);
      SuccessAges(limiter, before, leases, t, now);
    case CancelCall(t, now) =>
      limiter.Cancel(t, now);
      if t in leases {
        CancelAges(before, limiter.pairs, leases[t].pairKey, now, window);
      } else {
        OthersAge(before, limiter.pairs, {}, now, window);
      }
  }

  lemma OthersAge(before: Table, after: Table, own: set<Key>, now: real, window: real)
    requires forall key :: key !in own ==>
      FailuresOf(after, key) == FailuresOf(before, key) && LockOf(after, key) == LockOf(before, key)
    ensures forall key :: key !in own ==> Ages(before, after, key, now, window)
  {
    forall key | key !in own ensures Ages(before, after, key, now, window) {
      AgesSame(before, after, key, now, window);
    }
  }

  lemma SuccessAges(limiter: Limiter, before: Table, leases: map<nat, Lease>, t: nat, now: real)
    requires t !in leases ==> limiter.pairs == before
    requires t in leases ==>
      var key := leases[t].pairKey;
      && key in before
      && limiter.pairs == DropEmpty(With(before, key, Cleared(ReleasedBucket(before[key], now))), key)
    ensures forall key :: (t in leases ==> key != leases[t].pairKey) ==>
      Ages(before, limiter.pairs, key, now, limiter.config.window)
  {
    OthersAge(before, limiter.pairs, if t in leases then {leases[t].pairKey} else {}, now, limiter.config.window);
  }

  /** A locked address gets no lease before its lock expires, whatever happens. */
  method IpLockLasts(limiter: Limiter, calls: seq<Call>, ip: string, until: real) returns (given: seq<Option<nat>>)
    requires limiter.Valid() && InClockOrder(calls, limiter.clock)
    requires IpKey(ip) in limiter.ips && limiter.ips[IpKey(ip)].blockedUntil >= until
    modifies limiter
    ensures limiter.Valid() && |given| == |calls|
    ensures forall i :: 0 <= i < |calls| && calls[i].BeginCall? && calls[i].ip == ip && calls[i].now < until ==>
      given[i].None?
  {
    hide TableValid;
    given := [];
    for n := 0 to |calls|
      invariant limiter.Valid() && |given| == n
      invariant forall i :: n <= i < |calls| ==> limiter.clock <= calls[i].now
      invariant limiter.clock < until || n == 0 ==>
        IpKey(ip) in limiter.ips && limiter.ips[IpKey(ip)].blockedUntil >= until
      invariant forall i :: 0 <= i < n && calls[i].BeginCall? && calls[i].ip == ip && calls[i].now < until ==>
        given[i].None?
    {
      var token := Perform(limiter, calls[n]);
      given := given + [token];
    }
  }

  /** A locked pair gets no lease before its lock expires, unless a success on
      that very pair clears it first. `held` are the leases at each call. */
  method PairLockLasts(limiter: Limiter, calls: seq<Call>, ip: string, user: string, until: real)
    returns (given: seq<Option<nat>>, ghost held: seq<map<nat, Lease>>)
    requires limiter.Valid() && InClockOrder(calls, limiter.clock)
    requires PairKey(ip, user) in limiter.pairs && limiter.pairs[PairKey(ip, user)].blockedUntil >= until
    modifies limiter
    ensures limiter.Valid() && |given| == |held| == |calls|
    ensures forall i ::
      0 <= i < |calls| && calls[i].BeginCall? && calls[i].ip == ip && calls[i].user == user && calls[i].now < until
      && given[i].Some? ==>
        exists j :: 0 <= j < i && Clears(calls[j], held[j], PairKey(ip, user))
  {
    hide TableValid, LocksKept;
    given, held := [], [];
    ghost var cleared := false;
    for n := 0 to |calls|
      invariant limiter.Valid() && |given| == |held| == n
      invariant forall i :: n <= i < |calls| ==> limiter.clock <= calls[i].now
      invariant !cleared && (limiter.clock < until || n == 0) ==>
        PairKey(ip, user) in limiter.pairs && limiter.pairs[PairKey(ip, user)].blockedUntil >= until
      invariant cleared ==> exists j :: 0 <= j < n && Clears(calls[j], held[j], PairKey(ip, user))
      invariant forall i ::
        0 <= i < n && calls[i].BeginCall? && calls[i].ip == ip && calls[i].user == user && calls[i].now < until
        && given[i].Some? ==>
          exists j :: 0 <= j < i && Clears(calls[j], held[j], PairKey(ip, user))
    {
      var call := calls[n];
      held := held + [limiter.leases];
      ghost var pairs, leases := limiter.pairs, limiter.leases;
      var token := Perform(limiter, call);
      LockStays(Kept(pairs, leases, call), limiter.pairs, PairKey(ip, user), call.now, until);
      assert Clears(call, leases, PairKey(ip, user)) ==> Clears(calls[n], held[n], PairKey(ip, user));
      cleared := cleared || Clears(call, leases, PairKey(ip, user));
      given := given + [token];
    }
  }

  lemma LockStays(before: Table, after: Table, key: Key, now: real, until: real)
    requires LocksKept(before, after, now)
    ensures key in before && before[key].blockedUntil >= until && now < until ==>
      key in after && after[key].blockedUntil >= until
  {
  }

  // ---- what brings a lock about ----

  /** The times of the failures of a key among the first `n` calls. */
  ghost function FailTimes(calls: seq<Call>, held: seq<map<nat, Lease>>, n: nat, key: Key): seq<real>
    requires n <= |calls| && n <= |held|
  {
    if n == 0 then []
    else
      FailTimes(calls, held, n - 1, key)
        + if Fails(calls[n - 1], held[n - 1], key) then [calls[n - 1].now] else []
  }

  /** Call `m` is a failure that, with those before it, makes as many in one window as
      the threshold. */
  ghost predicate Reaches(calls: seq<Call>, held: seq<map<nat, Lease>>, m: nat, key: Key, config: Config)
    requires m < |calls| && m < |held|
  {
    var times := FailTimes(calls, held, m + 1, key);
    && Fails(calls[m], held[m], key) && 0 < config.pairMaxFailures <= |times|
    && times[|times| - config.pairMaxFailures] > calls[m].now - config.window
  }

  /** Nothing before call `n` may make the limiter forget the key: no success on it,
      and room in the table, which `tracked_pair_count` shows. */
  ghost predicate Undisturbed(calls: seq<Call>, held: seq<map<nat, Lease>>, sizes: seq<nat>, n: nat, key: Key, cap: int)
    requires n <= |calls| && n <= |held| && n <= |sizes|
  {
    forall i :: 0 <= i < n ==> !Clears(calls[i], held[i], key) && sizes[i] < cap
  }

  /** The state of an undisturbed key: unlocked, with the failures that still count,
      or locked since the call that reached the threshold. */
  ghost predicate Stands(
    pairs: Table, clock: real, calls: seq<Call>, held: seq<map<nat, Lease>>, n: nat, key: Key, config: Config,
    locked: Option<nat>)
    requires n <= |calls| && n <= |held|
  {
    match locked
    case None =>
      && (forall m :: 0 <= m < n ==> !Reaches(calls, held, m, key, config))
      && LockOf(pairs, key) == 0.0
      && Drops(FailTimes(calls, held, n, key), FailuresOf(pairs, key), clock - config.window)
    case Some(m) =>
      && m < n && Reaches(calls, held, m, key, config)
      && (forall i :: 0 <= i < m ==> !Reaches(calls, held, i, key, config))
      && (clock < calls[m].now + config.pairLock ==> LockOf(pairs, key) >= calls[m].now + config.pairLock)
  }

  /** The failures that count after a call are those of the whole log in the window. */
  lemma WholeTrim(times: seq<real>, before: seq<real>, earlier: seq<real>, early: real, late: real) returns (k: nat)
    requires early <= late && Drops(times, before, early) && Trims(before, earlier, late)
    ensures k <= |times| && TrimsAt(times, earlier, late, k)
  {
    hide DropsAt, TrimsAt;
    var i :| 0 <= i <= |times| && DropsAt(times, before, early, i);
    var j :| 0 <= j <= |before| && TrimsAt(before, earlier, late, j);
    k := i + j;
    TrimOfDrop(times, before, earlier, early, late, i, j);
  }

  lemma TrimOfDrop(times: seq<real>, before: seq<real>, earlier: seq<real>, early: real, late: real, i: nat, j: nat)
    requires early <= late && i <= |times| && j <= |before|
    requires DropsAt(times, before, early, i) && TrimsAt(before, earlier, late, j)
    ensures i + j <= |times| && TrimsAt(times, earlier, late, i + j)
  {
    assert |before| == |times| - i && forall n :: i <= n < |times| ==> times[n] == before[n - i];
    assert earlier == times[i + j..];
  }

  /** There are as many of them as the threshold asks for exactly if the last so many
      of the log are in the window. */
  lemma EnoughInWindow(times: seq<real>, earlier: seq<real>, cutoff: real, k: nat, now: real, limit: nat)
    requires k <= |times| && TrimsAt(times, earlier, cutoff, k) && cutoff < now && 0 < limit
    ensures var all := times + [now];
      |earlier| + 1 >= limit <==> limit <= |all| && all[|all| - limit] > cutoff
    ensures Drops(times + [now], earlier + [now], cutoff)
  {
    var all := times + [now];
    assert earlier + [now] == all[k..];
    assert DropsAt(all, earlier + [now], cutoff, k);
    if limit <= |all| {
      var at := |all| - limit;
      assert all[at] == if at < |times| then times[at] else now;
    }
  }

  /** One failure: it locks exactly if it reaches the threshold. */
  lemma ChargeDecides(times: seq<real>, before: Bucket, after: Bucket, was: real, now: real, config: Config)
    requires ConfigOk(config) && was <= now && before.blockedUntil == 0.0 && 0.0 <= now
    requires Drops(times, before.failures, was - config.window)
    requires Charged(before, after, now, config.window, config.pairMaxFailures, config.pairLock)
    ensures var all, n := times + [now], config.pairMaxFailures;
      if n <= |all| && all[|all| - n] > now - config.window then after.blockedUntil == now + config.pairLock
      else after.blockedUntil == 0.0 && Drops(all, after.failures, now - config.window)
  {
    hide Drops, Trims, TrimsAt;
    var earlier, cutoff := after.failures[..|after.failures| - 1], now - config.window;
    var k := WholeTrim(times, before.failures, earlier, was - config.window, cutoff);
    EnoughInWindow(times, earlier, cutoff, k, now, config.pairMaxFailures);
    assert after.failures == earlier + [now];
  }

  lemma StandsStep(
    before: Table, after: Table, was: real, calls: seq<Call>, held: seq<map<nat, Lease>>, n: nat, key: Key,
    config: Config, locked: Option<nat>)
    returns (next: Option<nat>)
    requires n < |calls| && n < |held| && ConfigOk(config) && 0.0 <= was <= calls[n].now
    requires Stands(before, was, calls, held, n, key, config, locked)
    requires !Clears(calls[n], held[n], key) && Treats(calls[n], held[n], before, after, key, config)
    requires LocksKept(Kept(before, held[n], calls[n]), after, calls[n].now)
    ensures Stands(after, calls[n].now, calls, held, n + 1, key, config, next)
  {
    hide Charged, Drops, Reaches, Ages, LocksKept;
    next := locked;
    if locked.Some? {
      LockedStep(before, after, calls[n], held[n], key, calls[locked.value].now + config.pairLock);
    } else if Fails(calls[n], held[n], key) {
      ChargeDecides(FailTimes(calls, held, n, key), before[key], after[key], was, calls[n].now, config);
      ReachesMeans(calls, held, n, key, config);
      if Reaches(calls, held, n, key, config) {
        next := Some(n);
      }
    } else {
      AgeStep(FailTimes(calls, held, n, key), before, after, was, calls[n].now, key, config.window);
      NoFailure(calls, held, n, key, config);
    }
  }

  lemma LockedStep(before: Table, after: Table, call: Call, leases: map<nat, Lease>, key: Key, until: real)
    requires LocksKept(Kept(before, leases, call), after, call.now) && !Clears(call, leases, key)
    ensures LockOf(before, key) >= until && call.now < until && 0.0 <= call.now ==> LockOf(after, key) >= until
  {
  }

  lemma ReachesMeans(calls: seq<Call>, held: seq<map<nat, Lease>>, n: nat, key: Key, config: Config)
    requires n < |calls| && n < |held| && Fails(calls[n], held[n], key) && 0 < config.pairMaxFailures
    ensures var all := FailTimes(calls, held, n, key) + [calls[n].now];
      && FailTimes(calls, held, n + 1, key) == all
      && (Reaches(calls, held, n, key, config) <==>
            config.pairMaxFailures <= |all|
            && all[|all| - config.pairMaxFailures] > calls[n].now - config.window)
  {
  }

  lemma NoFailure(calls: seq<Call>, held: seq<map<nat, Lease>>, n: nat, key: Key, config: Config)
    requires n < |calls| && n < |held| && !Fails(calls[n], held[n], key)
    ensures FailTimes(calls, held, n + 1, key) == FailTimes(calls, held, n, key)
    ensures !Reaches(calls, held, n, key, config)
  {
  }

  lemma AgeStep(times: seq<real>, before: Table, after: Table, was: real, now: real, key: Key, window: real)
    requires Drops(times, FailuresOf(before, key), was - window) && LockOf(before, key) == 0.0 && was <= now
    requires Ages(before, after, key, now, window)
    ensures LockOf(after, key) == 0.0 && Drops(times, FailuresOf(after, key), now - window)
  {
    hide Drops;
    DropsTrans(times, FailuresOf(before, key), FailuresOf(after, key), was - window, now - window);
  }

  // ---- the logs grow ----

  lemma {:induction false} TimesMore(
    calls: seq<Call>, held: seq<map<nat, Lease>>, more: map<nat, Lease>, n: nat, key: Key)
    requires n <= |calls| && n <= |held|
    ensures FailTimes(calls, held + [more], n, key) == FailTimes(calls, held, n, key)
  {
    if n != 0 {
      TimesMore(calls, held, more, n - 1, key);
    }
  }

  lemma ReachesMore(
    calls: seq<Call>, held: seq<map<nat, Lease>>, more: map<nat, Lease>, m: nat, key: Key, config: Config)
    requires m < |calls| && m < |held|
    ensures Reaches(calls, held + [more], m, key, config) <==> Reaches(calls, held, m, key, config)
  {
    TimesMore(calls, held, more, m + 1, key);
  }

  lemma StandsMore(
    pairs: Table, clock: real, calls: seq<Call>, held: seq<map<nat, Lease>>, more: map<nat, Lease>, n: nat, key: Key,
    config: Config, locked: Option<nat>)
    requires n <= |calls| && n <= |held| && Stands(pairs, clock, calls, held, n, key, config, locked)
    ensures Stands(pairs, clock, calls, held + [more], n, key, config, locked)
  {
    hide Reaches, Drops;
    TimesMore(calls, held, more, n, key);
    forall m | 0 <= m < n
      ensures Reaches(calls, held + [more], m, key, config) <==> Reaches(calls, held, m, key, config)
    {
      ReachesMore(calls, held, more, m, key, config);
    }
  }

  /** Call `j` is an attempt that call `m` locks out. */
  ghost predicate LockedOut(
    calls: seq<Call>, held: seq<map<nat, Lease>>, sizes: seq<nat>, m: nat, j: nat, ip: string, user: string,
    config: Config)
    requires m < j < |calls| && j <= |held| && j <= |sizes|
  {
    && Reaches(calls, held, m, PairKey(ip, user), config)
    && (forall i :: 0 <= i < m ==> !Reaches(calls, held, i, PairKey(ip, user), config))
    && Undisturbed(calls, held, sizes, j, PairKey(ip, user), config.maxPairKeys)
    && calls[j].BeginCall? && calls[j].ip == ip && calls[j].user == user
    && calls[j].now < calls[m].now + config.pairLock
  }

  lemma LockedOutMore(
    calls: seq<Call>, held: seq<map<nat, Lease>>, sizes: seq<nat>, more: map<nat, Lease>, size: nat, m: nat, j: nat,
    ip: string, user: string, config: Config)
    requires m < j < |calls| && j <= |held| && j <= |sizes|
    ensures LockedOut(calls, held + [more], sizes + [size], m, j, ip, user, config)
      <==> LockedOut(calls, held, sizes, m, j, ip, user, config)
  {
    hide Reaches;
    forall i | 0 <= i <= m
      ensures Reaches(calls, held + [more], i, PairKey(ip, user), config)
        <==> Reaches(calls, held, i, PairKey(ip, user), config)
    {
      ReachesMore(calls, held, more, i, PairKey(ip, user), config);
    }
    UndisturbedMore(calls, held, sizes, more, size, j, PairKey(ip, user), config.maxPairKeys);
  }

  lemma UndisturbedMore(
    calls: seq<Call>, held: seq<map<nat, Lease>>, sizes: seq<nat>, more: map<nat, Lease>, size: nat, n: nat, key: Key,
    cap: int)
    requires n <= |calls| && n <= |held| && n <= |sizes|
    ensures Undisturbed(calls, held + [more], sizes + [size], n, key, cap)
      <==> Undisturbed(calls, held, sizes, n, key, cap)
  {
    forall i | 0 <= i < n ensures (held + [more])[i] == held[i] && (sizes + [size])[i] == sizes[i] {
    }
  }

  /** Where the key stands says that an attempt it locks out meets a lock. */
  lemma LockedOutMeetsLock(
    pairs: Table, clock: real, calls: seq<Call>, held: seq<map<nat, Lease>>, sizes: seq<nat>, m: nat, j: nat,
    ip: string, user: string, config: Config, locked: Option<nat>)
    requires m < j < |calls| && j <= |held| && j <= |sizes| && clock <= calls[j].now && 0.0 <= clock
    requires LockedOut(calls, held, sizes, m, j, ip, user, config)
    requires Stands(pairs, clock, calls, held, j, PairKey(ip, user), config, locked)
    ensures LockedIn(pairs, PairKey(ip, user), calls[j].now)
  {
    hide Reaches, Drops, Undisturbed;
    assert locked.Some? && locked.value == m;
  }

  /** As many failures of a pair in one window as its threshold, without a success on
      it, lock it out: from the first call that reaches the threshold on, it gets no
      lease for `pairLock` seconds, as long as the table has room. `held` are the
      leases and `sizes` the numbers of tracked pairs at each call. */
  method FailuresLock(limiter: Limiter, calls: seq<Call>, ip: string, user: string)
    returns (given: seq<Option<nat>>, ghost held: seq<map<nat, Lease>>, ghost sizes: seq<nat>)
    requires limiter.Valid() && InClockOrder(calls, limiter.clock)
    requires FailuresOf(limiter.pairs, PairKey(ip, user)) == [] && LockOf(limiter.pairs, PairKey(ip, user)) == 0.0
    modifies limiter
    ensures limiter.Valid() && |given| == |held| == |sizes| == |calls|
    ensures forall m, j ::
      0 <= m < j < |calls| && LockedOut(calls, held, sizes, m, j, ip, user, limiter.config) ==> given[j].None?
  {
    hide Stands, Undisturbed, LockedOut, TableValid, LocksKept, Treats, LockedIn;
    ghost var config, key, locked := limiter.config, PairKey(ip, user), None;
    given, held, sizes := [], [], [];
    NothingYet(limiter.pairs, limiter.clock, calls, key, config);
    for n := 0 to |calls|
      invariant limiter.Valid() && |given| == |held| == |sizes| == n
      invariant forall i :: n <= i < |calls| ==> limiter.clock <= calls[i].now
      invariant Undisturbed(calls, held, sizes, n, key, config.maxPairKeys) ==>
        Stands(limiter.pairs, limiter.clock, calls, held, n, key, config, locked)
      invariant forall m, j ::
        0 <= m < j < n && LockedOut(calls, held, sizes, m, j, ip, user, config) ==> given[j].None?
    {
      ghost var before, clock, leases := limiter.pairs, limiter.clock, limiter.leases;
      ghost var held0, sizes0, given0 := held, sizes, given;
      var token := Perform(limiter, calls[n]);
      held, sizes, given := held + [leases], sizes + [|before|], given + [token];
      GivenMore(calls, held0, sizes0, given0, leases, |before|, token, ip, user, config);
      UndisturbedMore(calls, held0, sizes0, leases, |before|, n, key, config.maxPairKeys);
      UndisturbedStep(calls, held, sizes, n, key, config.maxPairKeys);
      if Undisturbed(calls, held, sizes, n, key, config.maxPairKeys) {
        StandsMore(before, clock, calls, held0, leases, n, key, config, locked);
        forall m | 0 <= m < n && LockedOut(calls, held, sizes, m, n, ip, user, config) ensures token.None? {
          LockedOutMeetsLock(before, clock, calls, held, sizes, m, n, ip, user, config, locked);
          BeginOf(calls, held, sizes, m, n, ip, user, config);
        }
        if Undisturbed(calls, held, sizes, n + 1, key, config.maxPairKeys) {
          locked := StandsStep(before, limiter.pairs, clock, calls, held, n, key, config, locked);
        }
      } else {
        forall m | 0 <= m < n ensures !LockedOut(calls, held, sizes, m, n, ip, user, config) {
          BeginOf(calls, held, sizes, m, n, ip, user, config);
        }
      }
    }
  }

  lemma NothingYet(pairs: Table, clock: real, calls: seq<Call>, key: Key, config: Config)
    requires FailuresOf(pairs, key) == [] && LockOf(pairs, key) == 0.0
    ensures Stands(pairs, clock, calls, [], 0, key, config, None)
  {
    DropsNone([], clock - config.window);
  }

  lemma UndisturbedStep(
    calls: seq<Call>, held: seq<map<nat, Lease>>, sizes: seq<nat>, n: nat, key: Key, cap: int)
    requires n < |calls| && n < |held| && n < |sizes|
    ensures Undisturbed(calls, held, sizes, n + 1, key, cap)
      <==> Undisturbed(calls, held, sizes, n, key, cap) && !Clears(calls[n], held[n], key) && sizes[n] < cap
  {
  }

  lemma BeginOf(
    calls: seq<Call>, held: seq<map<nat, Lease>>, sizes: seq<nat>, m: nat, j: nat, ip: string, user: string,
    config: Config)
    requires m < j < |calls| && j <= |held| && j <= |sizes|
    ensures LockedOut(calls, held, sizes, m, j, ip, user, config) ==>
      && calls[j].BeginCall? && calls[j].ip == ip && calls[j].user == user
      && Undisturbed(calls, held, sizes, j, PairKey(ip, user), config.maxPairKeys)
  {
  }

  lemma GivenMore(
    calls: seq<Call>, held: seq<map<nat, Lease>>, sizes: seq<nat>, given: seq<Option<nat>>, more: map<nat, Lease>,
    size: nat, token: Option<nat>, ip: string, user: string, config: Config)
    requires |held| == |sizes| == |given| < |calls|
    requires forall m, j ::
      0 <= m < j < |given| && LockedOut(calls, held, sizes, m, j, ip, user, config) ==> given[j].None?
    ensures forall m, j ::
      0 <= m < j < |given| && LockedOut(calls, held + [more], sizes + [size], m, j, ip, user, config) ==>
      (given + [token])[j].None?
  {
    hide LockedOut;
    forall m, j | 0 <= m < j < |given| && LockedOut(calls, held + [more], sizes + [size], m, j, ip, user, config)
      ensures (given + [token])[j].None?
    {
      LockedOutMore(calls, held, sizes, more, size, m, j, ip, user, config);
    }
  }

  /** The room matters. With a table for one pair, an attempt on another pair makes
      the limiter forget every failure of the first. */
  method EvictionForgets(limiter: Limiter, own: Key, ip: string, user: string, now: real) returns (token: Option<nat>)
    requires limiter.Valid() && limiter.clock <= now && limiter.config.maxPairKeys == 1 && own != PairKey(ip, user)
    modifies limiter
    ensures token.Some? ==> FailuresOf(limiter.pairs, own) == []
    ensures token.Some? <==>
      && CanEnter(old(limiter.TidyPairs(now)), PairKey(ip, user), limiter.config.pairMaxFailures, 1, now,
                  limiter.config.window)
      && CanEnter(old(limiter.TidyIps(now)), IpKey(ip), limiter.config.ipMaxFailures, limiter.config.maxIpKeys, now,
                  limiter.config.window)
  {
    hide CanEnter, TurnedAway;
    token := limiter.Begin(ip, user, now);
    if token.Some? {
      OnlyOne(limiter.pairs, own, PairKey(ip, user));
    }
  }

  lemma OnlyOne(b: Table, a: Key, c: Key)
    requires |b| <= 1 && c in b && a != c
    ensures a !in b
  {
    var both := {a, c};
    assert |both| == 2;
    if a in b {
      SubsetSize(both, b.Keys);
    }
  }

  /** Alice has failed once of twice; then Bob tries, and she is forgotten. */
  method EvictionInstance() returns (limiter: Limiter, token: Option<nat>)
    ensures token.Some? && FailuresOf(limiter.pairs, PairKey("here", "alice")) == []
  {
    hide TableValid, LocksKept, Entered, TurnedAway;
    var config := Config(2, 9, 600.0, 300.0, 600.0, 1, 9, 120.0, 30.0);
    var alice := PairKey("here", "alice");
    var once := Bucket([1.0], 0.0, 1.0, 0);
    limiter := new Limiter.Idle(config, map[alice := once], map[], 1.0);
    assert alice in limiter.pairs && Evictable(limiter.pairs[alice], 2.0);
    token := EvictionForgets(limiter, alice, "there", "bob", 2.0);
  }
}
