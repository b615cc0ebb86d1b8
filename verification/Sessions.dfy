/** The session registry (app/api/sessions.py): an authoritative copy in memory,
    written through to a file that must give the same answers after a restart. */
module Sessions {
  import opened Common

  datatype Session = Session(sid: string, user: string, created: real, lastSeen: real)

  /** A dictionary in insertion order: no identifier occurs twice. */
  ghost predicate Distinct(s: seq<Session>) {
    forall i, j :: 0 <= i < j < |s| ==> s[i].sid != s[j].sid
  }

  predicate Alive(s: Session, ttl: real, now: real) {
    ttl == 0.0 || now - s.created <= ttl
  }

  /** What `is_valid` answers from a given dictionary. */
  ghost predicate Answer(s: seq<Session>, ttl: real, sid: string, user: string, now: real) {
    sid != "" && exists i :: 0 <= i < |s| && s[i].sid == sid && s[i].user == user && Alive(s[i], ttl, now)
  }

  /** In terms of the sessions themselves: alive up to and including its lifetime. */
  lemma AnswerMeans(s: seq<Session>, ttl: real, sid: string, user: string, now: real)
    ensures Answer(s, ttl, sid, user, now) <==> sid != "" && exists x ::
      x in s && x.sid == sid && x.user == user && (ttl == 0.0 || now - x.created <= ttl)
  {
    if Answer(s, ttl, sid, user, now) {
      var i :| 0 <= i < |s| && s[i].sid == sid && s[i].user == user && Alive(s[i], ttl, now);
      assert s[i] in s;
    }
  }

  /** Two dictionaries that no named user can tell apart from `clock` on. */
  ghost predicate Agree(a: seq<Session>, b: seq<Session>, ttl: real, clock: real) {
    forall sid, user, now :: user != "" && clock <= now ==>
      Answer(a, ttl, sid, user, now) == Answer(b, ttl, sid, user, now)
  }

  predicate Loadable(s: Session, ttl: real, now: real) {
    s.sid != "" && s.user != "" && Alive(s, ttl, now)
  }

  function Select(s: seq<Session>, keep: Session -> bool): seq<Session> {
    if s == [] then []
    else
      var n := |s| - 1;
      Select(s[..n], keep) + if keep(s[n]) then [s[n]] else []
  }

  lemma {:induction false} SelectHas(s: seq<Session>, keep: Session -> bool)
    ensures forall x :: x in Select(s, keep) <==> x in s && keep(x)
  {
    if s != [] {
      var n := |s| - 1;
      SelectHas(s[..n], keep);
      assert s == s[..n] + [s[n]];
    }
  }

  lemma {:induction false} SelectDistinct(s: seq<Session>, keep: Session -> bool)
    requires Distinct(s)
    ensures Distinct(Select(s, keep))
  {
    if s != [] {
      var n := |s| - 1;
      SelectDistinct(s[..n], keep);
      SelectHas(s[..n], keep);
      var before := Select(s[..n], keep);
      forall i | 0 <= i < |before| ensures before[i].sid != s[n].sid {
        assert before[i] in s[..n];
        var j :| 0 <= j < n && s[..n][j] == before[i];
      }
    }
  }

  /** A second selection that implies the first one does not notice it. */
  lemma {:induction false} SelectTwice(s: seq<Session>, keep: Session -> bool, narrow: Session -> bool)
    requires forall x :: x in s && narrow(x) ==> keep(x)
    ensures Select(Select(s, keep), narrow) == Select(s, narrow)
  {
    if s != [] {
      var n := |s| - 1;
      SelectTwice(s[..n], keep, narrow);
      var before := Select(s[..n], keep);
      if keep(s[n]) {
        assert (before + [s[n]])[..|before|] == before;
      } else {
        assert s[n] in s && before + [] == before;
      }
    }
  }

  function Of(s: seq<Session>, user: string): seq<Session> {
    Select(s, (x: Session) => x.user == user)
  }

  function Without(s: seq<Session>, sids: set<string>): seq<Session> {
    Select(s, (x: Session) => x.sid !in sids)
  }

  /** `_load_into_memory` at a given time. */
  function Load(file: seq<Session>, ttl: real, now: real): seq<Session> {
    Select(file, (x: Session) => Loadable(x, ttl, now))
  }

  /** A restart changes the answer for no user with a name, and for the empty name
      it always answers no. */
  lemma LoadAgrees(file: seq<Session>, ttl: real, now: real)
    ensures forall x :: x in Load(file, ttl, now) <==>
      x in file && x.sid != "" && x.user != "" && (ttl == 0.0 || now - x.created <= ttl)
    ensures Agree(Load(file, ttl, now), file, ttl, now)
    ensures forall sid, user, later :: now <= later ==>
      (Answer(Load(file, ttl, now), ttl, sid, user, later) <==> user != "" && Answer(file, ttl, sid, user, later))
  {
    var loaded := Load(file, ttl, now);
    SelectHas(file, (x: Session) => Loadable(x, ttl, now));
    forall sid, user, later | now <= later
      ensures Answer(loaded, ttl, sid, user, later) <==> user != "" && Answer(file, ttl, sid, user, later)
    {
      if Answer(loaded, ttl, sid, user, later) {
        var i :| 0 <= i < |loaded| && loaded[i].sid == sid && loaded[i].user == user && Alive(loaded[i], ttl, later);
        assert loaded[i] in file;
      }
      if user != "" && Answer(file, ttl, sid, user, later) {
        var i :| 0 <= i < |file| && file[i].sid == sid && file[i].user == user && Alive(file[i], ttl, later);
        assert file[i] in loaded;
      }
    }
  }

  /** The one account the file forgets: a session of the empty user name. */
  lemma NamelessSessionIsForgotten()
    ensures var file := [Session("s", "", 0.0, 0.0)];
      Answer(file, 0.0, "s", "", 1.0) && !Answer(Load(file, 0.0, 1.0), 0.0, "s", "", 1.0)
  {
  }

  // ---- oldest first ----

  ghost predicate ByAge(s: seq<Session>) {
    forall i, j :: 0 <= i < j < |s| ==> s[i].created <= s[j].created
  }

  /** A stable sort puts an element after its equals. */
  function Insert(s: seq<Session>, x: Session): (r: seq<Session>)
    ensures multiset(r) == multiset(s) + multiset{x}
    ensures |r| == |s| + 1
  {
    if s == [] then [x]
    else
      var n := |s| - 1;
      if s[n].created <= x.created then s + [x]
      else
        assert s == s[..n] + [s[n]];
        Insert(s[..n], x) + [s[n]]
  }

  lemma {:induction false} InsertHas(s: seq<Session>, x: Session)
    ensures forall y :: y in Insert(s, x) ==> y in s || y == x
  {
    if s != [] && s[|s| - 1].created > x.created {
      InsertHas(s[..|s| - 1], x);
    }
  }

  lemma ByAgeSnoc(s: seq<Session>, x: Session)
    requires ByAge(s) && forall y :: y in s ==> y.created <= x.created
    ensures ByAge(s + [x])
  {
    assert forall i :: 0 <= i < |s| ==> s[i] in s;
  }

  lemma {:induction false} InsertByAge(s: seq<Session>, x: Session)
    requires ByAge(s)
    ensures ByAge(Insert(s, x))
  {
    if s != [] && s[|s| - 1].created > x.created {
      var n := |s| - 1;
      InsertByAge(s[..n], x);
      InsertHas(s[..n], x);
      ByAgeSnoc(Insert(s[..n], x), s[n]);
    }
  }

  function Oldest(s: seq<Session>): (r: seq<Session>)
    ensures multiset(r) == multiset(s)
    ensures |r| == |s|
  {
    if s == [] then []
    else
      assert s == s[..|s| - 1] + [s[|s| - 1]];
      Insert(Oldest(s[..|s| - 1]), s[|s| - 1])
  }

  lemma {:induction false} OldestByAge(s: seq<Session>)
    ensures ByAge(Oldest(s))
  {
    if s != [] {
      OldestByAge(s[..|s| - 1]);
      InsertByAge(Oldest(s[..|s| - 1]), s[|s| - 1]);
    }
  }

  lemma {:induction false} InsertNewest(s: seq<Session>, x: Session)
    requires forall i :: 0 <= i < |s| ==> s[i].created <= x.created
    ensures Insert(s, x) == s + [x]
  {
  }

  lemma {:induction false} DistinctSize(s: seq<Session>)
    requires Distinct(s)
    ensures |set x | x in s| == |s|
  {
    if s != [] {
      DistinctSize(s[1..]);
      assert s[0] !in s[1..];
      assert (set x | x in s) == {s[0]} + set x | x in s[1..];
    }
  }

  ghost function Sids(s: seq<Session>): set<string> {
    set x | x in s :: x.sid
  }

  lemma {:induction false} SidsSize(s: seq<Session>)
    requires Distinct(s)
    ensures |Sids(s)| == |s|
  {
    if s != [] {
      SidsSize(s[1..]);
      assert s == [s[0]] + s[1..];
      assert s[0].sid !in Sids(s[1..]);
      assert Sids(s) == {s[0].sid} + Sids(s[1..]);
    }
  }

  lemma WithoutSize(s: seq<Session>, gone: set<string>)
    requires Distinct(s) && gone <= Sids(s)
    ensures |Without(s, gone)| + |gone| == |s|
  {
    var left := Without(s, gone);
    WithoutHas(s, gone);
    WithoutDistinct(s, gone);
    SidsSize(s);
    SidsSize(left);
    forall sid | sid in Sids(s) - gone ensures sid in Sids(left) {
      var x :| x in s && x.sid == sid;
      assert x in left;
    }
    assert Sids(left) == Sids(s) - gone;
  }

  /** After the cap: exactly `cap` sessions if there were more, and none evicted is
      newer than one kept. */
  ghost predicate Capped(before: seq<Session>, after: seq<Session>, user: string, cap: nat) {
    && |Of(after, user)| == (if |Of(before, user)| <= cap then |Of(before, user)| else cap)
    && (forall x :: x in Of(after, user) ==> x in Of(before, user))
    && (forall gone, kept :: gone in Of(before, user) && gone !in Of(after, user) && kept in Of(after, user) ==>
          gone.created <= kept.created)
  }

  lemma OwnedHas(s: seq<Session>, user: string)
    ensures forall x :: x in Of(s, user) <==> x in s && x.user == user
  {
    SelectHas(s, (x: Session) => x.user == user);
  }

  lemma WithoutHas(s: seq<Session>, gone: set<string>)
    ensures forall x :: x in Without(s, gone) <==> x in s && x.sid !in gone
  {
    SelectHas(s, (x: Session) => x.sid !in gone);
  }

  /** The last session is the user's, and none is newer. */
  ghost predicate NewestLast(s: seq<Session>, user: string) {
    && s != [] && s[|s| - 1].user == user
    && forall i :: 0 <= i < |s| ==> s[i].created <= s[|s| - 1].created
  }

  /** `_enforce_cap`. */
  method EnforceCap(s: seq<Session>, user: string, cap: nat) returns (r: seq<Session>)
    requires Distinct(s)
    ensures Distinct(r) && Capped(s, r, user, cap)
    ensures forall x :: x in r ==> x in s
    ensures forall other :: other != user ==> Of(r, other) == Of(s, other)
    ensures |Of(s, user)| <= cap ==> r == s
    ensures 0 < cap && NewestLast(s, user) ==> s[|s| - 1] in r
  {
    hide Capped, Of, Without, NewestLast, Distinct;
    var owned := Of(s, user);
    if |owned| <= cap {
      UnderCap(s, user, cap);
      LastIn(s, user);
      return s;
    }
    var sorted := Oldest(owned);
    var drop := |owned| - cap;
    var gone: set<string> := {};
    for n := 0 to drop
      invariant gone == set i | 0 <= i < n :: sorted[i].sid
    {
      gone := gone + {sorted[n].sid};
    }
    r := Without(s, gone);
    WithoutHas(s, gone);
    WithoutDistinct(s, gone);
    CapHolds(s, user, cap, gone);
    forall other | other != user ensures Of(r, other) == Of(s, other) {
      OthersKept(s, user, cap, gone, other);
    }
    if 0 < cap && NewestLast(s, user) {
      NewestKept(s, user, cap, gone);
    }
  }

  lemma LastIn(s: seq<Session>, user: string)
    ensures NewestLast(s, user) ==> s[|s| - 1] in s
  {
  }

  lemma WithoutDistinct(s: seq<Session>, gone: set<string>)
    requires Distinct(s)
    ensures Distinct(Without(s, gone))
  {
    SelectDistinct(s, (x: Session) => x.sid !in gone);
  }

  lemma UnderCap(s: seq<Session>, user: string, cap: nat)
    requires |Of(s, user)| <= cap
    ensures Capped(s, s, user, cap)
  {
  }

  ghost predicate Evicts(s: seq<Session>, user: string, cap: nat, gone: set<string>) {
    var owned := Of(s, user);
    cap < |owned| && gone == set i | 0 <= i < |owned| - cap :: Oldest(owned)[i].sid
  }

  lemma {:induction false} OnceEach(s: seq<Session>, x: Session)
    requires Distinct(s) && x in s
    ensures multiset(s)[x] == 1
    decreases |s|
  {
    var n := |s| - 1;
    assert s == s[..n] + [s[n]];
    if s[n] == x {
      forall j | 0 <= j < n ensures s[..n][j] != x {
        assert s[j].sid != s[n].sid;
      }
      assert x !in s[..n];
    } else {
      OnceEach(s[..n], x);
    }
  }

  lemma TwiceIn(s: seq<Session>, i: nat, j: nat)
    requires i < j < |s| && s[i] == s[j]
    ensures multiset(s)[s[i]] >= 2
  {
    assert s == s[..j] + [s[j]] + s[j + 1..];
    assert s[..j][i] == s[i];
    assert s[i] in multiset(s[..j]);
  }

  lemma SamePlace(s: seq<Session>, a: Session, b: Session)
    requires Distinct(s) && a in s && b in s && a.sid == b.sid
    ensures a == b
  {
  }

  /** The sorted sessions are those of the user, each with its own identifier. */
  lemma SortedAreOwned(s: seq<Session>, user: string)
    requires Distinct(s)
    ensures Distinct(Oldest(Of(s, user)))
    ensures forall x :: x in Oldest(Of(s, user)) <==> x in s && x.user == user
  {
    var owned, sorted := Of(s, user), Oldest(Of(s, user));
    OwnedHas(s, user);
    SelectDistinct(s, (x: Session) => x.user == user);
    forall x ensures x in sorted <==> x in owned {
      assert x in sorted <==> x in multiset(sorted);
      assert x in owned <==> x in multiset(owned);
    }
    if i, j :| 0 <= i < j < |sorted| && sorted[i].sid == sorted[j].sid {
      SamePlace(s, sorted[i], sorted[j]);
      OnceEach(owned, sorted[i]);
      TwiceIn(sorted, i, j);
    }
  }

  /** The evicted are the first in age, the kept are the rest. */
  lemma EvictedFirst(s: seq<Session>, user: string, cap: nat, gone: set<string>, x: Session) returns (i: nat)
    requires Distinct(s) && Evicts(s, user, cap, gone) && x in s && x.user == user
    ensures var sorted := Oldest(Of(s, user));
      i < |sorted| && sorted[i] == x && (x.sid in gone <==> i < |sorted| - cap)
  {
    var sorted := Oldest(Of(s, user));
    SortedAreOwned(s, user);
    i :| 0 <= i < |sorted| && sorted[i] == x;
    if x.sid in gone {
      var k :| 0 <= k < |sorted| - cap && sorted[k].sid == x.sid;
      assert k == i;
    }
  }

  lemma CapHolds(s: seq<Session>, user: string, cap: nat, gone: set<string>)
    requires Distinct(s) && Evicts(s, user, cap, gone)
    ensures Capped(s, Without(s, gone), user, cap)
  {
    hide Distinct, Evicts, Of, Without, Oldest;
    var before, after := Of(s, user), Of(Without(s, gone), user);
    var sorted := Oldest(before);
    EvictsSize(s, user, cap, gone);
    OwnedHas(s, user);
    OwnedHas(Without(s, gone), user);
    WithoutHas(s, gone);
    OldestByAge(before);
    KeptAre(s, user, cap, gone);
    forall out, stay | out in before && out !in after && stay in after ensures out.created <= stay.created {
      var i := EvictedFirst(s, user, cap, gone, out);
      var j := EvictedFirst(s, user, cap, gone, stay);
    }
  }

  lemma KeptAre(s: seq<Session>, user: string, cap: nat, gone: set<string>)
    requires Distinct(s) && Evicts(s, user, cap, gone)
    ensures |Of(Without(s, gone), user)| == cap
  {
    hide Evicts, Of, Without, Oldest;
    var sorted, after := Oldest(Of(s, user)), Of(Without(s, gone), user);
    EvictsSize(s, user, cap, gone);
    var kept := sorted[|sorted| - cap..];
    OwnedHas(Without(s, gone), user);
    WithoutHas(s, gone);
    SortedAreOwned(s, user);
    forall x ensures x in after <==> x in kept {
      if x in after {
        var i := EvictedFirst(s, user, cap, gone, x);
        assert kept[i - (|sorted| - cap)] == x;
      }
      if x in kept {
        assert x in sorted;
        var k :| 0 <= k < cap && kept[k] == x;
        var i := EvictedFirst(s, user, cap, gone, x);
        assert sorted[k + |sorted| - cap] == x;
      }
    }
    WithoutDistinct(s, gone);
    OfDistinct(Without(s, gone), user);
    DistinctSize(after);
    DistinctSize(kept);
    assert (set x | x in after) == set x | x in kept;
  }

  lemma OfDistinct(s: seq<Session>, user: string)
    requires Distinct(s)
    ensures Distinct(Of(s, user))
  {
    SelectDistinct(s, (x: Session) => x.user == user);
  }

  lemma EvictsSize(s: seq<Session>, user: string, cap: nat, gone: set<string>)
    requires Evicts(s, user, cap, gone)
    ensures cap < |Of(s, user)| == |Oldest(Of(s, user))|
  {
  }

  lemma OthersKept(s: seq<Session>, user: string, cap: nat, gone: set<string>, other: string)
    requires Distinct(s) && Evicts(s, user, cap, gone) && other != user
    ensures Of(Without(s, gone), other) == Of(s, other)
  {
    SortedAreOwned(s, user);
    var sorted := Oldest(Of(s, user));
    forall x | x in s && x.user == other ensures x.sid !in gone {
      forall i | 0 <= i < |sorted| ensures sorted[i].sid != x.sid {
        assert sorted[i] in sorted;
      }
    }
    SelectTwice(s, (x: Session) => x.sid !in gone, (x: Session) => x.user == other);
  }

  lemma NewestKept(s: seq<Session>, user: string, cap: nat, gone: set<string>)
    requires Distinct(s) && Evicts(s, user, cap, gone) && 0 < cap && NewestLast(s, user)
    ensures s[|s| - 1] in Without(s, gone)
  {
    var last, owned := s[|s| - 1], Of(s, user);
    var n := |owned| - 1;
    assert owned[n] == last;
    var before := Oldest(owned[..n]);
    OwnedHas(s, user);
    forall i | 0 <= i < |before| ensures before[i].created <= last.created {
      assert before[i] in multiset(before);
      assert before[i] in owned[..n];
      assert before[i] in owned;
      assert before[i] in s;
    }
    InsertNewest(before, last);
    assert Oldest(owned)[n] == last;
    SortedAreOwned(s, user);
    WithoutHas(s, gone);
  }

  // ---- the registry ----

  ghost predicate Absent(s: seq<Session>, sid: string) {
    forall i :: 0 <= i < |s| ==> s[i].sid != sid
  }

  lemma AgreeSelf(s: seq<Session>, ttl: real, clock: real)
    ensures Agree(s, s, ttl, clock)
  {
  }

  lemma AgreeLater(a: seq<Session>, b: seq<Session>, ttl: real, was: real, clock: real)
    requires Agree(a, b, ttl, was) && was <= clock
    ensures Agree(a, b, ttl, clock)
  {
  }

  /** Changing when a session was last seen changes no answer. */
  lemma TouchAgrees(s: seq<Session>, file: seq<Session>, ttl: real, clock: real, i: nat, seen: real)
    requires i < |s| && Agree(s, file, ttl, clock)
    ensures Agree(s[i := s[i].(lastSeen := seen)], file, ttl, clock)
  {
    var t := s[i := s[i].(lastSeen := seen)];
    forall sid, user, now | user != "" && clock <= now
      ensures Answer(t, ttl, sid, user, now) == Answer(file, ttl, sid, user, now)
    {
      assert Answer(s, ttl, sid, user, now) == Answer(file, ttl, sid, user, now);
      if Answer(s, ttl, sid, user, now) {
        var j :| 0 <= j < |s| && s[j].sid == sid && s[j].user == user && Alive(s[j], ttl, now);
        assert t[j].sid == sid;
      }
      if Answer(t, ttl, sid, user, now) {
        var j :| 0 <= j < |t| && t[j].sid == sid && t[j].user == user && Alive(t[j], ttl, now);
        assert s[j].sid == sid;
      }
    }
  }

  /** Dropping an expired session changes no later answer. */
  lemma ExpiredIsIdle(s: seq<Session>, ttl: real, clock: real, i: nat)
    requires Distinct(s) && i < |s| && !Alive(s[i], ttl, clock)
    ensures Agree(Without(s, {s[i].sid}), s, ttl, clock)
  {
    var t := Without(s, {s[i].sid});
    WithoutHas(s, {s[i].sid});
    forall sid, user, now | user != "" && clock <= now
      ensures Answer(t, ttl, sid, user, now) == Answer(s, ttl, sid, user, now)
    {
      if Answer(s, ttl, sid, user, now) {
        var j :| 0 <= j < |s| && s[j].sid == sid && s[j].user == user && Alive(s[j], ttl, now);
        assert j != i && s[j] in t;
      }
      if Answer(t, ttl, sid, user, now) {
        var j :| 0 <= j < |t| && t[j].sid == sid && t[j].user == user && Alive(t[j], ttl, now);
        assert t[j] in s;
      }
    }
  }

  class SessionRegistry {
    const ttl: real
    const cap: nat
    var sessions: seq<Session>
    var file: seq<Session>
    ghost var clock: real

    /** Whatever the file would answer after a restart, memory answers now. */
    ghost predicate Valid()
      reads this
    {
      && Distinct(sessions) && Distinct(file)
      && Agree(sessions, file, ttl, clock)
      && (forall i :: 0 <= i < |sessions| ==> sessions[i].created <= clock)
      && (forall i :: 0 <= i < |file| ==> file[i].created <= clock)
    }

    constructor (file: seq<Session>, ttl: real, cap: nat, now: real)
      requires Distinct(file) && forall i :: 0 <= i < |file| ==> file[i].created <= now
      ensures Valid() && this.file == file && this.ttl == ttl && this.cap == cap && clock == now
      ensures sessions == Load(file, ttl, now)
    {
      this.ttl, this.cap, this.file, clock := ttl, cap, file, now;
      sessions := Load(file, ttl, now);
      LoadAgrees(file, ttl, now);
      SelectDistinct(file, (x: Session) => Loadable(x, ttl, now));
      SelectHas(file, (x: Session) => Loadable(x, ttl, now));
      new;
      assert forall i :: 0 <= i < |sessions| ==> sessions[i] in file;
    }

    /** The process starts again from its file. */
    method Restart(now: real)
      requires Valid() && clock <= now
      modifies this
      ensures Valid() && clock == now && file == old(file) && sessions == Load(file, ttl, now)
      ensures Agree(sessions, old(sessions), ttl, now)
    {
      hide Distinct;
      LoadAgrees(file, ttl, now);
      SelectDistinct(file, (x: Session) => Loadable(x, ttl, now));
      SelectHas(file, (x: Session) => Loadable(x, ttl, now));
      sessions, clock := Load(file, ttl, now), now;
      assert forall i :: 0 <= i < |sessions| ==> sessions[i] in file;
    }

    method Find(sid: string) returns (at: Option<nat>)
      ensures at.Some? ==> at.value < |sessions| && sessions[at.value].sid == sid
      ensures at.None? ==> Absent(sessions, sid)
    {
      for i := 0 to |sessions|
        invariant forall j :: 0 <= j < i ==> sessions[j].sid != sid
      {
        if sessions[i].sid == sid {
          return Some(i);
        }
      }
      at := None;
    }

    /** `register`: `sid` is the fresh random token. */
    method Register(sid: string, user: string, now: real)
      requires Valid() && clock <= now && sid != "" && Absent(sessions, sid)
      modifies this
      ensures Valid() && clock == now && file == sessions
      ensures Capped(old(sessions) + [Session(sid, user, now, now)], sessions, user, cap)
      ensures 0 < cap ==> Session(sid, user, now, now) in sessions
      ensures forall other :: other != user ==> Of(sessions, other) == Of(old(sessions), other)
      ensures forall x :: x in sessions ==> x in old(sessions) + [Session(sid, user, now, now)]
    {
      hide Capped, Of;
      var longer := sessions + [Session(sid, user, now, now)];
      sessions := EnforceCap(longer, user, cap);
      assert longer[|longer| - 1] == Session(sid, user, now, now);
      assert NewestLast(longer, user);
      file, clock := sessions, now;
      AgreeSelf(sessions, ttl, now);
      forall other | other != user ensures Of(sessions, other) == Of(old(sessions), other) {
        OfSnoc(old(sessions), Session(sid, user, now, now), other);
      }
      assert forall i :: 0 <= i < |sessions| ==> sessions[i] in longer;
    }

    /** `is_valid`: purges an expired session on the way. */
    method IsValid(sid: string, user: string, now: real) returns (b: bool)
      requires Valid() && clock <= now
      modifies this
      ensures Valid() && clock == now
      ensures b == Answer(old(sessions), ttl, sid, user, now)
      ensures b <==> sid != "" && exists x ::
        x in old(sessions) && x.sid == sid && x.user == user && (ttl == 0.0 || now - x.created <= ttl)
      ensures Agree(sessions, old(sessions), ttl, now)
      ensures
        if exists x :: x in old(sessions) && x.sid == sid && x.user == user && sid != "" && !Alive(x, ttl, now)
        then sessions == Without(old(sessions), {sid}) && file == sessions
        else sessions == old(sessions) && file == old(file)
      ensures forall x :: x in sessions ==> x in old(sessions)
    {
      AgreeLater(sessions, file, ttl, clock, now);
      AgreeSelf(sessions, ttl, now);
      AnswerMeans(sessions, ttl, sid, user, now);
      clock := now;
      if sid == "" {
        return false;
      }
      var at := Find(sid);
      if at.None? || sessions[at.value].user != user {
        return false;
      }
      if !Alive(sessions[at.value], ttl, now) {
        ExpiredIsIdle(sessions, ttl, now, at.value);
        Forget({sid});
        return false;
      }
      b := true;
    }

    /** Removes sessions and writes the file. */
    method Forget(sids: set<string>)
      requires Valid()
      modifies this`sessions, this`file
      ensures Valid() && sessions == Without(old(sessions), sids) && file == sessions
      ensures forall x :: x in sessions <==> x in old(sessions) && x.sid !in sids
    {
      WithoutHas(sessions, sids);
      WithoutDistinct(sessions, sids);
      sessions := Without(sessions, sids);
      assert forall i :: 0 <= i < |sessions| ==> sessions[i] in old(sessions);
      AgreeSelf(sessions, ttl, clock);
      file := sessions;
    }

    /** `touch`: memory only. */
    method Touch(sid: string, now: real)
      requires Valid() && clock <= now
      modifies this`sessions, this`clock
      ensures Valid() && clock == now
      ensures |sessions| == |old(sessions)|
      ensures forall i :: 0 <= i < |sessions| ==>
        sessions[i] == if old(sessions)[i].sid == sid then old(sessions)[i].(lastSeen := now) else old(sessions)[i]
    {
      AgreeLater(sessions, file, ttl, clock, now);
      clock := now;
      var at := Find(sid);
      if at.Some? {
        TouchAgrees(sessions, file, ttl, now, at.value, now);
        sessions := sessions[at.value := sessions[at.value].(lastSeen := now)];
      }
    }

    /** `revoke`: only its own user can revoke a session. */
    method Revoke(sid: string, user: string) returns (b: bool)
      requires Valid()
      modifies this`sessions, this`file
      ensures Valid()
      ensures b <==> exists x :: x in old(sessions) && x.sid == sid && x.user == user
      ensures b ==> Absent(sessions, sid) && file == sessions == Without(old(sessions), {sid})
      ensures !b ==> sessions == old(sessions) && file == old(file)
    {
      var at := Find(sid);
      if at.None? || sessions[at.value].user != user {
        return false;
      }
      assert sessions[at.value] in sessions;
      Forget({sid});
      b := true;
    }

    /** `revoke_others`, and `revoke_all` with an empty `keep`. */
    method RevokeOthers(keep: string, user: string) returns (count: nat)
      requires Valid()
      modifies this`sessions, this`file
      ensures Valid()
      ensures forall x :: x in sessions <==> x in old(sessions) && (x.user != user || x.sid == keep)
      ensures |sessions| + count == |old(sessions)|
      ensures count == 0 ==> sessions == old(sessions)
      ensures count != 0 ==> file == sessions
      ensures file == old(file) || file == sessions
    {
      var targets := set i |
        0 <= i < |sessions| && sessions[i].user == user && sessions[i].sid != keep :: sessions[i].sid;
      count := |targets|;
      if targets != {} {
        WithoutSize(sessions, targets);
        Forget(targets);
        forall x | x in old(sessions) ensures x.sid in targets <==> x.user == user && x.sid != keep {
          var i :| 0 <= i < |old(sessions)| && old(sessions)[i] == x;
        }
      } else {
        forall x | x in sessions ensures x.user != user || x.sid == keep {
          var i :| 0 <= i < |sessions| && sessions[i] == x;
          assert sessions[i].sid !in targets;
        }
      }
    }
  }

  lemma OfSnoc(s: seq<Session>, x: Session, other: string)
    requires x.user != other
    ensures Of(s + [x], other) == Of(s, other)
  {
  }

  // ---- whole runs ----

  datatype Call =
    | RegisterCall(sid: string, user: string)
    | IsValidCall(sid: string, user: string)
    | TouchCall(sid: string)
    | RevokeCall(sid: string, user: string)
    | RevokeOthersCall(keep: string, user: string)
    | RestartCall

  method Perform(registry: SessionRegistry, call: Call, now: real, ghost sid: string)
    requires registry.Valid() && registry.clock <= now
    requires Absent(registry.sessions, sid) && Absent(registry.file, sid)
    requires call.RegisterCall? ==> call.sid != sid
    modifies registry
    ensures registry.Valid() && registry.clock <= now
    ensures Absent(registry.sessions, sid) && Absent(registry.file, sid)
  {
    hide Capped, Of, Agree, Without;
    match call
    case RegisterCall(token, user) =>
      var taken := registry.Find(token);
      if token != "" && taken.None? {
        registry.Register(token, user, now);
        StillAbsent(old(registry.sessions) + [Session(token, user, now, now)], registry.sessions, sid);
      }
    case IsValidCall(token, user) =>
      var _ := registry.IsValid(token, user, now);
      StillAbsent(old(registry.sessions), registry.sessions, sid);
    case TouchCall(token) =>
      registry.Touch(token, now);
    case RevokeCall(token, user) =>
      var b := registry.Revoke(token, user);
      if b {
        WithoutHas(old(registry.sessions), {token});
        StillAbsent(old(registry.sessions), registry.sessions, sid);
      }
    case RevokeOthersCall(keep, user) =>
      var _ := registry.RevokeOthers(keep, user);
      StillAbsent(old(registry.sessions), registry.sessions, sid);
    case RestartCall =>
      registry.Restart(now);
      SelectHas(registry.file, (x: Session) => Loadable(x, registry.ttl, now));
      StillAbsent(registry.file, registry.sessions, sid);
  }

  lemma StillAbsent(before: seq<Session>, after: seq<Session>, sid: string)
    requires Absent(before, sid) && forall x :: x in after ==> x in before
    ensures Absent(after, sid)
  {
    forall i | 0 <= i < |after| ensures after[i].sid != sid {
      assert after[i] in before;
    }
  }

  /** A revoked session stays invalid, for every user and through every restart,
      as long as its random token is not drawn again. */
  method RevokedStaysInvalid(registry: SessionRegistry, calls: seq<Call>, times: seq<real>, sid: string)
    requires registry.Valid() && |times| == |calls|
    requires Absent(registry.sessions, sid) && Absent(registry.file, sid)
    requires forall i :: 0 <= i < |calls| && calls[i].RegisterCall? ==> calls[i].sid != sid
    requires forall i :: 0 <= i < |times| ==> registry.clock <= times[i]
    requires forall i, j :: 0 <= i < j < |times| ==> times[i] <= times[j]
    modifies registry
    ensures registry.Valid()
    ensures forall user, now :: !Answer(registry.sessions, registry.ttl, sid, user, now)
    ensures forall user, now :: !Answer(registry.file, registry.ttl, sid, user, now)
  {
    for i := 0 to |calls|
      invariant registry.Valid()
      invariant forall j :: i <= j < |times| ==> registry.clock <= times[j]
      invariant Absent(registry.sessions, sid) && Absent(registry.file, sid)
    {
      Perform(registry, calls[i], times[i], sid);
    }
  }
}
