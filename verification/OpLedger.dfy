/** What the web process has asked for so far, and what is therefore owed to each
    player (app/adapters/pending_op_levels.py, `set_level` and `remove`). */
module OpLedger {
  import opened OpLevels

  /** A call of the web process. */
  datatype Ask = Asked(player: Name, level: int) | Withdrawn(player: Name)

  /** What `set_level` accepts. */
  predicate Fit(player: Name, level: int) {
    player.text != "" && 1 <= level <= 4
  }

  function Heed(due: map<string, int>, ask: Ask): map<string, int> {
    match ask
    case Asked(player, level) => if Fit(player, level) then due[player.folded := level] else due
    case Withdrawn(player) => due - {player.folded}
  }

  /** What is owed after the first `n` calls. `gaveUp[n]` are the players whose
      requests a recovery dropped between call `n` and the next. */
  ghost function Owed(web: seq<Ask>, gaveUp: map<nat, set<string>>, n: nat): map<string, int>
    requires n <= |web|
  {
    var asked := if n == 0 then map[] else Heed(Owed(web, gaveUp, n - 1), web[n - 1]);
    if n in gaveUp then asked - gaveUp[n] else asked
  }

  /** A call that has something to say about a player. */
  predicate Concerns(ask: Ask, key: string) {
    ask.player.folded == key && (ask.Asked? ==> Fit(ask.player, ask.level))
  }

  /** A player is owed exactly the level of the last call about them, if that call
      asked for one and nothing was given up since. */
  lemma {:induction false} OwedIsLastAsk(web: seq<Ask>, gaveUp: map<nat, set<string>>, n: nat, i: nat)
    requires i < n <= |web| && Concerns(web[i], web[i].player.folded)
    requires forall j :: i < j < n ==> !Concerns(web[j], web[i].player.folded)
    requires forall k :: i < k <= n && k in gaveUp ==> web[i].player.folded !in gaveUp[k]
    ensures var key := web[i].player.folded;
      if web[i].Asked? then key in Owed(web, gaveUp, n) && Owed(web, gaveUp, n)[key] == web[i].level
      else key !in Owed(web, gaveUp, n)
    decreases n
  {
    if i < n - 1 {
      assert !Concerns(web[n - 1], web[i].player.folded);
      OwedIsLastAsk(web, gaveUp, n - 1, i);
    }
  }

  /** No call from `n` on, up to `m`, speaks of this player. */
  ghost predicate Undisturbed(web: seq<Ask>, n: nat, m: nat, key: string) {
    forall j :: n <= j < m && j < |web| ==> !Concerns(web[j], key)
  }

  lemma {:induction false} OwedUnchanged(web: seq<Ask>, gaveUp: map<nat, set<string>>, n: nat, m: nat, key: string)
    requires n <= m <= |web| && Undisturbed(web, n, m, key) && forall k :: k in gaveUp ==> k <= n
    ensures key in Owed(web, gaveUp, m) <==> key in Owed(web, gaveUp, n)
    ensures key in Owed(web, gaveUp, n) ==> Owed(web, gaveUp, m)[key] == Owed(web, gaveUp, n)[key]
    decreases m
  {
    if n < m {
      assert !Concerns(web[m - 1], key);
      OwedUnchanged(web, gaveUp, n, m - 1, key);
    }
  }

  lemma {:induction false} OwedSame(web: seq<Ask>, a: map<nat, set<string>>, b: map<nat, set<string>>, n: nat)
    requires n <= |web|
    requires forall k :: 0 <= k <= n ==> (k in a <==> k in b) && (k in a ==> a[k] == b[k])
    ensures Owed(web, a, n) == Owed(web, b, n)
  {
    if n != 0 {
      OwedSame(web, a, b, n - 1);
    }
  }

  /** The ledger of what was given up, with more players given up now. */
  ghost function GiveUp(gaveUp: map<nat, set<string>>, n: nat, dropped: set<string>): map<nat, set<string>> {
    gaveUp[n := (if n in gaveUp then gaveUp[n] else {}) + dropped]
  }

  lemma OwedAt(web: seq<Ask>, gaveUp: map<nat, set<string>>, n: nat, before: map<string, int>)
    requires n <= |web| && (n != 0 ==> before == Heed(Owed(web, gaveUp, n - 1), web[n - 1]))
    ensures var asked := if n == 0 then map[] else before;
      Owed(web, gaveUp, n) == if n in gaveUp then asked - gaveUp[n] else asked
  {
  }

  lemma MinusTwice(due: map<string, int>, a: set<string>, b: set<string>)
    ensures due - (a + b) == due - a - b && due - ({} + b) == due - b
  {
  }

  lemma OwedAfterGivingUp(web: seq<Ask>, gaveUp: map<nat, set<string>>, n: nat, dropped: set<string>)
    requires n <= |web|
    ensures Owed(web, GiveUp(gaveUp, n, dropped), n) == Owed(web, gaveUp, n) - dropped
  {
    hide Owed, Heed;
    var after := GiveUp(gaveUp, n, dropped);
    var before := map[];
    if n != 0 {
      OwedSame(web, after, gaveUp, n - 1);
      before := Heed(Owed(web, gaveUp, n - 1), web[n - 1]);
    }
    OwedAt(web, gaveUp, n, before);
    OwedAt(web, after, n, before);
    MinusTwice(before, if n in gaveUp then gaveUp[n] else {}, dropped);
  }

  lemma RecordedGivingUp(
    web: seq<Ask>, served: nat, gaveUp: map<nat, set<string>>, due: map<string, int>, dropped: set<string>)
    requires Recorded(web, served, gaveUp, due)
    ensures Recorded(web, served, GiveUp(gaveUp, served, dropped), due - dropped)
  {
    hide Owed;
    OwedAfterGivingUp(web, gaveUp, served, dropped);
  }

  lemma OwedNext(web: seq<Ask>, gaveUp: map<nat, set<string>>, n: nat)
    requires n < |web| && forall k :: k in gaveUp ==> k <= n
    ensures Owed(web, gaveUp, n + 1) == Heed(Owed(web, gaveUp, n), web[n])
  {
  }

  /** Every request of a queue is one that was asked for. */
  ghost predicate AskedFor(web: seq<Ask>, n: nat, q: Queue) {
    forall key :: key in q ==> exists i :: 0 <= i < n && i < |web| && web[i] == Asked(q[key].name, q[key].level)
  }

  lemma AskedLater(web: seq<Ask>, n: nat, m: nat, q: Queue)
    requires AskedFor(web, n, q) && n <= m
    ensures AskedFor(web, m, q)
  {
    forall key | key in q ensures exists i :: 0 <= i < m && i < |web| && web[i] == Asked(q[key].name, q[key].level) {
      var i :| 0 <= i < n && i < |web| && web[i] == Asked(q[key].name, q[key].level);
    }
  }

  lemma AskedMerge(web: seq<Ask>, n: nat, a: Queue, b: Queue)
    requires AskedFor(web, n, a) && AskedFor(web, n, b)
    ensures AskedFor(web, n, a + b) && AskedFor(web, n, map[])
  {
  }

  lemma AskedPart(web: seq<Ask>, n: nat, q: Queue, part: Queue)
    requires AskedFor(web, n, q) && forall key :: key in part ==> key in q && part[key] == q[key]
    ensures AskedFor(web, n, part)
  {
  }

  lemma UnlistedPart(ops: seq<OpEntry>, q: Queue)
    ensures forall key :: key in Unlisted(ops, q) ==> key in q && Unlisted(ops, q)[key] == q[key]
  {
  }

  /** The books: how far the web process has got, and what is owed. */
  ghost predicate Recorded(web: seq<Ask>, served: nat, gaveUp: map<nat, set<string>>, due: map<string, int>) {
    served <= |web| && (forall n :: n in gaveUp ==> n <= served) && due == Owed(web, gaveUp, served)
  }
}
