/**
 * Fixed-window admission control: a limiter owns a dictionary from identifier
 * to {count, resetTime}; each check creates, replaces or bumps the record.
 * The clock reading `now` (milliseconds) is a parameter of every operation.
 */
module RateLimit {

  /** The policy bound to one limiter instance. */
  datatype Config = Config(maxRequests: nat, windowMs: nat)

  /** Admissions granted in the current window, and the instant the window ends. */
  datatype Record = Record(count: nat, resetTime: int)

  type Store = map<string, Record>

  /** Both exported limiters: 3 admissions per 24 hours. */
  const DailyLimit: Config := Config(3, 24 * 60 * 60 * 1000)

  /** A record governs until `now` is strictly past its reset time. */
  predicate Expired(r: Record, now: int) {
    now > r.resetTime
  }

  predicate HasLiveRecord(store: Store, id: string, now: int) {
    id in store && !Expired(store[id], now)
  }

  /** Every stored record has admitted at least once. */
  predicate WellFormed(store: Store) {
    forall id :: id in store ==> store[id].count >= 1
  }

  /** The answer `isAllowed` gives. */
  predicate Admits(store: Store, cfg: Config, id: string, now: int) {
    !HasLiveRecord(store, id, now) || store[id].count < cfg.maxRequests
  }

  /** The store after `isAllowed(id)` at time `now`. */
  function AfterCheck(store: Store, cfg: Config, id: string, now: int): (s': Store)
    ensures s'.Keys == store.Keys + {id}
    ensures forall other :: other in store && other != id ==> s'[other] == store[other]
    ensures WellFormed(store) ==> WellFormed(s')
  {
    if !HasLiveRecord(store, id, now) then store[id := Record(1, now + cfg.windowMs)]
    else if store[id].count >= cfg.maxRequests then store
    else store[id := store[id].(count := store[id].count + 1)]
  }

  /** What `getRemainingRequests` reports. */
  function Remaining(store: Store, cfg: Config, id: string, now: int): (n: nat)
    ensures n <= cfg.maxRequests
    ensures !HasLiveRecord(store, id, now) ==> n == cfg.maxRequests
  {
    if !HasLiveRecord(store, id, now) then cfg.maxRequests
    else if cfg.maxRequests - store[id].count > 0 then cfg.maxRequests - store[id].count
    else 0
  }

  /** What `getResetTime` reports: 0 when nothing governs. */
  function ResetTime(store: Store, id: string, now: int): (t: int)
    ensures HasLiveRecord(store, id, now) ==> t >= now
  {
    if !HasLiveRecord(store, id, now) then 0 else store[id].resetTime
  }

  // ---------------------------------------------------------------------------
  // One check at a time
  // ---------------------------------------------------------------------------

  /** With no live record the check is admitted and opens a window of count 1. */
  lemma FreshWindow(store: Store, cfg: Config, id: string, now: int)
    requires !HasLiveRecord(store, id, now)
    ensures Admits(store, cfg, id, now)
    ensures AfterCheck(store, cfg, id, now)[id] == Record(1, now + cfg.windowMs)
  {
  }

  /** At `now == resetTime` the old record still governs: it is neither replaced nor reset. */
  lemma LiveAtResetTime(store: Store, cfg: Config, id: string)
    requires id in store
    ensures var now := store[id].resetTime;
      && HasLiveRecord(store, id, now)
      && Admits(store, cfg, id, now) == (store[id].count < cfg.maxRequests)
      && AfterCheck(store, cfg, id, now)[id].resetTime == now
      && AfterCheck(store, cfg, id, now)[id].count >= store[id].count
  {
  }

  /** A saturated live record rejects and leaves the whole store as it was. */
  lemma SaturatedRejects(store: Store, cfg: Config, id: string, now: int)
    requires HasLiveRecord(store, id, now) && store[id].count >= cfg.maxRequests
    ensures !Admits(store, cfg, id, now)
    ensures AfterCheck(store, cfg, id, now) == store
  {
  }

  /** Under the ceiling the count rises by exactly one and the window end stays. */
  lemma UnderCeilingIncrements(store: Store, cfg: Config, id: string, now: int)
    requires HasLiveRecord(store, id, now) && store[id].count < cfg.maxRequests
    ensures Admits(store, cfg, id, now)
    ensures AfterCheck(store, cfg, id, now)[id] == Record(store[id].count + 1, store[id].resetTime)
  {
  }

  /** After any check the identifier has a live record at that instant. */
  lemma CheckLeavesLiveRecord(store: Store, cfg: Config, id: string, now: int)
    ensures HasLiveRecord(AfterCheck(store, cfg, id, now), id, now)
    ensures ResetTime(AfterCheck(store, cfg, id, now), id, now) ==
      if HasLiveRecord(store, id, now) then store[id].resetTime else now + cfg.windowMs
  {
  }

  /**
   * The quota report and the admission decision agree: a check is refused exactly
   * when a live record reports no quota left, an admitted check uses up one unit
   * of the reported quota, and a refused one uses none.
   */
  lemma RemainingTracksAdmission(store: Store, cfg: Config, id: string, now: int)
    requires WellFormed(store)
    ensures !Admits(store, cfg, id, now) <==>
      HasLiveRecord(store, id, now) && Remaining(store, cfg, id, now) == 0
    ensures var before := Remaining(store, cfg, id, now);
      Remaining(AfterCheck(store, cfg, id, now), cfg, id, now) ==
        if Admits(store, cfg, id, now) then (if before > 0 then before - 1 else 0) else before
  {
  }

  // ---------------------------------------------------------------------------
  // Sequences of checks
  // ---------------------------------------------------------------------------

  /** One call of `isAllowed(id)` made at time `now`. */
  datatype Call = Call(id: string, now: int)

  /** The store after a sequence of checks, in order. */
  function Replay(store: Store, cfg: Config, calls: seq<Call>): Store
    decreases |calls|
  {
    if calls == [] then store
    else Replay(AfterCheck(store, cfg, calls[0].id, calls[0].now), cfg, calls[1..])
  }

  /** How many of the calls for `id` in `calls` were admitted. */
  function Grants(store: Store, cfg: Config, calls: seq<Call>, id: string): nat
    decreases |calls|
  {
    if calls == [] then 0
    else
      var c := calls[0];
      (if c.id == id && Admits(store, cfg, c.id, c.now) then 1 else 0)
        + Grants(AfterCheck(store, cfg, c.id, c.now), cfg, calls[1..], id)
  }

  /** Every call for `id` in `calls` happens no later than `deadline`. */
  predicate CallsNoLaterThan(calls: seq<Call>, id: string, deadline: int) {
    forall i :: 0 <= i < |calls| && calls[i].id == id ==> calls[i].now <= deadline
  }

  /**
   * While a record with count `k` governs, whatever other identifiers do in
   * between, at most `maxRequests - k` (and never fewer than zero) further
   * checks for the identifier are admitted.
   */
  lemma {:induction false} LiveWindowBound(store: Store, cfg: Config, calls: seq<Call>, id: string)
    requires id in store
    requires CallsNoLaterThan(calls, id, store[id].resetTime)
    ensures Grants(store, cfg, calls, id) <=
      if store[id].count < cfg.maxRequests then cfg.maxRequests - store[id].count else 0
    ensures id in Replay(store, cfg, calls)
    ensures Replay(store, cfg, calls)[id].resetTime == store[id].resetTime
    decreases |calls|
  {
    if calls != [] {
      var c := calls[0];
      var next := AfterCheck(store, cfg, c.id, c.now);
      assert CallsNoLaterThan(calls[1..], id, next[id].resetTime) by {
        forall i | 0 <= i < |calls[1..]| && calls[1..][i].id == id
          ensures calls[1..][i].now <= next[id].resetTime
        {
          assert calls[1..][i] == calls[i + 1];
        }
      }
      LiveWindowBound(next, cfg, calls[1..], id);
    }
  }

  /** Once saturated, every further check in the same window is refused. */
  lemma SaturatedStaysRefused(store: Store, cfg: Config, calls: seq<Call>, id: string)
    requires id in store && store[id].count >= cfg.maxRequests
    requires CallsNoLaterThan(calls, id, store[id].resetTime)
    ensures Grants(store, cfg, calls, id) == 0
  {
    LiveWindowBound(store, cfg, calls, id);
  }

  /**
   * A window opens with a check made when no record governs; from then until the
   * window's end, at most `maxRequests` checks for that identifier are admitted
   * (at least the opening one, even when `maxRequests` is 0).
   */
  lemma WindowAdmitsAtMostMax(store: Store, cfg: Config, id: string, t0: int, later: seq<Call>)
    requires !HasLiveRecord(store, id, t0)
    requires CallsNoLaterThan(later, id, t0 + cfg.windowMs)
    ensures var g := Grants(store, cfg, [Call(id, t0)] + later, id);
      1 <= g && g <= if cfg.maxRequests >= 1 then cfg.maxRequests else 1
  {
    var calls := [Call(id, t0)] + later;
    assert calls[1..] == later;
    var next := AfterCheck(store, cfg, id, t0);
    LiveWindowBound(next, cfg, later, id);
  }

  // ---------------------------------------------------------------------------
  // The limiter object
  // ---------------------------------------------------------------------------

  class RateLimiter {
    const config: Config
    var store: Store

    ghost predicate Valid()
      reads this
    {
      WellFormed(store)
    }

    constructor (config: Config)
      ensures Valid() && this.config == config && store == map[]
    {
      this.config := config;
      store := map[];
    }

    /** `isAllowed(identifier)`, with the clock reading passed in. */
    method IsAllowed(identifier: string, now: int) returns (allowed: bool)
      requires Valid()
      modifies this
      ensures Valid()
      ensures allowed == Admits(old(store), config, identifier, now)
      ensures store == AfterCheck(old(store), config, identifier, now)
    {
      if identifier !in store || now > store[identifier].resetTime {
        store := store[identifier := Record(1, now + config.windowMs)];
        return true;
      }
      var record := store[identifier];
      if record.count >= config.maxRequests {
        return false;
      }
      store := store[identifier := record.(count := record.count + 1)];
      return true;
    }

    /** `getRemainingRequests(identifier)`: read-only. */
    method GetRemainingRequests(identifier: string, now: int) returns (remaining: nat)
      ensures remaining == Remaining(store, config, identifier, now)
      ensures remaining <= config.maxRequests
    {
      if identifier !in store || now > store[identifier].resetTime {
        return config.maxRequests;
      }
      var record := store[identifier];
      remaining := if config.maxRequests > record.count then config.maxRequests - record.count else 0;
    }

    /** `getResetTime(identifier)`: read-only; 0 when no record governs. */
    method GetResetTime(identifier: string, now: int) returns (resetTime: int)
      ensures resetTime == ResetTime(store, identifier, now)
    {
      if identifier !in store || now > store[identifier].resetTime {
        return 0;
      }
      return store[identifier].resetTime;
    }
  }

  // ---------------------------------------------------------------------------
  // The two exported limiters and their keyed wrappers
  // ---------------------------------------------------------------------------

  function CreateKey(userId: string): string { "create:" + userId }

  function JoinKey(userId: string): string { "join:" + userId }

  /** The two key spaces never meet, and distinct users get distinct keys in each. */
  lemma KeysDistinct(u: string, v: string)
    ensures CreateKey(u) != JoinKey(v)
    ensures u != v ==> CreateKey(u) != CreateKey(v) && JoinKey(u) != JoinKey(v)
  {
    assert CreateKey(u)[0] == 'c' && JoinKey(v)[0] == 'j';
    assert CreateKey(u)[7..] == u && CreateKey(v)[7..] == v;
    assert JoinKey(u)[5..] == u && JoinKey(v)[5..] == v;
  }

  /** `eventCreationLimiter` and `eventJoinLimiter`, with the functions that wrap them. */
  class Limiters {
    const creation: RateLimiter
    const join: RateLimiter

    ghost predicate Valid()
      reads this, creation, join
    {
      && creation != join
      && creation.Valid() && join.Valid()
      && creation.config == DailyLimit && join.config == DailyLimit
    }

    constructor ()
      ensures Valid() && fresh(creation) && fresh(join)
      ensures creation.store == map[] && join.store == map[]
    {
      creation := new RateLimiter(DailyLimit);
      join := new RateLimiter(DailyLimit);
    }

    /** `checkEventCreationLimit(userId)`: the join limiter is untouched. */
    method CheckEventCreationLimit(userId: string, now: int) returns (allowed: bool)
      requires Valid()
      modifies creation
      ensures Valid()
      ensures allowed == Admits(old(creation.store), DailyLimit, CreateKey(userId), now)
      ensures creation.store == AfterCheck(old(creation.store), DailyLimit, CreateKey(userId), now)
      ensures join.store == old(join.store)
    {
      allowed := creation.IsAllowed(CreateKey(userId), now);
    }

    /** `checkEventJoinLimit(userId)`: the creation limiter is untouched. */
    method CheckEventJoinLimit(userId: string, now: int) returns (allowed: bool)
      requires Valid()
      modifies join
      ensures Valid()
      ensures allowed == Admits(old(join.store), DailyLimit, JoinKey(userId), now)
      ensures join.store == AfterCheck(old(join.store), DailyLimit, JoinKey(userId), now)
      ensures creation.store == old(creation.store)
    {
      allowed := join.IsAllowed(JoinKey(userId), now);
    }

    method GetRemainingCreations(userId: string, now: int) returns (remaining: nat)
      requires Valid()
      ensures remaining == Remaining(creation.store, DailyLimit, CreateKey(userId), now)
      ensures remaining <= 3
    {
      remaining := creation.GetRemainingRequests(CreateKey(userId), now);
    }

    method GetRemainingJoins(userId: string, now: int) returns (remaining: nat)
      requires Valid()
      ensures remaining == Remaining(join.store, DailyLimit, JoinKey(userId), now)
      ensures remaining <= 3
    {
      remaining := join.GetRemainingRequests(JoinKey(userId), now);
    }
  }

  /**
   * A client that relies on the contracts alone: three joins in a window are
   * admitted, the fourth is refused without using quota, a window reopens only
   * strictly after its reset time, and creation quota is independent of joins.
   */
  method DailyJoinScenario(u: string, v: string, t: int)
    requires u != v
  {
    var limits := new Limiters();
    var a := limits.CheckEventJoinLimit(u, t);
    var rt := limits.join.GetResetTime(JoinKey(u), t);
    assert a && rt == t + 86400000;
    var b := limits.CheckEventJoinLimit(u, t + 1);
    var c := limits.CheckEventJoinLimit(u, t + 2);
    var d := limits.CheckEventJoinLimit(u, t + 3);
    assert b && c && !d;
    var left := limits.GetRemainingJoins(u, t + 4);
    assert left == 0;
    KeysDistinct(u, v);
    var other := limits.CheckEventJoinLimit(v, t + 4);
    assert other;
    var created := limits.CheckEventCreationLimit(u, t + 5);
    assert created;
    var atEnd := limits.CheckEventJoinLimit(u, t + 86400000);
    assert !atEnd;
    var after := limits.CheckEventJoinLimit(u, t + 86400001);
    assert after;
    left := limits.GetRemainingJoins(u, t + 86400001);
    assert left == 2;
  }
}
