/** The request limit of the registration service: a token bucket for each client address, over
    real time in seconds. */
module TokenBucketSpec {
  const BURST: real := 10.0
  const PER_SEC: real := 1.0
  const PRUNE_SECS: int := 300

  type Ip = nat

  datatype Bucket = Bucket(tokens: real, lastRefill: real)

  function Min(x: real, y: real): real {
    if x <= y then x else y
  }

  function NewBucket(now: real): Bucket {
    Bucket(BURST, now)
  }

  function TryConsume(b: Bucket, now: real): (Bucket, bool) {
    var refilled := Min(b.tokens + (now - b.lastRefill) * PER_SEC, BURST);
    if refilled >= 1.0 then (Bucket(refilled - 1.0, now), true) else (Bucket(refilled, now), false)
  }

  type Buckets = map<Ip, Bucket>

  /** A request makes a bucket if there is none, at a first reading of the clock, and consumes at a
      second one. */
  function Request(m: Buckets, ip: Ip, created: real, now: real): (Buckets, bool) {
    var (b, ok) := TryConsume(if ip in m then m[ip] else NewBucket(created), now);
    (m[ip := b], ok)
  }

  predicate Kept(b: Bucket, now: real) {
    (now - b.lastRefill).Floor < PRUNE_SECS
  }

  function Prune(m: Buckets, now: real): Buckets {
    map ip | ip in m && Kept(m[ip], now) :: m[ip]
  }

  datatype Event = RequestFrom(ip: Ip, created: real, now: real) | PruneAt(now: real)

  function Step(m: Buckets, e: Event): Buckets {
    match e
    case RequestFrom(ip, created, now) => Request(m, ip, created, now).0
    case PruneAt(now) => Prune(m, now)
  }

  function Exec(events: seq<Event>): Buckets {
    if events == [] then map[] else Step(Exec(events[..|events| - 1]), events[|events| - 1])
  }

  /** The service admits the k-th event, a request. */
  predicate Admits(events: seq<Event>, k: nat)
    requires k < |events|
  {
    && events[k].RequestFrom?
    && Request(Exec(events[..k]), events[k].ip, events[k].created, events[k].now).1
  }

  /** The readings of the clock never go back. */
  predicate Ordered(events: seq<Event>) {
    && (forall i, j | 0 <= i < j < |events| :: events[i].now <= First(events[j]))
    && (forall i | 0 <= i < |events| :: First(events[i]) <= events[i].now)
  }

  function First(e: Event): real {
    if e.RequestFrom? then e.created else e.now
  }
}

/** Independent descriptions of what the limiter admits. */
module TokenBucketProofs {
  import opened TokenBucketSpec

  /** The tokens a client would find. */
  function Level(m: Buckets, ip: Ip, now: real): real {
    if ip in m then Min(m[ip].tokens + (now - m[ip].lastRefill), BURST) else BURST
  }

  ghost predicate Inv(m: Buckets, clock: real) {
    forall ip | ip in m :: 0.0 <= m[ip].tokens <= BURST && m[ip].lastRefill <= clock
  }

  /** A request is admitted if a token is there, and takes it; nobody else's level changes. */
  lemma RequestTakesToken(m: Buckets, ip: Ip, created: real, now: real)
    requires Inv(m, created) && created <= now
    ensures var (m', ok) := Request(m, ip, created, now);
            && Inv(m', now)
            && (ok <==> Level(m, ip, now) >= 1.0)
            && Level(m', ip, now) == Level(m, ip, now) - (if ok then 1.0 else 0.0)
            && forall other, t | other != ip :: Level(m', other, t) == Level(m, other, t)
  {
  }

  /** Time only refills. */
  lemma LevelRefills(m: Buckets, ip: Ip, t: real, u: real)
    requires Inv(m, t) && t <= u
    ensures Level(m, ip, u) == Min(Level(m, ip, t) + (u - t), BURST)
    ensures 0.0 <= Level(m, ip, t) <= BURST
  {
  }

  /** A bucket idle for PRUNE_SECS is full: dropping it changes no level, now or later. */
  lemma PruneKeepsLevels(m: Buckets, now: real, ip: Ip, t: real)
    requires Inv(m, now) && now <= t
    ensures Inv(Prune(m, now), now)
    ensures Level(Prune(m, now), ip, t) == Level(m, ip, t)
  {
  }

  ghost predicate EndsBy(events: seq<Event>, t: real) {
    Ordered(events) && (events != [] ==> events[|events| - 1].now <= t)
  }

  /** The run up to the last event, and what is known before it. */
  lemma Front(events: seq<Event>)
    requires Ordered(events) && events != []
    ensures EndsBy(events[..|events| - 1], First(events[|events| - 1]))
    ensures First(events[|events| - 1]) <= events[|events| - 1].now
  {
  }

  lemma {:induction false} ExecKeepsInv(events: seq<Event>, t: real)
    requires EndsBy(events, t)
    ensures Inv(Exec(events), t)
  {
    if events != [] {
      var (before, e) := (events[..|events| - 1], events[|events| - 1]);
      Front(events);
      hide Ordered;
      ExecKeepsInv(before, First(e));
      if e.RequestFrom? {
        RequestTakesToken(Exec(before), e.ip, e.created, e.now);
      } else {
        PruneKeepsLevels(Exec(before), e.now, 0, e.now);
      }
    }
  }

  // Pruning is invisible

  /** The same service without pruning. */
  function Unpruned(events: seq<Event>): Buckets {
    if events == [] then map[]
    else
      var before := Unpruned(events[..|events| - 1]);
      if events[|events| - 1].PruneAt? then before else Step(before, events[|events| - 1])
  }

  /** Two services whose levels agree, one that prunes and one that does not, still agree after an event. */
  lemma EventKeepsAgreement(m: Buckets, full: Buckets, e: Event, ip: Ip)
    requires Inv(m, First(e)) && Inv(full, First(e)) && First(e) <= e.now
    requires Level(m, ip, First(e)) == Level(full, ip, First(e))
    requires e.RequestFrom? ==> Level(m, e.ip, First(e)) == Level(full, e.ip, First(e))
    ensures var full' := if e.PruneAt? then full else Step(full, e);
            Inv(full', e.now) && Level(Step(m, e), ip, e.now) == Level(full', ip, e.now)
  {
    hide Request, Prune, Level, Inv;
    LevelRefills(m, ip, First(e), e.now);
    LevelRefills(full, ip, First(e), e.now);
    if e.RequestFrom? {
      RequestTakesToken(m, e.ip, e.created, e.now);
      RequestTakesToken(full, e.ip, e.created, e.now);
      LevelRefills(m, e.ip, First(e), e.now);
      LevelRefills(full, e.ip, First(e), e.now);
    } else {
      PruneKeepsLevels(m, e.now, ip, e.now);
      Later(full, First(e), e.now);
    }
  }

  lemma {:induction false} SameLevels(events: seq<Event>, ip: Ip, t: real)
    requires EndsBy(events, t)
    ensures Inv(Unpruned(events), t)
    ensures Level(Exec(events), ip, t) == Level(Unpruned(events), ip, t)
  {
    hide Ordered, Level, Step;
    if events == [] {
      NothingYet(t);
    } else {
      hide Inv;
      var (before, e) := (events[..|events| - 1], events[|events| - 1]);
      Front(events);
      ExecKeepsInv(before, First(e));
      ExecKeepsInv(events, e.now);
      SameLevels(before, ip, First(e));
      if e.RequestFrom? {
        SameLevels(before, e.ip, First(e));
      }
      EventKeepsAgreement(Exec(before), Unpruned(before), e, ip);
      LevelRefills(Exec(events), ip, e.now, t);
      LevelRefills(Unpruned(events), ip, e.now, t);
      Later(Unpruned(events), e.now, t);
    }
  }

  lemma NothingYet(t: real)
    ensures Exec([]) == Unpruned([]) == map[] && Inv(map[], t)
  {
  }

  lemma Later(m: Buckets, t: real, u: real)
    requires Inv(m, t) && t <= u
    ensures Inv(m, u)
  {
  }

  /** Pruning gives exactly the same admissions and refusals as never pruning. */
  lemma PruningIsInvisible(events: seq<Event>, k: nat)
    requires Ordered(events) && k < |events| && events[k].RequestFrom?
    ensures Admits(events, k) <==> Request(Unpruned(events[..k]), events[k].ip, events[k].created, events[k].now).1
  {
    var e := events[k];
    Prefix(events, k);
    ExecKeepsInv(events[..k], e.created);
    SameLevels(events[..k], e.ip, e.created);
    hide Ordered, Level, Request;
    var (m, full) := (Exec(events[..k]), Unpruned(events[..k]));
    RequestTakesToken(m, e.ip, e.created, e.now);
    RequestTakesToken(full, e.ip, e.created, e.now);
    LevelRefills(m, e.ip, e.created, e.now);
    LevelRefills(full, e.ip, e.created, e.now);
  }

  lemma Prefix(events: seq<Event>, k: nat)
    requires Ordered(events) && k < |events|
    ensures EndsBy(events[..k], First(events[k])) && First(events[k]) <= events[k].now
  {
  }

  // Windows

  /** How many of the events from i up to k, without k, are admitted requests of the client. */
  function Admitted(events: seq<Event>, ip: Ip, i: nat, k: nat): nat
    requires k <= |events|
  {
    if k <= i then 0
    else Admitted(events, ip, i, k - 1)
         + (if events[k - 1].RequestFrom? && events[k - 1].ip == ip && Admits(events, k - 1) then 1 else 0)
  }

  /** The level before event k is at most what the window from event i on leaves of the burst. */
  lemma {:induction false} LevelFitsWindow(events: seq<Event>, ip: Ip, i: nat, k: nat, t: real)
    requires Ordered(events) && i <= k <= |events| && i < |events|
    requires EndsBy(events[..k], t) && events[i].now <= t
    ensures Level(Exec(events[..k]), ip, t) <= BURST + (t - events[i].now) - Admitted(events, ip, i, k) as real
  {
    ExecKeepsInv(events[..k], t);
    if i == k {
      LevelRefills(Exec(events[..k]), ip, t, t);
    } else {
      var e := events[k - 1];
      Prefix(events, k - 1);
      assert events[..k][..k - 1] == events[..k - 1];
      var m := Exec(events[..k - 1]);
      ExecKeepsInv(events[..k - 1], First(e));
      ExecKeepsInv(events[..k], e.now);
      LastEvent(events, k, t);
      hide Ordered, Level, Request, Prune;
      LevelFitsWindow(events, ip, i, k - 1, e.now);
      LevelAfter(events, ip, k - 1);
      LevelRefills(Exec(events[..k]), ip, e.now, t);
    }
  }

  lemma LastEvent(events: seq<Event>, k: nat, t: real)
    requires Ordered(events) && 0 < k <= |events| && EndsBy(events[..k], t)
    ensures events[k - 1].now <= t
    ensures EndsBy(events[..k], events[k - 1].now) && EndsBy(events[..k - 1], events[k - 1].now)
    ensures forall i | 0 <= i < k :: events[i].now <= events[k - 1].now
  {
    assert events[..k][k - 1] == events[k - 1];
  }

  /** What an event does to a client's level. */
  lemma LevelAfter(events: seq<Event>, ip: Ip, k: nat)
    requires Ordered(events) && k < |events|
    ensures var (e, m) := (events[k], Exec(events[..k]));
            var own := e.RequestFrom? && e.ip == ip;
            && (own ==> (Admits(events, k) <==> Level(m, ip, e.now) >= 1.0))
            && Level(Exec(events[..k + 1]), ip, e.now)
               == Level(m, ip, e.now) - (if own && Admits(events, k) then 1.0 else 0.0)
  {
    Prefix(events, k);
    assert events[..k + 1][..k] == events[..k];
    var (e, m) := (events[k], Exec(events[..k]));
    ExecKeepsInv(events[..k], First(e));
    hide Ordered, Level, Request, Prune;
    if e.RequestFrom? {
      RequestTakesToken(m, e.ip, e.created, e.now);
    } else {
      PruneKeepsLevels(m, e.now, ip, e.now);
    }
  }

  /** In any window, from one event to a later one, at most BURST + T requests of a client are
      admitted, T being the time between the two. */
  lemma WindowBound(events: seq<Event>, ip: Ip, i: nat, j: nat)
    requires Ordered(events) && i <= j < |events|
    ensures Admitted(events, ip, i, j + 1) as real <= BURST + (events[j].now - events[i].now)
  {
    var t := events[j].now;
    Prefix(events, j);
    ExecKeepsInv(events[..j + 1], t);
    LevelFitsWindow(events, ip, i, j + 1, t);
    LevelRefills(Exec(events[..j + 1]), ip, t, t);
  }

  /** The level before an event, from the level before the event before it. */
  lemma LevelFromBefore(events: seq<Event>, ip: Ip, k: nat, t: real)
    requires Ordered(events) && 0 < k < |events| && t == events[k].now
    ensures var before := events[k - 1].now;
            var taken := (Admitted(events, ip, k - 1, k)) as real;
            Level(Exec(events[..k]), ip, t)
            == Min(Level(Exec(events[..k - 1]), ip, before) - taken + (t - before), BURST)
  {
    Prefix(events, k);
    LevelAfter(events, ip, k - 1);
    LastEvent(events, k, t);
    hide Ordered, Level, Request, Prune, Admits;
    ExecKeepsInv(events[..k], events[k - 1].now);
    LevelRefills(Exec(events[..k]), ip, events[k - 1].now, t);
  }

  /** Some window leaves exactly the level. */
  lemma {:induction false} LevelIsSomeWindow(events: seq<Event>, ip: Ip, k: nat, t: real) returns (i: nat)
    requires Ordered(events) && k < |events|
    requires t == events[k].now
    ensures i <= k
    ensures Level(Exec(events[..k]), ip, t) == BURST + (t - events[i].now) - Admitted(events, ip, i, k) as real
  {
    hide Ordered, Level, Request, Prune, Admits, Exec;
    i := k;
    if k == 0 {
      NoLevelYet(events, ip, t);
    } else {
      LevelFromBefore(events, ip, k, t);
      if Level(Exec(events[..k]), ip, t) != BURST {
        i := LevelIsSomeWindow(events, ip, k - 1, events[k - 1].now);
      }
    }
  }

  lemma NoLevelYet(events: seq<Event>, ip: Ip, t: real)
    ensures Level(Exec(events[..0]), ip, t) == BURST
  {
    assert events[..0] == [];
  }

  /** Exactly when a request is admitted: every window that ends with it, itself included, stays
      within BURST + T. */
  lemma AdmitsIff(events: seq<Event>, k: nat)
    requires Ordered(events) && k < |events| && events[k].RequestFrom?
    ensures Admits(events, k)
       <==> forall i: nat | i <= k ::
              Admitted(events, events[k].ip, i, k) as real + 1.0 <= BURST + (events[k].now - events[i].now)
  {
    var e := events[k];
    Prefix(events, k);
    LevelAfter(events, e.ip, k);
    LastEvent(events, k + 1, e.now);
    forall i: nat | i <= k
      ensures Level(Exec(events[..k]), e.ip, e.now)
           <= BURST + (e.now - events[i].now) - Admitted(events, e.ip, i, k) as real
    {
      LevelFitsWindow(events, e.ip, i, k, e.now);
    }
    var i := LevelIsSomeWindow(events, e.ip, k, e.now);
    hide Level, Admits, Ordered;
  }
}

/** The limiter's objects: one bucket object for each client in a map. */
module TokenBucket {
  import opened TokenBucketSpec

  class TokenBucket {
    var tokens: real
    var lastRefill: real

    function View(): Bucket
      reads this
    {
      Bucket(tokens, lastRefill)
    }

    constructor (now: real)
      ensures View() == NewBucket(now)
    {
      tokens, lastRefill := BURST, now;
    }

    method TryConsume(now: real) returns (ok: bool)
      modifies this
      ensures (View(), ok) == TokenBucketSpec.TryConsume(old(View()), now)
    {
      var elapsed := now - lastRefill;
      lastRefill := now;
      tokens := Min(tokens + elapsed * PER_SEC, BURST);
      if tokens >= 1.0 {
        tokens := tokens - 1.0;
        ok := true;
      } else {
        ok := false;
      }
    }
  }

  class Limiter {
    var buckets: map<Ip, TokenBucket>

    /** No two clients share a bucket. */
    ghost predicate Valid()
      reads this
    {
      forall a, b | a in buckets && b in buckets && a != b :: buckets[a] != buckets[b]
    }

    ghost function View(): Buckets
      reads this, buckets.Values
    {
      map ip | ip in buckets :: buckets[ip].View()
    }

    constructor ()
      ensures Valid() && View() == map[]
    {
      buckets := map[];
    }

    method Admit(ip: Ip, created: real, now: real) returns (ok: bool)
      requires Valid()
      modifies this, buckets.Values
      ensures Valid() && fresh(buckets.Values - old(buckets.Values))
      ensures (View(), ok) == Request(old(View()), ip, created, now)
    {
      hide TokenBucketSpec.TryConsume;
      if ip !in buckets {
        var bucket := new TokenBucket(created);
        buckets := buckets[ip := bucket];
      }
      ghost var before := View();
      assert before == if ip in old(View()) then old(View()) else old(View())[ip := NewBucket(created)];
      ok := Consume(ip, now);
      assert old(View())[ip := before[ip]][ip := View()[ip]] == old(View())[ip := View()[ip]];
    }

    /** Consumes from the client's bucket and leaves the others alone. */
    method Consume(ip: Ip, now: real) returns (ok: bool)
      requires Valid() && ip in buckets
      modifies buckets[ip]
      ensures (View(), ok) == (var (b, admitted) := TokenBucketSpec.TryConsume(old(View())[ip], now);
                               (old(View())[ip := b], admitted))
    {
      hide TokenBucketSpec.TryConsume;
      var bucket := buckets[ip];
      ok := bucket.TryConsume(now);
      assert forall other | other in buckets && other != ip :: buckets[other].View() == old(buckets[other].View());
      assert View() == old(View())[ip := bucket.View()];
    }

    /** Drops the buckets that were not used for PRUNE_SECS whole seconds. */
    method DropIdle(now: real)
      requires Valid()
      modifies this
      ensures Valid() && buckets.Values <= old(buckets.Values)
      ensures View() == Prune(old(View()), now)
    {
      hide Kept;
      var all := buckets;
      ghost var views := View();
      var left := buckets.Keys;
      while left != {}
        invariant left <= all.Keys
        invariant IsPruned(all, views, left, buckets, now)
        decreases |left|
      {
        hide IsPruned;
        var ip :| ip in left;
        var keep := KeepsBucket(all[ip], now);
        OneMorePruned(all, views, left, buckets, now, ip);
        left := left - {ip};
        if !keep {
          buckets := buckets - {ip};
        }
      }
    }
  }

  method KeepsBucket(bucket: TokenBucket, now: real) returns (keep: bool)
    ensures keep == Kept(bucket.View(), now)
  {
    keep := (now - bucket.lastRefill).Floor < PRUNE_SECS;
  }

  /** All but the ones left to look at are dropped or kept as they should be. */
  ghost predicate IsPruned(all: map<Ip, TokenBucket>, views: Buckets, left: set<Ip>, buckets: map<Ip, TokenBucket>,
                           now: real) {
    && all.Keys == views.Keys
    && (forall ip | ip in buckets :: ip in all && buckets[ip] == all[ip])
    && (forall ip | ip in all :: ip in buckets <==> ip in left || Kept(views[ip], now))
  }

  lemma OneMorePruned(all: map<Ip, TokenBucket>, views: Buckets, left: set<Ip>, buckets: map<Ip, TokenBucket>,
                      now: real, ip: Ip)
    requires IsPruned(all, views, left, buckets, now) && ip in left && ip in all && ip in views
    ensures IsPruned(all, views, left - {ip}, if Kept(views[ip], now) then buckets else buckets - {ip}, now)
  {
    hide Kept;
  }
}
