/** The limiter per address: internal/middleware/wrapper.go. Its cleanup drops limiters that are full. */
module IPRateLimit {
  import opened TokenBucket
  import opened Limiters

  class IPRateLimiter {
    const limit: Limit
    var limiters: map<string, nat>
    var buckets: seq<Bucket>  // the limiters themselves, those dropped from the table included

    constructor (requestsPerMinute: nat)
      ensures limit == Limit(requestsPerMinute as real / 60.0, requestsPerMinute) && limit.Valid()
      ensures Now() == NO_STORE
    {
      limit := Limit(requestsPerMinute as real / 60.0, requestsPerMinute);
      limiters, buckets := map[], [];
    }

    function Now(): Store
      reads this
    {
      Store(buckets, limiters)
    }

    method GetLimiter(ip: string) returns (limiter: nat)
      modifies this
      ensures (Now(), limiter) == Limiters.GetLimiter(limit, old(Now()), ip)
    {
      if ip in limiters {
        return limiters[ip];
      }
      limiter := |buckets|;
      buckets := buckets + [NewLimiter(limit)];
      limiters := limiters[ip := limiter];
    }

    /** Limiter.Allow, with no lock of the table held. */
    method Allow(limiter: nat, now: real) returns (ok: bool)
      requires limiter < |buckets|
      modifies this`buckets
      ensures (ok, Now()) == AskLimiter(limit, old(Now()), limiter, now)
    {
      var (allowed, bucket) := AllowN(limit, buckets[limiter], now, 1);
      buckets := buckets[limiter := bucket];
      ok := allowed;
    }

    /** One round of the cleanup loop. Each limiter's tokens are read at a moment of its own, not before `now`. */
    method Cleanup(now: real) returns (ghost dropped: set<string>, end: real)
      requires limit.Valid() && StoreOk(limit, Now(), now)
      modifies this
      ensures now <= end && DropsFull(limit, old(Now()), Event.Cleanup(now, end, dropped))
      ensures Now() == CleanedUp(limit, true, old(Now()), now, dropped)
      ensures forall k <- limiters :: Advance(limit, old(buckets)[limiters[k]], now) < limit.burst as real
    {
      hide Advance, AllowN, StoreOk, RoundSoFar, DropsFull;
      ghost var before := Now();
      dropped, end := {}, now;
      var todo := limiters.Keys;
      RoundStarts(limit, before, now);
      while todo != {}
        invariant RoundSoFar(limit, before, Now(), todo, dropped, now, end)
        decreases todo
      {
        var ip :| ip in todo;
        NextEntry(limit, before, Now(), todo, dropped, now, end, ip);
        var limiter := limiters[ip];
        var (allowed, bucket) := AllowN(limit, buckets[limiter], now, 0);
        var tick: real := *;
        if tick < end {
          tick := end;
        }
        RoundGoesOn(limit, before, Now(), todo, dropped, now, end, ip, tick);
        buckets := buckets[limiter := bucket];
        todo, end := todo - {ip}, tick;
        if allowed && Advance(limit, bucket, tick) == limit.burst as real {
          limiters := limiters - {ip};
          dropped := dropped + {ip};
        }
      }
      RoundEnds(limit, before, Now(), dropped, now, end);
    }
  }

  predicate Full(l: Limit, b: Bucket, now: real) {
    Advance(l, b, now) == l.burst as real
  }

  /** Half way through a round: the limiters of the entries seen are up to date, and the full ones are dropped. */
  ghost predicate RoundSoFar(l: Limit, before: Store, store: Store, todo: set<string>, dropped: set<string>, now: real,
                             end: real) {
    && now <= end && StoreOk(l, before, now) && BucketsSoFar(l, before, store.buckets, todo, now)
    && TableSoFar(l, before, store.table, todo, dropped, now, end)
  }

  ghost predicate BucketsSoFar(l: Limit, before: Store, buckets: seq<Bucket>, todo: set<string>, now: real) {
    && |buckets| == |before.buckets|
    && forall h :: 0 <= h < |buckets| ==>
         buckets[h] == if Seen(before.table, todo, h) then AllowN(l, before.buckets[h], now, 0).1 else before.buckets[h]
  }

  ghost predicate Seen(table: map<string, nat>, todo: set<string>, h: nat) {
    InTable(table, h) && !InTable(Restrict(table, todo), h)
  }

  ghost predicate TableSoFar(l: Limit, before: Store, table: map<string, nat>, todo: set<string>, dropped: set<string>,
                             now: real, end: real)
    requires StoreOk(l, before, now)
  {
    && todo <= table.Keys && dropped <= before.table.Keys && dropped !! todo && table == before.table - dropped
    && (forall k <- dropped :: FullSometime(l, before.buckets[before.table[k]], now, end))
    && (forall k <- table :: k in todo || Advance(l, before.buckets[before.table[k]], now) < l.burst as real)
  }

  ghost function Restrict(table: map<string, nat>, keys: set<string>): map<string, nat> {
    map k | k in table && k in keys :: table[k]
  }

  lemma {:induction false} RoundStarts(l: Limit, before: Store, now: real)
    requires StoreOk(l, before, now)
    ensures RoundSoFar(l, before, before, before.table.Keys, {}, now, now)
  {
    hide Advance, AllowN;
    assert Restrict(before.table, before.table.Keys) == before.table;
    assert before.table - {} == before.table;
  }

  lemma {:induction false} NextEntry(l: Limit, before: Store, store: Store, todo: set<string>, dropped: set<string>,
                                     now: real, end: real, ip: string)
    requires RoundSoFar(l, before, store, todo, dropped, now, end) && ip in todo
    ensures ip in store.table && ip in before.table && store.table[ip] == before.table[ip] < |store.buckets|
    ensures store.buckets[store.table[ip]] == before.buckets[before.table[ip]]
  {
    hide Advance, AllowN;
    assert Restrict(before.table, todo)[ip] == before.table[ip];
  }

  lemma {:induction false} OneBucket(l: Limit, before: Store, buckets: seq<Bucket>, todo: set<string>, now: real,
                                     ip: string)
    requires StoreOk(l, before, now) && BucketsSoFar(l, before, buckets, todo, now) && ip in todo && ip in before.table
    ensures var h := before.table[ip];
            BucketsSoFar(l, before, buckets[h := AllowN(l, before.buckets[h], now, 0).1], todo - {ip}, now)
  {
    hide Advance, AllowN, BucketOk;
    var rest, more := Restrict(before.table, todo - {ip}), Restrict(before.table, todo);
    forall h: nat ensures InTable(rest, h) <==> InTable(more, h) && h != before.table[ip] {
      if k :| k in more && more[k] == h && h != before.table[ip] {
        assert k in rest && rest[k] == h;
      }
      if k :| k in rest && rest[k] == h {
        assert k in more && more[k] == h;
      }
    }
    assert InTable(before.table, before.table[ip]);
  }

  /** A limiter that is not full at a later moment was not full before, and asking it for no tokens always succeeds. */
  lemma {:induction false} NotFullBefore(l: Limit, b: Bucket, now: real, tick: real)
    requires l.Valid() && BucketOk(l, b, now) && now <= tick
    ensures AllowN(l, b, now, 0).0 && Advance(l, AllowN(l, b, now, 0).1, tick) == Advance(l, b, tick)
    ensures Advance(l, b, now) <= Advance(l, b, tick) <= l.burst as real
  {
    NotNegative(l, b, now);
    AdvanceTwice(l, b, now, tick);
  }

  lemma {:induction false} OneEntry(l: Limit, before: Store, table: map<string, nat>, todo: set<string>,
                                    dropped: set<string>, now: real, end: real, ip: string, tick: real)
    requires StoreOk(l, before, now) && TableSoFar(l, before, table, todo, dropped, now, end) && ip in todo
    requires now <= end <= tick
    ensures var full := Full(l, before.buckets[before.table[ip]], tick);
            Advance(l, before.buckets[before.table[ip]], now) < l.burst as real || full ==>
              TableSoFar(l, before, if full then table - {ip} else table, todo - {ip},
                         if full then dropped + {ip} else dropped, now, tick)
  {
    hide Advance, BucketOk;
    forall k | k in dropped ensures FullSometime(l, before.buckets[before.table[k]], now, tick) {
      assert FullSometime(l, before.buckets[before.table[k]], now, end);
    }
  }

  lemma {:induction false} RoundGoesOn(l: Limit, before: Store, store: Store, todo: set<string>, dropped: set<string>,
                                       now: real, end: real, ip: string, tick: real)
    requires l.Valid() && RoundSoFar(l, before, store, todo, dropped, now, end) && ip in todo && end <= tick
    ensures ip in store.table && store.table[ip] < |store.buckets|
    ensures var h := store.table[ip];
            var (allowed, bucket) := AllowN(l, store.buckets[h], now, 0);
            var drop := allowed && Full(l, bucket, tick);
            RoundSoFar(l, before, Store(store.buckets[h := bucket], if drop then store.table - {ip} else store.table),
                       todo - {ip},
                       if drop then dropped + {ip} else dropped, now, tick)
  {
    hide Advance, AllowN, BucketsSoFar, TableSoFar;
    NextEntry(l, before, store, todo, dropped, now, end, ip);
    OneBucket(l, before, store.buckets, todo, now, ip);
    NotFullBefore(l, before.buckets[before.table[ip]], now, tick);
    OneEntry(l, before, store.table, todo, dropped, now, end, ip, tick);
  }

  lemma {:induction false} RoundEnds(l: Limit, before: Store, store: Store, dropped: set<string>, now: real, end: real)
    requires RoundSoFar(l, before, store, {}, dropped, now, end)
    ensures now <= end && DropsFull(l, before, Event.Cleanup(now, end, dropped))
    ensures store == CleanedUp(l, true, before, now, dropped)
    ensures forall k <- store.table ::
            store.table[k] < |before.buckets| && Advance(l, before.buckets[store.table[k]], now) < l.burst as real
  {
    hide Advance, AllowN;
    assert Restrict(before.table, {}) == map[];
    assert store.buckets == Touched(l, before, now);
  }

  // ---------------------------------------------------------------- every trace

  function LimitOf(requestsPerMinute: nat): Limit {
    Limit(requestsPerMinute as real / 60.0, requestsPerMinute)
  }

  /** For every rate and trace: dropping addresses is invisible, at every point and whatever requests come then, if
    * and only if no cleanup drops an address while a limiter looked up for it is still to be asked. */
  lemma {:induction false} IpInvisibleIff(requestsPerMinute: nat, trace: seq<Event>)
    requires 1 <= requestsPerMinute
    requires LegalTrace(LimitOf(requestsPerMinute), true, START, trace) && Ordered(trace, 0.0)
    ensures var l := LimitOf(requestsPerMinute);
            Invisible(l, true, START, map[], trace, 0.0) <==> CleanTrace(l, true, START, trace)
  {
    hide Invisible, CleanTrace, LegalTrace, Ordered, Tracks, AllAttached;
    StartTracks(LimitOf(requestsPerMinute));
    InvisibleIff(LimitOf(requestsPerMinute), true, START, map[], trace, 0.0);
  }

  /** A trace with clean cleanups only is decided as if nothing was dropped, so its windows obey burst + rate *
    * width. */
  lemma {:induction false} IpForgetsNothing(requestsPerMinute: nat, trace: seq<Event>, i: nat, j: nat, key: string)
    requires LegalTrace(LimitOf(requestsPerMinute), true, START, trace) && Ordered(trace, 0.0) && i < j <= |trace|
    requires CleanTrace(LimitOf(requestsPerMinute), true, START, trace)
    ensures var l := LimitOf(requestsPerMinute);
            var answers := Run(l, true, START, trace);
            && answers == KeepRun(l, map[], trace)
            && Admitted(trace[i..j], answers[i..j], key) as real
               <= requestsPerMinute as real
                  + requestsPerMinute as real / 60.0 * (LastTime(trace[i..j], trace[i].time) - trace[i].time)
  {
    hide KeepRun, Run, Admitted, LastTime, LegalTrace, CleanTrace, Ordered, Tracks, AllAttached;
    var l := LimitOf(requestsPerMinute);
    StartTracks(l);
    CleanRunIsKeepRun(l, true, START, map[], trace, 0.0);
    WindowBound(l, trace, i, j, key);
  }

  /** In such a trace a request is let through if and only if that keeps every window that ends with it within its
    * bound. */
  lemma {:induction false} IpRefusesIff(requestsPerMinute: nat, trace: seq<Event>, j: nat)
    requires LegalTrace(LimitOf(requestsPerMinute), true, START, trace) && Ordered(trace, 0.0)
    requires CleanTrace(LimitOf(requestsPerMinute), true, START, trace) && j < |trace| && trace[j].Ask?
    ensures Run(LimitOf(requestsPerMinute), true, START, trace)[j]
            <==> AllFit(Limit(requestsPerMinute as real / 60.0, requestsPerMinute), trace, j)
  {
    hide KeepRun, Run, LegalTrace, CleanTrace, Ordered, Tracks, AllAttached, AllFit;
    var l := LimitOf(requestsPerMinute);
    StartTracks(l);
    CleanRunIsKeepRun(l, true, START, map[], trace, 0.0);
    RefusedIff(l, trace, j);
  }

  /** Every trace: a window lets through at most burst + rate * width requests of an address, and those that ask a
    * limiter dropped since they looked it up. */
  lemma {:induction false} IpWindow(requestsPerMinute: nat, trace: seq<Event>, i: nat, j: nat, key: string)
    requires LegalTrace(LimitOf(requestsPerMinute), true, START, trace) && Ordered(trace, 0.0) && i < j <= |trace|
    ensures var l := LimitOf(requestsPerMinute);
            var answers, strays := Run(l, true, START, trace), Strays(l, true, START, trace);
            Admitted(trace[i..j], answers[i..j], key) as real
            <= requestsPerMinute as real
               + requestsPerMinute as real / 60.0 * (LastTime(trace[i..j], trace[i].time) - trace[i].time)
               + StraysAdmitted(trace[i..j], answers[i..j], strays[i..j], key) as real
  {
    hide Strays, Run, Admitted, StraysAdmitted, LastTime, LegalTrace, Ordered;
    WindowWithDrops(LimitOf(requestsPerMinute), true, trace, i, j, key);
  }

  /** The extra term is needed: at any moment twice the burst of an address can get through. */
  lemma {:induction false} IpTwiceTheBurst(requestsPerMinute: nat, key: string, t: real)
    requires 1 <= requestsPerMinute && t >= 0.0
    ensures var l := LimitOf(requestsPerMinute);
            exists trace :: LegalTrace(l, true, START, trace) && Ordered(trace, t) && LastTime(trace, t) == t
                            && Admitted(trace, Run(l, true, START, trace), key) == 2 * requestsPerMinute
  {
    hide Run, Admitted, LastTime, LegalTrace, Ordered;
    TwiceTheBurst(LimitOf(requestsPerMinute), true, key, t);
  }
}
