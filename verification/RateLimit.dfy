/** The limiter per user: internal/middleware/ratelimit.go. Its cleanup drops entries not looked up for ten minutes. */
module RateLimit {
  import opened TokenBucket
  import opened Limiters

  const STALE_AFTER := 600.0

  datatype Entry = Entry(limiter: nat, lastAccess: real)

  function TableOf(entries: map<string, Entry>): map<string, nat> {
    map k | k in entries :: entries[k].limiter
  }

  function StampsOf(entries: map<string, Entry>): map<string, real> {
    map k | k in entries :: entries[k].lastAccess
  }

  predicate Stale(lastAccess: real, now: real) {
    lastAccess < now - STALE_AFTER
  }

  ghost function StaleKeys(stamps: map<string, real>, now: real): set<string> {
    set k | k in stamps && Stale(stamps[k], now)
  }

  class RateLimiter {
    const limit: Limit
    var limiters: map<string, Entry>
    var buckets: seq<Bucket>  // the limiters themselves, those dropped from the table included

    constructor (rps: real, burst: nat)
      ensures limit == Limit(rps, burst) && Now() == NO_STORE && Stamps() == map[]
    {
      limit := Limit(rps, burst);
      limiters, buckets := map[], [];
    }

    function Now(): Store
      reads this
    {
      Store(buckets, TableOf(limiters))
    }

    function Stamps(): map<string, real>
      reads this
    {
      StampsOf(limiters)
    }

    /** The limiter in the table, or a new one; either way the entry counts as accessed now. */
    method GetLimiter(key: string, now: real) returns (limiter: nat)
      modifies this
      ensures (Now(), limiter) == Limiters.GetLimiter(limit, old(Now()), key)
      ensures Stamps() == old(Stamps())[key := now]
    {
      if key in limiters {
        limiters := limiters[key := limiters[key].(lastAccess := now)];
        assert TableOf(limiters) == old(TableOf(limiters));
        return limiters[key].limiter;
      }
      limiter := |buckets|;
      buckets := buckets + [NewLimiter(limit)];
      limiters := limiters[key := Entry(limiter, now)];
      assert TableOf(limiters) == old(TableOf(limiters))[key := limiter];
    }

    /** Limiter.Allow, with no lock of the table held. */
    method Allow(limiter: nat, now: real) returns (ok: bool)
      requires limiter < |buckets|
      modifies this`buckets
      ensures (ok, Now()) == AskLimiter(limit, old(Now()), limiter, now)
    {
      var (allowed, bucket) := AllowN(limit, buckets[limiter], now, 1);
      buckets := buckets[limiter := bucket];
      ok := allowed;
    }

    method CleanupStaleEntries(now: real)
      modifies this`limiters
      ensures var dropped := StaleKeys(old(Stamps()), now);
              && Now() == CleanedUp(limit, false, old(Now()), now, dropped)
              && Stamps() == old(Stamps()) - dropped
      ensures forall k :: k in Stamps() <==> k in old(Stamps()) && now - old(Stamps())[k] <= 600.0
    {
      var threshold := now - STALE_AFTER;
      ghost var before := limiters;
      var todo := limiters.Keys;
      while todo != {}
        invariant todo <= limiters.Keys <= before.Keys
        invariant forall k <- before :: k in todo || (k in limiters <==> !Stale(before[k].lastAccess, now))
        invariant forall k <- limiters :: limiters[k] == before[k]
        decreases todo
      {
        var key :| key in todo;
        todo := todo - {key};
        if limiters[key].lastAccess < threshold {
          limiters := limiters - {key};
        }
      }
    }
  }

  // ---------------------------------------------------------------- traces

  datatype Stamped = Stamped(s: State, stamps: map<string, real>)

  const FRESH := Stamped(START, map[])

  ghost function StampedStep(l: Limit, x: Stamped, e: Event): Stamped {
    Stamped(Step(l, false, x.s, e),
            match e
            case Lookup(key, time) => x.stamps[key := time]
            case Ask(_, _, _) => x.stamps
            case Cleanup(_, _, dropped) => x.stamps - dropped)
  }

  /** Whoever holds a limiter asks it within `delay` of the lookup. */
  ghost predicate Timely(s: State, delay: real, now: real) {
    forall r <- s.pending :: now <= s.pending[r].since + delay
  }

  ghost predicate StaleLegal(l: Limit, x: Stamped, e: Event, delay: real) {
    && Timely(x.s, delay, e.time)
    && match e
       case Lookup(_, _) => true
       case Ask(r, key, _) => r in x.s.pending && x.s.pending[r].key == key
       case Cleanup(time, end, dropped) => end == time && dropped == StaleKeys(x.stamps, time)
  }

  ghost predicate StaleTrace(l: Limit, x: Stamped, trace: seq<Event>, delay: real)
    decreases |trace|
  {
    trace == [] || (StaleLegal(l, x, trace[0], delay) && StaleTrace(l, StampedStep(l, x, trace[0]), trace[1..], delay))
  }

  // ---------------------------------------------------------------- safe delays

  ghost predicate StampsOk(x: Stamped, delay: real, now: real) {
    && x.stamps.Keys == x.s.store.table.Keys
    && (forall k <- x.stamps :: 0.0 <= x.stamps[k] <= now)
    && (forall k <- x.stamps ::
        x.s.store.table[k] < |x.s.store.buckets| && x.s.store.buckets[x.s.store.table[k]].last <= x.stamps[k] + delay)
    && (forall r <- x.s.pending ::
        x.s.pending[r].key in x.stamps && x.s.pending[r].since <= x.stamps[x.s.pending[r].key])
  }

  /** An entry not looked up for ten minutes was last asked `delay` later at most, and has refilled since. */
  lemma {:induction false} StaleIsFull(l: Limit, b: Bucket, lastAccess: real, delay: real, now: real)
    requires l.Valid() && l.rate * (STALE_AFTER - delay) >= l.burst as real && delay <= STALE_AFTER
    requires BucketOk(l, b, now) && b.last <= lastAccess + delay && Stale(lastAccess, now)
    ensures Advance(l, b, now) == l.burst as real
  {
    var idle := now - b.last;
    NonNegative(l.rate, idle - (STALE_AFTER - delay));
    Distribute(l.rate, 0.0, STALE_AFTER - delay, idle);
  }

  /** A cleanup of stale entries is a clean one that drops full limiters. */
  lemma {:induction false} StaleIsClean(l: Limit, x: Stamped, kept: Table, e: Event, delay: real, now: real)
    requires l.Valid() && l.rate * (STALE_AFTER - delay) >= l.burst as real && delay <= STALE_AFTER
    requires Tracks(l, x.s, kept, now) && AllAttached(x.s) && StampsOk(x, delay, now) && StaleLegal(l, x, e, delay)
    requires now <= e.time
    ensures Legal(l, x.s, e) && Clean(x.s, e)
  {
    hide Advance, SameTables, TableOk;
    if e.Cleanup? {
      OkLater(l, x.s.store, now, e.time);
      forall k | k in e.dropped ensures FullSometime(l, x.s.store.buckets[x.s.store.table[k]], e.time, e.end) {
        StaleIsFull(l, x.s.store.buckets[x.s.store.table[k]], x.stamps[k], delay, e.time);
      }
    }
  }

  lemma {:induction false} LookupStamps(l: Limit, x: Stamped, key: string, time: real, delay: real, now: real)
    requires 0.0 <= delay && StoreOk(l, x.s.store, now) && StampsOk(x, delay, now) && 0.0 <= now <= time
    ensures StampsOk(StampedStep(l, x, Lookup(key, time)), delay, time)
  {
    hide BucketOk;
  }

  lemma {:induction false} AskStamps(l: Limit, x: Stamped, e: Event, delay: real, now: real)
    requires StoreOk(l, x.s.store, now) && AllAttached(x.s) && StampsOk(x, delay, now)
    requires StaleLegal(l, x, e, delay) && e.Ask? && CanAsk(x.s, e.request) && now <= e.time
    ensures StampsOk(StampedStep(l, x, e), delay, e.time)
  {
    hide Advance, BucketOk;
    assert Attached(x.s, e.request);
  }

  lemma {:induction false} CleanupStamps(l: Limit, x: Stamped, e: Event, delay: real, now: real)
    requires StampsOk(x, delay, now) && e.Cleanup? && Clean(x.s, e) && now <= e.end
    ensures StampsOk(StampedStep(l, x, e), delay, e.end)
  {
  }

  lemma {:induction false} StampsStay(l: Limit, x: Stamped, kept: Table, e: Event, delay: real, now: real)
    requires l.Valid() && 0.0 <= delay && Tracks(l, x.s, kept, now) && AllAttached(x.s) && StampsOk(x, delay, now)
    requires StaleLegal(l, x, e, delay) && Clean(x.s, e) && now <= e.time
    ensures StampsOk(StampedStep(l, x, e), delay, e.End())
  {
    hide SameTables, TableOk, StampsOk, AllAttached, StampedStep;
    match e {
      case Lookup(key, time) => LookupStamps(l, x, key, time, delay, now);
      case Ask(r, _, _) =>
        CanAskIt(l, x.s, kept, r, now);
        AskStamps(l, x, e, delay, now);
      case Cleanup(_, _, _) => CleanupStamps(l, x, e, delay, now);
    }
  }

  lemma {:induction false} StaleRunIsKeepRun(l: Limit, x: Stamped, kept: Table, trace: seq<Event>, delay: real,
                                             now: real)
    requires l.Valid() && 0.0 <= delay <= STALE_AFTER && l.rate * (STALE_AFTER - delay) >= l.burst as real
    requires Tracks(l, x.s, kept, now) && AllAttached(x.s) && StampsOk(x, delay, now)
    requires StaleTrace(l, x, trace, delay) && Ordered(trace, now)
    ensures Run(l, false, x.s, trace) == KeepRun(l, kept, trace)
    decreases |trace|
  {
    hide Tracks, AllAttached, StampsOk, Step, KeepStep, StaleLegal, Legal, Clean, Stray, Answer, KeepAnswer;
    if trace != [] {
      var e := trace[0];
      StaleIsClean(l, x, kept, e, delay, now);
      StepTracks(l, false, x.s, kept, e, now);
      StepAttached(l, false, x.s, kept, e, now);
      StampsStay(l, x, kept, e, delay, now);
      StaleRunIsKeepRun(l, StampedStep(l, x, e), KeepStep(l, kept, e), trace[1..], delay, e.End());
    }
  }

  // ---------------------------------------------------------------- exactly when dropping is invisible

  ghost predicate AllAt(trace: seq<Event>, t: real) {
    forall e <- trace :: e.time == t
  }

  /** Requests at one moment, none of them overdue. */
  lemma {:induction false} QuietIsStale(l: Limit, x: Stamped, trace: seq<Event>, delay: real, t: real)
    requires 0.0 <= delay && Quiet(trace) && AllAt(trace, t) && LegalTrace(l, false, x.s, trace)
    requires Timely(x.s, delay, t)
    ensures StaleTrace(l, x, trace, delay)
    decreases |trace|
  {
    if trace != [] {
      var e, x' := trace[0], StampedStep(l, x, trace[0]);
      assert e in trace && e.time == t;
      assert Timely(x'.s, delay, t);
      hide Step, Timely;
      QuietIsStale(l, x', trace[1..], delay, t);
    }
  }

  lemma {:induction false} PairsAt(key: string, n: nat, next: nat, t: real)
    ensures AllAt(Pairs(key, n, next, t), t)
  {
    if n > 0 {
      PairsAt(key, n - 1, next + 1, t);
    }
  }

  /** Lookups of an idle key change no decision. */
  lemma {:induction false} FirstLookups(l: Limit, x: Stamped, kept: Table, key: string, i: nat, n: nat,
                                        rest: seq<Event>, delay: real)
    returns (end: Stamped)
    requires 0.0 <= delay && Waiting(l, x.s, key, i, 0.0) && x.stamps == if i == 0 then map[] else map[key := 0.0]
    ensures Waiting(l, end.s, key, i + n, 0.0) && end.stamps == if i + n == 0 then map[] else map[key := 0.0]
    ensures StaleTrace(l, end, rest, delay) ==> StaleTrace(l, x, LookupsThen(n, key, 0.0, rest), delay)
    ensures var trace := LookupsThen(n, key, 0.0, rest);
            (Run(l, false, x.s, trace) == KeepRun(l, kept, trace)) ==>
              Run(l, false, end.s, rest) == KeepRun(l, kept, rest)
    decreases n
  {
    hide Waiting, Step, StaleLegal, Run, KeepRun;
    if n == 0 {
      end := x;
    } else {
      var tail, lookup := LookupsThen(n - 1, key, 0.0, rest), Lookup(key, 0.0);
      OneLookup(l, x, key, i, delay);
      end := FirstLookups(l, StampedStep(l, x, lookup), kept, key, i + 1, n - 1, rest, delay);
      assert LookupsThen(n, key, 0.0, rest) == [lookup] + tail;
      assert ([lookup] + tail)[1..] == tail;
      TailsEqual(l, x.s, kept, lookup, tail);
    }
  }

  lemma {:induction false} OneLookup(l: Limit, x: Stamped, key: string, i: nat, delay: real)
    requires 0.0 <= delay && Waiting(l, x.s, key, i, 0.0) && x.stamps == if i == 0 then map[] else map[key := 0.0]
    ensures var lookup := Lookup(key, 0.0); var x' := StampedStep(l, x, lookup);
            Waiting(l, x'.s, key, i + 1, 0.0) && x'.stamps == map[key := 0.0] && StaleLegal(l, x, lookup, delay)
  {
  }

  /** Equal decisions on a trace are equal decisions on its tail. */
  lemma {:induction false} TailsEqual(l: Limit, s: State, kept: Table, e: Event, tail: seq<Event>)
    ensures Run(l, false, s, [e] + tail) == KeepRun(l, kept, [e] + tail)
            ==> Run(l, false, Step(l, false, s, e), tail) == KeepRun(l, KeepStep(l, kept, e), tail)
  {
    hide Step, KeepStep, Answer, KeepAnswer;
    var trace := [e] + tail;
    assert trace[1..] == tail;
    assert Run(l, false, s, trace)[1..] == Run(l, false, Step(l, false, s, e), tail);
    assert KeepRun(l, kept, trace)[1..] == KeepRun(l, KeepStep(l, kept, e), tail);
  }

  /** Requests that hold the limiter of a key use up its tokens, here as in the table that never drops. */
  lemma {:induction false} HeldAsks(l: Limit, x: Stamped, kept: Table, key: string, held: seq<nat>, rest: seq<Event>,
                                    delay: real)
    returns (end: Stamped, spent: Table)
    requires l.Valid() && Tracks(l, x.s, kept, delay) && AllAttached(x.s) && Timely(x.s, delay, delay)
    requires Waits(x.s, key, held) && |held| <= l.burst && Advance(l, BucketOf(l, kept, key), delay) >= |held| as real
    ensures Tracks(l, end.s, spent, delay) && Waits(end.s, key, [])
    ensures end.stamps == x.stamps && end.s.store.table == x.s.store.table && end.s.next == x.s.next
    ensures Advance(l, BucketOf(l, spent, key), delay) == Advance(l, BucketOf(l, kept, key), delay) - |held| as real
    ensures StaleTrace(l, end, rest, delay) ==> StaleTrace(l, x, AsksThen(held, key, delay, rest), delay)
    ensures var trace := AsksThen(held, key, delay, rest);
            (Run(l, false, x.s, trace) == KeepRun(l, kept, trace)) ==>
              Run(l, false, end.s, rest) == KeepRun(l, spent, rest)
    decreases |held|
  {
    hide Tracks, Advance, AllowN, BucketOf, KeepStep, KeepAnswer, Timely, AllAttached, Waits, Step, StaleLegal;
    if held == [] {
      end, spent := x, kept;
    } else {
      var ask, tail := Ask(held[0], key, delay), AsksThen(held[1..], key, delay, rest);
      var x' := StampedStep(l, x, ask);
      OneAsk(l, x, kept, key, held, delay);
      AttachedAskTracks(l, false, x.s, kept, ask, delay);
      OneToken(l, x.s, kept, ask, |held|);
      end, spent := HeldAsks(l, x', KeepStep(l, kept, ask), key, held[1..], rest, delay);
      assert AsksThen(held, key, delay, rest) == [ask] + tail;
      assert ([ask] + tail)[1..] == tail;
      TailsEqual(l, x.s, kept, ask, tail);
    }
  }

  /** Exactly these requests are pending, each once, all for the key. */
  ghost predicate Waits(s: State, key: string, held: seq<nat>) {
    && (forall i, j :: 0 <= i < j < |held| ==> held[i] != held[j])
    && (forall r :: r in s.pending <==> r in held)
    && (forall r <- s.pending :: s.pending[r].key == key)
  }

  lemma {:induction false} OneAsk(l: Limit, x: Stamped, kept: Table, key: string, held: seq<nat>, delay: real)
    requires Tracks(l, x.s, kept, delay) && AllAttached(x.s) && Timely(x.s, delay, delay) && Waits(x.s, key, held)
    requires held != []
    ensures var ask := Ask(held[0], key, delay); var x' := StampedStep(l, x, ask);
            && Legal(l, x.s, ask) && StaleLegal(l, x, ask, delay) && Attached(x.s, held[0])
            && x'.stamps == x.stamps && x'.s.store.table == x.s.store.table && x'.s.next == x.s.next
            && AllAttached(x'.s) && Timely(x'.s, delay, delay) && Waits(x'.s, key, held[1..])
  {
    hide SameTables, TableOk, BucketOk, AllowN;
    assert held[0] in held;
    assert held == [held[0]] + held[1..];
    CanAskIt(l, x.s, kept, held[0], delay);
  }

  lemma {:induction false} OneToken(l: Limit, s: State, kept: Table, ask: Event, n: nat)
    requires l.Valid() && ask.Ask? && Tracks(l, s, kept, ask.time) && 1 <= n <= l.burst
    requires Advance(l, BucketOf(l, kept, ask.key), ask.time) >= n as real
    ensures Advance(l, BucketOf(l, KeepStep(l, kept, ask), ask.key), ask.time)
            == Advance(l, BucketOf(l, kept, ask.key), ask.time) - 1.0
  {
    HasToken(l, s, kept, ask, n);
    SpendsOne(l, kept, ask, ask.key, ask.time);
  }

  /** A moment after ten minutes at which a bucket emptied at `delay` has not refilled. */
  lemma {:induction false} TooEarly(l: Limit, delay: real) returns (t: real)
    requires l.Valid() && 0.0 <= delay && 1 <= l.burst && l.rate * (STALE_AFTER - delay) < l.burst as real
    ensures t > STALE_AFTER && t >= delay && l.rate * (t - delay) < l.burst as real
  {
    var from := if delay <= STALE_AFTER then STALE_AFTER else delay;
    if l.rate == 0.0 {
      t := from + 1.0;
    } else {
      assert l.rate * (from - delay) < l.burst as real;
      var gap := l.burst as real - l.rate * (from - delay);
      t := from + gap / (2.0 * l.rate);
      assert l.rate * (gap / (2.0 * l.rate)) == gap / 2.0;
      Distribute(l.rate, delay, from, t);
    }
  }

  lemma {:induction false} TracksLater(l: Limit, s: State, kept: Table, now: real, later: real)
    requires l.Valid() && Tracks(l, s, kept, now) && now <= later
    ensures Tracks(l, s, kept, later)
  {
    hide Advance, BucketOf;
    TableOkLater(l, kept, now, later);
    OkLater(l, s.store, now, later);
    SameLater(l, Current(s.store), Current(s.store), kept, now, later);
  }

  /** With its tokens used up at `delay` and its entry dropped at t, a key gets a full burst that it should not get. */
  lemma {:induction false} FreshBurst(l: Limit, x: Stamped, spent: Table, key: string, delay: real, t: real)
    requires l.Valid() && 1 <= l.burst && 0.0 <= delay <= t && STALE_AFTER < t && l.rate * (t - delay) < l.burst as real
    requires Tracks(l, x.s, spent, delay) && Waits(x.s, key, []) && x.stamps == map[key := 0.0]
    requires x.s.store.table.Keys == {key}
    requires Advance(l, BucketOf(l, spent, key), delay) == 0.0
    ensures var rest := [Cleanup(t, t, {key})] + Pairs(key, l.burst, x.s.next, t);
            StaleTrace(l, x, rest, delay) && Ordered(rest, t) && Run(l, false, x.s, rest) != KeepRun(l, spent, rest)
  {
    hide Advance, SameTables, TableOk, BucketOf, Run, KeepRun, Admitted, LegalTrace, StoreOk, HeldOk, LastTime, AllowN;
    var e, pairs := Cleanup(t, t, {key}), Pairs(key, l.burst, x.s.next, t);
    var x' := StampedStep(l, x, e);
    assert StaleLegal(l, x, e, delay) && x'.s.store.table == map[];
    TracksLater(l, x.s, spent, delay, t);
    CleanedUpOk(l, false, x.s.store, e, t);
    EmptyTracks(l, x'.s, key, t);
    NewIsFull(l, t);
    PairsAdmitted(l, false, x'.s, map[], key, l.burst, t);
    PairsOrdered(key, l.burst, x.s.next, t);
    PairsAt(key, l.burst, x.s.next, t);
    QuietIsStale(l, x', pairs, delay, t);
    FewTokens(l, x.s, spent, key, pairs, delay, t);
    assert ([e] + pairs)[1..] == pairs;
    TailsEqual(l, x.s, spent, e, pairs);
  }

  lemma {:induction false} EmptyTracks(l: Limit, s: State, key: string, t: real)
    requires StoreOk(l, s.store, t) && s.store.table == map[] && s.pending == map[]
    ensures Tracks(l, s, map[], t) && BucketOf(l, map[], key) == NewLimiter(l)
  {
    assert Current(s.store) == map[];
  }

  lemma {:induction false} FewTokens(l: Limit, s: State, spent: Table, key: string, pairs: seq<Event>, delay: real,
                                     t: real)
    requires l.Valid() && Tracks(l, s, spent, delay) && delay <= t && l.rate * (t - delay) < l.burst as real
    requires Advance(l, BucketOf(l, spent, key), delay) == 0.0 && Ordered(pairs, t) && LastTime(pairs, t) == t
    ensures Admitted(pairs, KeepRun(l, spent, pairs), key) < l.burst
  {
    hide Advance, KeepRun, Admitted, Ordered, LastTime, BucketOf;
    TableOkLater(l, spent, delay, t);
    TableOkLater(l, spent, delay, delay);
    AdvanceTwice(l, BucketOf(l, spent, key), delay, t);
    AdmittedBound(l, spent, pairs, key, t);
    NoWidth(l.rate, LastTime(pairs, t), t);
  }

  lemma {:induction false} DelayShows(l: Limit, delay: real, key: string) returns (trace: seq<Event>)
    requires l.Valid() && 1 <= l.burst && 0.0 <= delay && l.rate * (STALE_AFTER - delay) < l.burst as real
    ensures StaleTrace(l, FRESH, trace, delay) && Ordered(trace, 0.0)
    ensures Run(l, false, START, trace) != KeepRun(l, map[], trace)
  {
    hide Advance, Run, KeepRun, StaleTrace, Tracks, AllAttached;
    var t := TooEarly(l, delay);
    var held := seq(l.burst, i requires 0 <= i < l.burst => i as nat);
    var rest := [Cleanup(t, t, {key})] + Pairs(key, l.burst, l.burst, t);
    var asks := AsksThen(held, key, delay, rest);
    trace := LookupsThen(l.burst, key, 0.0, asks);
    var x := FirstLookups(l, FRESH, map[], key, 0, l.burst, asks, delay);
    WaitingTracks(l, x.s, key, l.burst, 0.0);
    TracksLater(l, x.s, map[], 0.0, delay);
    NewIsFull(l, delay);
    AllWait(l, x.s, key, held, delay);
    var end, spent := HeldAsks(l, x, map[], key, held, rest, delay);
    FreshBurst(l, end, spent, key, delay, t);
    InOrder(l, key, held, rest, delay, t);
  }

  lemma {:induction false} AllWait(l: Limit, s: State, key: string, held: seq<nat>, delay: real)
    requires Waiting(l, s, key, |held|, 0.0) && forall i :: 0 <= i < |held| ==> held[i] == i
    ensures Waits(s, key, held) && Timely(s, delay, delay) && BucketOf(l, map[], key) == NewLimiter(l)
  {
    forall r: nat ensures r in held <==> r < |held| {
      if r < |held| {
        assert held[r] == r;
      }
    }
  }

  lemma {:induction false} InOrder(l: Limit, key: string, held: seq<nat>, rest: seq<Event>, delay: real, t: real)
    requires Ordered(rest, t) && rest != [] && 0.0 <= delay <= t
    ensures Ordered(LookupsThen(l.burst, key, 0.0, AsksThen(held, key, delay, rest)), 0.0)
  {
    hide Run, Admitted, LegalTrace;
    AsksOrdered(held, key, delay, rest);
    LookupsWait(l, false, START, key, 0, l.burst, 0.0, AsksThen(held, key, delay, rest));
  }

  lemma {:induction false} NothingAdmitted(l: Limit, s: State, kept: Table, trace: seq<Event>)
    requires l.burst == 0
    ensures Run(l, false, s, trace) == KeepRun(l, kept, trace)
    decreases |trace|
  {
    hide Step, KeepStep;
    if trace != [] {
      NothingAdmitted(l, Step(l, false, s, trace[0]), KeepStep(l, kept, trace[0]), trace[1..]);
    }
  }

  /** Forgetting entries after ten minutes changes no decision of any trace whose requests ask within `delay` of
    * their lookup, if and only if what is left of the ten minutes refills a whole burst. */
  lemma {:induction false} StaleInvisibleIff(l: Limit, delay: real)
    requires l.Valid() && 0.0 <= delay
    ensures (forall trace ::
               StaleTrace(l, FRESH, trace, delay) && Ordered(trace, 0.0) ==>
               Run(l, false, START, trace) == KeepRun(l, map[], trace))
            <==> l.burst == 0 || l.rate * (600.0 - delay) >= l.burst as real
  {
    hide Run, KeepRun, StaleTrace, Ordered;
    if l.burst == 0 {
      forall trace ensures Run(l, false, START, trace) == KeepRun(l, map[], trace) {
        NothingAdmitted(l, START, map[], trace);
      }
    } else if l.rate * (STALE_AFTER - delay) >= l.burst as real {
      PositiveDelay(l, delay);
      forall trace | StaleTrace(l, FRESH, trace, delay) && Ordered(trace, 0.0)
        ensures Run(l, false, START, trace) == KeepRun(l, map[], trace)
      {
        StartTracks(l);
        StaleRunIsKeepRun(l, FRESH, map[], trace, delay, 0.0);
      }
    } else {
      var trace := DelayShows(l, delay, "");
    }
  }

  lemma {:induction false} PositiveDelay(l: Limit, delay: real)
    requires l.Valid() && 1 <= l.burst && l.rate * (STALE_AFTER - delay) >= l.burst as real
    ensures delay <= STALE_AFTER
  {
    if delay > STALE_AFTER {
      NonNegative(l.rate, delay - STALE_AFTER);
      Distribute(l.rate, STALE_AFTER, delay, STALE_AFTER);
    }
  }

  /** RateLimitMiddleware's limits: 100 requests a minute, bursts of 100. A burst refills in one minute, so nine are
    * left. */
  const MIDDLEWARE_LIMIT := Limit(100.0 / 60.0, 100)

  /** The middleware, cleanups included, decides every trace as if it never forgot anyone, as long as every request
    * asks within nine minutes of its lookup; then in any window a key gets at most 100 requests plus 100 a minute
    * through. */
  lemma {:induction false} MiddlewareForgetsNothing(trace: seq<Event>, i: nat, j: nat, key: string)
    requires StaleTrace(MIDDLEWARE_LIMIT, FRESH, trace, 540.0) && Ordered(trace, 0.0) && i < j <= |trace|
    ensures var answers := Run(MIDDLEWARE_LIMIT, false, START, trace);
            && answers == KeepRun(MIDDLEWARE_LIMIT, map[], trace)
            && Admitted(trace[i..j], answers[i..j], key) as real
               <= 100.0 + (100.0 / 60.0) * (LastTime(trace[i..j], trace[i].time) - trace[i].time)
  {
    hide Run, KeepRun, StaleTrace, Ordered, Admitted, LastTime;
    StaleInvisibleIff(MIDDLEWARE_LIMIT, 540.0);
    WindowBound(MIDDLEWARE_LIMIT, trace, i, j, key);
  }

  /** Then a request is let through if and only if that keeps every window that ends with it within 100 + 100 a
    * minute. */
  lemma {:induction false} MiddlewareRefusesIff(trace: seq<Event>, j: nat)
    requires StaleTrace(MIDDLEWARE_LIMIT, FRESH, trace, 540.0) && Ordered(trace, 0.0) && j < |trace| && trace[j].Ask?
    ensures Run(MIDDLEWARE_LIMIT, false, START, trace)[j]
            <==> AllFit(Limit(100.0 / 60.0, 100), trace, j)
  {
    hide Run, KeepRun, StaleTrace, Ordered, AllFit;
    StaleInvisibleIff(MIDDLEWARE_LIMIT, 540.0);
    RefusedIff(MIDDLEWARE_LIMIT, trace, j);
  }

  /** Nine minutes is the longest delay for which the middleware forgets nothing. */
  lemma {:induction false} NineMinutes(delay: real)
    requires 0.0 <= delay
    ensures (forall trace :: StaleTrace(MIDDLEWARE_LIMIT, FRESH, trace, delay) && Ordered(trace, 0.0)
                             ==> Run(MIDDLEWARE_LIMIT, false, START, trace) == KeepRun(MIDDLEWARE_LIMIT, map[], trace))
            <==> delay <= 540.0
  {
    hide Run, KeepRun, StaleTrace, Ordered;
    StaleInvisibleIff(MIDDLEWARE_LIMIT, delay);
  }
}
