/** What internal/middleware/ratelimit.go and wrapper.go have in common: a table of limiters that is cleaned up in the
 * background, while requests look a limiter up under the table's lock and ask it after the lock was released.
 *
 * A limiter that is dropped from the table lives on for the requests that hold it. */
module Limiters {
  import opened TokenBucket

  /** Limiters are handles into `buckets`; a new one gets the next handle. */
  datatype Store = Store(buckets: seq<Bucket>, table: map<string, nat>)

  /** A request that holds a limiter and has not asked it yet. */
  datatype Pending = Pending(key: string, handle: nat, since: real)

  datatype State = State(store: Store, pending: map<nat, Pending>, next: nat)

  const NO_STORE := Store([], map[])
  const START := State(NO_STORE, map[], 0)

  /** getLimiter: the limiter in the table, or a new one. */
  function GetLimiter(l: Limit, store: Store, key: string): (Store, nat) {
    if key in store.table then (store, store.table[key])
    else (Store(store.buckets + [NewLimiter(l)], store.table[key := |store.buckets|]), |store.buckets|)
  }

  /** Limiter.Allow on a limiter, in the table or not. */
  function AskLimiter(l: Limit, store: Store, handle: nat, now: real): (bool, Store)
    requires handle < |store.buckets|
  {
    var (ok, bucket) := AllowN(l, store.buckets[handle], now, 1);
    (ok, store.(buckets := store.buckets[handle := bucket]))
  }

  ghost predicate InTable(table: map<string, nat>, handle: nat) {
    exists k :: k in table && table[k] == handle
  }

  /** A cleanup that asks every limiter in the table for no tokens, which brings it up to date. */
  ghost function Touched(l: Limit, store: Store, now: real): (r: seq<Bucket>)
    ensures |r| == |store.buckets|
    ensures forall h :: 0 <= h < |r| ==>
              r[h] == if InTable(store.table, h) then AllowN(l, store.buckets[h], now, 0).1 else store.buckets[h]
  {
    seq(|store.buckets|, h requires 0 <= h < |store.buckets| =>
      if InTable(store.table, h) then AllowN(l, store.buckets[h], now, 0).1 else store.buckets[h])
  }

  ghost function CleanedUp(l: Limit, touch: bool, store: Store, now: real, dropped: set<string>): Store {
    Store(if touch then Touched(l, store, now) else store.buckets, store.table - dropped)
  }

  // ---------------------------------------------------------------- steps

  ghost predicate FullSometime(l: Limit, b: Bucket, from: real, to: real) {
    exists tick :: from <= tick <= to && Advance(l, b, tick) == l.burst as real
  }

  /** A cleanup drops only limiters that were full at some moment of its own. */
  ghost predicate DropsFull(l: Limit, store: Store, e: Event)
    requires e.Cleanup?
  {
    forall k <- e.dropped ::
      k in store.table && store.table[k] < |store.buckets|
        && FullSometime(l, store.buckets[store.table[k]], e.time, e.end)
  }

  /** Only requests that looked their limiter up ask, and each asks once. */
  ghost predicate Legal(l: Limit, s: State, e: Event) {
    match e
    case Lookup(_, _) => true
    case Ask(r, key, _) => r in s.pending && s.pending[r].key == key
    case Cleanup(_, _, _) => DropsFull(l, s.store, e)
  }

  predicate CanAsk(s: State, r: nat) {
    r in s.pending && s.pending[r].handle < |s.store.buckets|
  }

  function Answer(l: Limit, s: State, e: Event): bool {
    e.Ask? && CanAsk(s, e.request) && AskLimiter(l, s.store, s.pending[e.request].handle, e.time).0
  }

  ghost function Step(l: Limit, touch: bool, s: State, e: Event): State {
    match e
    case Lookup(key, time) =>
      var (store, handle) := GetLimiter(l, s.store, key);
      State(store, s.pending[s.next := Pending(key, handle, time)], s.next + 1)
    case Ask(r, _, time) =>
      if CanAsk(s, r) then s.(store := AskLimiter(l, s.store, s.pending[r].handle, time).1, pending := s.pending - {r})
      else s
    case Cleanup(time, _, dropped) => s.(store := CleanedUp(l, touch, s.store, time, dropped))
  }

  ghost predicate LegalTrace(l: Limit, touch: bool, s: State, trace: seq<Event>)
    decreases |trace|
  {
    trace == [] || (Legal(l, s, trace[0]) && LegalTrace(l, touch, Step(l, touch, s, trace[0]), trace[1..]))
  }

  /** The decision on each event of a trace (false where nothing is asked). */
  ghost function Run(l: Limit, touch: bool, s: State, trace: seq<Event>): (r: seq<bool>)
    ensures |r| == |trace|
    decreases |trace|
  {
    if trace == [] then [] else [Answer(l, s, trace[0])] + Run(l, touch, Step(l, touch, s, trace[0]), trace[1..])
  }

  /** The request asks a limiter that was dropped since it was looked up. */
  predicate Stray(s: State, e: Event) {
    e.Ask? && CanAsk(s, e.request) && !Attached(s, e.request)
  }

  predicate Attached(s: State, r: nat)
    requires r in s.pending
  {
    s.pending[r].key in s.store.table && s.store.table[s.pending[r].key] == s.pending[r].handle
  }

  ghost function Strays(l: Limit, touch: bool, s: State, trace: seq<Event>): (r: seq<bool>)
    ensures |r| == |trace|
    decreases |trace|
  {
    if trace == [] then [] else [Stray(s, trace[0])] + Strays(l, touch, Step(l, touch, s, trace[0]), trace[1..])
  }

  /** The cleanup drops no key for which a looked-up limiter is still to be asked. */
  ghost predicate Clean(s: State, e: Event) {
    e.Cleanup? ==> forall r <- s.pending :: s.pending[r].key !in e.dropped
  }

  ghost predicate CleanTrace(l: Limit, touch: bool, s: State, trace: seq<Event>)
    decreases |trace|
  {
    trace == [] || (Clean(s, trace[0]) && CleanTrace(l, touch, Step(l, touch, s, trace[0]), trace[1..]))
  }

  // ---------------------------------------------------------------- the table as the reference sees it

  ghost function Current(store: Store): Table {
    map k | k in store.table && store.table[k] < |store.buckets| :: store.buckets[store.table[k]]
  }

  ghost predicate StoreOk(l: Limit, store: Store, now: real) {
    && now >= 0.0
    && (forall k <- store.table :: store.table[k] < |store.buckets|)
    && (forall k, k' :: k in store.table && k' in store.table && store.table[k] == store.table[k'] ==> k == k')
    && (forall h :: 0 <= h < |store.buckets| ==> BucketOk(l, store.buckets[h], now))
  }

  /** A limiter that is held is in the table, if at all, under the key it was looked up for. */
  ghost predicate PendingOk(s: State) {
    && (forall r <- s.pending :: r < s.next && HeldOk(s.store, s.pending[r]))
  }

  ghost predicate HeldOk(store: Store, p: Pending) {
    p.handle < |store.buckets| && forall k <- store.table :: store.table[k] == p.handle ==> k == p.key
  }

  /** The limiters in the table are those of a table that never drops. */
  ghost predicate Tracks(l: Limit, s: State, kept: Table, now: real) {
    && StoreOk(l, s.store, now) && PendingOk(s)
    && TableOk(l, kept, now) && SameTables(l, Current(s.store), kept, now)
  }

  ghost predicate AllAttached(s: State) {
    forall r <- s.pending :: Attached(s, r)
  }

  lemma {:induction false} CurrentOk(l: Limit, store: Store, now: real)
    requires StoreOk(l, store, now)
    ensures TableOk(l, Current(store), now)
    ensures Current(store).Keys == store.table.Keys
    ensures forall k <- store.table :: Current(store)[k] == store.buckets[store.table[k]]
  {
  }

  lemma {:induction false} GetLimiterOk(l: Limit, store: Store, key: string, now: real, time: real)
    requires l.Valid() && StoreOk(l, store, now) && now <= time
    ensures var (store', handle) := GetLimiter(l, store, key);
            && StoreOk(l, store', time) && HeldOk(store', Pending(key, handle, time))
            && key in store'.table && store'.table[key] == handle
            && forall k :: BucketOf(l, Current(store'), k) == BucketOf(l, Current(store), k)
  {
  }

  lemma {:induction false} StillHeld(l: Limit, store: Store, key: string, now: real, p: Pending)
    requires StoreOk(l, store, now) && HeldOk(store, p)
    ensures HeldOk(GetLimiter(l, store, key).0, p)
  {
  }

  lemma {:induction false} LookupTracks(l: Limit, touch: bool, s: State, kept: Table, key: string, time: real,
                                        now: real)
    requires l.Valid() && Tracks(l, s, kept, now) && now <= time
    ensures Tracks(l, Step(l, touch, s, Lookup(key, time)), kept, time)
    ensures AllAttached(s) ==> AllAttached(Step(l, touch, s, Lookup(key, time)))
  {
    hide StoreOk, HeldOk, SameTables, TableOk, Current, BucketOf;
    var s' := Step(l, touch, s, Lookup(key, time));
    GetLimiterOk(l, s.store, key, now, time);
    forall r | r in s.pending ensures HeldOk(s'.store, s.pending[r]) {
      StillHeld(l, s.store, key, now, s.pending[r]);
    }
    SameLater(l, Current(s.store), Current(s'.store), kept, now, time);
    TableOkLater(l, kept, now, time);
  }

  lemma {:induction false} SameLater(l: Limit, table: Table, table': Table, kept: Table, now: real, later: real)
    requires SameTables(l, table, kept, now) && now <= later
    requires forall k :: BucketOf(l, table', k) == BucketOf(l, table, k)
    ensures SameTables(l, table', kept, later)
  {
    hide Advance, BucketOf;
    forall k ensures Same(l, BucketOf(l, table', k), BucketOf(l, kept, k), later) {
      assert Same(l, BucketOf(l, table, k), BucketOf(l, kept, k), now);
    }
  }

  lemma {:induction false} AttachedAskTracks(l: Limit, touch: bool, s: State, kept: Table, e: Event, now: real)
    requires l.Valid() && Tracks(l, s, kept, now) && now <= e.time && e.Ask? && Legal(l, s, e) && Attached(s, e.request)
    ensures Tracks(l, Step(l, touch, s, e), KeepStep(l, kept, e), e.time) && Answer(l, s, e) == KeepAnswer(l, kept, e)
  {
    hide SameTables, TableOk, Advance, AllowN, StoreOk, HeldOk, Current;
    var h := s.pending[e.request].handle;
    CanAskIt(l, s, kept, e.request, now);
    CurrentOk(l, s.store, now);
    SameStep(l, Current(s.store), kept, e, now);
    AskOk(l, s.store, h, now, e.time);
    StillPending(l, touch, s, e);
    AskedIsKept(l, s.store, e, h, now);
    KeepStepOk(l, kept, e, now);
  }

  lemma {:induction false} StillPending(l: Limit, touch: bool, s: State, e: Event)
    requires PendingOk(s) && e.Ask? && CanAsk(s, e.request)
    ensures PendingOk(Step(l, touch, s, e))
  {
  }

  /** Asking a limiter in the table is what the reference does. */
  lemma {:induction false} AskedIsKept(l: Limit, store: Store, e: Event, h: nat, now: real)
    requires StoreOk(l, store, now) && h < |store.buckets| && e.Ask? && e.key in store.table && store.table[e.key] == h
    ensures Current(AskLimiter(l, store, h, e.time).1) == KeepStep(l, Current(store), e)
    ensures AskLimiter(l, store, h, e.time).0 == KeepAnswer(l, Current(store), e)
  {
    hide AllowN, BucketOk;
    var store' := AskLimiter(l, store, h, e.time).1;
    forall k | k in store.table ensures Current(store')[k] == KeepStep(l, Current(store), e)[k] {
    }
  }

  lemma {:induction false} AskOk(l: Limit, store: Store, handle: nat, now: real, time: real)
    requires l.Valid() && StoreOk(l, store, now) && now <= time && handle < |store.buckets|
    ensures StoreOk(l, AskLimiter(l, store, handle, time).1, time)
  {
    hide Advance;
    AllowKeepsBucketOk(l, store.buckets[handle], time, 1);
  }

  /** A stray request only changes a limiter that is no longer in the table. */
  lemma {:induction false} StrayAskTracks(l: Limit, touch: bool, s: State, kept: Table, e: Event, now: real)
    requires l.Valid() && Tracks(l, s, kept, now) && now <= e.time && Stray(s, e)
    ensures Tracks(l, Step(l, touch, s, e), kept, e.time)
  {
    hide Same, Advance, AllowN, TableOk, SameTables;
    var s' := Step(l, touch, s, e);
    AskOk(l, s.store, s.pending[e.request].handle, now, e.time);
    assert HeldOk(s.store, s.pending[e.request]);
    assert Current(s'.store) == Current(s.store);
    SameLater(l, Current(s.store), Current(s'.store), kept, now, e.time);
    TableOkLater(l, kept, now, e.time);
  }

  lemma {:induction false} TouchOk(l: Limit, store: Store, now: real, time: real)
    requires l.Valid() && StoreOk(l, store, now) && now <= time
    ensures StoreOk(l, store.(buckets := Touched(l, store, time)), time)
    ensures forall k <- store.table ::
            Same(l, Touched(l, store, time)[store.table[k]], store.buckets[store.table[k]], time)
  {
    hide Advance, Same;
    forall h | 0 <= h < |store.buckets| ensures BucketOk(l, Touched(l, store, time)[h], time) {
      AllowKeepsBucketOk(l, store.buckets[h], time, 0);
    }
    forall k | k in store.table
      ensures Same(l, Touched(l, store, time)[store.table[k]], store.buckets[store.table[k]], time) {
      assert InTable(store.table, store.table[k]);
      TouchedIsSame(l, store.buckets[store.table[k]], time);
    }
  }

  /** Asking for no tokens only brings the bucket up to date. */
  lemma {:induction false} TouchedIsSame(l: Limit, b: Bucket, t: real)
    requires l.Valid() && BucketOk(l, b, t)
    ensures Same(l, AllowN(l, b, t, 0).1, b, t)
  {
    NotNegative(l, b, t);
    forall u | u >= t ensures Advance(l, AllowN(l, b, t, 0).1, u) == Advance(l, b, u) {
      AdvanceTwice(l, b, t, u);
    }
  }

  lemma {:induction false} CleanedUpOk(l: Limit, touch: bool, store: Store, e: Event, now: real)
    requires l.Valid() && StoreOk(l, store, now) && e.Cleanup? && now <= e.time <= e.end
    ensures StoreOk(l, CleanedUp(l, touch, store, e.time, e.dropped), e.end)
    ensures forall p :: HeldOk(store, p) ==> HeldOk(CleanedUp(l, touch, store, e.time, e.dropped), p)
  {
    hide BucketOk, Same;
    TouchOk(l, store, now, e.time);
    OkLater(l, store, now, e.end);
    OkLater(l, store.(buckets := Touched(l, store, e.time)), e.time, e.end);
  }

  lemma {:induction false} CleanupTracks(l: Limit, touch: bool, s: State, kept: Table, e: Event, now: real)
    requires l.Valid() && Tracks(l, s, kept, now) && e.Cleanup? && Legal(l, s, e) && now <= e.time <= e.end
    ensures Tracks(l, Step(l, touch, s, e), kept, e.end)
  {
    hide StoreOk, HeldOk, Same, TableOk, CleanedUp, DropsFull;
    CleanedUpOk(l, touch, s.store, e, now);
    TableOkLater(l, kept, now, e.end);
    var store' := CleanedUp(l, touch, s.store, e.time, e.dropped);
    forall k ensures Same(l, BucketOf(l, Current(store'), k), BucketOf(l, kept, k), e.end) {
      CleanupSame(l, touch, s.store, kept, e, now, k);
    }
  }

  lemma {:induction false} CleanupAttached(l: Limit, touch: bool, s: State, e: Event)
    requires e.Cleanup? && AllAttached(s) && Clean(s, e)
    ensures AllAttached(Step(l, touch, s, e))
  {
    hide Touched;
  }

  lemma {:induction false} OkLater(l: Limit, store: Store, now: real, later: real)
    requires StoreOk(l, store, now) && now <= later
    ensures StoreOk(l, store, later)
  {
  }

  /** A key whose full limiter is dropped is as good as one with its limiter. */
  lemma {:induction false} CleanupSame(l: Limit, touch: bool, store: Store, kept: Table, e: Event, now: real, k: string)
    requires l.Valid() && StoreOk(l, store, now) && SameTables(l, Current(store), kept, now)
    requires e.Cleanup? && DropsFull(l, store, e) && now <= e.time <= e.end
    ensures var store' := CleanedUp(l, touch, store, e.time, e.dropped);
            Same(l, BucketOf(l, Current(store'), k), BucketOf(l, kept, k), e.end)
  {
    hide Advance, AllowN, Touched;
    assert Same(l, BucketOf(l, Current(store), k), BucketOf(l, kept, k), now);
    TouchOk(l, store, now, e.time);
    if k in e.dropped {
      var b := store.buckets[store.table[k]];
      var tick :| e.time <= tick <= e.end && Advance(l, b, tick) == l.burst as real;
      FullIsNew(l, b, tick);
    }
  }

  lemma {:induction false} StepTracks(l: Limit, touch: bool, s: State, kept: Table, e: Event, now: real)
    requires l.Valid() && Tracks(l, s, kept, now) && Legal(l, s, e) && now <= e.time <= e.End()
    ensures Tracks(l, Step(l, touch, s, e), if Stray(s, e) then kept else KeepStep(l, kept, e), e.End())
    ensures !Stray(s, e) ==> Answer(l, s, e) == KeepAnswer(l, kept, e)
  {
    hide Tracks, Step, DropsFull, AskLimiter, AllowN;
    match e {
      case Lookup(key, time) => LookupTracks(l, touch, s, kept, key, time, now);
      case Ask(r, key, time) =>
        CanAskIt(l, s, kept, r, now);
        if Attached(s, r) {
          AttachedAskTracks(l, touch, s, kept, e, now);
        } else {
          StrayAskTracks(l, touch, s, kept, e, now);
        }
      case Cleanup(_, _, _) => CleanupTracks(l, touch, s, kept, e, now);
    }
  }

  lemma {:induction false} CanAskIt(l: Limit, s: State, kept: Table, r: nat, now: real)
    requires Tracks(l, s, kept, now) && r in s.pending
    ensures CanAsk(s, r)
  {
    assert HeldOk(s.store, s.pending[r]);
  }

  /** As long as cleanups are clean nobody holds a limiter that is not in the table. */
  lemma {:induction false} StepAttached(l: Limit, touch: bool, s: State, kept: Table, e: Event, now: real)
    requires l.Valid() && Tracks(l, s, kept, now) && Legal(l, s, e) && AllAttached(s) && Clean(s, e)
    requires now <= e.time <= e.End()
    ensures AllAttached(Step(l, touch, s, e)) && !Stray(s, e)
  {
    hide Tracks, DropsFull, AllowN;
    match e {
      case Lookup(key, time) => LookupTracks(l, touch, s, kept, key, time, now);
      case Ask(_, _, _) =>
      case Cleanup(_, _, _) => CleanupAttached(l, touch, s, e);
    }
  }

  // ---------------------------------------------------------------- runs

  lemma {:induction false} StartTracks(l: Limit)
    ensures Tracks(l, START, map[], 0.0) && AllAttached(START)
  {
    assert Current(NO_STORE) == map[];
  }

  /** While every cleanup is clean, all decisions are those of a table that never drops. */
  lemma {:induction false} CleanRunIsKeepRun(l: Limit, touch: bool, s: State, kept: Table, trace: seq<Event>, now: real)
    requires l.Valid() && Tracks(l, s, kept, now) && AllAttached(s)
    requires LegalTrace(l, touch, s, trace) && CleanTrace(l, touch, s, trace) && Ordered(trace, now)
    ensures Run(l, touch, s, trace) == KeepRun(l, kept, trace)
    decreases |trace|
  {
    hide Tracks, AllAttached, Step, KeepStep, Legal, Clean, Stray, Answer, KeepAnswer;
    if trace != [] {
      var e := trace[0];
      StepTracks(l, touch, s, kept, e, now);
      StepAttached(l, touch, s, kept, e, now);
      CleanRunIsKeepRun(l, touch, Step(l, touch, s, e), KeepStep(l, kept, e), trace[1..], e.End());
    }
  }

  /** A trace with its stray requests taken out. */
  function Mark(e: Event, stray: bool): Event {
    if stray then Cleanup(e.time, e.End(), {}) else e
  }

  function WithoutStrays(trace: seq<Event>, strays: seq<bool>): (r: seq<Event>)
    requires |strays| == |trace|
    ensures |r| == |trace| && forall i :: 0 <= i < |r| ==> r[i] == Mark(trace[i], strays[i])
  {
    seq(|trace|, i requires 0 <= i < |trace| => Mark(trace[i], strays[i]))
  }

  lemma {:induction false} MarkedOrdered(trace: seq<Event>, strays: seq<bool>, now: real)
    requires |strays| == |trace| && Ordered(trace, now)
    ensures Ordered(WithoutStrays(trace, strays), now)
    decreases |trace|
  {
    if trace != [] {
      MarkedOrdered(trace[1..], strays[1..], trace[0].End());
      assert WithoutStrays(trace, strays)[1..] == WithoutStrays(trace[1..], strays[1..]);
    }
  }

  lemma {:induction false} MarkStep(l: Limit, kept: Table, e: Event, stray: bool)
    ensures KeepStep(l, kept, Mark(e, stray)) == if stray then kept else KeepStep(l, kept, e)
    ensures !stray ==> KeepAnswer(l, kept, Mark(e, stray)) == KeepAnswer(l, kept, e)
  {
  }

  ghost predicate SameButStrays(answers: seq<bool>, kept: seq<bool>, strays: seq<bool>) {
    |answers| == |kept| == |strays| && forall i :: 0 <= i < |strays| && !strays[i] ==> answers[i] == kept[i]
  }

  lemma {:induction false} SameFirst(a: bool, answers: seq<bool>, k: bool, kept: seq<bool>, stray: bool,
                                     strays: seq<bool>)
    requires SameButStrays(answers, kept, strays) && (!stray ==> a == k)
    ensures SameButStrays([a] + answers, [k] + kept, [stray] + strays)
  {
  }

  /** Stray or not, the requests that ask the table's limiters are decided as if the stray ones did not exist. */
  lemma {:induction false} StrayRun(l: Limit, touch: bool, s: State, kept: Table, trace: seq<Event>, now: real)
    requires l.Valid() && Tracks(l, s, kept, now) && LegalTrace(l, touch, s, trace) && Ordered(trace, now)
    ensures var strays := Strays(l, touch, s, trace);
            SameButStrays(Run(l, touch, s, trace), KeepRun(l, kept, WithoutStrays(trace, strays)), strays)
    decreases |trace|
  {
    hide Tracks, Step, Legal, Stray, Answer, KeepAnswer, KeepStep, SameButStrays, Mark;
    var strays := Strays(l, touch, s, trace);
    var marked := WithoutStrays(trace, strays);
    if trace == [] {
      assert SameButStrays([], [], []) by { NothingRun(); }
    } else {
      var e, s' := trace[0], Step(l, touch, s, trace[0]);
      var kept' := if Stray(s, e) then kept else KeepStep(l, kept, e);
      var strays' := Strays(l, touch, s', trace[1..]);
      StepTracks(l, touch, s, kept, e, now);
      StrayRun(l, touch, s', kept', trace[1..], e.End());
      MarkStep(l, kept, e, Stray(s, e));
      assert marked[1..] == WithoutStrays(trace[1..], strays');
      SameFirst(Answer(l, s, e), Run(l, touch, s', trace[1..]), KeepAnswer(l, kept, marked[0]),
                KeepRun(l, kept', marked[1..]),
                Stray(s, e), strays');
    }
  }

  lemma {:induction false} NothingRun()
    ensures SameButStrays([], [], [])
  {
  }

  /** The stray requests of a key that are let through. */
  ghost function StraysAdmitted(trace: seq<Event>, answers: seq<bool>, strays: seq<bool>, key: string): nat
    requires |answers| == |strays| == |trace|
  {
    if trace == [] then 0 else
      (if trace[0].Ask? && trace[0].key == key && answers[0] && strays[0] then 1 else 0)
      + StraysAdmitted(trace[1..], answers[1..], strays[1..], key)
  }

  lemma {:induction false} AdmittedParts(trace: seq<Event>, answers: seq<bool>, strays: seq<bool>, kept: seq<bool>,
                                         key: string, start: real)
    requires |strays| == |trace| && SameButStrays(answers, kept, strays)
    ensures Admitted(trace, answers, key)
            == Admitted(WithoutStrays(trace, strays), kept, key) + StraysAdmitted(trace, answers, strays, key)
    ensures LastTime(WithoutStrays(trace, strays), start) == LastTime(trace, start)
    decreases |trace|
  {
    if trace != [] {
      AdmittedParts(trace[1..], answers[1..], strays[1..], kept[1..], key, trace[0].End());
      assert WithoutStrays(trace, strays)[1..] == WithoutStrays(trace[1..], strays[1..]);
    }
  }

  /** In every window of every trace, whatever was dropped: a key gets at most burst + rate * width requests
    * through, not counting those that ask a limiter dropped since they looked it up. */
  lemma {:induction false} WindowWithDrops(l: Limit, touch: bool, trace: seq<Event>, i: nat, j: nat, key: string)
    requires l.Valid() && LegalTrace(l, touch, START, trace) && Ordered(trace, 0.0) && i < j <= |trace|
    ensures var answers, strays := Run(l, touch, START, trace), Strays(l, touch, START, trace);
            Admitted(trace[i..j], answers[i..j], key) as real
            <= l.burst as real + l.rate * (LastTime(trace[i..j], trace[i].time) - trace[i].time)
               + StraysAdmitted(trace[i..j], answers[i..j], strays[i..j], key) as real
  {
    hide Run, Strays, Tracks, Admitted, StraysAdmitted, LastTime, KeepRun, Ordered, LegalTrace;
    var answers, strays := Run(l, touch, START, trace), Strays(l, touch, START, trace);
    var marked := WithoutStrays(trace, strays);
    StartTracks(l);
    StrayRun(l, touch, START, map[], trace, 0.0);
    MarkedOrdered(trace, strays, 0.0);
    WindowBound(l, marked, i, j, key);
    assert marked[i..j] == WithoutStrays(trace[i..j], strays[i..j]);
    AdmittedParts(trace[i..j], answers[i..j], strays[i..j], KeepRun(l, map[], marked)[i..j], key, trace[i].time);
  }

  // ---------------------------------------------------------------- exactly when dropping is invisible

  ghost predicate Quiet(trace: seq<Event>) {
    forall e <- trace :: !e.Cleanup?
  }

  /** No requests from now on can tell the table from one that never drops. */
  ghost predicate Indistinct(l: Limit, touch: bool, s: State, kept: Table, now: real) {
    forall rest :: Quiet(rest) && LegalTrace(l, touch, s, rest) && Ordered(rest, now)
      ==> Run(l, touch, s, rest) == KeepRun(l, kept, rest)
  }

  /** At no point of the trace, whatever requests had come then. */
  ghost predicate Invisible(l: Limit, touch: bool, s: State, kept: Table, trace: seq<Event>, now: real)
    decreases |trace|
  {
    && Indistinct(l, touch, s, kept, now)
    && (trace == [] ||
        var e := trace[0];
        && Answer(l, s, e) == KeepAnswer(l, kept, e)
        && Invisible(l, touch, Step(l, touch, s, e), KeepStep(l, kept, e), trace[1..], e.End()))
  }

  lemma {:induction false} QuietIsClean(l: Limit, touch: bool, s: State, trace: seq<Event>)
    requires Quiet(trace)
    ensures CleanTrace(l, touch, s, trace)
    decreases |trace|
  {
    hide Step;
    if trace != [] {
      QuietIsClean(l, touch, Step(l, touch, s, trace[0]), trace[1..]);
    }
  }

  lemma {:induction false} AttachedIsIndistinct(l: Limit, touch: bool, s: State, kept: Table, now: real)
    requires l.Valid() && Tracks(l, s, kept, now) && AllAttached(s)
    ensures Indistinct(l, touch, s, kept, now)
  {
    hide Tracks, AllAttached, LegalTrace, Run, KeepRun, Ordered;
    forall rest | Quiet(rest) && LegalTrace(l, touch, s, rest) && Ordered(rest, now)
      ensures Run(l, touch, s, rest) == KeepRun(l, kept, rest)
    {
      QuietIsClean(l, touch, s, rest);
      CleanRunIsKeepRun(l, touch, s, kept, rest, now);
    }
  }

  /** n requests of a key at one moment, each asking right after its lookup. */
  ghost function Pairs(key: string, n: nat, next: nat, t: real): seq<Event> {
    if n == 0 then [] else [Lookup(key, t), Ask(next, key, t)] + Pairs(key, n - 1, next + 1, t)
  }

  lemma {:induction false} PairsOrdered(key: string, n: nat, next: nat, t: real)
    ensures Ordered(Pairs(key, n, next, t), t) && LastTime(Pairs(key, n, next, t), t) == t
    ensures Quiet(Pairs(key, n, next, t))
  {
    if n > 0 {
      PairsOrdered(key, n - 1, next + 1, t);
      var trace := Pairs(key, n, next, t);
      assert trace[1..][1..] == Pairs(key, n - 1, next + 1, t);
    }
  }

  /** A key with n tokens gets n requests through. */
  lemma {:induction false} PairsAdmitted(l: Limit, touch: bool, s: State, kept: Table, key: string, n: nat, t: real)
    requires l.Valid() && Tracks(l, s, kept, t) && n <= l.burst && Advance(l, BucketOf(l, kept, key), t) >= n as real
    ensures var trace := Pairs(key, n, s.next, t);
            LegalTrace(l, touch, s, trace) && Admitted(trace, Run(l, touch, s, trace), key) == n
    decreases n
  {
    hide Tracks, Advance, BucketOf, AllowN, Current;
    if n > 0 {
      var trace := Pairs(key, n, s.next, t);
      var lookup, ask := trace[0], trace[1];
      var s1 := Step(l, touch, s, lookup);
      LookupTracks(l, touch, s, kept, key, t, t);
      JustFound(l, touch, s, kept, key, t);
      AttachedAskTracks(l, touch, s1, kept, ask, t);
      var s2 := Step(l, touch, s1, ask);
      HasToken(l, s, kept, ask, n);
      PairsAdmitted(l, touch, s2, KeepStep(l, kept, ask), key, n - 1, t);
      assert trace[1..][1..] == Pairs(key, n - 1, s2.next, t);
      assert Run(l, touch, s, trace)[1..][1..] == Run(l, touch, s2, trace[1..][1..]);
    }
  }

  lemma {:induction false} JustFound(l: Limit, touch: bool, s: State, kept: Table, key: string, t: real)
    requires l.Valid() && Tracks(l, s, kept, t)
    ensures var s' := Step(l, touch, s, Lookup(key, t)); var ask := Ask(s.next, key, t);
            Legal(l, s', ask) && Attached(s', s.next) && Step(l, touch, s', ask).next == s.next + 1
  {
    hide TableOk, SameTables, BucketOk;
  }

  lemma {:induction false} HasToken(l: Limit, s: State, kept: Table, ask: Event, n: nat)
    requires l.Valid() && ask.Ask? && Tracks(l, s, kept, ask.time) && 1 <= n <= l.burst
    requires Advance(l, BucketOf(l, kept, ask.key), ask.time) >= n as real
    ensures KeepAnswer(l, kept, ask)
    ensures Advance(l, BucketOf(l, KeepStep(l, kept, ask), ask.key), ask.time) >= (n - 1) as real
  {
    SpendsOne(l, kept, ask, ask.key, ask.time);
  }

  /** Requests that hold a limiter ask it. */
  ghost function AsksThen(held: seq<nat>, key: string, t: real, rest: seq<Event>): seq<Event> {
    if held == [] then rest else [Ask(held[0], key, t)] + AsksThen(held[1..], key, t, rest)
  }

  lemma {:induction false} AsksOrdered(held: seq<nat>, key: string, t: real, rest: seq<Event>)
    requires Ordered(rest, t)
    ensures Ordered(AsksThen(held, key, t, rest), t) && LastTime(AsksThen(held, key, t, rest), t) == LastTime(rest, t)
    ensures Quiet(rest) ==> Quiet(AsksThen(held, key, t, rest))
  {
    if held != [] {
      AsksOrdered(held[1..], key, t, rest);
    }
  }

  /** A limiter that is in no table and has tokens for all the requests that hold it lets them all through. */
  lemma {:induction false} HeldAdmitted(l: Limit, touch: bool, s: State, kept: Table, key: string, h: nat,
                                        held: seq<nat>, t: real, rest: seq<Event>)
    returns (end: State)
    requires l.Valid() && Tracks(l, s, kept, t) && h < |s.store.buckets| && !InTable(s.store.table, h)
    requires Holding(s, key, h, held) && |held| <= l.burst && Advance(l, s.store.buckets[h], t) >= |held| as real
    ensures Tracks(l, end, kept, t) && end.next == s.next
    ensures LegalTrace(l, touch, end, rest) ==> LegalTrace(l, touch, s, AsksThen(held, key, t, rest))
    ensures var trace := AsksThen(held, key, t, rest);
            Admitted(trace, Run(l, touch, s, trace), key) == |held| + Admitted(rest, Run(l, touch, end, rest), key)
    decreases |held|
  {
    hide Tracks, Advance, AllowN, InTable;
    if held == [] {
      end := s;
    } else {
      var ask, trace := Ask(held[0], key, t), AsksThen(held, key, t, rest);
      var s' := Step(l, touch, s, ask);
      OneHeld(l, touch, s, kept, key, h, held, t);
      StrayAskTracks(l, touch, s, kept, ask, t);
      end := HeldAdmitted(l, touch, s', kept, key, h, held[1..], t, rest);
      assert trace[1..] == AsksThen(held[1..], key, t, rest);
      assert Run(l, touch, s, trace)[1..] == Run(l, touch, s', trace[1..]);
    }
  }

  /** The requests are different ones, and all hold the limiter. */
  ghost predicate Holding(s: State, key: string, h: nat, held: seq<nat>) {
    && (forall i, j :: 0 <= i < j < |held| ==> held[i] != held[j])
    && (forall r <- held :: r in s.pending && s.pending[r].key == key && s.pending[r].handle == h)
  }

  lemma {:induction false} OneHeld(l: Limit, touch: bool, s: State, kept: Table, key: string, h: nat, held: seq<nat>,
                                   t: real)
    requires l.Valid() && Tracks(l, s, kept, t) && h < |s.store.buckets| && !InTable(s.store.table, h)
    requires held != [] && Holding(s, key, h, held) && |held| <= l.burst
    requires Advance(l, s.store.buckets[h], t) >= |held| as real
    ensures var ask := Ask(held[0], key, t); var s' := Step(l, touch, s, ask);
            && Legal(l, s, ask) && Stray(s, ask) && Answer(l, s, ask)
            && s'.next == s.next && |s'.store.buckets| == |s.store.buckets| && s'.store.table == s.store.table
            && Holding(s', key, h, held[1..]) && Advance(l, s'.store.buckets[h], t) >= |held[1..]| as real
  {
    hide SameTables, TableOk, BucketOk;
  }

  lemma {:induction false} TracksItself(l: Limit, s: State, kept: Table, now: real)
    requires Tracks(l, s, kept, now)
    ensures Tracks(l, s, Current(s.store), now)
  {
    hide Advance, BucketOf;
    CurrentOk(l, s.store, now);
  }

  lemma {:induction false} NewIsFull(l: Limit, t: real)
    requires l.Valid() && t >= 0.0
    ensures Advance(l, NewLimiter(l), t) == l.burst as real
  {
    NonNegative(l.rate, t);
  }

  /** Requests that hold a full limiter that is in no table, and a full burst of new ones, all get through at one
    * moment. */
  lemma {:induction false} HeldAndNew(l: Limit, touch: bool, s: State, kept: Table, key: string, h: nat, held: seq<nat>,
                                      t: real) returns (trace: seq<Event>)
    requires l.Valid() && Tracks(l, s, kept, t) && h < |s.store.buckets| && !InTable(s.store.table, h)
    requires key !in s.store.table
    requires Holding(s, key, h, held) && |held| <= l.burst && Advance(l, s.store.buckets[h], t) == l.burst as real
    ensures Quiet(trace) && LegalTrace(l, touch, s, trace) && Ordered(trace, t) && LastTime(trace, t) == t
    ensures Admitted(trace, Run(l, touch, s, trace), key) == |held| + l.burst
  {
    hide StoreOk, PendingOk, SameTables, TableOk, Advance, Run, LegalTrace, Admitted, Holding, InTable;
    var table, pairs := Current(s.store), Pairs(key, l.burst, s.next, t);
    TracksItself(l, s, kept, t);
    var end := HeldAdmitted(l, touch, s, table, key, h, held, t, pairs);
    IsLate(l, s, kept, t);
    NewIsFull(l, t);
    PairsAdmitted(l, touch, end, table, key, l.burst, t);
    PairsOrdered(key, l.burst, s.next, t);
    AsksOrdered(held, key, t, pairs);
    trace := AsksThen(held, key, t, pairs);
  }

  lemma {:induction false} IsLate(l: Limit, s: State, kept: Table, t: real)
    requires Tracks(l, s, kept, t)
    ensures t >= 0.0
  {
  }

  /** After the drop of a key the limiter looked up for it is in no table, and still full. */
  lemma {:induction false} AfterDrop(l: Limit, touch: bool, s: State, kept: Table, e: Event, now: real, r: nat)
    requires l.Valid() && Tracks(l, s, kept, now) && AllAttached(s) && e.Cleanup? && Legal(l, s, e)
    requires now <= e.time <= e.end
    requires r in s.pending && s.pending[r].key in e.dropped
    ensures var s' := Step(l, touch, s, e); var p := s.pending[r];
            && p.key !in s'.store.table && p.handle < |s'.store.buckets| && !InTable(s'.store.table, p.handle)
            && Advance(l, s'.store.buckets[p.handle], e.end) == l.burst as real
  {
    hide Advance, AllowN, SameTables, TableOk, BucketOk, Touched;
    var k, h := s.pending[r].key, s.pending[r].handle;
    assert Attached(s, r);
    var b := s.store.buckets[h];
    StaysFull(l, s.store, e, now, k);
    TouchOk(l, s.store, now, e.time);
    assert Same(l, Touched(l, s.store, e.time)[h], b, e.time);
  }

  lemma {:induction false} StaysFull(l: Limit, store: Store, e: Event, now: real, k: string)
    requires l.Valid() && StoreOk(l, store, now) && e.Cleanup? && DropsFull(l, store, e) && k in e.dropped
    requires now <= e.time <= e.end
    ensures Advance(l, store.buckets[store.table[k]], e.end) == l.burst as real
  {
    hide Advance;
    var b := store.buckets[store.table[k]];
    var tick :| e.time <= tick <= e.end && Advance(l, b, tick) == l.burst as real;
    FullIsNew(l, b, tick);
    NewIsFull(l, e.end);
  }

  /** A drop of a key for which a limiter is still to be asked shows: that request and a full burst get through at
    * once. */
  lemma {:induction false} DropShows(l: Limit, touch: bool, s: State, kept: Table, e: Event, now: real)
    requires l.Valid() && 1 <= l.burst && Tracks(l, s, kept, now) && AllAttached(s)
    requires Legal(l, s, e) && !Clean(s, e) && now <= e.time <= e.End()
    ensures !Indistinct(l, touch, Step(l, touch, s, e), kept, e.End())
  {
    hide Tracks, AllAttached, Advance, Run, KeepRun, Admitted, LegalTrace, Ordered, Quiet, InTable, DropsFull, LastTime;
    var r :| r in s.pending && s.pending[r].key in e.dropped;
    var key, h, s', t := s.pending[r].key, s.pending[r].handle, Step(l, touch, s, e), e.end;
    CleanupTracks(l, touch, s, kept, e, now);
    AfterDrop(l, touch, s, kept, e, now, r);
    var trace := HeldAndNew(l, touch, s', kept, key, h, [r], t);
    KeepsBurst(l, s', kept, trace, key, t);
    assert Admitted(trace, Run(l, touch, s', trace), key) != Admitted(trace, KeepRun(l, kept, trace), key);
  }

  lemma {:induction false} KeepsBurst(l: Limit, s: State, kept: Table, trace: seq<Event>, key: string, t: real)
    requires l.Valid() && Tracks(l, s, kept, t) && Ordered(trace, t) && LastTime(trace, t) == t
    ensures Admitted(trace, KeepRun(l, kept, trace), key) <= l.burst
  {
    hide Advance, KeepRun, Admitted, Ordered, LastTime;
    AdmittedBound(l, kept, trace, key, t);
    AtMostBurst(l, BucketOf(l, kept, key), t);
    NoWidth(l.rate, LastTime(trace, t), t);
  }

  lemma {:induction false} NoWidth(rate: real, from: real, to: real)
    requires from == to
    ensures rate * (from - to) == 0.0
  {
  }

  /** Dropping full limiters is invisible throughout a trace if and only if no cleanup drops a key while a limiter
    * looked up for it is still to be asked. */
  lemma {:induction false} InvisibleIff(l: Limit, touch: bool, s: State, kept: Table, trace: seq<Event>, now: real)
    requires l.Valid() && 1 <= l.burst && Tracks(l, s, kept, now) && AllAttached(s)
    requires LegalTrace(l, touch, s, trace) && Ordered(trace, now)
    ensures Invisible(l, touch, s, kept, trace, now) <==> CleanTrace(l, touch, s, trace)
    decreases |trace|
  {
    hide Tracks, AllAttached, Step, KeepStep, Legal, Clean, Stray, Answer, KeepAnswer, Indistinct;
    AttachedIsIndistinct(l, touch, s, kept, now);
    if trace != [] {
      var e := trace[0];
      if Clean(s, e) {
        StepTracks(l, touch, s, kept, e, now);
        StepAttached(l, touch, s, kept, e, now);
        InvisibleIff(l, touch, Step(l, touch, s, e), KeepStep(l, kept, e), trace[1..], e.End());
      } else {
        DropShows(l, touch, s, kept, e, now);
        OnlyCleanups(l, s, kept, e);
      }
    }
  }

  lemma {:induction false} OnlyCleanups(l: Limit, s: State, kept: Table, e: Event)
    requires !Clean(s, e)
    ensures KeepStep(l, kept, e) == kept
  {
  }

  // ---------------------------------------------------------------- twice the burst

  ghost function LookupsThen(n: nat, key: string, t: real, rest: seq<Event>): seq<Event> {
    if n == 0 then rest else [Lookup(key, t)] + LookupsThen(n - 1, key, t, rest)
  }

  /** n requests have looked up the one limiter there is, and none has asked. */
  ghost predicate Waiting(l: Limit, s: State, key: string, n: nat, t: real) {
    && s.next == n && s.store == (if n == 0 then NO_STORE else Store([NewLimiter(l)], map[key := 0]))
    && (forall r: nat :: r in s.pending <==> r < n)
    && (forall r <- s.pending :: s.pending[r] == Pending(key, 0, t))
  }

  ghost function AfterLookups(l: Limit, touch: bool, s: State, key: string, n: nat, t: real): State
    decreases n
  {
    if n == 0 then s else AfterLookups(l, touch, Step(l, touch, s, Lookup(key, t)), key, n - 1, t)
  }

  lemma {:induction false} LookupsWait(l: Limit, touch: bool, s: State, key: string, i: nat, n: nat, t: real,
                                       rest: seq<Event>)
    requires Waiting(l, s, key, i, t)
    ensures var end := AfterLookups(l, touch, s, key, n, t);
            var trace := LookupsThen(n, key, t, rest);
            && Waiting(l, end, key, i + n, t)
            && (LegalTrace(l, touch, end, rest) ==> LegalTrace(l, touch, s, trace))
            && (Ordered(rest, t) ==> Ordered(trace, t)) && LastTime(trace, t) == LastTime(rest, t)
            && Admitted(trace, Run(l, touch, s, trace), key) == Admitted(rest, Run(l, touch, end, rest), key)
    decreases n
  {
    if n > 0 {
      var trace := LookupsThen(n, key, t, rest);
      var s' := Step(l, touch, s, Lookup(key, t));
      assert Waiting(l, s', key, i + 1, t);
      hide Waiting, Step;
      LookupsWait(l, touch, s', key, i + 1, n - 1, t, rest);
      assert trace[1..] == LookupsThen(n - 1, key, t, rest);
      assert Run(l, touch, s, trace)[1..] == Run(l, touch, s', trace[1..]);
    }
  }

  lemma {:induction false} WaitingTracks(l: Limit, s: State, key: string, n: nat, t: real)
    requires l.Valid() && Waiting(l, s, key, n, t) && t >= 0.0 && 1 <= n
    ensures Tracks(l, s, map[], t) && AllAttached(s) && Legal(l, s, Cleanup(t, t, {key}))
  {
    NewIsFull(l, t);
    forall k ensures Same(l, BucketOf(l, Current(s.store), k), BucketOf(l, map[], k), t) {
    }
    assert FullSometime(l, s.store.buckets[0], t, t);
  }

  /** For every limit: a burst of requests looks up the limiter of an idle key, a cleanup drops it, they ask it, and
    * a second burst gets a new one. At one moment twice the burst gets through. */
  lemma {:induction false} TwiceTheBurst(l: Limit, touch: bool, key: string, t: real)
    requires l.Valid() && 1 <= l.burst && t >= 0.0
    ensures exists trace :: LegalTrace(l, touch, START, trace) && Ordered(trace, t) && LastTime(trace, t) == t
                            && Admitted(trace, Run(l, touch, START, trace), key) == 2 * l.burst
  {
    hide Tracks, AllAttached, Advance, Admitted, Ordered, Quiet, InTable, DropsFull, Step;
    var e, held := Cleanup(t, t, {key}), seq(l.burst, i requires 0 <= i < l.burst => i as nat);
    LookupsWait(l, touch, START, key, 0, l.burst, t, []);
    var s := AfterLookups(l, touch, START, key, l.burst, t);
    WaitingTracks(l, s, key, l.burst, t);
    CleanupTracks(l, touch, s, map[], e, t);
    AfterDrop(l, touch, s, map[], e, t, 0);
    var s' := Step(l, touch, s, e);
    assert s'.pending == s.pending by { PendingStays(l, touch, s, e); }
    var tail := HeldAndNew(l, touch, s', map[], key, 0, held, t);
    var rest := [e] + tail;
    CleanupFirst(l, touch, s, e, tail, key);
    LookupsWait(l, touch, START, key, 0, l.burst, t, rest);
    assert LegalTrace(l, touch, START, LookupsThen(l.burst, key, t, rest));
  }

  lemma {:induction false} PendingStays(l: Limit, touch: bool, s: State, e: Event)
    requires e.Cleanup?
    ensures Step(l, touch, s, e).pending == s.pending
  {
  }

  lemma {:induction false} CleanupFirst(l: Limit, touch: bool, s: State, e: Event, tail: seq<Event>, key: string)
    requires e.Cleanup? && Legal(l, s, e) && e.time == e.end
    ensures var s', rest := Step(l, touch, s, e), [e] + tail;
            && (LegalTrace(l, touch, s', tail) ==> LegalTrace(l, touch, s, rest))
            && (Ordered(tail, e.end) ==> Ordered(rest, e.time)) && LastTime(rest, e.time) == LastTime(tail, e.end)
            && Admitted(rest, Run(l, touch, s, rest), key) == Admitted(tail, Run(l, touch, s', tail), key)
  {
    hide Step, Legal;
    var s', rest := Step(l, touch, s, e), [e] + tail;
    assert rest[1..] == tail;
    assert Run(l, touch, s, rest)[1..] == Run(l, touch, s', tail);
  }
}
