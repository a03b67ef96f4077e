/** The token bucket of golang.org/x/time/rate, and the reference for both limiter tables: one that never drops an
 * entry.
 *
 * Time is in seconds. internal/middleware/ratelimit.go and wrapper.go look a limiter up and ask it in two steps. */
module TokenBucket {

  // ---------------------------------------------------------------- golang.org/x/time/rate

  datatype Limit = Limit(rate: real, burst: nat) {
    predicate Valid() {
      rate >= 0.0
    }
  }

  datatype Bucket = Bucket(tokens: real, last: real)

  function MinReal(a: real, b: real): real {
    if a <= b then a else b
  }

  /** The tokens available at time t. */
  function Advance(l: Limit, b: Bucket, t: real): real {
    MinReal(l.burst as real, b.tokens + l.rate * (if t < b.last then 0.0 else t - b.last))
  }

  /** Limiter.AllowN */
  function AllowN(l: Limit, b: Bucket, t: real, n: nat): (bool, Bucket) {
    var tokens := Advance(l, b, t) - n as real;
    if n <= l.burst && tokens >= 0.0 then (true, Bucket(tokens, t)) else (false, b)
  }

  /** rate.NewLimiter: a full bucket. */
  function NewLimiter(l: Limit): Bucket {
    Bucket(l.burst as real, 0.0)
  }

  ghost predicate BucketOk(l: Limit, b: Bucket, now: real) {
    0.0 <= b.tokens <= l.burst as real && 0.0 <= b.last <= now
  }

  /** No request from time t on can tell the two buckets apart. */
  ghost predicate Same(l: Limit, b: Bucket, b': Bucket, t: real) {
    forall u :: u >= t ==> Advance(l, b, u) == Advance(l, b', u)
  }

  lemma {:induction false} Distribute(r: real, a: real, b: real, c: real)
    ensures r * (b - a) + r * (c - b) == r * (c - a)
  {
  }

  lemma {:induction false} NonNegative(r: real, x: real)
    requires r >= 0.0 && x >= 0.0
    ensures r * x >= 0.0
  {
  }

  /** Refilling in two steps is refilling in one. */
  lemma {:induction false} AdvanceTwice(l: Limit, b: Bucket, t: real, u: real)
    requires l.Valid() && b.last <= t <= u
    ensures Advance(l, Bucket(Advance(l, b, t), t), u) == Advance(l, b, u)
    ensures Advance(l, b, t) <= Advance(l, b, u) <= Advance(l, b, t) + l.rate * (u - t)
  {
    Distribute(l.rate, b.last, t, u);
    NonNegative(l.rate, u - t);
  }

  lemma {:induction false} AllowKeepsBucketOk(l: Limit, b: Bucket, t: real, n: nat)
    requires l.Valid() && BucketOk(l, b, t)
    ensures BucketOk(l, AllowN(l, b, t, n).1, t)
  {
  }

  /** A request cannot tell equivalent buckets apart, and leaves them equivalent. */
  lemma {:induction false} SameAnswers(l: Limit, b: Bucket, b': Bucket, t: real)
    requires l.Valid() && BucketOk(l, b, t) && BucketOk(l, b', t) && Same(l, b, b', t)
    ensures AllowN(l, b, t, 1).0 == AllowN(l, b', t, 1).0
    ensures Same(l, AllowN(l, b, t, 1).1, AllowN(l, b', t, 1).1, t)
  {
    assert Advance(l, b, t) == Advance(l, b', t);
  }

  /** A bucket that is full at t is, from then on, the same as a new one. */
  lemma {:induction false} FullIsNew(l: Limit, b: Bucket, t: real)
    requires l.Valid() && BucketOk(l, b, t) && Advance(l, b, t) == l.burst as real
    ensures Same(l, b, NewLimiter(l), t)
  {
    forall u | u >= t ensures Advance(l, b, u) == Advance(l, NewLimiter(l), u) {
      AdvanceTwice(l, b, t, u);
      NonNegative(l.rate, u);
    }
  }

  // ---------------------------------------------------------------- the table that never drops

  type Table = map<string, Bucket>

  function BucketOf(l: Limit, table: Table, key: string): Bucket {
    if key in table then table[key] else NewLimiter(l)
  }

  /** A request looks its limiter up and, with no lock held in between, asks it. Requests are numbered in the order
    * of their lookups. */
  datatype Event =
    | Lookup(key: string, time: real)
    | Ask(request: nat, key: string, time: real)
    | Cleanup(time: real, end: real, dropped: set<string>)
  {
    function End(): real {
      if Cleanup? then end else time
    }
  }

  /** Events follow each other in time. */
  ghost predicate Ordered(trace: seq<Event>, start: real) {
    trace == [] || (start <= trace[0].time <= trace[0].End() && Ordered(trace[1..], trace[0].End()))
  }

  function KeepAnswer(l: Limit, table: Table, e: Event): bool {
    e.Ask? && AllowN(l, BucketOf(l, table, e.key), e.time, 1).0
  }

  function KeepStep(l: Limit, table: Table, e: Event): Table {
    if e.Ask? then table[e.key := AllowN(l, BucketOf(l, table, e.key), e.time, 1).1] else table
  }

  /** The decision on each event of a trace (false where nothing is asked). */
  ghost function KeepRun(l: Limit, table: Table, trace: seq<Event>): (r: seq<bool>)
    ensures |r| == |trace|
    decreases |trace|
  {
    if trace == [] then [] else [KeepAnswer(l, table, trace[0])] + KeepRun(l, KeepStep(l, table, trace[0]), trace[1..])
  }

  ghost predicate TableOk(l: Limit, table: Table, now: real) {
    now >= 0.0 && forall k <- table :: BucketOk(l, table[k], now)
  }

  ghost predicate SameTables(l: Limit, table: Table, kept: Table, now: real) {
    forall k :: Same(l, BucketOf(l, table, k), BucketOf(l, kept, k), now)
  }

  lemma {:induction false} TableOkLater(l: Limit, table: Table, now: real, later: real)
    requires l.Valid() && TableOk(l, table, now) && now <= later
    ensures TableOk(l, table, later) && forall k :: BucketOk(l, BucketOf(l, table, k), later)
  {
  }

  lemma {:induction false} KeepStepOk(l: Limit, table: Table, e: Event, now: real)
    requires l.Valid() && TableOk(l, table, now) && now <= e.time <= e.End()
    ensures TableOk(l, KeepStep(l, table, e), e.End())
  {
    if e.Ask? {
      AllowKeepsBucketOk(l, BucketOf(l, table, e.key), e.time, 1);
    }
  }

  /** Both tables answer a request alike and stay alike. */
  lemma {:induction false} SameStep(l: Limit, table: Table, kept: Table, e: Event, now: real)
    requires l.Valid() && TableOk(l, table, now) && TableOk(l, kept, now) && SameTables(l, table, kept, now)
    requires e.Ask? && now <= e.time
    ensures KeepAnswer(l, table, e) == KeepAnswer(l, kept, e)
    ensures SameTables(l, KeepStep(l, table, e), KeepStep(l, kept, e), e.time)
  {
    TableOkLater(l, table, now, e.time);
    TableOkLater(l, kept, now, e.time);
    assert Same(l, BucketOf(l, table, e.key), BucketOf(l, kept, e.key), now);
    SameAnswers(l, BucketOf(l, table, e.key), BucketOf(l, kept, e.key), e.time);
    forall k ensures Same(l, BucketOf(l, KeepStep(l, table, e), k), BucketOf(l, KeepStep(l, kept, e), k), e.time) {
      assert Same(l, BucketOf(l, table, k), BucketOf(l, kept, k), now);
    }
  }

  // ---------------------------------------------------------------- at most burst + rate * window

  /** The requests of a key that are let through. */
  ghost function Admitted(trace: seq<Event>, answers: seq<bool>, key: string): nat
    requires |answers| == |trace|
  {
    if trace == [] then 0 else
      (if trace[0].Ask? && trace[0].key == key && answers[0] then 1 else 0) + Admitted(trace[1..], answers[1..], key)
  }

  ghost function LastTime(trace: seq<Event>, start: real): real {
    if trace == [] then start else LastTime(trace[1..], trace[0].End())
  }

  /** A request that gets through costs its key one token; nothing else costs anything. */
  lemma {:induction false} SpendsOne(l: Limit, table: Table, e: Event, key: string, start: real)
    requires l.Valid() && TableOk(l, table, start) && start <= e.time <= e.End()
    ensures var spent := if e.Ask? && e.key == key && KeepAnswer(l, table, e) then 1.0 else 0.0;
            Advance(l, BucketOf(l, KeepStep(l, table, e), key), e.End())
            == Advance(l, BucketOf(l, table, key), e.End()) - spent
  {
    TableOkLater(l, table, start, e.time);
  }

  lemma {:induction false} NotNegative(l: Limit, b: Bucket, t: real)
    requires l.Valid() && BucketOk(l, b, t)
    ensures Advance(l, b, t) >= 0.0
  {
    NonNegative(l.rate, t - b.last);
  }

  lemma {:induction false} Budget(first: int, others: int, before: real, after: real, rate: real, start: real,
                                  mid: real, end: real)
    requires after <= before + rate * (mid - start)
    requires others as real <= after - first as real + rate * (end - mid)
    ensures (first + others) as real <= before + rate * (end - start)
  {
    Distribute(rate, start, mid, end);
  }

  lemma {:induction false} AdmittedBound(l: Limit, table: Table, trace: seq<Event>, key: string, start: real)
    requires l.Valid() && TableOk(l, table, start) && Ordered(trace, start)
    ensures start <= LastTime(trace, start)
    ensures Admitted(trace, KeepRun(l, table, trace), key) as real
            <= Advance(l, BucketOf(l, table, key), start) + l.rate * (LastTime(trace, start) - start)
    decreases |trace|
  {
    hide Advance, AllowN, KeepStep, KeepAnswer, BucketOf, TableOk;
    TableOkLater(l, table, start, start);
    if trace == [] {
      NotNegative(l, BucketOf(l, table, key), start);
    } else {
      var e := trace[0];
      var next, mid, end := KeepStep(l, table, e), e.End(), LastTime(trace, start);
      KeepStepOk(l, table, e, start);
      AdmittedBound(l, next, trace[1..], key, mid);
      assert KeepRun(l, table, trace)[1..] == KeepRun(l, next, trace[1..]);
      AdvanceTwice(l, BucketOf(l, table, key), start, mid);
      SpendsOne(l, table, e, key, start);
      assert end == LastTime(trace[1..], mid);
      var first := if e.Ask? && e.key == key && KeepAnswer(l, table, e) then 1 else 0;
      var others := Admitted(trace[1..], KeepRun(l, next, trace[1..]), key);
      assert Admitted(trace, KeepRun(l, table, trace), key) == first + others;
      Budget(first, others, Advance(l, BucketOf(l, table, key), start), Advance(l, BucketOf(l, table, key), mid),
             l.rate, start, mid, end);
    }
  }

  lemma {:induction false} KeepRunSplit(l: Limit, table: Table, trace: seq<Event>, i: nat, start: real)
    returns (at: Table, time: real)
    requires l.Valid() && TableOk(l, table, start) && Ordered(trace, start) && i <= |trace|
    ensures KeepRun(l, table, trace)[i..] == KeepRun(l, at, trace[i..])
    ensures TableOk(l, at, time) && start <= time && Ordered(trace[i..], time)
    decreases i
  {
    if i == 0 {
      at, time := table, start;
      assert trace[0..] == trace;
    } else {
      KeepStepOk(l, table, trace[0], start);
      at, time := KeepRunSplit(l, KeepStep(l, table, trace[0]), trace[1..], i - 1, trace[0].End());
      assert trace[1..][i - 1..] == trace[i..];
      assert KeepRun(l, table, trace)[i..] == KeepRun(l, table, trace)[1..][i - 1..];
    }
  }

  lemma {:induction false} PrefixRun(l: Limit, table: Table, trace: seq<Event>, n: nat, start: real)
    requires n <= |trace|
    ensures KeepRun(l, table, trace)[..n] == KeepRun(l, table, trace[..n])
    ensures Ordered(trace, start) ==> Ordered(trace[..n], start)
    decreases n
  {
    if n > 0 {
      PrefixRun(l, KeepStep(l, table, trace[0]), trace[1..], n - 1, trace[0].End());
      assert trace[..n][1..] == trace[1..][..n - 1];
      assert KeepRun(l, table, trace)[..n]
             == [KeepAnswer(l, table, trace[0])] + KeepRun(l, KeepStep(l, table, trace[0]), trace[1..])[..n - 1];
    }
  }

  /** In any window of a trace, the table that never drops lets at most burst + rate * width requests of a key
    * through. */
  lemma {:induction false} WindowBound(l: Limit, trace: seq<Event>, i: nat, j: nat, key: string)
    requires l.Valid() && Ordered(trace, 0.0) && i < j <= |trace|
    ensures Admitted(trace[i..j], KeepRun(l, map[], trace)[i..j], key) as real
            <= l.burst as real + l.rate * (LastTime(trace[i..j], trace[i].time) - trace[i].time)
  {
    hide KeepRun, Admitted, LastTime, Advance;
    var at, time := KeepRunSplit(l, map[], trace, i, 0.0);
    var rest, window := trace[i..], trace[i..j];
    var start := trace[i].time;
    assert rest[0] == trace[i] && window[0] == trace[i];
    assert Ordered(rest, start);
    PrefixRun(l, at, rest, j - i, start);
    assert rest[..j - i] == window;
    assert KeepRun(l, map[], trace)[i..j] == KeepRun(l, map[], trace)[i..][..j - i];
    TableOkLater(l, at, time, start);
    AdmittedBound(l, at, window, key, start);
    assert Advance(l, BucketOf(l, at, key), start) <= l.burst as real by {
      AtMostBurst(l, BucketOf(l, at, key), start);
    }
  }

  lemma {:induction false} AtMostBurst(l: Limit, b: Bucket, t: real)
    ensures Advance(l, b, t) <= l.burst as real
  {
  }

  // ---------------------------------------------------------------- exactly when a request is refused

  ghost function TableAfter(l: Limit, table: Table, trace: seq<Event>, j: nat): Table
    requires j <= |trace|
    decreases j
  {
    if j == 0 then table else KeepStep(l, TableAfter(l, table, trace, j - 1), trace[j - 1])
  }

  lemma {:induction false} TableAfterFirst(l: Limit, table: Table, trace: seq<Event>, j: nat)
    requires 0 < j <= |trace|
    ensures TableAfter(l, table, trace, j) == TableAfter(l, KeepStep(l, table, trace[0]), trace[1..], j - 1)
    decreases j
  {
    hide KeepStep;
    if j > 1 {
      TableAfterFirst(l, table, trace, j - 1);
    }
  }

  lemma {:induction false} AnswerIs(l: Limit, table: Table, trace: seq<Event>, j: nat)
    requires j < |trace|
    ensures KeepRun(l, table, trace)[j] == KeepAnswer(l, TableAfter(l, table, trace, j), trace[j])
    decreases j
  {
    hide KeepStep, KeepAnswer;
    if j > 0 {
      AnswerIs(l, KeepStep(l, table, trace[0]), trace[1..], j - 1);
      TableAfterFirst(l, table, trace, j);
    }
  }

  lemma {:induction false} InTime(trace: seq<Event>, start: real, j: nat)
    requires Ordered(trace, start) && j < |trace|
    ensures start <= trace[j].time <= trace[j].End()
    ensures j + 1 < |trace| ==> trace[j].End() <= trace[j + 1].time
    decreases j
  {
    if j > 0 {
      InTime(trace[1..], trace[0].End(), j - 1);
    }
  }

  lemma {:induction false} AfterOk(l: Limit, trace: seq<Event>, j: nat)
    requires l.Valid() && Ordered(trace, 0.0) && j < |trace|
    ensures TableOk(l, TableAfter(l, map[], trace, j), trace[j].time)
    decreases j
  {
    hide KeepStep, TableOk, Ordered;
    InTime(trace, 0.0, j);
    if j == 0 {
      EmptyOk(l, trace[0].time);
    } else {
      AfterOk(l, trace, j - 1);
      InTime(trace, 0.0, j - 1);
      KeepStepOk(l, TableAfter(l, map[], trace, j - 1), trace[j - 1], trace[j - 1].time);
      TableOkLater(l, TableAfter(l, map[], trace, j), trace[j - 1].End(), trace[j].time);
    }
  }

  lemma {:induction false} EmptyOk(l: Limit, t: real)
    requires t >= 0.0
    ensures TableOk(l, map[], t)
  {
  }

  /** The tokens of a key when event j comes. */
  ghost function TokensAt(l: Limit, trace: seq<Event>, key: string, j: nat): real
    requires j < |trace|
  {
    Advance(l, BucketOf(l, TableAfter(l, map[], trace, j), key), trace[j].time)
  }

  /** The window from event i, with one more request at event j, obeys burst + rate * width. */
  ghost predicate Fits(l: Limit, trace: seq<Event>, key: string, i: nat, j: nat)
    requires i <= j < |trace|
  {
    LetThrough(l, trace, key, i, j) as real + 1.0 <= l.burst as real + l.rate * (trace[j].time - trace[i].time)
  }

  /** So do all windows that end with the request at event j. */
  ghost predicate AllFit(l: Limit, trace: seq<Event>, j: nat)
    requires j < |trace| && trace[j].Ask?
  {
    forall i: nat :: i <= j ==> Fits(l, trace, trace[j].key, i, j)
  }

  /** How many requests of the key were let through from event i up to, but not including, event j. */
  ghost function LetThrough(l: Limit, trace: seq<Event>, key: string, i: nat, j: nat): nat
    requires i <= j <= |trace|
  {
    Admitted(trace[i..j], KeepRun(l, map[], trace)[i..j], key)
  }

  lemma {:induction false} AdmittedLast(trace: seq<Event>, answers: seq<bool>, key: string, e: Event, answer: bool)
    requires |answers| == |trace|
    ensures Admitted(trace + [e], answers + [answer], key)
            == Admitted(trace, answers, key) + if e.Ask? && e.key == key && answer then 1 else 0
  {
    if trace == [] {
      assert Admitted([e][1..], [answer][1..], key) == 0;
      assert trace + [e] == [e] && answers + [answer] == [answer];
    } else {
      AdmittedLast(trace[1..], answers[1..], key, e, answer);
      assert (trace + [e])[1..] == trace[1..] + [e] && (answers + [answer])[1..] == answers[1..] + [answer];
    }
  }

  lemma {:induction false} LetThroughLast(l: Limit, trace: seq<Event>, key: string, i: nat, j: nat)
    requires i <= j < |trace|
    ensures LetThrough(l, trace, key, i, i) == 0
    ensures LetThrough(l, trace, key, i, j + 1)
            == LetThrough(l, trace, key, i, j)
               + if trace[j].Ask? && trace[j].key == key && KeepRun(l, map[], trace)[j] then 1 else 0
  {
    var answers := KeepRun(l, map[], trace);
    assert trace[i..j + 1] == trace[i..j] + [trace[j]] && answers[i..j + 1] == answers[i..j] + [answers[j]];
    AdmittedLast(trace[i..j], answers[i..j], key, trace[j], answers[j]);
  }

  /** From one event to the next, a key's tokens are spent and refilled. */
  lemma {:induction false} NextTokens(l: Limit, trace: seq<Event>, key: string, j: nat)
    requires l.Valid() && Ordered(trace, 0.0) && j + 1 < |trace|
    ensures var spent := if trace[j].Ask? && trace[j].key == key && KeepRun(l, map[], trace)[j] then 1.0 else 0.0;
            TokensAt(l, trace, key, j + 1)
            == MinReal(l.burst as real,
                       TokensAt(l, trace, key, j) - spent + l.rate * (trace[j + 1].time - trace[j].time))
  {
    hide Ordered, KeepRun, TableOk, KeepStep, KeepAnswer, BucketOf, Advance, AllowN;
    var table, e := TableAfter(l, map[], trace, j), trace[j];
    InTime(trace, 0.0, j);
    AfterOk(l, trace, j);
    AnswerIs(l, map[], trace, j);
    TableOkLater(l, table, e.time, e.time);
    BucketAfter(l, table, e, key);
    if e.Ask? && e.key == key {
      Spent(l, BucketOf(l, table, key), e.time, trace[j + 1].time);
    } else {
      Refilled(l, BucketOf(l, table, key), e.time, trace[j + 1].time);
    }
  }

  lemma {:induction false} BucketAfter(l: Limit, table: Table, e: Event, key: string)
    ensures var b := BucketOf(l, table, key);
            if e.Ask? && e.key == key then
              (KeepAnswer(l, table, e), BucketOf(l, KeepStep(l, table, e), key)) == AllowN(l, b, e.time, 1)
            else BucketOf(l, KeepStep(l, table, e), key) == b
  {
  }

  /** Without a request in between. */
  lemma {:induction false} Refilled(l: Limit, b: Bucket, t: real, u: real)
    requires l.Valid() && b.last <= t <= u
    ensures Advance(l, b, u) == MinReal(l.burst as real, Advance(l, b, t) + l.rate * (u - t))
  {
    Distribute(l.rate, b.last, t, u);
    NonNegative(l.rate, u - t);
  }

  /** With a request at t. */
  lemma {:induction false} Spent(l: Limit, b: Bucket, t: real, u: real)
    requires l.Valid() && BucketOk(l, b, t) && t <= u
    ensures var (ok, b') := AllowN(l, b, t, 1);
            Advance(l, b', u)
            == MinReal(l.burst as real, Advance(l, b, t) - (if ok then 1.0 else 0.0) + l.rate * (u - t))
  {
    Refilled(l, b, t, u);
  }

  /** At any event a key has at least what is left of a bucket that was full at some event before. */
  lemma {:induction false} TokensLeft(l: Limit, trace: seq<Event>, key: string, j: nat) returns (i: nat)
    requires l.Valid() && Ordered(trace, 0.0) && j < |trace|
    ensures i <= j
    ensures TokensAt(l, trace, key, j) >= l.burst as real + l.rate * (trace[j].time - trace[i].time)
                                          - LetThrough(l, trace, key, i, j) as real
    decreases j
  {
    hide Ordered, KeepRun, LetThrough, TokensAt, Advance;
    if j == 0 {
      FullAtFirst(l, trace, key);
      LetThroughLast(l, trace, key, 0, 0);
      i := 0;
    } else {
      i := TokensLeft(l, trace, key, j - 1);
      NextTokens(l, trace, key, j - 1);
      LetThroughLast(l, trace, key, i, j - 1);
      LetThroughLast(l, trace, key, j, j);
      Distribute(l.rate, trace[i].time, trace[j - 1].time, trace[j].time);
      if TokensAt(l, trace, key, j) == l.burst as real {
        i := j;
      }
    }
  }

  lemma {:induction false} FullAtFirst(l: Limit, trace: seq<Event>, key: string)
    requires l.Valid() && Ordered(trace, 0.0) && trace != []
    ensures TokensAt(l, trace, key, 0) == l.burst as real
  {
    NonNegative(l.rate, trace[0].time);
  }

  lemma {:induction false} AdmittedIffToken(l: Limit, trace: seq<Event>, j: nat)
    requires l.Valid() && Ordered(trace, 0.0) && j < |trace| && trace[j].Ask?
    ensures KeepRun(l, map[], trace)[j] <==> TokensAt(l, trace, trace[j].key, j) >= 1.0
  {
    AnswerIs(l, map[], trace, j);
  }

  lemma {:induction false} LastTimeIs(trace: seq<Event>, start: real)
    requires trace != []
    ensures LastTime(trace, start) == trace[|trace| - 1].End()
    decreases |trace|
  {
    if |trace| > 1 {
      LastTimeIs(trace[1..], trace[0].End());
    }
  }

  /** A request is let through if and only if that keeps every window that ends with it within burst + rate * width: the
    * limiter refuses nothing that its bound allows. */
  lemma {:induction false} RefusedIff(l: Limit, trace: seq<Event>, j: nat)
    requires l.Valid() && Ordered(trace, 0.0) && j < |trace| && trace[j].Ask?
    ensures KeepRun(l, map[], trace)[j] <==> AllFit(l, trace, j)
  {
    hide Ordered, KeepRun, LetThrough, TokensAt, Advance, Admitted;
    var key := trace[j].key;
    AdmittedIffToken(l, trace, j);
    if KeepRun(l, map[], trace)[j] {
      forall i: nat | i <= j ensures Fits(l, trace, key, i, j) {
        WindowBound(l, trace, i, j + 1, key);
        LetThroughLast(l, trace, key, i, j);
        LastTimeIs(trace[i..j + 1], trace[i].time);
        LetThroughIs(l, trace, key, i, j + 1);
        assert trace[i..j + 1][j - i] == trace[j];
      }
    } else {
      var i := TokensLeft(l, trace, key, j);
      assert !Fits(l, trace, key, i, j);
    }
  }

  lemma {:induction false} LetThroughIs(l: Limit, trace: seq<Event>, key: string, i: nat, j: nat)
    requires i <= j <= |trace|
    ensures LetThrough(l, trace, key, i, j) == Admitted(trace[i..j], KeepRun(l, map[], trace)[i..j], key)
  {
  }
}
