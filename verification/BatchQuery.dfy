/** Batched metric queries: internal/service/monitor/prometheus.go. A request is deduplicated, and every distinct
 * query is answered by its own goroutine, from a 30-second cache or by VictoriaMetrics. An answer is stored at most
 * `lag` after VictoriaMetrics gave it. */
module BatchQuery {
  import opened Text
  import opened JoinedKeys
  import MC = MemoryCache

  /** Nanoseconds in 30 seconds: the cache's default time-to-live. */
  const TTL := 30_000_000_000

  const ERROR_PAYLOAD := "{\"status\":\"error\",\"data\":{\"result\":[]}}"

  // ---------------------------------------------------------------- deduplication

  /** One distinct query (that of the first item with the key) and the ids that asked for it. */
  datatype DedupedQuery = DedupedQuery(key: string, first: BatchItem, ids: seq<string>)

  ghost function IdsWithKey(queries: seq<BatchItem>, key: string): seq<string> {
    if queries == [] then [] else
      IdsWithKey(queries[..|queries| - 1], key) + if BatchKey(Last(queries)) == key then [Last(queries).id] else []
  }

  ghost predicate EntryOk(queries: seq<BatchItem>, d: DedupedQuery) {
    d.first in queries && d.key == BatchKey(d.first) && d.ids == IdsWithKey(queries, d.key)
  }

  ghost predicate HasKey(deduped: seq<DedupedQuery>, key: string) {
    exists i :: 0 <= i < |deduped| && deduped[i].key == key
  }

  ghost predicate KeysDistinct(deduped: seq<DedupedQuery>) {
    forall i, j :: 0 <= i < j < |deduped| ==> deduped[i].key != deduped[j].key
  }

  /** Distinct keys; every item's key is there; each entry lists exactly the ids that asked for it, in order. */
  ghost predicate DedupOf(queries: seq<BatchItem>, deduped: seq<DedupedQuery>) {
    && KeysDistinct(deduped)
    && (forall q <- queries :: HasKey(deduped, BatchKey(q)))
    && (forall i :: 0 <= i < |deduped| ==> EntryOk(queries, deduped[i]))
  }

  ghost predicate Indexed(uniqueMap: map<string, nat>, deduped: seq<DedupedQuery>) {
    && (forall k <- uniqueMap :: uniqueMap[k] < |deduped| && deduped[uniqueMap[k]].key == k)
    && (forall i :: 0 <= i < |deduped| ==> deduped[i].key in uniqueMap && uniqueMap[deduped[i].key] == i)
  }

  lemma {:induction false} IdsAppend(queries: seq<BatchItem>, q: BatchItem, key: string)
    ensures IdsWithKey(queries + [q], key) == IdsWithKey(queries, key) + if BatchKey(q) == key then [q.id] else []
  {
    assert (queries + [q])[..|queries|] == queries;
  }

  lemma {:induction false} NoIdsYet(queries: seq<BatchItem>, key: string)
    requires forall q <- queries :: BatchKey(q) != key
    ensures IdsWithKey(queries, key) == []
  {
    if queries != [] {
      NoIdsYet(queries[..|queries| - 1], key);
    }
  }

  method Dedup(queries: seq<BatchItem>) returns (deduped: seq<DedupedQuery>)
    ensures DedupOf(queries, deduped)
  {
    hide BatchKey, DedupOf, Indexed;
    var uniqueMap: map<string, nat> := map[];
    deduped := [];
    DedupStart();
    for i := 0 to |queries|
      invariant DedupOf(queries[..i], deduped) && Indexed(uniqueMap, deduped)
    {
      var q := queries[i];
      var key := BatchKey(q);
      assert queries[..i + 1] == queries[..i] + [q];
      IndexBound(uniqueMap, deduped, key);
      if key in uniqueMap {
        var idx := uniqueMap[key];
        DedupAgain(queries[..i], deduped, uniqueMap, q);
        deduped := deduped[idx := deduped[idx].(ids := deduped[idx].ids + [q.id])];
      } else {
        DedupNew(queries[..i], deduped, uniqueMap, q);
        uniqueMap := uniqueMap[key := |deduped|];
        deduped := deduped + [DedupedQuery(key, q, [q.id])];
      }
    }
    assert queries[..|queries|] == queries;
  }

  lemma {:induction false} DedupStart()
    ensures DedupOf([], []) && Indexed(map[], [])
  {
  }

  lemma {:induction false} IndexBound(uniqueMap: map<string, nat>, deduped: seq<DedupedQuery>, key: string)
    requires Indexed(uniqueMap, deduped)
    ensures key in uniqueMap ==> uniqueMap[key] < |deduped|
  {
  }

  lemma {:induction false} DedupAgain(queries: seq<BatchItem>, deduped: seq<DedupedQuery>, uniqueMap: map<string, nat>,
                                      q: BatchItem)
    requires DedupOf(queries, deduped) && Indexed(uniqueMap, deduped) && BatchKey(q) in uniqueMap
    requires uniqueMap[BatchKey(q)] < |deduped|
    ensures var idx := uniqueMap[BatchKey(q)];
            var more := deduped[idx := deduped[idx].(ids := deduped[idx].ids + [q.id])];
            DedupOf(queries + [q], more) && Indexed(uniqueMap, more)
  {
    hide BatchKey, IdsWithKey;
    var idx := uniqueMap[BatchKey(q)];
    var more := deduped[idx := deduped[idx].(ids := deduped[idx].ids + [q.id])];
    forall i | 0 <= i < |more| ensures EntryOk(queries + [q], more[i]) {
      assert EntryOk(queries, deduped[i]);
      IdsAppend(queries, q, deduped[i].key);
      OtherKeys(deduped, idx, i);
    }
    forall p | p in queries + [q] ensures HasKey(more, BatchKey(p)) {
      var key := if p in queries then BatchKey(p) else BatchKey(q);
      assert HasKey(deduped, key) by { assert deduped[idx].key == BatchKey(q); }
      var i :| 0 <= i < |deduped| && deduped[i].key == key;
      assert more[i].key == key;
    }
  }

  lemma {:induction false} OtherKeys(deduped: seq<DedupedQuery>, i: nat, j: nat)
    requires KeysDistinct(deduped) && i < |deduped| && j < |deduped|
    ensures deduped[i].key == deduped[j].key <==> i == j
  {
  }

  lemma {:induction false} DedupNew(queries: seq<BatchItem>, deduped: seq<DedupedQuery>, uniqueMap: map<string, nat>,
                                    q: BatchItem)
    requires DedupOf(queries, deduped) && Indexed(uniqueMap, deduped) && BatchKey(q) !in uniqueMap
    ensures var more := deduped + [DedupedQuery(BatchKey(q), q, [q.id])];
            DedupOf(queries + [q], more) && Indexed(uniqueMap[BatchKey(q) := |deduped|], more)
  {
    hide BatchKey, IdsWithKey;
    var key := BatchKey(q);
    var more := deduped + [DedupedQuery(key, q, [q.id])];
    forall p | p in queries ensures BatchKey(p) != key {
      assert HasKey(deduped, BatchKey(p));
    }
    NoIdsYet(queries, key);
    forall i | 0 <= i < |more| ensures EntryOk(queries + [q], more[i]) {
      if i < |deduped| {
        assert EntryOk(queries, deduped[i]) && deduped[i].key in uniqueMap;
      }
      IdsAppend(queries, q, more[i].key);
    }
    forall p | p in queries + [q] ensures HasKey(more, BatchKey(p)) {
      if p in queries {
        assert HasKey(deduped, BatchKey(p));
        var i :| 0 <= i < |deduped| && deduped[i].key == BatchKey(p);
        assert more[i].key == BatchKey(p);
      } else {
        assert more[|deduped|].key == key;
      }
    }
  }

  lemma {:induction false} IdsAre(queries: seq<BatchItem>, key: string, id: string)
    ensures id in IdsWithKey(queries, key) <==> exists q <- queries :: q.id == id && BatchKey(q) == key
  {
    hide BatchKey;
    if queries != [] {
      var front, q := queries[..|queries| - 1], Last(queries);
      IdsAre(front, key, id);
      assert queries == front + [q];
      assert forall p :: p in queries <==> p in front || p == q;
    }
  }

  /** The ids are those of the items `at`, in order, which are the ones with the key. */
  ghost predicate IdsAt(queries: seq<BatchItem>, key: string, ids: seq<string>, at: seq<nat>) {
    && Picks(at, |queries|) && |at| == |ids|
    && (forall i :: 0 <= i < |queries| ==> (i in at <==> BatchKey(queries[i]) == key))
    && (forall j :: 0 <= j < |at| ==> ids[j] == queries[at[j]].id)
  }

  lemma {:induction false} IdsInOrder(queries: seq<BatchItem>, key: string) returns (at: seq<nat>)
    ensures IdsAt(queries, key, IdsWithKey(queries, key), at)
  {
    hide BatchKey, IdsAt;
    at := [];
    if queries == [] {
      NoIdsAt(key);
    } else {
      var front, q := queries[..|queries| - 1], Last(queries);
      at := IdsInOrder(front, key);
      NextIdAt(front, key, IdsWithKey(front, key), at, q);
      assert queries == front + [q];
      IdsAppend(front, q, key);
      if BatchKey(q) == key {
        at := at + [|front|];
      } else {
        assert IdsWithKey(queries, key) == IdsWithKey(front, key);
      }
    }
  }

  lemma {:induction false} NoIdsAt(key: string)
    ensures IdsAt([], key, [], [])
  {
  }

  lemma {:induction false} NextIdAt(queries: seq<BatchItem>, key: string, ids: seq<string>, at: seq<nat>, q: BatchItem)
    requires IdsAt(queries, key, ids, at)
    ensures if BatchKey(q) == key then IdsAt(queries + [q], key, ids + [q.id], at + [|queries|])
            else IdsAt(queries + [q], key, ids, at)
  {
    hide BatchKey;
    assert |queries| !in at;
    forall i | 0 <= i < |queries + [q]|
      ensures i in at + [|queries|] <==> i == |queries| || BatchKey((queries + [q])[i]) == key
    {
      assert i < |queries| ==> (i in at <==> BatchKey(queries[i]) == key);
    }
  }

  // ---------------------------------------------------------------- the goroutines

  /** VictoriaMetrics at a moment: its answer to a query, or an error. It sees no ids. */
  type Vm = (BatchItem, int) -> Option<string>

  ghost predicate IgnoresIds(vm: Vm) {
    forall p, q, t :: SameQuery(p, q) ==> vm(p, t) == vm(q, t)
  }

  function AnswerAt(vm: Vm, q: BatchItem, t: int): string {
    match vm(q, t)
    case Some(v) => v
    case None => ERROR_PAYLOAD
  }

  /** A goroutine: not started; cache missed; answered at a moment; answer stored; answer published. */
  datatype Phase =
    | Start
    | Asking
    | Answered(value: string, at: int)
    | Have(value: string, at: int)
    | Done(value: string, at: int)

  datatype State = State(phases: seq<Phase>, results: map<string, string>, cache: MC.Items<string>, asked: seq<string>,
                         began: int, now: int)

  datatype Action = Hit(i: nat) | Miss(i: nat) | Ask(i: nat) | Store(i: nat) | Publish(i: nat) | Others

  ghost predicate AnsweredBetween(vm: Vm, q: BatchItem, value: string, from: int, to: int) {
    exists t :: from <= t <= to && value == AnswerAt(vm, q, t)
  }

  /** A cached entry was stored one time-to-live before it expires, and is what VictoriaMetrics answered, at most
    * `lag` before that, to the query with its key. */
  ghost predicate SoundCache(vm: Vm, lag: int, cache: MC.Items<string>, now: int) {
    && (forall k <- cache :: cache[k].expiration <= now + TTL)
    && forall k: string, q: BatchItem ::
       k in cache && '|' !in q.step && BatchKey(q) == k ==> SoundEntry(vm, lag, q, cache[k])
  }

  ghost predicate SoundEntry(vm: Vm, lag: int, q: BatchItem, item: MC.Item<string>) {
    AnsweredBetween(vm, q, item.value, item.expiration - TTL - lag, item.expiration - TTL)
  }

  ghost predicate Published(results: map<string, string>, results': map<string, string>, ids: seq<string>,
                            value: string) {
    && (forall id :: id in results' <==> id in results || id in ids)
    && (forall id <- results' :: results'[id] == if id in ids then value else results[id])
  }

  ghost predicate Init(deduped: seq<DedupedQuery>, vm: Vm, lag: int, s: State) {
    && |s.phases| == |deduped| && (forall i :: 0 <= i < |s.phases| ==> s.phases[i] == Start)
    && s.results == map[] && s.asked == [] && s.began == s.now && SoundCache(vm, lag, s.cache, s.now)
  }

  /** Nobody takes longer than `lag` from VictoriaMetrics' answer to storing it. */
  ghost predicate InTime(lag: int, s: State) {
    forall i :: 0 <= i < |s.phases| && s.phases[i].Answered? ==> s.now <= s.phases[i].at + lag
  }

  /** One step of goroutine i, or of anyone else who uses the cache. Storing may evict entries. */
  ghost predicate Step(deduped: seq<DedupedQuery>, vm: Vm, lag: int, s: State, a: Action, s': State) {
    && s.now <= s'.now && |s.phases| == |deduped| && InTime(lag, s')
    && match a
       case Hit(i) =>
         && i < |deduped| && s.phases[i] == Start
         && MC.LookupResult(s.cache, deduped[i].key, s'.now).Some?
         && var v := MC.LookupResult(s.cache, deduped[i].key, s'.now).value;
         && Published(s.results, s'.results, deduped[i].ids, v)
         && s' == s.(now := s'.now, results := s'.results, phases := s.phases[i := Done(v, s'.now)])
       case Miss(i) =>
         && i < |deduped| && s.phases[i] == Start && MC.LookupResult(s.cache, deduped[i].key, s'.now).None?
         && s' == s.(now := s'.now, phases := s.phases[i := Asking])
       case Ask(i) =>
         && i < |deduped| && s.phases[i] == Asking
         && s' == s.(now := s'.now, asked := s.asked + [deduped[i].key],
                     phases := s.phases[i := Answered(AnswerAt(vm, deduped[i].first, s'.now), s'.now)])
       case Store(i) =>
         && i < |deduped| && s.phases[i].Answered? && s'.now <= s.phases[i].at + lag
         && StoredIn(s.cache, s'.cache, deduped[i].key, MC.Item(s.phases[i].value, s'.now + TTL))
         && s' == s.(now := s'.now, cache := s'.cache, phases := s.phases[i := Have(s.phases[i].value, s.phases[i].at)])
       case Publish(i) =>
         && i < |deduped| && s.phases[i].Have?
         && Published(s.results, s'.results, deduped[i].ids, s.phases[i].value)
         && s' == s.(now := s'.now, results := s'.results,
                     phases := s.phases[i := Done(s.phases[i].value, s.phases[i].at)])
       case Others =>
         s' == s.(now := s'.now, cache := s'.cache) && SoundCache(vm, lag, s'.cache, s'.now)
  }

  ghost predicate StoredIn(cache: MC.Items<string>, cache': MC.Items<string>, key: string, item: MC.Item<string>) {
    forall k <- cache' :: if k == key then cache'[k] == item else k in cache && cache'[k] == cache[k]
  }

  /** The value is VictoriaMetrics' answer to q at some moment, at most the time-to-live and the lag before `at`. */
  ghost predicate Fresh(vm: Vm, lag: int, q: BatchItem, value: string, at: int) {
    AnsweredBetween(vm, q, value, at - TTL - lag, at)
  }

  /** VictoriaMetrics answered q with this value, or with an error that reads like this, up to 30 seconds and the lag
    * before the request began. */
  ghost predicate ServedDuring(vm: Vm, lag: int, q: BatchItem, value: string, from: int, to: int) {
    exists t :: from - 30_000_000_000 - lag <= t <= to
      && (vm(q, t) == Some(value) || (vm(q, t) == None && value == "{\"status\":\"error\",\"data\":{\"result\":[]}}"))
  }

  ghost predicate PhaseOk(vm: Vm, lag: int, d: DedupedQuery, p: Phase, s: State) {
    && (p.Answered? || p.Have? ==> p.value == AnswerAt(vm, d.first, p.at))
    && (p.Done? ==> Fresh(vm, lag, d.first, p.value, p.at))
    && (p.Answered? || p.Have? || p.Done? ==> s.began <= p.at <= s.now)
    && (p.Start? || p.Asking? ==> d.key !in s.asked)
    && (p.Done? ==> forall id <- d.ids :: id in s.results && s.results[id] == p.value)
  }

  ghost predicate FromDone(deduped: seq<DedupedQuery>, s: State, id: string) {
    exists i :: 0 <= i < |deduped| && i < |s.phases| && s.phases[i].Done? && id in deduped[i].ids
  }

  ghost predicate Inv(deduped: seq<DedupedQuery>, vm: Vm, lag: int, s: State) {
    && |s.phases| == |deduped| && s.began <= s.now && InTime(lag, s)
    && SoundCache(vm, lag, s.cache, s.now) && NoDuplicates(s.asked)
    && (forall i :: 0 <= i < |deduped| ==> PhaseOk(vm, lag, deduped[i], s.phases[i], s))
    && (forall id <- s.results :: FromDone(deduped, s, id))
  }

  /** What the theorems ask of a request: distinct ids, and steps without a pipe. */
  ghost predicate GoodRequest(queries: seq<BatchItem>) {
    DistinctIds(queries) && forall q <- queries :: '|' !in q.step
  }

  ghost predicate DistinctIds(queries: seq<BatchItem>) {
    forall i, j :: 0 <= i < j < |queries| ==> queries[i].id != queries[j].id
  }

  ghost predicate DisjointIds(deduped: seq<DedupedQuery>) {
    forall i, j, id :: 0 <= i < |deduped| && 0 <= j < |deduped| && id in deduped[i].ids && id in deduped[j].ids
      ==> i == j
  }

  lemma {:induction false} IdsDisjoint(queries: seq<BatchItem>, deduped: seq<DedupedQuery>)
    requires GoodRequest(queries) && DedupOf(queries, deduped)
    ensures DisjointIds(deduped)
  {
    hide BatchKey, IdsWithKey, KeysDistinct, DistinctIds;
    forall i, j, id | 0 <= i < |deduped| && 0 <= j < |deduped| && id in deduped[i].ids && id in deduped[j].ids
      ensures i == j {
      assert EntryOk(queries, deduped[i]) && EntryOk(queries, deduped[j]);
      IdsAre(queries, deduped[i].key, id);
      IdsAre(queries, deduped[j].key, id);
      var p :| p in queries && p.id == id && BatchKey(p) == deduped[i].key;
      var q :| q in queries && q.id == id && BatchKey(q) == deduped[j].key;
      SameIdSameItem(queries, p, q);
      OtherKeys(deduped, i, j);
    }
  }

  lemma {:induction false} SameIdSameItem(queries: seq<BatchItem>, p: BatchItem, q: BatchItem)
    requires DistinctIds(queries) && p in queries && q in queries && p.id == q.id
    ensures p == q
  {
  }

  /** Storing an answer under the key of a pipe-free query keeps the cache sound: no other pipe-free query has that
    * key. */
  lemma {:induction false} StoreKeepsSound(vm: Vm, lag: int, cache: MC.Items<string>, cache': MC.Items<string>,
                                           q: BatchItem, at: int, now: int)
    requires IgnoresIds(vm) && SoundCache(vm, lag, cache, now) && '|' !in q.step && at <= now <= at + lag
    requires StoredIn(cache, cache', BatchKey(q), MC.Item(AnswerAt(vm, q, at), now + TTL))
    ensures SoundCache(vm, lag, cache', now)
  {
    hide BatchKey, SoundEntry;
    forall k: string, p: BatchItem | k in cache' && '|' !in p.step && BatchKey(p) == k
      ensures SoundEntry(vm, lag, p, cache'[k])
    {
      if k == BatchKey(q) {
        BatchKeyInjective(p, q);
        JustStored(vm, lag, p, q, at, now);
      }
    }
  }

  lemma {:induction false} JustStored(vm: Vm, lag: int, p: BatchItem, q: BatchItem, at: int, now: int)
    requires IgnoresIds(vm) && SameQuery(p, q) && at <= now <= at + lag
    ensures SoundEntry(vm, lag, p, MC.Item(AnswerAt(vm, q, at), now + TTL))
  {
    assert AnswerAt(vm, p, at) == AnswerAt(vm, q, at);
  }

  lemma {:induction false} SoundLater(vm: Vm, lag: int, cache: MC.Items<string>, now: int, later: int)
    requires SoundCache(vm, lag, cache, now) && now <= later
    ensures SoundCache(vm, lag, cache, later)
  {
    hide SoundEntry;
  }

  lemma {:induction false} PhasesStay(deduped: seq<DedupedQuery>, vm: Vm, lag: int, s: State, a: Action, s': State,
                                      i: nat)
    requires Inv(deduped, vm, lag, s) && Step(deduped, vm, lag, s, a, s') && DisjointIds(deduped) && i < |deduped|
    requires 0 <= lag
    requires KeysDistinct(deduped)
    requires '|' !in deduped[i].first.step && deduped[i].key == BatchKey(deduped[i].first)
    ensures PhaseOk(vm, lag, deduped[i], s'.phases[i], s')
  {
    hide BatchKey, SoundCache, StoredIn, InTime, Fresh;
    assert PhaseOk(vm, lag, deduped[i], s.phases[i], s);
    if a.Hit? && a.i == i {
      SoundLater(vm, lag, s.cache, s.now, s'.now);
      HitIsFresh(vm, lag, s.cache, deduped[i].first, s'.now);
    }
    if a.Publish? && a.i == i {
      OwnIsFresh(vm, lag, deduped[i].first, s.phases[i].at);
    }
  }

  lemma {:induction false} HitIsFresh(vm: Vm, lag: int, cache: MC.Items<string>, q: BatchItem, now: int)
    requires SoundCache(vm, lag, cache, now) && '|' !in q.step && MC.LookupResult(cache, BatchKey(q), now).Some?
    ensures Fresh(vm, lag, q, MC.LookupResult(cache, BatchKey(q), now).value, now)
  {
    hide BatchKey;
    var item := cache[BatchKey(q)];
    assert SoundEntry(vm, lag, q, item);
    var t :| item.expiration - TTL - lag <= t <= item.expiration - TTL && item.value == AnswerAt(vm, q, t);
  }

  lemma {:induction false} OwnIsFresh(vm: Vm, lag: int, q: BatchItem, at: int)
    requires 0 <= lag
    ensures Fresh(vm, lag, q, AnswerAt(vm, q, at), at)
  {
  }

  lemma {:induction false} ResultsStay(deduped: seq<DedupedQuery>, vm: Vm, lag: int, s: State, a: Action, s': State,
                                       id: string)
    requires Inv(deduped, vm, lag, s) && Step(deduped, vm, lag, s, a, s') && id in s'.results
    ensures FromDone(deduped, s', id)
  {
    hide BatchKey, SoundCache, StoredIn, PhaseOk;
    if id in s.results {
      assert FromDone(deduped, s, id);
      var i :| 0 <= i < |deduped| && i < |s.phases| && s.phases[i].Done? && id in deduped[i].ids;
      assert s'.phases[i].Done?;
    } else {
      assert s'.phases[a.i].Done?;
    }
  }

  lemma {:induction false} AskedOnce(deduped: seq<DedupedQuery>, vm: Vm, lag: int, s: State, a: Action, s': State)
    requires Inv(deduped, vm, lag, s) && Step(deduped, vm, lag, s, a, s')
    ensures NoDuplicates(s'.asked)
  {
    hide SoundCache, StoredIn;
    if a.Ask? {
      assert PhaseOk(vm, lag, deduped[a.i], s.phases[a.i], s);
    }
  }

  ghost predicate AllPipeFree(deduped: seq<DedupedQuery>) {
    forall i :: 0 <= i < |deduped| ==> '|' !in deduped[i].first.step && deduped[i].key == BatchKey(deduped[i].first)
  }

  lemma {:induction false} CacheStays(deduped: seq<DedupedQuery>, vm: Vm, lag: int, s: State, a: Action, s': State)
    requires Inv(deduped, vm, lag, s) && Step(deduped, vm, lag, s, a, s') && IgnoresIds(vm)
    requires AllPipeFree(deduped)
    ensures SoundCache(vm, lag, s'.cache, s'.now)
  {
    hide SoundCache, StoredIn, Fresh, BatchKey, InTime;
    SoundLater(vm, lag, s.cache, s.now, s'.now);
    if a.Store? {
      assert PhaseOk(vm, lag, deduped[a.i], s.phases[a.i], s);
      StoreKeepsSound(vm, lag, s.cache, s'.cache, deduped[a.i].first, s.phases[a.i].at, s'.now);
    }
  }

  /** What deduplication gives the protocol. */
  ghost predicate GoodTasks(deduped: seq<DedupedQuery>) {
    DisjointIds(deduped) && KeysDistinct(deduped) && AllPipeFree(deduped)
  }

  lemma {:induction false} StepKeepsInv(deduped: seq<DedupedQuery>, vm: Vm, lag: int, s: State, a: Action, s': State)
    requires GoodTasks(deduped) && IgnoresIds(vm) && 0 <= lag && Inv(deduped, vm, lag, s)
    requires Step(deduped, vm, lag, s, a, s')
    ensures Inv(deduped, vm, lag, s')
  {
    hide SoundCache, StoredIn, PhaseOk, FromDone, NoDuplicates, IgnoresIds, DisjointIds, BatchKey;
    CacheStays(deduped, vm, lag, s, a, s');
    AskedOnce(deduped, vm, lag, s, a, s');
    forall i | 0 <= i < |deduped| ensures PhaseOk(vm, lag, deduped[i], s'.phases[i], s') {
      PhasesStay(deduped, vm, lag, s, a, s', i);
    }
    forall id | id in s'.results ensures FromDone(deduped, s', id) {
      ResultsStay(deduped, vm, lag, s, a, s', id);
    }
  }

  ghost predicate Run(deduped: seq<DedupedQuery>, vm: Vm, lag: int, states: seq<State>, actions: seq<Action>) {
    && |states| == |actions| + 1 && Init(deduped, vm, lag, states[0])
    && forall i :: 0 <= i < |actions| ==> Step(deduped, vm, lag, states[i], actions[i], states[i + 1])
  }

  lemma {:induction false} RunKeepsInv(deduped: seq<DedupedQuery>, vm: Vm, lag: int, states: seq<State>,
                                       actions: seq<Action>, n: nat)
    requires GoodTasks(deduped) && IgnoresIds(vm) && 0 <= lag && Run(deduped, vm, lag, states, actions) && n < |states|
    ensures Inv(deduped, vm, lag, states[n])
    decreases n
  {
    if n > 0 {
      hide Inv, Step, Init, GoodTasks, IgnoresIds;
      RunKeepsInv(deduped, vm, lag, states, actions, n - 1);
      StepKeepsInv(deduped, vm, lag, states[n - 1], actions[n - 1], states[n]);
    } else {
      InitInv(deduped, vm, lag, states[0]);
    }
  }

  lemma {:induction false} InitInv(deduped: seq<DedupedQuery>, vm: Vm, lag: int, s: State)
    requires Init(deduped, vm, lag, s)
    ensures Inv(deduped, vm, lag, s)
  {
    hide SoundCache;
  }

  lemma {:induction false} DedupIsGood(queries: seq<BatchItem>, deduped: seq<DedupedQuery>)
    requires GoodRequest(queries) && DedupOf(queries, deduped)
    ensures GoodTasks(deduped)
  {
    hide BatchKey, KeysDistinct, DisjointIds, DistinctIds;
    IdsDisjoint(queries, deduped);
    forall i | 0 <= i < |deduped|
      ensures '|' !in deduped[i].first.step && deduped[i].key == BatchKey(deduped[i].first) {
      assert EntryOk(queries, deduped[i]);
    }
  }

  ghost predicate AllDone(s: State) {
    forall i :: 0 <= i < |s.phases| ==> s.phases[i].Done?
  }

  /** Whatever the order of the goroutines and whoever else uses the cache: when all are done, the response has
    * exactly the request's ids, and each maps to VictoriaMetrics' answer (or the error payload) to that item's own
    * query, given during this request or at most 30 seconds and the lag before it began.
    * VictoriaMetrics was asked at most once for each distinct key. */
  lemma {:induction false} BatchIsNaive(queries: seq<BatchItem>, deduped: seq<DedupedQuery>, vm: Vm, lag: int,
                                        states: seq<State>, actions: seq<Action>)
    requires GoodRequest(queries) && DedupOf(queries, deduped) && IgnoresIds(vm)
    requires Run(deduped, vm, lag, states, actions)
    requires 0 <= lag && AllDone(Last(states))
    ensures var s := Last(states);
            && (forall id :: id in s.results <==> exists q <- queries :: q.id == id)
            && (forall q <- queries :: q.id in s.results && ServedDuring(vm, lag, q, s.results[q.id], s.began, s.now))
            && NoDuplicates(s.asked)
  {
    hide IgnoresIds, SoundCache, ServedDuring, NoDuplicates, Step, BatchKey, IdsWithKey, PhaseOk, KeysDistinct,
         DisjointIds, DistinctIds, AllPipeFree, AllDone;
    var s := Last(states);
    DedupIsGood(queries, deduped);
    RunKeepsInv(deduped, vm, lag, states, actions, |states| - 1);
    forall q | q in queries ensures q.id in s.results && ServedDuring(vm, lag, q, s.results[q.id], s.began, s.now) {
      ItemServed(queries, deduped, vm, lag, s, q);
    }
    forall id | id in s.results ensures exists q <- queries :: q.id == id {
      assert FromDone(deduped, s, id);
      var i :| 0 <= i < |deduped| && i < |s.phases| && s.phases[i].Done? && id in deduped[i].ids;
      assert EntryOk(queries, deduped[i]);
      IdsAre(queries, deduped[i].key, id);
    }
  }

  lemma {:induction false} ItemServed(queries: seq<BatchItem>, deduped: seq<DedupedQuery>, vm: Vm, lag: int, s: State,
                                      q: BatchItem)
    requires GoodRequest(queries) && DedupOf(queries, deduped) && IgnoresIds(vm) && Inv(deduped, vm, lag, s)
    requires q in queries
    requires AllDone(s)
    ensures q.id in s.results && ServedDuring(vm, lag, q, s.results[q.id], s.began, s.now)
  {
    hide SoundCache, BatchKey, IdsWithKey, IgnoresIds, Fresh, KeysDistinct, DistinctIds, NoDuplicates, FromDone,
         ServedDuring;
    assert HasKey(deduped, BatchKey(q));
    var i :| 0 <= i < |deduped| && deduped[i].key == BatchKey(q);
    var d := deduped[i];
    assert EntryOk(queries, d) && PhaseOk(vm, lag, d, s.phases[i], s);
    IdsAre(queries, d.key, q.id);
    BatchKeyInjective(q, d.first);
    FreshForSame(vm, lag, d.first, q, s.phases[i].value, s.phases[i].at);
    FreshIsServed(vm, lag, q, s.phases[i].value, s.phases[i].at, s.began, s.now);
  }

  lemma {:induction false} FreshIsServed(vm: Vm, lag: int, q: BatchItem, value: string, at: int, from: int, to: int)
    requires Fresh(vm, lag, q, value, at) && from <= at <= to
    ensures ServedDuring(vm, lag, q, value, from, to)
  {
    var t :| at - TTL - lag <= t <= at && value == AnswerAt(vm, q, t);
    assert vm(q, t) == Some(value) || vm(q, t) == None;
  }

  lemma {:induction false} FreshForSame(vm: Vm, lag: int, p: BatchItem, q: BatchItem, value: string, at: int)
    requires IgnoresIds(vm) && SameQuery(p, q) && Fresh(vm, lag, p, value, at)
    ensures Fresh(vm, lag, q, value, at)
  {
    var t :| at - TTL - lag <= t <= at && value == AnswerAt(vm, p, t);
    assert AnswerAt(vm, q, t) == value;
  }

  // ---------------------------------------------------------------- it ends

  function Remaining(p: Phase): nat {
    match p
    case Start => 4
    case Asking => 3
    case Answered(_, _) => 2
    case Have(_, _) => 1
    case Done(_, _) => 0
  }

  ghost function TotalRemaining(phases: seq<Phase>): nat {
    if phases == [] then 0 else TotalRemaining(phases[..|phases| - 1]) + Remaining(Last(phases))
  }

  lemma {:induction false} UpdateRemaining(phases: seq<Phase>, i: nat, p: Phase)
    requires i < |phases|
    ensures TotalRemaining(phases[i := p]) == TotalRemaining(phases) - Remaining(phases[i]) + Remaining(p)
  {
    var updated, n := phases[i := p], |phases| - 1;
    if i == n {
      assert updated[..n] == phases[..n];
    } else {
      UpdateRemaining(phases[..n], i, p);
      assert updated[..n] == phases[..n][i := p];
    }
  }

  ghost predicate CanStep(deduped: seq<DedupedQuery>, vm: Vm, lag: int, s: State, i: nat) {
    exists a, s' :: Step(deduped, vm, lag, s, a, s') && !a.Others? && a.i == i
      && TotalRemaining(s'.phases) < TotalRemaining(s.phases)
  }

  lemma {:induction false} StillInTime(lag: int, s: State, s': State, i: nat, p: Phase)
    requires InTime(lag, s) && i < |s.phases| && s'.phases == s.phases[i := p] && s'.now == s.now
    requires 0 <= lag && (p.Answered? ==> p.at == s.now)
    ensures InTime(lag, s')
    ensures TotalRemaining(s'.phases) == TotalRemaining(s.phases) - Remaining(s.phases[i]) + Remaining(p)
  {
    UpdateRemaining(s.phases, i, p);
  }

  lemma {:induction false} LookCanStep(deduped: seq<DedupedQuery>, vm: Vm, lag: int, s: State, i: nat)
    requires |s.phases| == |deduped| && i < |deduped| && s.phases[i] == Start && 0 <= lag && InTime(lag, s)
    ensures CanStep(deduped, vm, lag, s, i)
  {
    hide InTime, TotalRemaining;
    var d := deduped[i];
    var found := MC.LookupResult(s.cache, d.key, s.now);
    if found.Some? {
      var s' := s.(results := WithIds(s.results, d.ids, found.value),
                   phases := s.phases[i := Done(found.value, s.now)]);
      StillInTime(lag, s, s', i, Done(found.value, s.now));
      assert Step(deduped, vm, lag, s, Hit(i), s');
    } else {
      var s' := s.(phases := s.phases[i := Asking]);
      StillInTime(lag, s, s', i, Asking);
      assert Step(deduped, vm, lag, s, Miss(i), s');
    }
  }

  lemma {:induction false} AskCanStep(deduped: seq<DedupedQuery>, vm: Vm, lag: int, s: State, i: nat)
    requires |s.phases| == |deduped| && i < |deduped| && (s.phases[i].Asking? || s.phases[i].Answered?) && 0 <= lag
    requires InTime(lag, s)
    ensures CanStep(deduped, vm, lag, s, i)
  {
    hide TotalRemaining;
    var d := deduped[i];
    if s.phases[i].Asking? {
      var answered := Answered(AnswerAt(vm, d.first, s.now), s.now);
      var s' := s.(asked := s.asked + [d.key], phases := s.phases[i := answered]);
      StillInTime(lag, s, s', i, answered);
      assert Step(deduped, vm, lag, s, Ask(i), s');
    } else {
      var v := s.phases[i].value;
      var s' := s.(cache := s.cache[d.key := MC.Item(v, s.now + TTL)],
                   phases := s.phases[i := Have(v, s.phases[i].at)]);
      StillInTime(lag, s, s', i, Have(v, s.phases[i].at));
      assert Step(deduped, vm, lag, s, Store(i), s');
    }
  }

  lemma {:induction false} PublishCanStep(deduped: seq<DedupedQuery>, vm: Vm, lag: int, s: State, i: nat)
    requires |s.phases| == |deduped| && i < |deduped| && s.phases[i].Have? && 0 <= lag && InTime(lag, s)
    ensures CanStep(deduped, vm, lag, s, i)
  {
    hide InTime, TotalRemaining;
    var v, at := s.phases[i].value, s.phases[i].at;
    var s' := s.(results := WithIds(s.results, deduped[i].ids, v), phases := s.phases[i := Done(v, at)]);
    StillInTime(lag, s, s', i, Done(v, at));
    assert Step(deduped, vm, lag, s, Publish(i), s');
  }

  /** A goroutine that is not done can always step, and each of its steps brings the request nearer to its end. */
  lemma {:induction false} NeverStuck(deduped: seq<DedupedQuery>, vm: Vm, lag: int, s: State, i: nat)
    requires |s.phases| == |deduped| && i < |deduped| && !s.phases[i].Done? && 0 <= lag && InTime(lag, s)
    ensures CanStep(deduped, vm, lag, s, i)
  {
    hide CanStep, InTime;
    match s.phases[i] {
      case Start => LookCanStep(deduped, vm, lag, s, i);
      case Asking => AskCanStep(deduped, vm, lag, s, i);
      case Answered(_, _) => AskCanStep(deduped, vm, lag, s, i);
      case Have(_, _) => PublishCanStep(deduped, vm, lag, s, i);
    }
  }

  ghost function WithIds(results: map<string, string>, ids: seq<string>, value: string): (results': map<string, string>)
    ensures Published(results, results', ids, value)
  {
    map id | id in results.Keys + (set x | x in ids) :: if id in ids then value else results[id]
  }
}
