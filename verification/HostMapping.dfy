/** Host-name mappings with a write-through cache that is also refreshed from the database:
 * internal/service/hostmapping/service.go. The table has the unique index (hostname, cluster_name). */
module HostMapping {
  import opened Text
  import opened JoinedKeys

  datatype Mapping = Mapping(hostname: string, cluster: string, ip: string)
  type Rows = map<int, Mapping>
  type Cache = map<string, string>

  function RowKey(m: Mapping): string {
    CacheKey(m.hostname, m.cluster)
  }

  predicate SameIndex(a: Mapping, b: Mapping) {
    a.hostname == b.hostname && a.cluster == b.cluster
  }

  /** Another row than `id` already has this hostname and cluster. */
  predicate Taken(rows: Rows, id: int, m: Mapping) {
    exists other <- rows :: other != id && SameIndex(rows[other], m)
  }

  ghost predicate Unique(rows: Rows) {
    forall a, b :: a in rows && b in rows && SameIndex(rows[a], rows[b]) ==> a == b
  }

  ghost predicate ColonFreeClusters(rows: Rows) {
    forall id <- rows :: ':' !in rows[id].cluster
  }

  ghost predicate RowsOk(rows: Rows, nextId: int) {
    Unique(rows) && ColonFreeClusters(rows) && 0 < nextId && forall id <- rows :: id != 0 && id < nextId
  }

  /** The cache holds the key of every row, and every key with the address of a row that has it. */
  ghost predicate Coherent(cache: Cache, rows: Rows) {
    && (forall id <- rows :: RowKey(rows[id]) in cache)
    && (forall k <- cache :: FromRow(rows, k, cache[k]))
  }

  ghost predicate FromRow(rows: Rows, k: string, ip: string) {
    exists id :: id in rows && RowKey(rows[id]) == k && rows[id].ip == ip
  }

  // ---------------------------------------------------------------- resolving

  function ResolveIn(cache: Cache, hostname: string): string {
    var key := CacheKey(hostname, "");
    if key in cache then cache[key] else hostname
  }

  function ResolveForClusterIn(cache: Cache, hostname: string, cluster: string): string {
    var key := CacheKey(hostname, cluster);
    if cluster != "" && key in cache then cache[key] else ResolveIn(cache, hostname)
  }

  /** The address in the row of a hostname and cluster. */
  ghost function RowAt(rows: Rows, hostname: string, cluster: string): Option<string> {
    if exists id :: id in rows && rows[id].hostname == hostname && rows[id].cluster == cluster then
      var id :| id in rows && rows[id].hostname == hostname && rows[id].cluster == cluster;
      Some(rows[id].ip)
    else None
  }

  /** What the table says: the cluster's row, else the global row, else the hostname itself. */
  ghost function DbAnswer(rows: Rows, hostname: string, cluster: string): string {
    if cluster != "" && RowAt(rows, hostname, cluster).Some? then RowAt(rows, hostname, cluster).value
    else if RowAt(rows, hostname, "").Some? then RowAt(rows, hostname, "").value
    else hostname
  }

  lemma {:induction false} LookupIsRow(cache: Cache, rows: Rows, hostname: string, cluster: string)
    requires Coherent(cache, rows) && Unique(rows) && ColonFreeClusters(rows) && ':' !in cluster
    ensures var key := CacheKey(hostname, cluster);
            RowAt(rows, hostname, cluster) == if key in cache then Some(cache[key]) else None
  {
    var key := CacheKey(hostname, cluster);
    forall id | id in rows
      ensures RowKey(rows[id]) == key <==> rows[id].hostname == hostname && rows[id].cluster == cluster {
      CacheKeyInjective(rows[id].hostname, rows[id].cluster, hostname, cluster);
    }
    if key in cache {
      var id :| id in rows && RowKey(rows[id]) == key && rows[id].ip == cache[key];
      assert forall other :: other in rows && RowKey(rows[other]) == key ==> SameIndex(rows[other], rows[id]);
    }
  }

  /** With a coherent cache the resolver answers what the table says. */
  lemma {:induction false} ResolvesAsDb(cache: Cache, rows: Rows, hostname: string, cluster: string)
    requires Coherent(cache, rows) && Unique(rows) && ColonFreeClusters(rows) && ':' !in cluster
    ensures ResolveForClusterIn(cache, hostname, cluster) == DbAnswer(rows, hostname, cluster)
  {
    LookupIsRow(cache, rows, hostname, cluster);
    LookupIsRow(cache, rows, hostname, "");
  }

  // ---------------------------------------------------------------- the service

  datatype State = State(cache: Cache, rows: Rows, nextId: int)

  datatype Op =
    | Create(mapping: Mapping, fails: bool)
    | Update(id: int, mapping: Mapping, readFails: bool, fails: bool)
    | Delete(id: int, readFails: bool, fails: bool)
    | Refresh(listFails: bool)

  /** gorm's Save: an update by id, or an insert where there is no such row; id 0 gets a new id. */
  function SavedId(nextId: int, id: int): int {
    if id == 0 then nextId else id
  }

  /** The effect of a successful Update on the cache. */
  function UpdatedCache(cache: Cache, rows: Rows, id: int, m: Mapping, readFails: bool): Cache {
    var renames := !readFails && id in rows && RowKey(rows[id]) != RowKey(m);
    (if renames then cache - {RowKey(rows[id])} else cache)[RowKey(m) := m.ip]
  }

  ghost predicate Step(s: State, op: Op, s': State) {
    match op
    case Create(m, fails) =>
      s' == if fails || Taken(s.rows, 0, m) then s
            else State(s.cache[RowKey(m) := m.ip], s.rows[s.nextId := m], s.nextId + 1)
    case Update(id, m, readFails, fails) =>
      var saved := SavedId(s.nextId, id);
      s' == if fails || Taken(s.rows, id, m) then s
            else State(UpdatedCache(s.cache, s.rows, id, m, readFails), s.rows[saved := m],
                       if saved >= s.nextId then saved + 1 else s.nextId)
    case Delete(id, readFails, fails) =>
      s' == if readFails || id !in s.rows || fails then s
            else State(s.cache - {RowKey(s.rows[id])}, s.rows - {id}, s.nextId)
    case Refresh(listFails) =>
      && s'.rows == s.rows && s'.nextId == s.nextId
      && if listFails then s'.cache == s.cache else Coherent(s'.cache, s.rows)
  }

  // ---------------------------------------------------------------- a refresh, write by write

  /** One entry is stored, or one that is not wanted is deleted. */
  ghost predicate StoreStep(c: Cache, c': Cache, target: Cache) {
    exists k :: k in target && c' == c[k := target[k]]
  }

  ghost predicate DeleteStep(c: Cache, c': Cache, target: Cache) {
    exists k :: k !in target && c' == c - {k}
  }

  ghost predicate Stores(before: Cache, target: Cache, trace: seq<Cache>) {
    trace != [] && trace[0] == before && forall i :: 0 <= i < |trace| - 1 ==> StoreStep(trace[i], trace[i + 1], target)
  }

  ghost predicate Deletes(target: Cache, trace: seq<Cache>, stores: nat) {
    forall i :: stores <= i < |trace| - 1 ==> DeleteStep(trace[i], trace[i + 1], target)
  }

  ghost predicate Holds(c: Cache, target: Cache) {
    forall k <- target :: k in c && c[k] == target[k]
  }

  /** The caches a reader can see during one complete refresh: `stores` stores, after which all of the target is
    * there, and then deletes, after which nothing else is. */
  ghost predicate RefreshTrace(before: Cache, target: Cache, trace: seq<Cache>, stores: nat) {
    && stores < |trace| && Stores(before, target, trace[..stores + 1]) && Deletes(target, trace, stores)
    && Holds(trace[stores], target) && trace[|trace| - 1] == target
  }

  class Service {
    var cache: Cache
    var rows: Rows     // the repository
    var nextId: int

    constructor (rows: Rows, nextId: int)
      ensures this.rows == rows && this.nextId == nextId && cache == map[]
    {
      this.rows, this.nextId, cache := rows, nextId, map[];
    }

    ghost function Now(): State
      reads this
    {
      State(cache, rows, nextId)
    }

    method ResolveForCluster(hostname: string, clusterName: string) returns (ip: string)
      ensures ip == ResolveForClusterIn(cache, hostname, clusterName)
    {
      if clusterName != "" {
        var key := CacheKey(hostname, clusterName);
        if key in cache {
          return cache[key];
        }
      }
      var key := CacheKey(hostname, "");
      if key in cache {
        return cache[key];
      }
      return hostname;
    }

    method Create(m: Mapping, fails: bool) returns (ok: bool)
      modifies this
      ensures Step(old(Now()), Op.Create(m, fails), Now()) && (ok <==> !fails && !Taken(old(rows), 0, m))
    {
      ok := !fails && !Taken(rows, 0, m);
      if !ok {
        return;
      }
      rows, nextId := rows[nextId := m], nextId + 1;
      cache := cache[RowKey(m) := m.ip];
    }

    method Update(id: int, m: Mapping, readFails: bool, fails: bool) returns (ok: bool)
      modifies this
      ensures Step(old(Now()), Op.Update(id, m, readFails, fails), Now())
              && (ok <==> !fails && !Taken(old(rows), id, m))
    {
      var before := if !readFails && id in rows then Some(rows[id]) else None;
      ok := !fails && !Taken(rows, id, m);
      if !ok {
        return;
      }
      var saved := SavedId(nextId, id);
      rows := rows[saved := m];
      if saved >= nextId {
        nextId := saved + 1;
      }
      if before.Some? && RowKey(before.value) != RowKey(m) {
        cache := cache - {RowKey(before.value)};
      }
      cache := cache[RowKey(m) := m.ip];
    }

    method Delete(id: int, readFails: bool, fails: bool) returns (ok: bool)
      modifies this
      ensures Step(old(Now()), Op.Delete(id, readFails, fails), Now())
      ensures (ok <==> !readFails && id in old(rows) && !fails)
    {
      ok := !readFails && id in rows && !fails;
      if !ok {
        return;
      }
      var mapping := rows[id];
      rows := rows - {id};
      cache := cache - {RowKey(mapping)};
    }

    /** The addresses of all rows by cache key. */
    method ListMappings() returns (newCache: Cache)
      ensures Coherent(newCache, rows)
    {
      newCache := map[];
      var listed := rows.Items;
      while listed != {}
        invariant listed <= rows.Items
        invariant forall id <- rows :: (id, rows[id]) in listed || RowKey(rows[id]) in newCache
        invariant forall k <- newCache :: FromRow(rows, k, newCache[k])
        decreases listed
      {
        var row :| row in listed;
        listed := listed - {row};
        var (id, m) := row;
        assert id in rows && rows[id] == m;
        newCache := newCache[RowKey(m) := m.ip];
      }
    }

    method StoreAll(newCache: Cache) returns (ghost trace: seq<Cache>)
      modifies this`cache
      ensures trace != [] && Last(trace) == cache && Stores(old(cache), newCache, trace)
      ensures cache == old(cache) + newCache
    {
      hide Stores;
      ghost var before := cache;
      trace := [cache];
      StoresStart(cache, newCache);
      var todo := newCache.Keys;
      while todo != {}
        invariant todo <= newCache.Keys && trace != [] && Last(trace) == cache && Stores(before, newCache, trace)
        invariant cache.Keys == before.Keys + (newCache.Keys - todo)
        invariant forall k <- cache :: cache[k] == if k in newCache && k !in todo then newCache[k] else before[k]
        decreases todo
      {
        var k :| k in todo;
        todo := todo - {k};
        StoresMore(before, newCache, trace, k);
        cache := cache[k := newCache[k]];
        trace := trace + [cache];
      }
    }

    method DeleteRest(oldKeys: set<string>, newCache: Cache, ghost before: seq<Cache>) returns (ghost trace: seq<Cache>)
      requires before != [] && Last(before) == cache && Holds(cache, newCache) && cache.Keys <= oldKeys + newCache.Keys
      modifies this`cache
      ensures cache == newCache
      ensures before <= trace && Last(trace) == cache && Deletes(newCache, trace, |before| - 1)
    {
      hide Deletes;
      trace := before;
      DeletesStart(newCache, trace);
      var left := oldKeys;
      while left != {}
        invariant left <= oldKeys && before <= trace && Last(trace) == cache && Deletes(newCache, trace, |before| - 1)
        invariant Holds(cache, newCache) && cache.Keys <= newCache.Keys + left
        decreases left
      {
        var k :| k in left;
        left := left - {k};
        if k !in newCache {
          DeletesMore(newCache, trace, |before| - 1, k);
          cache := cache - {k};
          trace := trace + [cache];
        }
      }
    }

    /** Stores everything listed, then deletes what is left over. `trace` is what a reader could see, write by write. */
    method RefreshCache(listFails: bool) returns (ghost trace: seq<Cache>, ghost stores: nat)
      modifies this`cache
      ensures Step(old(Now()), Op.Refresh(listFails), Now())
      ensures !listFails ==> RefreshTrace(old(cache), cache, trace, stores)
    {
      hide Stores, Deletes, Coherent;
      trace, stores := [cache], 0;
      if listFails {
        return;
      }
      var newCache := ListMappings();
      var oldKeys := cache.Keys;
      ghost var stored := StoreAll(newCache);
      trace := DeleteRest(oldKeys, newCache, stored);
      stores := |stored| - 1;
      assert trace[..stores + 1] == stored;
    }
  }

  lemma {:induction false} StoresStart(before: Cache, target: Cache)
    ensures Stores(before, target, [before])
  {
  }

  lemma {:induction false} StoresMore(before: Cache, target: Cache, trace: seq<Cache>, k: string)
    requires Stores(before, target, trace) && k in target
    ensures Stores(before, target, trace + [Last(trace)[k := target[k]]])
  {
    var more := trace + [Last(trace)[k := target[k]]];
    forall i | 0 <= i < |more| - 1 ensures StoreStep(more[i], more[i + 1], target) {
      if i < |trace| - 1 {
        assert StoreStep(trace[i], trace[i + 1], target);
      }
    }
  }

  lemma {:induction false} DeletesStart(target: Cache, trace: seq<Cache>)
    requires trace != []
    ensures Deletes(target, trace, |trace| - 1)
  {
  }

  lemma {:induction false} DeletesMore(target: Cache, trace: seq<Cache>, stores: nat, k: string)
    requires trace != [] && stores < |trace| && Deletes(target, trace, stores) && k !in target
    ensures Deletes(target, trace + [Last(trace) - {k}], stores)
  {
    var more := trace + [Last(trace) - {k}];
    forall i | stores <= i < |more| - 1 ensures DeleteStep(more[i], more[i + 1], target) {
      if i < |trace| - 1 {
        assert DeleteStep(trace[i], trace[i + 1], target);
      }
    }
  }

  // ---------------------------------------------------------------- what readers see during a refresh

  /** Up to the last store nothing old is missing; from then on nothing new is; and every value is the old or the
    * new one. */
  lemma {:induction false} DuringRefresh(before: Cache, target: Cache, trace: seq<Cache>, stores: nat, i: nat)
    requires RefreshTrace(before, target, trace, stores) && i < |trace|
    ensures forall k <- trace[i] ::
            (k in before && trace[i][k] == before[k]) || (k in target && trace[i][k] == target[k])
    ensures i <= stores ==> forall k <- before :: k in trace[i]
    ensures i >= stores ==> Holds(trace[i], target)
  {
    if 0 < i <= stores {
      DuringRefresh(before, target, trace, stores, i - 1);
      var front := trace[..stores + 1];
      assert StoreStep(front[i - 1], front[i], target);
    } else if i > stores {
      DuringRefresh(before, target, trace, stores, i - 1);
      assert DeleteStep(trace[i - 1], trace[i - 1 + 1], target);
    } else {
      assert trace[..stores + 1][0] == trace[0];
    }
  }

  /** A key mapped both before and after is never absent during the refresh, and always has its old or its new
    * address. */
  lemma {:induction false} NeverAbsent(before: Cache, target: Cache, trace: seq<Cache>, stores: nat, i: nat, k: string)
    requires RefreshTrace(before, target, trace, stores) && i < |trace| && k in before && k in target
    ensures k in trace[i] && (trace[i][k] == before[k] || trace[i][k] == target[k])
  {
    DuringRefresh(before, target, trace, stores, i);
  }

  /** A reader's two lookups, the second no earlier than the first, both miss. */
  ghost predicate FallsThrough(first: Cache, second: Cache, hostname: string, cluster: string) {
    (cluster == "" || CacheKey(hostname, cluster) !in first) && CacheKey(hostname, "") !in second
  }

  ghost predicate Mapped(c: Cache, hostname: string, cluster: string) {
    (cluster != "" && CacheKey(hostname, cluster) in c) || CacheKey(hostname, "") in c
  }

  /** A host that resolves before and after the refresh can be missed by a reader during it only if its mapping
    * moved from the global key to the cluster's own key: in every other case no pair of lookups falls through to
    * the raw hostname. */
  lemma {:induction false} WhenReadersFallThrough(before: Cache, target: Cache, trace: seq<Cache>, stores: nat,
                                                  hostname: string, cluster: string)
    requires RefreshTrace(before, target, trace, stores) && Mapped(before, hostname, cluster)
    requires Mapped(target, hostname, cluster)
    ensures (exists i, j :: 0 <= i <= j < |trace| && FallsThrough(trace[i], trace[j], hostname, cluster))
            <==> cluster != "" && CacheKey(hostname, cluster) !in before && CacheKey(hostname, "") !in target
  {
    var last := |trace| - 1;
    if cluster != "" && CacheKey(hostname, cluster) !in before && CacheKey(hostname, "") !in target {
      assert trace[..stores + 1][0] == trace[0];
      assert FallsThrough(trace[0], trace[last], hostname, cluster);
    } else {
      forall i, j | 0 <= i <= j < |trace| ensures !FallsThrough(trace[i], trace[j], hostname, cluster) {
        DuringRefresh(before, target, trace, stores, i);
        DuringRefresh(before, target, trace, stores, j);
      }
    }
  }

  // ---------------------------------------------------------------- every sequential run

  predicate ColonFreeOp(op: Op) {
    match op
    case Create(m, _) => ':' !in m.cluster
    case Update(_, m, _, _) => ':' !in m.cluster
    case _ => true
  }

  /** The update renames the key of a row it could not read. */
  predicate BlindRename(s: State, op: Op) {
    op.Update? && op.readFails && op.id in s.rows && RowKey(s.rows[op.id]) != RowKey(op.mapping) && !op.fails
      && !Taken(s.rows, op.id, op.mapping)
  }

  ghost predicate Inv(s: State) {
    RowsOk(s.rows, s.nextId) && Coherent(s.cache, s.rows)
  }

  lemma {:induction false} StepKeepsRows(s: State, op: Op, s': State)
    requires RowsOk(s.rows, s.nextId) && ColonFreeOp(op) && Step(s, op, s')
    ensures RowsOk(s'.rows, s'.nextId)
  {
  }

  lemma {:induction false} KeysDiffer(rows: Rows, a: int, b: int)
    requires Unique(rows) && ColonFreeClusters(rows) && a in rows && b in rows && RowKey(rows[a]) == RowKey(rows[b])
    ensures a == b
  {
    CacheKeyInjective(rows[a].hostname, rows[a].cluster, rows[b].hostname, rows[b].cluster);
  }

  /** Writing a row whose old key, if it had another one, is dropped from the cache. */
  lemma {:induction false} WriteKeepsCoherent(cache: Cache, rows: Rows, id: int, m: Mapping)
    requires Coherent(cache, rows) && Unique(rows) && ColonFreeClusters(rows)
    requires Unique(rows[id := m]) && ':' !in m.cluster
    ensures Coherent(UpdatedCache(cache, rows, id, m, false), rows[id := m])
  {
    var rows' := rows[id := m];
    var cache' := UpdatedCache(cache, rows, id, m, false);
    forall other | other in rows' ensures RowKey(rows'[other]) in cache' {
      if other != id && id in rows && RowKey(rows[other]) == RowKey(rows[id]) {
        KeysDiffer(rows, other, id);
      }
    }
    forall k | k in cache' ensures FromRow(rows', k, cache'[k]) {
      if k == RowKey(m) {
        assert rows'[id] == m;
      } else {
        var other :| other in rows && RowKey(rows[other]) == k && rows[other].ip == cache[k];
        assert other in rows' && other != id;
      }
    }
  }

  lemma {:induction false} DeleteKeepsCoherent(cache: Cache, rows: Rows, id: int)
    requires Coherent(cache, rows) && Unique(rows) && ColonFreeClusters(rows) && id in rows
    ensures Coherent(cache - {RowKey(rows[id])}, rows - {id})
  {
    var rows', cache' := rows - {id}, cache - {RowKey(rows[id])};
    forall other | other in rows' ensures RowKey(rows'[other]) in cache' {
      if RowKey(rows[other]) == RowKey(rows[id]) {
        KeysDiffer(rows, other, id);
      }
    }
    forall k | k in cache' ensures FromRow(rows', k, cache'[k]) {
      var other :| other in rows && RowKey(rows[other]) == k && rows[other].ip == cache[k];
      assert other in rows';
    }
  }

  /** A step leaves the cache coherent with the table if and only if it is not a blind rename, after which the old key
    * still resolves although no row has it. */
  lemma {:induction false} StepCoherentIff(s: State, op: Op, s': State)
    requires Inv(s) && ColonFreeOp(op) && Step(s, op, s')
    ensures Inv(s') <==> !BlindRename(s, op)
  {
    StepKeepsRows(s, op, s');
    match op {
      case Create(m, fails) =>
        if s' != s {
          WriteKeepsCoherent(s.cache, s.rows, s.nextId, m);
        }
      case Update(id, m, readFails, fails) =>
        if s' != s {
          var saved := SavedId(s.nextId, id);
          WriteKeepsCoherent(s.cache, s.rows, saved, m);
          if BlindRename(s, op) {
            BlindRenameShows(s, op, s');
          }
        }
      case Delete(id, readFails, fails) =>
        if s' != s {
          DeleteKeepsCoherent(s.cache, s.rows, id);
        }
      case Refresh(_) =>
    }
  }

  lemma {:induction false} BlindRenameShows(s: State, op: Op, s': State)
    requires Inv(s) && ColonFreeOp(op) && Step(s, op, s') && BlindRename(s, op)
    ensures !Coherent(s'.cache, s'.rows)
  {
    var k := RowKey(s.rows[op.id]);
    assert k in s'.cache;
    if FromRow(s'.rows, k, s'.cache[k]) {
      var other :| other in s'.rows && RowKey(s'.rows[other]) == k && s'.rows[other].ip == s'.cache[k];
      assert other != op.id;
      KeysDiffer(s.rows, other, op.id);
    }
  }

  /** From any cache content, a complete refresh makes the cache coherent. */
  lemma {:induction false} RefreshRestores(s: State, s': State)
    requires RowsOk(s.rows, s.nextId) && Step(s, Op.Refresh(false), s')
    ensures Inv(s')
  {
  }

  /** The table's half of each operation: the unique index refuses a hostname and cluster that another row has; a
    * new row gets an id that is free, and every other row stays as it is. */
  lemma {:induction false} TableAfter(s: State, op: Op, s': State)
    requires RowsOk(s.rows, s.nextId) && Step(s, op, s')
    ensures match op
            case Create(m, fails) =>
              if fails || HasIndex(s.rows, m.hostname, m.cluster) then s' == s
              else exists id :: id !in s.rows && s'.rows == s.rows[id := m]
            case Update(id, m, _, fails) =>
              if fails || HasIndex(s.rows - {id}, m.hostname, m.cluster) then s' == s
              else exists saved :: (if id in s.rows then saved == id else saved !in s.rows && (id == 0 || saved == id))
                                   && s'.rows == s.rows[saved := m]
            case Delete(id, readFails, fails) =>
              if fails || readFails || id !in s.rows then s' == s else s'.rows == s.rows - {id}
            case Refresh(_) =>
              s'.rows == s.rows
  {
    match op {
      case Create(m, fails) =>
        IndexTaken(s.rows, 0, m);
        assert s.rows - {0} == s.rows;
        if s' != s {
          assert s.nextId !in s.rows;
        }
      case Update(id, m, _, fails) =>
        IndexTaken(s.rows, id, m);
        assert id == 0 ==> id !in s.rows && s.nextId !in s.rows;
      case _ =>
    }
  }

  ghost predicate HasIndex(rows: Rows, hostname: string, cluster: string) {
    exists id :: id in rows && rows[id].hostname == hostname && rows[id].cluster == cluster
  }

  lemma {:induction false} IndexTaken(rows: Rows, id: int, m: Mapping)
    ensures Taken(rows, id, m) <==> HasIndex(rows - {id}, m.hostname, m.cluster)
  {
    if Taken(rows, id, m) {
      var other :| other in rows && other != id && SameIndex(rows[other], m);
      assert other in rows - {id};
    }
  }

  /** The cache's half: after a create or update that is not refused, the new address is what the resolver answers for
    * the mapping's host and cluster. */
  lemma {:induction false} NewAddressAnswers(s: State, op: Op, s': State)
    requires Step(s, op, s') && (op.Create? || op.Update?) && !op.fails
    requires !HasIndex(if op.Update? then s.rows - {op.id} else s.rows, op.mapping.hostname, op.mapping.cluster)
    ensures ResolveForClusterIn(s'.cache, op.mapping.hostname, op.mapping.cluster) == op.mapping.ip
    ensures forall k <- s.cache ::
              if k == CacheKey(op.mapping.hostname, op.mapping.cluster)
                then k in s'.cache && s'.cache[k] == op.mapping.ip
              else k in s'.cache ==> s'.cache[k] == s.cache[k]
  {
    var m := op.mapping;
    if op.Create? {
      assert !Taken(s.rows, 0, m);
    } else {
      IndexTaken(s.rows, op.id, m);
    }
  }

  ghost predicate Run(states: seq<State>, ops: seq<Op>) {
    && |states| == |ops| + 1
    && forall i :: 0 <= i < |ops| ==> Step(states[i], ops[i], states[i + 1])
  }

  /** After every sequential run of creates, updates, deletes and refreshes, renames included, the resolver answers
    * what the table says, as long as every update that renames a key could read the row it renames. */
  lemma {:induction false} RunResolvesAsDb(states: seq<State>, ops: seq<Op>, i: nat, hostname: string, cluster: string)
    requires Run(states, ops) && Inv(states[0]) && i < |states| && ':' !in cluster
    requires forall j :: 0 <= j < i ==> ColonFreeOp(ops[j]) && !BlindRename(states[j], ops[j])
    ensures Inv(states[i])
    ensures ResolveForClusterIn(states[i].cache, hostname, cluster) == DbAnswer(states[i].rows, hostname, cluster)
    decreases i
  {
    if i > 0 {
      RunResolvesAsDb(states, ops, i - 1, hostname, cluster);
      StepCoherentIff(states[i - 1], ops[i - 1], states[i]);
    }
    ResolvesAsDb(states[i].cache, states[i].rows, hostname, cluster);
  }
}
