/** The blacklist of revoked tokens, in memory and in the database: internal/cache/cache.go and
 * internal/repository/token_blacklist_repository.go.
 *
 * The hash is an injective function given as a parameter. A check is up to three steps: the lookup in memory, the
 * read of the database, and the refill of memory, which comes at most `lag` after the read. The two writes of an
 * addition are two steps. */
module TokenBlacklist {
  import opened Text
  import MC = MemoryCache

  /** Nanoseconds in 24 hours. */
  const TTL := 86_400_000_000_000

  type Mem = MC.Items<bool>
  type Rows = map<string, int>  // token hash -> expires_at; the hash is a unique index

  function MemKey(token: string): string {
    "blacklist:" + token
  }

  /** The key LoadFromDB uses, which is the key of the "token" db:<hash>. */
  function DbMemKey(tokenHash: string): string {
    MemKey("db:" + tokenHash)
  }

  /** The token looks like the key that LoadFromDB makes for another token. */
  ghost predicate Mistakable(hash: string -> string, token: string) {
    exists other :: other != token && token == "db:" + hash(other)
  }

  ghost predicate Injective(hash: string -> string) {
    forall a, b :: hash(a) == hash(b) ==> a == b
  }

  predicate InMemory(mem: Mem, token: string, now: int) {
    MC.LookupResult(mem, MemKey(token), now) == Some(true)
  }

  predicate InDb(rows: Rows, tokenHash: string, now: int) {
    tokenHash in rows && rows[tokenHash] > now
  }

  /** Some entries may be gone: evicted, expired and cleaned up, or cleared. */
  ghost predicate Submap(mem': Mem, mem: Mem) {
    forall k <- mem' :: k in mem && mem'[k] == mem[k]
  }

  ghost predicate AllTrue(mem: Mem) {
    forall k <- mem :: mem[k].value
  }

  // ---------------------------------------------------------------- one step

  /** Memory; database; the tokens that the database said yes to and when, for which memory is still to be refilled;
    * and the history of additions: when each token was added, and when it reached the database. */
  datatype State = State(mem: Mem, rows: Rows, refills: multiset<(string, int)>, added: set<(string, int)>,
                         inserted: set<(string, int)>, now: int)

  datatype Action =
    | AddToMemory(token: string)
    | AddToDb(token: string, fails: bool)
    | CheckMemory(token: string, answer: bool)
    | ReadDb(token: string, fails: bool, answer: bool)
    | Refill(token: string, readAt: int)
    | Forget      // eviction, expiry, Clear, or a restart
    | LoadFromDb
    | CleanupDb

  /** A check of the token answers true: memory has it, or memory has not and the database has. */
  predicate Refuses(a: Action, token: string) {
    (a.CheckMemory? || a.ReadDb?) && a.token == token && a.answer
  }

  /** Every entry is one that was there or an active row stored under its hash. */
  ghost predicate Loaded(mem': Mem, mem: Mem, rows: Rows, now: int) {
    forall k <- mem' ::
      || (k in mem && mem'[k] == mem[k])
      || exists h :: k == DbMemKey(h) && InDb(rows, h, now) && mem'[k] == MC.Item(true, rows[h])
  }

  ghost predicate Step(hash: string -> string, lag: int, s: State, a: Action, s': State) {
    && s.now <= s'.now
    && match a
       case AddToMemory(token) =>
         && Submap(s'.mem, s.mem[MemKey(token) := MC.Item(true, s'.now + TTL)])
         && s' == s.(now := s'.now, mem := s'.mem, added := s.added + {(token, s'.now)})
       case AddToDb(token, fails) =>
         s' == if fails || hash(token) in s.rows then s.(now := s'.now)
               else s.(now := s'.now, rows := s.rows[hash(token) := s'.now + TTL],
                       added := s.added + {(token, s'.now)}, inserted := s.inserted + {(token, s'.now)})
       case CheckMemory(token, answer) =>
         answer == InMemory(s.mem, token, s'.now) && Submap(s'.mem, s.mem) && s' == s.(now := s'.now, mem := s'.mem)
       case ReadDb(token, fails, answer) =>
         && answer == (!fails && InDb(s.rows, hash(token), s'.now))
         && s' == s.(now := s'.now, refills := if answer then s.refills + multiset{(token, s'.now)} else s.refills)
       case Refill(token, readAt) =>
         && (token, readAt) in s.refills && s'.now <= readAt + lag
         && Submap(s'.mem, s.mem[MemKey(token) := MC.Item(true, s'.now + TTL)])
         && s' == s.(now := s'.now, mem := s'.mem, refills := s.refills - multiset{(token, readAt)})
       case Forget =>
         Submap(s'.mem, s.mem) && s' == s.(now := s'.now, mem := s'.mem)
       case LoadFromDb =>
         Loaded(s'.mem, s.mem, s.rows, s'.now) && s' == s.(now := s'.now, mem := s'.mem)
       case CleanupDb =>
         s' == s.(now := s'.now, rows := NotYetExpired(s.rows, s'.now))
  }

  function NotYetExpired(rows: Rows, now: int): Rows {
    map h | h in rows && rows[h] > now :: rows[h]
  }

  lemma {:induction false} Stored(mem: Mem, mem': Mem, maxItems: int, key: string, expiration: int, now: int)
    requires MC.SetTo(mem, mem', maxItems, key, MC.Item(true, expiration), now) && AllTrue(mem)
    ensures Submap(mem', mem[key := MC.Item(true, expiration)]) && AllTrue(mem')
  {
    MC.SetSubset(mem, mem', maxItems, key, MC.Item(true, expiration), now);
  }

  /** Get forgets at most an expired entry. */
  lemma {:induction false} AfterGet(mem: Mem, mem': Mem, key: string, now: int)
    requires mem' == if key in mem && MC.Expired(mem[key], now) then mem - {key} else mem
    requires MC.Timed(mem) && AllTrue(mem)
    ensures Submap(mem', mem) && MC.Timed(mem') && AllTrue(mem')
  {
  }

  lemma {:induction false} LoadOne(before: Mem, mem: Mem, mem': Mem, rows: Rows, h: string, now: int)
    requires Loaded(mem, before, rows, now) && InDb(rows, h, now)
    requires Submap(mem', mem[DbMemKey(h) := MC.Item(true, rows[h])])
    ensures Loaded(mem', before, rows, now)
  {
  }

  // ---------------------------------------------------------------- the code

  class BlacklistRepository {
    var rows: Rows

    constructor ()
      ensures rows == map[]
    {
      rows := map[];
    }

    method Create(tokenHash: string, expiresAt: int, fails: bool) returns (ok: bool)
      modifies this
      ensures ok <==> !fails && tokenHash !in old(rows)
      ensures rows == if ok then old(rows)[tokenHash := expiresAt] else old(rows)
    {
      ok := !fails && tokenHash !in rows;
      if ok {
        rows := rows[tokenHash := expiresAt];
      }
    }

    method LoadActive(now: int) returns (entries: Rows)
      ensures entries == NotYetExpired(rows, now)
      ensures forall h :: h in entries <==> h in rows && rows[h] > now
      ensures forall h <- entries :: entries[h] == rows[h]
    {
      entries := NotYetExpired(rows, now);
    }

    method DeleteExpired(now: int)
      modifies this
      ensures rows == NotYetExpired(old(rows), now)
      ensures forall h :: h in rows <==> h in old(rows) && old(rows)[h] > now
      ensures forall h <- rows :: rows[h] == old(rows)[h]
    {
      rows := NotYetExpired(rows, now);
    }
  }

  /** What Get leaves in memory. */
  function AfterGetOf(mem: Mem, key: string, now: int): Mem {
    if key in mem && MC.Expired(mem[key], now) then mem - {key} else mem
  }

  class TokenBlacklistCache {
    const cache: MC.MemoryCache<bool>
    const repo: BlacklistRepository
    const hash: string -> string
    ghost var refills: multiset<(string, int)>
    ghost var added: set<(string, int)>
    ghost var inserted: set<(string, int)>

    constructor (cache: MC.MemoryCache<bool>, repo: BlacklistRepository, hash: string -> string)
      ensures this.cache == cache && this.repo == repo && this.hash == hash
      ensures refills == multiset{} && added == {} && inserted == {}
    {
      this.cache, this.repo, this.hash, refills, added, inserted := cache, repo, hash, multiset{}, {}, {};
    }

    ghost predicate Valid()
      reads cache
    {
      MC.Timed(cache.items) && AllTrue(cache.items)
    }

    ghost function At(now: int): State
      reads this, cache, repo
    {
      State(cache.items, repo.rows, refills, added, inserted, now)
    }

    /** Looks in memory, then reads the database; a database hit is stored in memory with the full TTL. */
    method IsBlacklisted(token: string, now: int, readAt: int, later: int, readFails: bool)
      returns (answer: bool, ghost inMemory: bool, ghost looked: State, ghost read: State)
      requires Valid() && 0 < now <= readAt <= later && later + cache.defaultTTL != MC.ZERO_TIME
      modifies cache
      ensures Valid() && (inMemory ==> answer)
      ensures inMemory <==> var k := MemKey(token); k in old(cache.items) && now <= old(cache.items)[k].expiration
      ensures answer <==> inMemory || (!readFails && hash(token) in repo.rows && readAt < repo.rows[hash(token)])
      ensures Step(hash, later - readAt, old(At(now)), CheckMemory(token, inMemory), looked)
      ensures !inMemory ==> Step(hash, later - readAt, looked, ReadDb(token, readFails, answer), read)
      ensures !inMemory && answer ==>
                Step(hash, later - readAt, read, Refill(token, readAt),
                     At(later).(refills := read.refills - multiset{(token, readAt)}))
      ensures var mem := AfterGetOf(old(cache.items), MemKey(token), now);
              if !inMemory && answer then
                MC.SetTo(mem, cache.items, cache.maxItems, MemKey(token), MC.Item(true, later + TTL), later)
              else cache.items == mem
    {
      hide MC.SetTo, MC.Live, MC.EvictsOldest, MC.Timed, AllTrue, Submap, MemKey, Step;
      ghost var start, was := cache.items, At(now);
      var val := cache.Get(MemKey(token), now);
      AfterGet(start, cache.items, MemKey(token), now);
      looked, read, inMemory := At(now), At(readAt), val.Some?;
      LookStep(hash, later - readAt, was, looked, token, inMemory);
      if val.Some? {
        return true, true, looked, read;
      }
      if !readFails && InDb(repo.rows, hash(token), readAt) {
        read := At(readAt).(refills := refills + multiset{(token, readAt)});
        ReadStep(hash, later - readAt, looked, read, token, readFails, true);
        ghost var before := cache.items;
        cache.Set(MemKey(token), true, TTL, later, later);
        Stored(before, cache.items, cache.maxItems, MemKey(token), later + TTL, later);
        RefillStep(hash, later - readAt, read, At(later).(refills := read.refills - multiset{(token, readAt)}), token,
                   readAt);
        return true, false, looked, read;
      }
      ReadStep(hash, later - readAt, looked, read, token, readFails, false);
      return false, false, looked, read;
    }

    /** The two writes of an addition; a failed database write is not an error. */
    method AddToBlacklist(token: string, now: int, later: int, dbFails: bool)
      returns (persisted: bool, ghost between: State)
      requires Valid() && 0 < now <= later && now + cache.defaultTTL != MC.ZERO_TIME
      modifies this, cache, repo
      ensures Valid() && (persisted <==> !dbFails && hash(token) !in old(repo.rows))
      ensures repo.rows == if persisted then old(repo.rows)[hash(token) := later + TTL] else old(repo.rows)
      ensures Step(hash, 0, old(At(now)), AddToMemory(token), between)
      ensures Step(hash, 0, between, AddToDb(token, dbFails), At(later))
      ensures MC.SetTo(old(cache.items), cache.items, cache.maxItems, MemKey(token), MC.Item(true, now + TTL), now)
    {
      hide MC.SetTo, MC.Live, MC.EvictsOldest, MC.Timed, AllTrue, Submap, MemKey;
      ghost var before := cache.items;
      cache.Set(MemKey(token), true, TTL, now, now);
      Stored(before, cache.items, cache.maxItems, MemKey(token), now + TTL, now);
      added := added + {(token, now)};
      between := At(now);
      persisted := repo.Create(hash(token), later + TTL, dbFails);
      if persisted {
        added, inserted := added + {(token, later)}, inserted + {(token, later)};
      }
    }

    /** Loads the active rows into memory, each with the time it has left. If there is room for them all, all are there
      * afterwards, and nothing is pushed out. */
    method LoadFromDB(now: int)
      requires Valid() && now > 0 && now + cache.defaultTTL != MC.ZERO_TIME
      modifies cache
      ensures Valid() && Step(hash, 0, old(At(now)), LoadFromDb, At(now))
      ensures HasRoom(cache.maxItems, old(cache.items), NotYetExpired(repo.rows, now)) ==>
                AllLoaded(cache.items, old(cache.items), NotYetExpired(repo.rows, now),
                          NotYetExpired(repo.rows, now).Keys)
    {
      hide MC.SetTo, MC.Live, MC.EvictsOldest, MC.Timed, AllTrue, DbMemKey, LoadingSoFar, AllLoaded;
      var entries := repo.LoadActive(now);
      ghost var before := cache.items;
      var todo := entries.Keys;
      LoadingStarts(cache.maxItems, before, repo.rows, now);
      while todo != {}
        invariant todo <= entries.Keys && Valid()
        invariant LoadingSoFar(cache.maxItems, cache.items, before, repo.rows, todo, now)
        decreases todo
      {
        var h :| h in todo;
        var remaining := entries[h] - now;
        if remaining > 0 {
          ghost var items := cache.items;
          cache.Set(DbMemKey(h), true, remaining, now, now);
          LoadEntry(cache.maxItems, items, cache.items, before, repo.rows, todo, h, now);
        }
        todo := todo - {h};
      }
      LoadingEnds(cache.maxItems, cache.items, before, repo.rows, now);
    }

    method CleanupExpired(now: int)
      modifies repo
      ensures Step(hash, 0, old(At(now)), CleanupDb, At(now))
    {
      repo.DeleteExpired(now);
    }
  }

  lemma {:induction false} LookStep(hash: string -> string, lag: int, s: State, s': State, token: string, answer: bool)
    requires answer == InMemory(s.mem, token, s.now) && Submap(s'.mem, s.mem) && s' == s.(mem := s'.mem)
    ensures Step(hash, lag, s, CheckMemory(token, answer), s')
  {
  }

  lemma {:induction false} ReadStep(hash: string -> string, lag: int, s: State, s': State, token: string, fails: bool,
                                    answer: bool)
    requires s.now <= s'.now && answer == (!fails && InDb(s.rows, hash(token), s'.now))
    requires s' == s.(now := s'.now, refills := if answer then s.refills + multiset{(token, s'.now)} else s.refills)
    ensures Step(hash, lag, s, ReadDb(token, fails, answer), s')
  {
  }

  lemma {:induction false} RefillStep(hash: string -> string, lag: int, s: State, s': State, token: string, readAt: int)
    requires (token, readAt) in s.refills && s.now <= s'.now <= readAt + lag
    requires Submap(s'.mem, s.mem[MemKey(token) := MC.Item(true, s'.now + TTL)])
    requires s' == s.(now := s'.now, mem := s'.mem, refills := s.refills - multiset{(token, readAt)})
    ensures Step(hash, lag, s, Refill(token, readAt), s')
  {
  }

  ghost predicate HasRoom(maxItems: int, before: Mem, entries: Rows) {
    maxItems <= 0 || |before| + |entries| <= maxItems
  }

  /** The rows in `done` are in memory under their hash, and what was there is still there. */
  ghost predicate AllLoaded(mem: Mem, before: Mem, entries: Rows, done: set<string>) {
    && done <= entries.Keys
    && (forall h <- done :: DbMemKey(h) in mem && mem[DbMemKey(h)] == MC.Item(true, entries[h]))
    && (forall k <- before :: k in mem)
  }

  /** Half way through the load. */
  ghost predicate LoadingSoFar(maxItems: int, mem: Mem, before: Mem, rows: Rows, todo: set<string>, now: int) {
    var entries := NotYetExpired(rows, now);
    && todo <= entries.Keys && Loaded(mem, before, rows, now)
    && (HasRoom(maxItems, before, entries) ==>
          AllLoaded(mem, before, entries, entries.Keys - todo) && |mem| <= |before| + |entries| - |todo|)
  }

  lemma {:induction false} LoadingStarts(maxItems: int, before: Mem, rows: Rows, now: int)
    ensures LoadingSoFar(maxItems, before, before, rows, NotYetExpired(rows, now).Keys, now)
  {
  }

  lemma {:induction false} LoadingEnds(maxItems: int, mem: Mem, before: Mem, rows: Rows, now: int)
    requires LoadingSoFar(maxItems, mem, before, rows, {}, now)
    ensures Loaded(mem, before, rows, now)
    ensures var entries := NotYetExpired(rows, now);
            HasRoom(maxItems, before, entries) ==> AllLoaded(mem, before, entries, entries.Keys)
  {
    hide AllLoaded;
    var entries := NotYetExpired(rows, now);
    assert entries.Keys - {} == entries.Keys;
  }

  lemma {:induction false} LoadEntry(maxItems: int, mem: Mem, mem': Mem, before: Mem, rows: Rows, todo: set<string>,
                                     h: string, now: int)
    requires LoadingSoFar(maxItems, mem, before, rows, todo, now) && h in todo && AllTrue(mem)
    requires MC.SetTo(mem, mem', maxItems, DbMemKey(h), MC.Item(true, NotYetExpired(rows, now)[h]), now)
    ensures AllTrue(mem') && LoadingSoFar(maxItems, mem', before, rows, todo - {h}, now)
  {
    hide MC.SetTo, AllLoaded, Loaded, Submap, AllTrue, DbMemKey;
    Stored(mem, mem', maxItems, DbMemKey(h), rows[h], now);
    LoadOne(before, mem, mem', rows, h, now);
    if HasRoom(maxItems, before, NotYetExpired(rows, now)) {
      RoomForOne(mem, mem', maxItems, before, NotYetExpired(rows, now), todo, h, now);
    }
  }

  lemma {:induction false} RoomForOne(mem: Mem, mem': Mem, maxItems: int, before: Mem, entries: Rows, todo: set<string>,
                                      h: string, now: int)
    requires HasRoom(maxItems, before, entries) && todo <= entries.Keys && h in todo
    requires AllLoaded(mem, before, entries, entries.Keys - todo) && |mem| <= |before| + |entries| - |todo|
    requires MC.SetTo(mem, mem', maxItems, DbMemKey(h), MC.Item(true, entries[h]), now)
    ensures AllLoaded(mem', before, entries, entries.Keys - (todo - {h}))
    ensures |mem'| <= |before| + |entries| - |todo - {h}|
  {
    hide MC.Live, MC.EvictsOldest, MemKey;
    var stored := mem[DbMemKey(h) := MC.Item(true, entries[h])];
    assert |stored| <= |mem| + 1 && |todo - {h}| == |todo| - 1 && |todo - {h}| >= 0;
    assert mem' == stored;
    forall g | g in entries.Keys - (todo - {h})
      ensures DbMemKey(g) in mem' && mem'[DbMemKey(g)] == MC.Item(true, entries[g]) {
      if g != h {
        assert g in entries.Keys - todo;
        DbMemKeyInjective(g, h);
      }
    }
  }

  lemma {:induction false} DbMemKeyInjective(g: string, h: string)
    ensures DbMemKey(g) == DbMemKey(h) ==> g == h
  {
    MemKeyInjective("db:" + g, "db:" + h);
    assert ("db:" + g)[3..] == g && ("db:" + h)[3..] == h;
  }

  // ---------------------------------------------------------------- every run

  ghost predicate Init(s: State) {
    s.mem == map[] && s.rows == map[] && s.refills == multiset{} && s.added == {} && s.inserted == {}
  }

  /** The memory entry of a token that cannot be mistaken, a row, and a pending refill stem from an addition that is
    * not too old; a successful insert is still there for as long as it counts. */
  ghost predicate Inv(hash: string -> string, lag: int, s: State) {
    && AllTrue(s.mem)
    && (forall token :: !Mistakable(hash, token) && MemKey(token) in s.mem ==>
          AddedWithin(s, token, s.mem[MemKey(token)].expiration, 2 * TTL + lag))
    && (forall h <- s.rows :: RowAdded(hash, s, h))
    && (forall r <- s.refills :: AddedWithin(s, r.0, r.1, TTL))
    && (forall i <- s.inserted :: i.1 + TTL > s.now ==> hash(i.0) in s.rows && s.rows[hash(i.0)] == i.1 + TTL)
  }

  /** The token was added at some time t with time < t + width. */
  ghost predicate AddedWithin(s: State, token: string, time: int, width: int) {
    exists a :: a in s.added && a.0 == token && a.1 <= s.now && time < a.1 + width
  }

  ghost predicate RowAdded(hash: string -> string, s: State, h: string)
    requires h in s.rows
  {
    exists a :: a in s.added && hash(a.0) == h && a.1 <= s.now && s.rows[h] == a.1 + TTL
  }

  lemma {:induction false} MemKeyInjective(a: string, b: string)
    ensures MemKey(a) == MemKey(b) ==> a == b
  {
    assert MemKey(a)[|"blacklist:"|..] == a && MemKey(b)[|"blacklist:"|..] == b;
  }

  /** An entry made by LoadFromDB for a row of a token that cannot be mistaken is the token's own. */
  lemma {:induction false} LoadedIsOwn(hash: string -> string, s: State, h: string, token: string)
    requires !Mistakable(hash, token) && MemKey(token) == DbMemKey(h) && h in s.rows && RowAdded(hash, s, h)
    ensures AddedWithin(s, token, s.rows[h], 2 * TTL)
  {
    MemKeyInjective(token, "db:" + h);
    var a :| a in s.added && hash(a.0) == h && a.1 <= s.now && s.rows[h] == a.1 + TTL;
    assert token == "db:" + hash(a.0);
  }

  /** A row that answers a check was added less than 24 hours ago, by this very token. */
  lemma {:induction false} RowIsOwn(hash: string -> string, lag: int, s: State, token: string, now: int)
    requires Injective(hash) && Inv(hash, lag, s) && s.now <= now && InDb(s.rows, hash(token), now)
    ensures AddedWithin(s, token, now, TTL)
  {
    assert RowAdded(hash, s, hash(token));
    var a :| a in s.added && hash(a.0) == hash(token) && a.1 <= s.now && s.rows[hash(token)] == a.1 + TTL;
    assert a.0 == token;
  }

  lemma {:induction false} AddedLater(s: State, s': State, token: string, time: int, width: int, time': int,
                                      width': int)
    requires AddedWithin(s, token, time, width) && s.added <= s'.added && s.now <= s'.now
    requires time' - width' <= time - width
    ensures AddedWithin(s', token, time', width')
  {
    var a :| a in s.added && a.0 == token && a.1 <= s.now && time < a.1 + width;
    assert a in s'.added;
  }

  /** Where an entry of the next state comes from. */
  ghost predicate Origin(lag: int, s: State, a: Action, s': State, k: string)
    requires k in s'.mem
  {
    var item := s'.mem[k];
    || (k in s.mem && item == s.mem[k])
    || (a.LoadFromDb? && exists h :: k == DbMemKey(h) && InDb(s.rows, h, s'.now) && item.expiration == s.rows[h])
    || (a.AddToMemory? && k == MemKey(a.token) && item.expiration == s'.now + TTL && (a.token, s'.now) in s'.added)
    || (a.Refill? && k == MemKey(a.token) && item.expiration == s'.now + TTL && (a.token, a.readAt) in s.refills
        && s'.now <= a.readAt + lag)
  }

  lemma {:induction false} HasOrigin(hash: string -> string, lag: int, s: State, a: Action, s': State, k: string)
    requires Step(hash, lag, s, a, s') && k in s'.mem
    ensures Origin(lag, s, a, s', k) && s.added <= s'.added && s.now <= s'.now
  {
    hide MemKey, DbMemKey;
  }

  lemma {:induction false} StepKeepsMemory(hash: string -> string, lag: int, s: State, a: Action, s': State,
                                           token: string)
    requires Injective(hash) && 0 <= lag && Inv(hash, lag, s) && Step(hash, lag, s, a, s')
    requires !Mistakable(hash, token) && MemKey(token) in s'.mem
    ensures AddedWithin(s', token, s'.mem[MemKey(token)].expiration, 2 * TTL + lag)
  {
    hide AddedWithin, RowAdded, AllTrue, MemKey, DbMemKey, Mistakable, Step;
    var k := MemKey(token);
    var expiration := s'.mem[k].expiration;
    HasOrigin(hash, lag, s, a, s', k);
    if k in s.mem && s'.mem[k] == s.mem[k] {
      AddedLater(s, s', token, expiration, 2 * TTL + lag, expiration, 2 * TTL + lag);
    } else if a.LoadFromDb? {
      var h :| k == DbMemKey(h) && InDb(s.rows, h, s'.now) && expiration == s.rows[h];
      LoadedIsOwn(hash, s, h, token);
      AddedLater(s, s', token, expiration, 2 * TTL, expiration, 2 * TTL + lag);
    } else {
      MemKeyInjective(token, a.token);
      if a.AddToMemory? {
        JustAdded(s', token, expiration, 2 * TTL + lag);
      } else {
        assert AddedWithin(s, token, a.readAt, TTL);
        AddedLater(s, s', token, a.readAt, TTL, expiration, 2 * TTL + lag);
      }
    }
  }

  lemma {:induction false} JustAdded(s: State, token: string, time: int, width: int)
    requires (token, s.now) in s.added && time < s.now + width
    ensures AddedWithin(s, token, time, width)
  {
    var a := (token, s.now);
    assert a in s.added;
  }

  lemma {:induction false} StepKeepsRows(hash: string -> string, lag: int, s: State, a: Action, s': State, h: string)
    requires Inv(hash, lag, s) && Step(hash, lag, s, a, s') && h in s'.rows
    ensures RowAdded(hash, s', h)
  {
    hide AddedWithin, RowAdded, AllTrue, Submap, Loaded, Mistakable, MemKey, InMemory;
    if h in s.rows && s'.rows[h] == s.rows[h] {
      RowStays(hash, s, s', h);
    } else {
      RowIsNew(hash, s', a.token);
    }
  }

  lemma {:induction false} RowStays(hash: string -> string, s: State, s': State, h: string)
    requires h in s.rows && h in s'.rows && s'.rows[h] == s.rows[h] && RowAdded(hash, s, h) && s.added <= s'.added
    requires s.now <= s'.now
    ensures RowAdded(hash, s', h)
  {
    var x :| x in s.added && hash(x.0) == h && x.1 <= s.now && s.rows[h] == x.1 + TTL;
    assert x in s'.added;
  }

  lemma {:induction false} RowIsNew(hash: string -> string, s: State, token: string)
    requires hash(token) in s.rows && s.rows[hash(token)] == s.now + TTL && (token, s.now) in s.added
    ensures RowAdded(hash, s, hash(token))
  {
    var x := (token, s.now);
    assert x in s.added;
  }

  lemma {:induction false} StepKeepsRefills(hash: string -> string, lag: int, s: State, a: Action, s': State,
                                            r: (string, int))
    requires Injective(hash) && Inv(hash, lag, s) && Step(hash, lag, s, a, s') && r in s'.refills
    ensures AddedWithin(s', r.0, r.1, TTL)
  {
    hide AddedWithin, RowAdded, AllTrue, MemKey, DbMemKey, Mistakable, Submap, Loaded;
    if r !in s.refills {
      RowIsOwn(hash, lag, s, a.token, s'.now);
    }
    AddedLater(s, s', r.0, r.1, TTL, r.1, TTL);
  }

  lemma {:induction false} StepKeepsInserted(hash: string -> string, lag: int, s: State, a: Action, s': State,
                                             i: (string, int))
    requires Injective(hash) && Inv(hash, lag, s) && Step(hash, lag, s, a, s') && i in s'.inserted && i.1 + TTL > s'.now
    ensures hash(i.0) in s'.rows && s'.rows[hash(i.0)] == i.1 + TTL
  {
    hide AddedWithin, RowAdded, AllTrue, Submap, Loaded;
  }

  lemma {:induction false} StepKeepsTrue(hash: string -> string, lag: int, s: State, a: Action, s': State)
    requires AllTrue(s.mem) && Step(hash, lag, s, a, s')
    ensures AllTrue(s'.mem)
  {
  }

  lemma {:induction false} StepKeepsInv(hash: string -> string, lag: int, s: State, a: Action, s': State)
    requires Injective(hash) && 0 <= lag && Inv(hash, lag, s) && Step(hash, lag, s, a, s')
    ensures Inv(hash, lag, s')
  {
    hide Step, AddedWithin, RowAdded, AllTrue, Submap, Loaded, Mistakable, Injective;
    StepKeepsTrue(hash, lag, s, a, s');
    forall token | !Mistakable(hash, token) && MemKey(token) in s'.mem
      ensures AddedWithin(s', token, s'.mem[MemKey(token)].expiration, 2 * TTL + lag)
    {
      StepKeepsMemory(hash, lag, s, a, s', token);
    }
    forall h | h in s'.rows ensures RowAdded(hash, s', h) {
      StepKeepsRows(hash, lag, s, a, s', h);
    }
    forall r | r in s'.refills ensures AddedWithin(s', r.0, r.1, TTL) {
      StepKeepsRefills(hash, lag, s, a, s', r);
    }
    forall i | i in s'.inserted && i.1 + TTL > s'.now ensures hash(i.0) in s'.rows && s'.rows[hash(i.0)] == i.1 + TTL {
      StepKeepsInserted(hash, lag, s, a, s', i);
    }
  }

  ghost predicate Run(hash: string -> string, lag: int, states: seq<State>, actions: seq<Action>) {
    && |states| == |actions| + 1 && Init(states[0])
    && forall i :: 0 <= i < |actions| ==> Step(hash, lag, states[i], actions[i], states[i + 1])
  }

  lemma {:induction false} RunKeepsInv(hash: string -> string, lag: int, states: seq<State>, actions: seq<Action>,
                                       i: nat)
    requires Injective(hash) && 0 <= lag && Run(hash, lag, states, actions) && i < |states|
    ensures Inv(hash, lag, states[i])
  {
    hide Inv, Step, Init;
    if i > 0 {
      RunKeepsInv(hash, lag, states, actions, i - 1);
      StepKeepsInv(hash, lag, states[i - 1], actions[i - 1], states[i]);
    } else {
      InitInv(hash, lag, states[0]);
    }
  }

  lemma {:induction false} InitInv(hash: string -> string, lag: int, s: State)
    requires Init(s)
    ensures Inv(hash, lag, s)
  {
  }

  lemma {:induction false} InsertedIsRead(hash: string -> string, lag: int, states: seq<State>, actions: seq<Action>,
                                          i: nat, token: string, t: int)
    requires Injective(hash) && 0 <= lag && Run(hash, lag, states, actions) && i < |actions|
    requires actions[i].ReadDb? && actions[i].token == token && !actions[i].fails
    requires (token, t) in states[i].inserted && states[i + 1].now < t + TTL
    ensures actions[i].answer
  {
    hide AddedWithin, RowAdded, AllTrue, Submap, Loaded, Mistakable;
    RunKeepsInv(hash, lag, states, actions, i);
    assert Step(hash, lag, states[i], actions[i], states[i + 1]);
  }

  lemma {:induction false} InsertedStays(hash: string -> string, lag: int, states: seq<State>, actions: seq<Action>,
                                         i: nat, j: nat, x: (string, int))
    requires Run(hash, lag, states, actions) && i <= j < |states| && x in states[i].inserted
    ensures x in states[j].inserted
    decreases j - i
  {
    hide Step;
    if i < j {
      InsertedStays(hash, lag, states, actions, i, j - 1, x);
      InsertedGrows(hash, lag, states[j - 1], actions[j - 1], states[j]);
    }
  }

  lemma {:induction false} InsertedGrows(hash: string -> string, lag: int, s: State, a: Action, s': State)
    requires Step(hash, lag, s, a, s')
    ensures s.inserted <= s'.inserted
  {
    hide Submap, Loaded, MemKey, InMemory;
  }

  /** In every run: once a token was inserted into the database, every check within 24 hours that does not find it in
    * memory and can read the database answers true, whatever memory has forgotten. */
  lemma {:induction false} RevokedStaysRevoked(hash: string -> string, lag: int, states: seq<State>,
                                               actions: seq<Action>, i: nat, j: nat, token: string, answer: bool)
    requires Injective(hash) && 0 <= lag && Run(hash, lag, states, actions) && i < j < |actions|
    requires actions[i] == AddToDb(token, false) && hash(token) !in states[i].rows
    requires actions[j] == ReadDb(token, false, answer)
    requires states[j + 1].now < states[i + 1].now + 86_400_000_000_000
    ensures answer
  {
    hide Submap, Loaded, MemKey;
    assert Step(hash, lag, states[i], actions[i], states[i + 1]);
    InsertedStays(hash, lag, states, actions, i + 1, j, (token, states[i + 1].now));
    InsertedIsRead(hash, lag, states, actions, j, token, states[i + 1].now);
  }

  /** In every run: a token that was added to memory, and whose entry memory has not forgotten since, is refused by
    * every check of memory within 24 hours, whether the database was ever written or not, unless it begins with "db:"
    * and the rows are loaded in between, which may shorten the entry's time. */
  lemma {:induction false} MemoryRefuses(hash: string -> string, lag: int, states: seq<State>, actions: seq<Action>,
                                         i: nat, j: nat, token: string, answer: bool)
    requires Injective(hash) && 0 <= lag && Run(hash, lag, states, actions) && i < j < |actions|
    requires actions[i] == AddToMemory(token) && forall m :: i < m <= j ==> MemKey(token) in states[m].mem
    requires "db:" <= token ==> forall m :: i < m < j ==> actions[m] != LoadFromDb
    requires actions[j] == CheckMemory(token, answer)
    requires states[j + 1].now <= states[i + 1].now + 86_400_000_000_000
    ensures answer
  {
    hide Submap, Loaded, MemKey;
    RunKeepsInv(hash, lag, states, actions, j);
    EntryLasts(hash, lag, states, actions, i, j, token);
    assert Step(hash, lag, states[j], actions[j], states[j + 1]);
  }

  lemma {:induction false} EntryLasts(hash: string -> string, lag: int, states: seq<State>, actions: seq<Action>,
                                      i: nat, j: nat, token: string)
    requires Run(hash, lag, states, actions) && i < j < |states| && actions[i] == AddToMemory(token)
    requires forall m :: i < m <= j ==> MemKey(token) in states[m].mem
    requires "db:" <= token ==> forall m :: i < m < j ==> actions[m] != LoadFromDb
    ensures states[j].mem[MemKey(token)].expiration >= states[i + 1].now + TTL && states[j].now >= states[i + 1].now
    decreases j
  {
    hide Step, MemKey, DbMemKey;
    var s, a, s' := states[j - 1], actions[j - 1], states[j];
    assert Step(hash, lag, s, a, s');
    if i + 1 < j {
      EntryLasts(hash, lag, states, actions, i, j - 1, token);
    }
    EntryKept(hash, lag, s, a, s', token);
  }

  lemma {:induction false} EntryKept(hash: string -> string, lag: int, s: State, a: Action, s': State, token: string)
    requires Step(hash, lag, s, a, s') && MemKey(token) in s'.mem
    requires "db:" <= token ==> a != LoadFromDb
    ensures s.now <= s'.now
    ensures a == AddToMemory(token) ==> s'.mem[MemKey(token)].expiration == s'.now + TTL
    ensures || s'.mem[MemKey(token)].expiration == s'.now + TTL
            || (MemKey(token) in s.mem && s'.mem[MemKey(token)].expiration == s.mem[MemKey(token)].expiration)
  {
    hide MemKey;
    forall h ensures DbMemKey(h) == MemKey(token) ==> "db:" <= token {
      MemKeyInjective("db:" + h, token);
      assert "db:" <= "db:" + h;
    }
  }

  /** Before the i-th action the token was added to memory or inserted into the database, less than `width` ago. */
  ghost predicate AddedBefore(states: seq<State>, actions: seq<Action>, i: nat, token: string, width: int)
    requires i < |actions| < |states|
  {
    exists j :: 0 <= j < i && (actions[j] == AddToMemory(token) || actions[j] == AddToDb(token, false))
      && states[i + 1].now < states[j + 1].now + width
  }

  /** The history of additions is what the actions say. */
  lemma {:induction false} AddedByAction(hash: string -> string, lag: int, states: seq<State>, actions: seq<Action>,
                                         i: nat, x: (string, int)) returns (j: nat)
    requires Run(hash, lag, states, actions) && i < |states| && x in states[i].added
    ensures j < i && (actions[j] == AddToMemory(x.0) || actions[j] == AddToDb(x.0, false)) && states[j + 1].now == x.1
    decreases i
  {
    hide Submap, Loaded, MemKey;
    assert i > 0;
    assert Step(hash, lag, states[i - 1], actions[i - 1], states[i]);
    if x in states[i - 1].added {
      j := AddedByAction(hash, lag, states, actions, i - 1, x);
    } else {
      j := i - 1;
    }
  }

  lemma {:induction false} RefusedIsAdded(hash: string -> string, lag: int, states: seq<State>, actions: seq<Action>,
                                           i: nat, token: string)
    requires Injective(hash) && 0 <= lag && Run(hash, lag, states, actions) && i < |actions|
    requires Refuses(actions[i], token) && !Mistakable(hash, token)
    ensures AddedWithin(states[i], token, states[i + 1].now, 2 * TTL + lag)
  {
    hide AddedWithin, RowAdded, AllTrue, Submap, Loaded, Mistakable, MemKey;
    var s, now := states[i], states[i + 1].now;
    RunKeepsInv(hash, lag, states, actions, i);
    assert Step(hash, lag, s, actions[i], states[i + 1]);
    if actions[i].CheckMemory? {
      AddedLater(s, s, token, s.mem[MemKey(token)].expiration, 2 * TTL + lag, now, 2 * TTL + lag);
    } else {
      RowIsOwn(hash, lag, s, token, now);
      AddedLater(s, s, token, now, TTL, now, 2 * TTL + lag);
    }
  }

  /** In every run: a check that answers true follows an addition of that token less than 48 hours and the lag
    * before, if the token cannot be mistaken. */
  lemma {:induction false} RevokedWasAdded(hash: string -> string, lag: int, states: seq<State>, actions: seq<Action>,
                                           i: nat, token: string)
    requires Injective(hash) && 0 <= lag && Run(hash, lag, states, actions) && i < |actions|
    requires Refuses(actions[i], token) && !Mistakable(hash, token)
    ensures AddedBefore(states, actions, i, token, 172_800_000_000_000 + lag)
  {
    hide Step, Mistakable, Refuses;
    RefusedIsAdded(hash, lag, states, actions, i, token);
    var x :| x in states[i].added && x.0 == token && x.1 <= states[i].now && states[i + 1].now < x.1 + 2 * TTL + lag;
    var j := AddedByAction(hash, lag, states, actions, i, x);
  }

  /** The 48 hours and the lag are used up: added once at time 1, forgotten by memory, read just before its row
    * expires and refilled after the lag, the token is still refused a nanosecond before they have passed. */
  lemma {:induction false} RefillOverstays(hash: string -> string, lag: int, token: string)
    requires 0 <= lag
    ensures exists states: seq<State>, actions: seq<Action> ::
              && Run(hash, lag, states, actions)
              && actions == [AddToMemory(token), AddToDb(token, false), Forget, ReadDb(token, false, true),
                             Refill(token, TTL), CheckMemory(token, true)]
              && states[1].now == states[2].now == 1 && states[6].now == 172_800_000_000_000 + lag
  {
    hide Step;
    var added, forgotten := OverstayStarts(hash, lag, token);
    var rest := OverstayEnds(hash, lag, token, forgotten);
    var states := added + [forgotten] + rest;
    var actions := [AddToMemory(token), AddToDb(token, false), Forget, ReadDb(token, false, true), Refill(token, TTL),
                    CheckMemory(token, true)];
    assert Run(hash, lag, states, actions);
  }

  lemma {:induction false} OverstayStarts(hash: string -> string, lag: int, token: string)
    returns (states: seq<State>, forgotten: State)
    ensures |states| == 3 && Init(states[0]) && states[1].now == states[2].now == 1
    ensures forgotten == Forgotten(hash, token)
    ensures Step(hash, lag, states[0], AddToMemory(token), states[1])
    ensures Step(hash, lag, states[1], AddToDb(token, false), states[2])
    ensures Step(hash, lag, states[2], Forget, forgotten)
  {
    hide MemKey, DbMemKey, NotYetExpired, Loaded;
    forgotten := Forgotten(hash, token);
    var none := State(map[], map[], multiset{}, {}, {}, 1);
    var inMemory := none.(mem := map[MemKey(token) := MC.Item(true, 1 + TTL)], added := {(token, 1)});
    var inBoth := inMemory.(rows := map[hash(token) := 1 + TTL], inserted := {(token, 1)});
    states := [none, inMemory, inBoth];
  }

  /** Added at time 1, in the database only. */
  ghost function Forgotten(hash: string -> string, token: string): State {
    State(map[], map[hash(token) := 1 + TTL], multiset{}, {(token, 1)}, {(token, 1)}, TTL)
  }

  lemma {:induction false} OverstayEnds(hash: string -> string, lag: int, token: string, forgotten: State)
    returns (states: seq<State>)
    requires 0 <= lag && forgotten == Forgotten(hash, token)
    ensures |states| == 3 && states[2].added == {(token, 1)} && states[2].now == 2 * TTL + lag
    ensures Step(hash, lag, forgotten, ReadDb(token, false, true), states[0])
    ensures Step(hash, lag, states[0], Refill(token, TTL), states[1])
    ensures Step(hash, lag, states[1], CheckMemory(token, true), states[2])
  {
    hide MemKey, DbMemKey, NotYetExpired, Loaded;
    var read := forgotten.(refills := multiset{(token, TTL)});
    var refilled := read.(mem := map[MemKey(token) := MC.Item(true, 2 * TTL + lag)], refills := multiset{},
                          now := TTL + lag);
    assert multiset{(token, TTL)} - multiset{(token, TTL)} == multiset{};
    states := [read, refilled, refilled.(now := 2 * TTL + lag)];
  }

  /** A token that looks like the key of another one is refused, once that one was added and loaded, without having
    * been added. */
  lemma {:induction false} PrefixedTokenMistaken(hash: string -> string, lag: int, token: string, other: string)
    requires 0 <= lag && other != token && token == "db:" + hash(other)
    ensures exists states: seq<State>, actions: seq<Action> ::
              && Run(hash, lag, states, actions)
              && actions == [AddToDb(other, false), LoadFromDb, CheckMemory(token, true)]
  {
    var none := State(map[], map[], multiset{}, {}, {}, 1);
    var stored := none.(rows := map[hash(other) := 1 + TTL], added := {(other, 1)}, inserted := {(other, 1)});
    var loaded := stored.(mem := map[DbMemKey(hash(other)) := MC.Item(true, 1 + TTL)]);
    assert Step(hash, lag, none, AddToDb(other, false), stored);
    assert InDb(stored.rows, hash(other), 1);
    assert Step(hash, lag, stored, LoadFromDb, loaded);
    assert Step(hash, lag, loaded, CheckMemory(token, true), loaded);
    var states, actions :=
      [none, stored, loaded, loaded], [AddToDb(other, false), LoadFromDb, CheckMemory(token, true)];
    assert Run(hash, lag, states, actions);
  }

  /** Every refusal of the token, in every run, follows an addition of it within 48 hours and the lag. */
  ghost predicate OnlyIfAdded(hash: string -> string, lag: int, token: string) {
    forall states: seq<State>, actions: seq<Action>, i: nat ::
      Run(hash, lag, states, actions) && i < |actions| && Refuses(actions[i], token) ==>
      AddedBefore(states, actions, i, token, 172_800_000_000_000 + lag)
  }

  /** A token is refused only if it was added if and only if it does not look like the key that LoadFromDB makes for
    * another. */
  lemma {:induction false} MistakenIff(hash: string -> string, lag: int, token: string)
    requires Injective(hash) && 0 <= lag
    ensures OnlyIfAdded(hash, lag, token) <==> !Mistakable(hash, token)
  {
    hide Step, AddedBefore, Refuses;
    if Mistakable(hash, token) {
      MistakenShows(hash, lag, token);
    } else {
      forall states: seq<State>, actions: seq<Action>, i: nat
        | Run(hash, lag, states, actions) && i < |actions| && Refuses(actions[i], token)
        ensures AddedBefore(states, actions, i, token, 172_800_000_000_000 + lag)
      {
        RevokedWasAdded(hash, lag, states, actions, i, token);
      }
    }
  }

  lemma {:induction false} MistakenShows(hash: string -> string, lag: int, token: string)
    requires 0 <= lag && Mistakable(hash, token)
    ensures !OnlyIfAdded(hash, lag, token)
  {
    hide Step;
    var other :| other != token && token == "db:" + hash(other);
    PrefixedTokenMistaken(hash, lag, token, other);
    var states: seq<State>, actions: seq<Action> :|
      && Run(hash, lag, states, actions)
      && actions == [AddToDb(other, false), LoadFromDb, CheckMemory(token, true)];
    assert Refuses(actions[2], token) && !AddedBefore(states, actions, 2, token, 172_800_000_000_000 + lag);
  }
}
