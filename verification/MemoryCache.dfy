/** The in-memory cache with time-to-live and capacity: internal/cache/cache.go.
 *
 * The class has one method per locked section; Get is two of them. The second half of the module lets any number of
 * callers interleave these sections and says what a lookup can return. */
module MemoryCache {
  import opened Text

  datatype Item<+V> = Item(value: V, expiration: int)
  type Items<V> = map<string, Item<V>>

  /** The zero time, which evictOldestLocked takes for "none seen yet". */
  const ZERO_TIME := 0

  predicate Expired<V>(item: Item<V>, now: int) {
    now > item.expiration
  }

  ghost function Live<V>(items: Items<V>, now: int): Items<V> {
    map k | k in items && !Expired(items[k], now) :: items[k]
  }

  ghost predicate Timed<V>(items: Items<V>) {
    forall k <- items :: items[k].expiration != ZERO_TIME
  }

  ghost predicate Earliest<V>(items: Items<V>, k: string) {
    k in items && forall k' <- items :: items[k].expiration <= items[k'].expiration
  }

  /** One entry with the earliest expiration goes, unless its key is the empty string. Ties are broken arbitrarily. */
  ghost predicate EvictsOldest<V>(items: Items<V>, items': Items<V>) {
    if items == map[] then items' == items
    else exists k :: Earliest(items, k) && items' == if k == "" then items else items - {k}
  }

  /** The effect of Set, eviction included. */
  ghost predicate SetTo<V>(items: Items<V>, items': Items<V>, maxItems: int, key: string, item: Item<V>, now: int) {
    var stored := items[key := item];
    if maxItems <= 0 || |stored| <= maxItems then items' == stored
    else if |Live(stored, now)| <= maxItems then items' == Live(stored, now)
    else EvictsOldest(Live(stored, now), items')
  }

  function LookupResult<V>(items: Items<V>, key: string, now: int): Option<V> {
    if key in items && !Expired(items[key], now) then Some(items[key].value) else None
  }

  class MemoryCache<V> {
    const defaultTTL: int
    const maxItems: int  // 0 means no limit
    var items: Items<V>

    constructor (defaultTTL: int, maxItems: int)
      ensures this.defaultTTL == defaultTTL && this.maxItems == maxItems && items == map[]
    {
      this.defaultTTL, this.maxItems, items := defaultTTL, maxItems, map[];
    }

    /** The read-locked part of Get. If `expired`, the caller goes on to delete the key under the write lock. */
    method Lookup(key: string, now: int) returns (value: Option<V>, expired: bool)
      ensures value == LookupResult(items, key, now)
      ensures expired <==> key in items && Expired(items[key], now)
    {
      if key !in items {
        return None, false;
      }
      if Expired(items[key], now) {
        return None, true;
      }
      return Some(items[key].value), false;
    }

    /** Get, when nobody else comes between its two parts. */
    method Get(key: string, now: int) returns (value: Option<V>)
      modifies this
      ensures value == LookupResult(old(items), key, now)
      ensures items == if key in old(items) && Expired(old(items)[key], now) then old(items) - {key} else old(items)
    {
      var expired;
      value, expired := Lookup(key, now);
      if expired {
        Delete(key);
      }
    }

    /** A ttl of zero means the default. `now` is read before and `later` during eviction. */
    method Set(key: string, value: V, ttl: int, now: int, later: int)
      requires Timed(items) && now + ttl != ZERO_TIME && now + defaultTTL != ZERO_TIME
      modifies this
      ensures SetTo(old(items), items, maxItems, key, Item(value, now + if ttl == 0 then defaultTTL else ttl), later)
      ensures Timed(items)
    {
      var expiration := now + ttl;
      if ttl == 0 {
        expiration := now + defaultTTL;
      }
      items := items[key := Item(value, expiration)];
      if maxItems > 0 && |items| > maxItems {
        EvictExpired(later);
        if |items| > maxItems {
          EvictOldest();
        }
      }
    }

    method Delete(key: string)
      modifies this
      ensures items == old(items) - {key}
    {
      items := items - {key};
    }

    method Clear()
      modifies this
      ensures items == map[]
    {
      items := map[];
    }

    /** Also the body of the background cleanup. */
    method EvictExpired(now: int)
      modifies this
      ensures items == Live(old(items), now)
    {
      ghost var before := items;
      var todo := items.Keys;
      while todo != {}
        invariant todo <= items.Keys <= before.Keys
        invariant forall k <- before :: k in todo || (k in items <==> !Expired(before[k], now))
        invariant forall k <- items :: items[k] == before[k]
        decreases todo
      {
        var key :| key in todo;
        if Expired(items[key], now) {
          items := items - {key};
        }
        todo := todo - {key};
      }
    }

    method EvictOldest()
      requires Timed(items)
      modifies this
      ensures EvictsOldest(old(items), items) && Timed(items)
    {
      if items == map[] {
        return;
      }
      var oldestKey := "";
      var oldestExp := ZERO_TIME;
      ghost var before := items;
      var todo := items.Keys;
      while todo != {}
        invariant todo <= items.Keys && items == before
        invariant oldestExp == ZERO_TIME ==> todo == items.Keys
        invariant oldestExp != ZERO_TIME ==> oldestKey in items && items[oldestKey].expiration == oldestExp
        invariant oldestExp != ZERO_TIME ==> forall k <- items :: k in todo || oldestExp <= items[k].expiration
        decreases todo
      {
        var key :| key in todo;
        todo := todo - {key};
        if oldestExp == ZERO_TIME || items[key].expiration < oldestExp {
          oldestKey, oldestExp := key, items[key].expiration;
        }
      }
      assert Earliest(before, oldestKey);
      if oldestKey != "" {
        items := items - {oldestKey};
      }
    }
  }

  // ---------------------------------------------------------------- capacity

  /** With non-empty keys a Set keeps the cache within its capacity. */
  lemma {:induction false} SetKeepsCapacity<V>(items: Items<V>, items': Items<V>, maxItems: int, key: string,
                                               item: Item<V>, now: int)
    requires SetTo(items, items', maxItems, key, item, now) && 0 < maxItems && |items| <= maxItems
    requires key != "" && "" !in items
    ensures |items'| <= maxItems && "" !in items'
  {
    var stored := items[key := item];
    assert |stored| <= maxItems + 1;
    var live := Live(stored, now);
    LiveSize(stored, now);
    if |stored| > maxItems && |live| > maxItems {
      var k :| Earliest(live, k) && items' == if k == "" then live else live - {k};
      assert items'.Keys == live.Keys - {k};
    }
  }

  lemma {:induction false} LiveSize<V>(items: Items<V>, now: int)
    ensures |Live(items, now)| <= |items|
  {
    Subset(Live(items, now).Keys, items.Keys);
  }

  lemma {:induction false} Subset<T>(a: set<T>, b: set<T>)
    requires a <= b
    ensures |a| <= |b|
  {
    assert b == a + (b - a);
  }

  /** Exactly when a Set surely keeps a cache within its capacity: unless more entries are alive than fit and the
    * empty key, which is never evicted, is among those that expire first. No caller of this cache sets an empty
    * key. */
  lemma {:induction false} CapacityIff<V(!new)>(items: Items<V>, maxItems: int, key: string, item: Item<V>, now: int)
    requires 0 < maxItems && |items| <= maxItems
    ensures var live := Live(items[key := item], now);
            (forall items' :: SetTo(items, items', maxItems, key, item, now) ==> |items'| <= maxItems)
            <==> !(|live| > maxItems && Earliest(live, ""))
  {
    var stored := items[key := item];
    var live := Live(stored, now);
    LiveSize(stored, now);
    assert |stored| <= maxItems + 1;
    if |live| > maxItems && Earliest(live, "") {
      assert SetTo(items, live, maxItems, key, item, now);
    } else {
      forall items' | SetTo(items, items', maxItems, key, item, now) ensures |items'| <= maxItems {
        if |stored| > maxItems && |live| > maxItems {
          var k :| Earliest(live, k) && items' == if k == "" then live else live - {k};
          assert items'.Keys == live.Keys - {k};
        }
      }
    }
  }

  /** For example, with the empty key a cache of one can come to hold two. */
  lemma {:induction false} EmptyKeyOverflows(items': Items<int>)
    requires SetTo(map["" := Item(1, 10)], items', 1, "a", Item(2, 20), 5)
    ensures |items'| == 2
  {
    var stored := map["" := Item(1, 10)]["a" := Item(2, 20)];
    assert stored.Keys == {"", "a"};
    assert Live(stored, 5) == stored;
    var k :| Earliest(stored, k) && items' == if k == "" then stored else stored - {k};
    assert stored[""].expiration < stored["a"].expiration;
    assert k == "";
  }

  /** A live entry that a Set pushes out expires no later than every entry that stays, and at most one is pushed out. */
  lemma {:induction false} EvictedIsEarliest<V>(items: Items<V>, items': Items<V>, maxItems: int, key: string,
                                                item: Item<V>, now: int, k: string)
    requires SetTo(items, items', maxItems, key, item, now)
    requires var stored := items[key := item]; k in stored && !Expired(stored[k], now) && k !in items'
    ensures var stored := items[key := item];
            && (forall k' <- items' ::
                k' in stored && items'[k'] == stored[k'] && stored[k].expiration <= stored[k'].expiration)
            && (forall k' <- stored :: k' in items' || k' == k || Expired(stored[k'], now))
  {
  }

  /** The keys whose entries have not expired. */
  ghost function AliveKeys<V>(items: Items<V>, now: int): set<string> {
    set k | k in items && now <= items[k].expiration
  }

  /** A Set drops no live entry as long as the live entries fit, the new one included: what has expired goes first. */
  lemma {:induction false} SetKeepsLive<V>(items: Items<V>, items': Items<V>, maxItems: int, key: string, item: Item<V>,
                                           now: int)
    requires SetTo(items, items', maxItems, key, item, now)
    requires maxItems <= 0 || |AliveKeys(items[key := item], now)| <= maxItems
    ensures var stored := items[key := item];
            forall k <- stored :: now <= stored[k].expiration ==> k in items' && items'[k] == stored[k]
  {
    assert AliveKeys(items[key := item], now) == Live(items[key := item], now).Keys;
  }

  ghost predicate ExpiresFirst<V>(items: Items<V>, among: set<string>, k: string) {
    k in among && among <= items.Keys && forall k' <- among :: items[k].expiration <= items[k'].expiration
  }

  /** When they do not fit, exactly one of them goes, which is among those that expire first; none if the empty key is
    * chosen. */
  lemma {:induction false} SetDropsOne<V>(items: Items<V>, items': Items<V>, maxItems: int, key: string, item: Item<V>,
                                          now: int)
    requires SetTo(items, items', maxItems, key, item, now)
    requires 0 < maxItems < |AliveKeys(items[key := item], now)|
    ensures var alive := AliveKeys(items[key := item], now);
            exists k :: ExpiresFirst(items[key := item], alive, k) && items'.Keys ==
              if k == "" then alive else alive - {k}
  {
    var stored := items[key := item];
    var live := Live(stored, now);
    assert AliveKeys(stored, now) == live.Keys;
    LiveSize(stored, now);
    var k :| Earliest(live, k) && items' == if k == "" then live else live - {k};
    assert ExpiresFirst(stored, live.Keys, k);
  }

  // ---------------------------------------------------------------- any interleaving

  /** The cache, the deletes that Gets still owe, and two pieces of history: for every key the latest Set not
    * followed by a Delete or Clear, and the keys whose latest entry was removed while alive, by eviction or by a
    * late delete. */
  datatype State<V> = State(items: Items<V>, owed: multiset<string>, latest: Items<V>, lost: set<string>, now: int)

  datatype Action<+V> =
    | Set(key: string, item: Item<V>)
    | Lookup(key: string)
    | LateDelete(key: string)
    | Delete(key: string)
    | Clear
    | Cleanup

  ghost predicate Init<V>(s: State<V>) {
    s.items == map[] && s.owed == multiset{} && s.latest == map[] && s.lost == {}
  }

  /** One locked section at time s'.now. */
  ghost predicate Step<V>(maxItems: int, s: State<V>, a: Action<V>, s': State<V>) {
    && s.now <= s'.now
    && match a
       case Set(key, item) =>
         && SetTo(s.items, s'.items, maxItems, key, item, s'.now)
         && s'.owed == s.owed
         && s'.latest == s.latest[key := item]
         && s'.lost == (s.lost - {key}) + (Live(s.items[key := item], s'.now).Keys - s'.items.Keys)
       case Lookup(key) =>
         s' == s.(now := s'.now, owed := if key in s.items
                  && Expired(s.items[key], s'.now) then s.owed + multiset{key} else s.owed)
       case LateDelete(key) =>
         && key in s.owed
         && s' == s.(now := s'.now, owed := s.owed - multiset{key}, items := s.items - {key},
                     lost := if key in s.items && !Expired(s.items[key], s'.now) then s.lost + {key} else s.lost)
       case Delete(key) =>
         s' == s.(now := s'.now, items := s.items - {key}, latest := s.latest - {key}, lost := s.lost - {key})
       case Clear =>
         s' == s.(now := s'.now, items := map[], latest := map[], lost := {})
       case Cleanup =>
         s' == s.(now := s'.now, items := Live(s.items, s'.now))
  }

  /** Every cached entry is the latest one, and a latest entry that is not cached was lost or has expired. */
  ghost predicate Inv<V>(s: State<V>) {
    && (forall k <- s.items :: k in s.latest && s.latest[k] == s.items[k] && k !in s.lost)
    && (forall k <- s.latest :: k in s.items || k in s.lost || Expired(s.latest[k], s.now))
  }

  lemma {:induction false} SetKeepsInv<V>(maxItems: int, s: State<V>, key: string, item: Item<V>, s': State<V>)
    requires Inv(s) && Step(maxItems, s, Set(key, item), s')
    ensures Inv(s')
  {
    hide SetTo;
    var stored := s.items[key := item];
    SetSubset(s.items, s'.items, maxItems, key, item, s'.now);
    forall k | k in s'.latest ensures k in s'.items || k in s'.lost || Expired(s'.latest[k], s'.now) {
      if k in stored && k !in s'.items && !Expired(stored[k], s'.now) {
        assert k in Live(stored, s'.now);
      }
    }
  }

  lemma {:induction false} StepKeepsInv<V>(maxItems: int, s: State<V>, a: Action<V>, s': State<V>)
    requires Inv(s) && Step(maxItems, s, a, s')
    ensures Inv(s')
  {
    hide SetTo;
    if a.Set? {
      SetKeepsInv(maxItems, s, a.key, a.item, s');
    }
  }

  lemma {:induction false} SetSubset<V>(items: Items<V>, items': Items<V>, maxItems: int, key: string, item: Item<V>,
                                        now: int)
    requires SetTo(items, items', maxItems, key, item, now)
    ensures forall k <- items' :: k in items[key := item] && items'[k] == items[key := item][k]
  {
  }

  /** A run of the cache: states with the actions between them. */
  ghost predicate Run<V>(maxItems: int, states: seq<State<V>>, actions: seq<Action<V>>) {
    && |states| == |actions| + 1 && Init(states[0])
    && forall i :: 0 <= i < |actions| ==> Step(maxItems, states[i], actions[i], states[i + 1])
  }

  lemma {:induction false} RunKeepsInv<V>(maxItems: int, states: seq<State<V>>, actions: seq<Action<V>>, i: nat)
    requires Run(maxItems, states, actions) && i < |states|
    ensures Inv(states[i])
  {
    if i > 0 {
      RunKeepsInv(maxItems, states, actions, i - 1);
      StepKeepsInv(maxItems, states[i - 1], actions[i - 1], states[i]);
    }
  }

  /** A run that sets no empty key never holds more than maxItems entries. */
  lemma {:induction false} RunKeepsCapacity<V>(maxItems: int, states: seq<State<V>>, actions: seq<Action<V>>, i: nat)
    requires Run(maxItems, states, actions) && 0 < maxItems && i < |states|
    requires forall a <- actions :: a.Set? ==> a.key != ""
    ensures |states[i].items| <= maxItems && "" !in states[i].items
  {
    if i > 0 {
      RunKeepsCapacity(maxItems, states, actions, i - 1);
      var s, a, s' := states[i - 1], actions[i - 1], states[i];
      assert a in actions && Step(maxItems, s, a, s');
      if a.Set? {
        SetKeepsCapacity(s.items, s'.items, maxItems, a.key, a.item, s'.now);
      } else {
        Subset(s'.items.Keys, s.items.Keys);
      }
    }
  }

  /** What a lookup answers, in every run: the value of the latest Set of the key not followed by a Delete or Clear,
    * provided that entry has not expired and was not lost to eviction or to the late delete of an overlapping Get;
    * otherwise nothing. */
  lemma {:induction false} LookupIsLatest<V>(maxItems: int, states: seq<State<V>>, actions: seq<Action<V>>, i: nat,
                                             key: string, now: int)
    requires Run(maxItems, states, actions) && i < |states| && states[i].now <= now
    ensures var s := states[i];
            LookupResult(s.items, key, now) ==
            if key in s.latest && now <= s.latest[key].expiration && key !in s.lost then Some(s.latest[key].value)
              else None
  {
    RunKeepsInv(maxItems, states, actions, i);
  }

  /** In every run, an entry is lost only in one of two ways: a Set drops it when more entries are alive than fit, or a
    * late delete of its key removes it while it is alive. */
  lemma {:induction false} WhatIsLost<V>(maxItems: int, states: seq<State<V>>, actions: seq<Action<V>>, i: nat,
                                         key: string)
    requires Run(maxItems, states, actions) && i < |actions| && key in states[i + 1].lost && key !in states[i].lost
    ensures || actions[i] == LateDelete(key)
            || (actions[i].Set? && 0 < maxItems
                && maxItems < |AliveKeys(states[i].items[actions[i].key := actions[i].item], states[i + 1].now)|)
  {
    var s, a, s' := states[i], actions[i], states[i + 1];
    assert Step(maxItems, s, a, s');
    if a.Set? {
      var alive := AliveKeys(s.items[a.key := a.item], s'.now);
      assert key in alive;
      if maxItems <= 0 || |alive| <= maxItems {
        SetKeepsLive(s.items, s'.items, maxItems, a.key, a.item, s'.now);
      }
    }
  }

  /** Without a late delete of the key and without capacity eviction nothing is ever lost. */
  lemma {:induction false} NothingLost<V>(states: seq<State<V>>, actions: seq<Action<V>>, i: nat, key: string)
    requires Run(0, states, actions) && i < |states|
    requires forall j :: 0 <= j < i ==> actions[j] != LateDelete(key)
    ensures key !in states[i].lost
  {
    if i > 0 {
      NothingLost(states, actions, i - 1, key);
      assert Step(0, states[i - 1], actions[i - 1], states[i]);
    }
  }

  /** An unlimited cache stores what it is given. */
  lemma {:induction false} UnlimitedSet<V>(s: State<V>, key: string, item: Item<V>)
    ensures Step(0, s, Set(key, item),
                 s.(items := s.items[key := item], latest := s.latest[key := item], lost := s.lost - {key}))
  {
    assert Live(s.items[key := item], s.now).Keys - s.items[key := item].Keys == {};
  }

  /** The late delete does lose entries: between an expired lookup and its delete another caller may set the key
    * again. */
  lemma {:induction false} LateDeleteLosesFreshEntry(stale: Item<int>, newer: Item<int>, t: int)
    requires Expired(stale, t) && !Expired(newer, t)
    ensures exists states: seq<State<int>>, actions: seq<Action<int>> ::
              && Run(0, states, actions) && actions == [Set("k", stale), Lookup("k"), Set("k", newer), LateDelete("k")]
              && Last(states).items == map[] && Last(states).latest == map["k" := newer]
  {
    hide SetTo;
    var s0: State<int> := State(map[], multiset{}, map[], {}, t);
    var s1 := s0.(items := map["k" := stale], latest := map["k" := stale]);
    var s2 := s1.(owed := multiset{"k"});
    var s3 := s2.(items := map["k" := newer], latest := map["k" := newer]);
    var s4 := s3.(owed := multiset{}, items := map[], lost := {"k"});
    UnlimitedSet(s0, "k", stale);
    assert s0.lost - {"k"} == {};
    assert s1.owed + multiset{"k"} == s2.owed;
    assert Step(0, s1, Lookup("k"), s2);
    UnlimitedSet(s2, "k", newer);
    assert s2.items["k" := newer] == s3.items && s2.latest["k" := newer] == s3.latest;
    assert s3.owed - multiset{"k"} == s4.owed && s3.items - {"k"} == s4.items;
    assert Step(0, s3, LateDelete("k"), s4);
    var states, actions := [s0, s1, s2, s3, s4], [Set("k", stale), Lookup("k"), Set("k", newer), LateDelete("k")];
    assert Run(0, states, actions);
  }

  // ---------------------------------------------------------------- exactly when a live entry can be lost

  /** What may follow state s. */
  ghost predicate Continues<V>(maxItems: int, s: State<V>, states: seq<State<V>>, actions: seq<Action<V>>) {
    && |states| == |actions| + 1 && states[0] == s
    && forall i :: 0 <= i < |actions| ==> Step(maxItems, states[i], actions[i], states[i + 1])
  }

  /** Nobody sets or deletes the key, or clears the cache. */
  ghost predicate LeavesAlone<V(!new)>(actions: seq<Action<V>>, key: string) {
    forall a <- actions :: !a.Clear? && a != Delete(key) && (a.Set? ==> a.key != key)
  }

  ghost predicate Loses<V>(s: State<V>, states: seq<State<V>>, key: string)
    requires key in s.items
  {
    states != [] && key !in Last(states).items && !Expired(s.items[key], Last(states).now)
  }

  lemma {:induction false} TimePasses<V>(maxItems: int, s: State<V>, states: seq<State<V>>, actions: seq<Action<V>>,
                                         i: nat, j: nat)
    requires Continues(maxItems, s, states, actions) && i <= j < |states|
    ensures states[i].now <= states[j].now
    decreases j - i
  {
    if i < j {
      TimePasses(maxItems, s, states, actions, i, j - 1);
      assert Step(maxItems, states[j - 1], actions[j - 1], states[j]);
    }
  }

  /** Without a delete owed, the entry stays, and none comes to be owed, for as long as it lives. */
  lemma {:induction false} StaysAlive<V(!new)>(s: State<V>, states: seq<State<V>>, actions: seq<Action<V>>, key: string,
                                               i: nat)
    requires Continues(0, s, states, actions) && LeavesAlone(actions, key) && i < |states|
    requires key in s.items && key !in s.owed && !Expired(s.items[key], states[i].now)
    ensures key in states[i].items && states[i].items[key] == s.items[key] && key !in states[i].owed
  {
    hide Step, Expired;
    if i > 0 {
      TimePasses(0, s, states, actions, i - 1, i);
      NotExpiredBefore(s.items[key], states[i - 1].now, states[i].now);
      StaysAlive(s, states, actions, key, i - 1);
      assert actions[i - 1] in actions;
      OneStepAlive(states[i - 1], actions[i - 1], states[i], key);
    }
  }

  lemma {:induction false} NotExpiredBefore<V>(item: Item<V>, now: int, later: int)
    requires now <= later && !Expired(item, later)
    ensures !Expired(item, now)
  {
  }

  lemma {:induction false} OneStepAlive<V>(s: State<V>, a: Action<V>, s': State<V>, key: string)
    requires Step(0, s, a, s') && !a.Clear? && a != Delete(key) && (a.Set? ==> a.key != key)
    requires key in s.items && key !in s.owed && !Expired(s.items[key], s'.now)
    ensures key in s'.items && s'.items[key] == s.items[key] && key !in s'.owed
  {
    hide EvictsOldest;
  }

  /** In an unlimited cache a live entry can be lost before it expires, with nobody setting or deleting its key or
    * clearing the cache, if and only if some Get still owes a delete of that key. */
  lemma {:induction false} LostIffOwed<V(!new)>(s: State<V>, key: string)
    requires key in s.items && !Expired(s.items[key], s.now)
    ensures (exists states, actions ::
             Continues(0, s, states, actions) && LeavesAlone(actions, key) && Loses(s, states, key))
            <==> key in s.owed
  {
    if key in s.owed {
      var a: Action<V> := LateDelete(key);
      var s' := s.(owed := s.owed - multiset{key}, items := s.items - {key}, lost := s.lost + {key});
      assert Step(0, s, a, s');
      assert Continues(0, s, [s, s'], [a]) && LeavesAlone([a], key) && Loses(s, [s, s'], key);
    }
    if states, actions :| Continues(0, s, states, actions) && LeavesAlone(actions, key) && Loses(s, states, key) {
      if key !in s.owed {
        StaysAlive(s, states, actions, key, |actions|);
      }
    }
  }
}
