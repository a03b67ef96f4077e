/** The pool of Kafka admin clients: pkg/kafka/pool.go.
 *
 * The class has one method per locked section. Below it, a state machine interleaves lookups, dials, installs, expiry,
 * closes and evictions of any number of callers; singleflight allows one creation per cluster at a time. */
module AdminClientPool {
  import opened Text

  /** A client is a handle, given out by the dialler; the pool stamps each use. */
  datatype Pooled = Pooled(handle: nat, lastUsed: int)
  datatype ClusterId = ClusterId(n: int)
  type Clients = map<ClusterId, Pooled>

  /** The zero time and the id 0 both mean "none" to cleanupOldestLocked. */
  const ZERO_TIME := 0
  const ZERO_ID := ClusterId(0)

  ghost predicate Stamped(clients: Clients) {
    forall id <- clients :: clients[id].lastUsed != ZERO_TIME
  }

  ghost predicate LeastRecent(clients: Clients, id: ClusterId) {
    id in clients && NoneBefore(clients, clients[id].lastUsed)
  }

  ghost predicate NoneBefore(clients: Clients, time: int) {
    forall other <- clients :: time <= clients[other].lastUsed
  }

  /** A least recently used entry is closed and removed, unless its id is 0. Ties are broken arbitrarily. */
  ghost predicate EvictsOldest(clients: Clients, closed: seq<nat>, clients': Clients, closed': seq<nat>) {
    if clients == map[] then clients' == clients && closed' == closed
    else exists id :: LeastRecent(clients, id) && Evicts(clients, closed, clients', closed', id)
  }

  ghost predicate Evicts(clients: Clients, closed: seq<nat>, clients': Clients, closed': seq<nat>, id: ClusterId)
    requires id in clients
  {
    if id == ZERO_ID then clients' == clients && closed' == closed
    else clients' == clients - {id} && closed' == closed + [clients[id].handle]
  }

  /** The handles of the removed entries are closed, each once, in some order. */
  ghost predicate ClosesAll(removed: Clients, log: seq<nat>) {
    exists order: seq<ClusterId> :: Closes(removed, order, log)
  }

  ghost predicate Closes(removed: Clients, order: seq<ClusterId>, log: seq<nat>) {
    && |order| == |log| == |removed| && Enumerates(order, removed.Keys)
    && forall i :: 0 <= i < |order| ==> log[i] == removed[order[i]].handle
  }

  ghost predicate Idle(p: Pooled, now: int, cleanup: int) {
    now - p.lastUsed > cleanup
  }

  ghost function IdleClients(clients: Clients, now: int, cleanup: int): Clients {
    map id | id in clients && Idle(clients[id], now, cleanup) :: clients[id]
  }

  function Touched(clients: Clients, id: ClusterId, now: int): Clients {
    if id in clients then clients[id := clients[id].(lastUsed := now)] else clients
  }

  datatype Outcome = Installed | Existing | TooManyConnections

  /** What the write-locked end of createClient does with a freshly dialled client. */
  ghost predicate InstallTo(clients: Clients, closed: seq<nat>, clients': Clients, closed': seq<nat>, maxConns: int,
                            id: ClusterId, handle: nat, now: int, outcome: Outcome) {
    if id in clients then
      outcome == Existing && closed' == closed + [handle] && clients' == Touched(clients, id, now)
    else if |clients| >= maxConns then
      outcome == TooManyConnections && EvictsOldest(clients, closed, clients', closed')
    else
      outcome == Installed && closed' == closed && clients' == clients[id := Pooled(handle, now)]
  }

  class AdminClientPool {
    const maxConns: int
    const cleanup: int
    var clients: Clients
    ghost var closed: seq<nat>  // every Close the pool has called on a client

    constructor (maxConns: int, cleanup: int)
      ensures this.maxConns == maxConns && this.cleanup == cleanup && clients == map[] && closed == []
    {
      this.maxConns, this.cleanup, clients, closed := maxConns, cleanup, map[], [];
    }

    /** The fast path of Get, and the double check before dialling. */
    method Find(id: ClusterId, now: int) returns (handle: Option<nat>)
      modifies this`clients
      ensures handle == if id in old(clients) then Some(old(clients)[id].handle) else None
      ensures id in clients <==> id in old(clients)
      ensures id in clients ==> clients[id] == Pooled(handle.value, now)
      ensures clients - {id} == old(clients) - {id}
    {
      if id !in clients {
        return None;
      }
      clients := clients[id := clients[id].(lastUsed := now)];
      return Some(clients[id].handle);
    }

    /** The end of createClient: a third check, the limit, and the insertion. */
    method Install(id: ClusterId, handle: nat, now: int) returns (outcome: Outcome)
      requires Stamped(clients) && now != ZERO_TIME
      modifies this
      ensures InstallTo(old(clients), old(closed), clients, closed, maxConns, id, handle, now, outcome)
      ensures outcome == Existing <==> id in old(clients)
      ensures outcome == Existing ==>
                clients == old(clients)[id := Pooled(old(clients)[id].handle, now)] && closed == old(closed) + [handle]
      ensures outcome == TooManyConnections <==> id !in old(clients) && |old(clients)| >= maxConns
      ensures outcome == Installed ==> clients == old(clients)[id := Pooled(handle, now)] && closed == old(closed)
      ensures Stamped(clients)
    {
      if id in clients {
        closed := closed + [handle];
        clients := clients[id := clients[id].(lastUsed := now)];
        return Existing;
      }
      if |clients| >= maxConns {
        CleanupOldest();
        return TooManyConnections;
      }
      clients := clients[id := Pooled(handle, now)];
      return Installed;
    }

    method Close(id: ClusterId)
      modifies this
      ensures clients == old(clients) - {id}
      ensures closed == old(closed) + if id in old(clients) then [old(clients)[id].handle] else []
    {
      if id in clients {
        closed := closed + [clients[id].handle];
        clients := clients - {id};
      }
    }

    method CloseAll() returns (ghost log: seq<nat>)
      modifies this
      ensures clients == map[] && closed == old(closed) + log && ClosesAll(old(clients), log)
    {
      hide Closes, Draining;
      ghost var before, was := clients, closed;
      ghost var gone: Clients, order: seq<ClusterId> := map[], [];
      log := [];
      ClosesNothing();
      DrainStarts(before);
      var todo := clients.Keys;
      while todo != {}
        invariant Draining(before, gone, clients, todo)
        invariant closed == was + log && Closes(gone, order, log)
        decreases todo
      {
        var id :| id in todo;
        DrainOne(before, gone, clients, todo, id);
        ClosesMore(gone, order, log, id, before[id]);
        todo := todo - {id};
        closed, log, order := closed + [clients[id].handle], log + [clients[id].handle], order + [id];
        gone := gone[id := before[id]];
        clients := clients - {id};
      }
      Drained(before, gone, clients);
    }

    method CleanupExpired(now: int) returns (ghost log: seq<nat>)
      modifies this
      ensures var expired := IdleClients(old(clients), now, cleanup);
              clients == old(clients) - expired.Keys && closed == old(closed) + log && ClosesAll(expired, log)
    {
      hide Closes, Idle, Expiring, IdleClients;
      ghost var before, was := clients, closed;
      ghost var gone: Clients, order: seq<ClusterId> := map[], [];
      log := [];
      ClosesNothing();
      ExpiryStarts(before, now, cleanup);
      var todo := clients.Keys;
      while todo != {}
        invariant Expiring(before, gone, clients, todo, now, cleanup)
        invariant closed == was + log && Closes(gone, order, log)
        decreases todo
      {
        var id :| id in todo;
        ExpireOne(before, gone, clients, todo, id, now, cleanup);
        todo := todo - {id};
        if now - clients[id].lastUsed > cleanup {
          ClosesMore(gone, order, log, id, before[id]);
          closed, log, order := closed + [clients[id].handle], log + [clients[id].handle], order + [id];
          gone := gone[id := before[id]];
          clients := clients - {id};
        }
      }
      AllIdle(before, gone, clients, now, cleanup);
    }

    method CleanupOldest()
      requires Stamped(clients)
      modifies this
      ensures EvictsOldest(old(clients), old(closed), clients, closed) && Stamped(clients)
    {
      var oldestId, oldestTime := ZERO_ID, ZERO_TIME;
      ghost var before := clients;
      var todo := clients.Keys;
      while todo != {}
        invariant todo <= clients.Keys && clients == before
        invariant oldestTime == ZERO_TIME ==> todo == clients.Keys && oldestId == ZERO_ID
        invariant oldestTime != ZERO_TIME ==> oldestId in clients && clients[oldestId].lastUsed == oldestTime
        invariant oldestTime != ZERO_TIME ==> forall id <- clients :: id in todo || oldestTime <= clients[id].lastUsed
        decreases todo
      {
        var id :| id in todo;
        todo := todo - {id};
        if oldestTime == ZERO_TIME || clients[id].lastUsed < oldestTime {
          oldestId, oldestTime := id, clients[id].lastUsed;
        }
      }
      if oldestId != ZERO_ID {
        assert LeastRecent(before, oldestId);
        closed := closed + [clients[oldestId].handle];
        clients := clients - {oldestId};
      } else if oldestTime != ZERO_TIME {
        assert LeastRecent(before, ZERO_ID);
      }
    }
  }

  /** Half way through an expiry: `gone` are the idle entries seen so far, `left` is what the pool still holds. */
  ghost predicate Expiring(before: Clients, gone: Clients, left: Clients, todo: set<ClusterId>, now: int,
                           cleanup: int) {
    && todo <= before.Keys && gone.Keys !! todo && left.Keys == before.Keys - gone.Keys
    && (forall id <- left :: left[id] == before[id])
    && (forall id <- before :: id in todo || (id in gone <==> Idle(before[id], now, cleanup)))
    && (forall id <- gone :: id in before && gone[id] == before[id])
  }

  lemma {:induction false} ExpiryStarts(before: Clients, now: int, cleanup: int)
    ensures Expiring(before, map[], before, before.Keys, now, cleanup)
  {
  }

  lemma {:induction false} ExpireOne(before: Clients, gone: Clients, left: Clients, todo: set<ClusterId>, id: ClusterId,
                                     now: int, cleanup: int)
    requires Expiring(before, gone, left, todo, now, cleanup) && id in todo
    ensures id in left && id in before && left[id] == before[id] && id !in gone
    ensures if now - left[id].lastUsed > cleanup
            then Expiring(before, gone[id := before[id]], left - {id}, todo - {id}, now, cleanup)
            else Expiring(before, gone, left, todo - {id}, now, cleanup)
  {
  }

  lemma {:induction false} AllIdle(before: Clients, gone: Clients, left: Clients, now: int, cleanup: int)
    requires Expiring(before, gone, left, {}, now, cleanup)
    ensures gone == IdleClients(before, now, cleanup) && left == before - gone.Keys
  {
  }

  /** Half way through CloseAll: the pool holds exactly the entries still to do. */
  ghost predicate Draining(before: Clients, gone: Clients, left: Clients, todo: set<ClusterId>) {
    && todo <= before.Keys && left.Keys == todo && gone.Keys == before.Keys - todo
    && (forall id <- left :: left[id] == before[id])
    && (forall id <- gone :: gone[id] == before[id])
  }

  lemma {:induction false} DrainStarts(before: Clients)
    ensures Draining(before, map[], before, before.Keys)
  {
  }

  lemma {:induction false} DrainOne(before: Clients, gone: Clients, left: Clients, todo: set<ClusterId>, id: ClusterId)
    requires Draining(before, gone, left, todo) && id in todo
    ensures id in left && id in before && left[id] == before[id] && id !in gone
    ensures Draining(before, gone[id := before[id]], left - {id}, todo - {id})
  {
  }

  lemma {:induction false} Drained(before: Clients, gone: Clients, left: Clients)
    requires Draining(before, gone, left, {})
    ensures left == map[] && gone == before
  {
  }

  lemma {:induction false} ClosesNothing()
    ensures Closes(map[], [], [])
  {
  }

  lemma {:induction false} ClosesMore(gone: Clients, order: seq<ClusterId>, log: seq<nat>, id: ClusterId, p: Pooled)
    requires Closes(gone, order, log) && id !in gone
    ensures Closes(gone[id := p], order + [id], log + [p.handle])
  {
    hide Enumerates;
    assert gone[id := p].Keys == gone.Keys + {id};
    OneMoreListed(order, gone.Keys, id);
    forall i | 0 <= i < |order| ensures order[i] in gone && order[i] != id {
      ListedIn(order, gone.Keys, i);
    }
  }

  lemma {:induction false} OneMoreListed(order: seq<ClusterId>, ids: set<ClusterId>, id: ClusterId)
    requires Enumerates(order, ids) && id !in ids
    ensures Enumerates(order + [id], ids + {id})
  {
  }

  lemma {:induction false} ListedIn(order: seq<ClusterId>, ids: set<ClusterId>, i: nat)
    requires Enumerates(order, ids) && i < |order|
    ensures order[i] in ids
  {
    assert order[i] in order;
  }

  // ---------------------------------------------------------------- any interleaving

  /** The pool; for each cluster whose client is being created, the dialled client if the dial is over; the pool's
    * Close calls; the clients that were dialled when the pool was full, which are neither pooled nor closed; how
    * many were dialled so far (handles are given out in order); and the clock. */
  datatype State = State(clients: Clients, creating: map<ClusterId, Option<nat>>, closed: seq<nat>, rejected: seq<nat>,
                         dialled: nat, now: int)

  datatype Action =
    | Use(id: ClusterId, handle: nat)      // a caller stamps the client it found, which may be gone by now
    | Begin(id: ClusterId)                 // the double check finds nothing
    | DialFails(id: ClusterId)
    | DialSucceeds(id: ClusterId)
    | Install(id: ClusterId, outcome: Outcome)
    | Close(id: ClusterId)
    | CloseAll
    | Expire(cleanup: int)

  ghost predicate Step(maxConns: int, s: State, a: Action, s': State) {
    && s.now <= s'.now
    && match a
       case Use(id, handle) =>
         s' == s.(now := s'.now,
                  clients := if InPool(s, id, handle) then Touched(s.clients, id, s'.now) else s.clients)
       case Begin(id) =>
         id != ZERO_ID && id !in s.creating && id !in s.clients
           && s' == s.(now := s'.now, creating := s.creating[id := None])
       case DialFails(id) =>
         id in s.creating && s.creating[id] == None && s' == s.(now := s'.now, creating := s.creating - {id})
       case DialSucceeds(id) =>
         && id in s.creating && s.creating[id] == None
         && s' == s.(now := s'.now, creating := s.creating[id := Some(s.dialled)], dialled := s.dialled + 1)
       case Install(id, outcome) =>
         && id in s.creating && s.creating[id].Some?
         && var h := s.creating[id].value;
         && InstallTo(s.clients, s.closed, s'.clients, s'.closed, maxConns, id, h, s'.now, outcome)
         && s' == s.(now := s'.now, clients := s'.clients, closed := s'.closed, creating := s.creating - {id},
                     rejected := if outcome == TooManyConnections then s.rejected + [h] else s.rejected)
       case Close(id) =>
         s' == s.(now := s'.now, clients := s.clients - {id},
                  closed := s.closed + if id in s.clients then [s.clients[id].handle] else [])
       case CloseAll =>
         && s' == s.(now := s'.now, clients := map[], closed := s'.closed)
         && exists log :: s'.closed == s.closed + log && ClosesAll(s.clients, log)
       case Expire(cleanup) =>
         && var expired := IdleClients(s.clients, s'.now, cleanup);
         && s' == s.(now := s'.now, clients := s.clients - expired.Keys, closed := s'.closed)
         && exists log :: s'.closed == s.closed + log && ClosesAll(expired, log)
  }

  /** Where a dialled client can be. */
  predicate InPool(s: State, id: ClusterId, h: nat) {
    id in s.clients && s.clients[id].handle == h
  }

  predicate InCreation(s: State, id: ClusterId, h: nat) {
    id in s.creating && s.creating[id] == Some(h)
  }

  ghost function Dialling(creating: map<ClusterId, Option<nat>>): set<ClusterId> {
    set id | id in creating && creating[id].Some?
  }

  predicate InUse(s: State, h: nat) {
    h < s.dialled && h !in s.closed && h !in s.rejected
  }

  /** Every client that exists is in one place only. */
  ghost predicate Apart(s: State) {
    && (forall id, h: nat :: InPool(s, id, h) || InCreation(s, id, h) ==> InUse(s, h))
    && (forall id, id', h: nat :: InPool(s, id, h) && InPool(s, id', h) ==> id == id')
    && (forall id, id', h: nat :: InCreation(s, id, h) && InCreation(s, id', h) ==> id == id')
    && (forall id, id', h: nat :: InPool(s, id, h) ==> !InCreation(s, id', h))
    && LogsApart(s)
  }

  ghost predicate LogsApart(s: State) {
    && (forall h <- s.closed :: h < s.dialled && h !in s.rejected)
    && (forall h <- s.rejected :: h < s.dialled)
    && NoDuplicates(s.closed) && NoDuplicates(s.rejected)
  }

  ghost predicate Counted(s: State) {
    s.dialled == |s.clients| + |Dialling(s.creating)| + |s.closed| + |s.rejected|
  }

  ghost predicate Inv(maxConns: int, s: State) {
    |s.clients| <= maxConns && s.now > ZERO_TIME && IdsOk(s) && Apart(s) && Counted(s)
  }

  /** No id is 0, no stamp is the zero time, and no cluster's client is both pooled and being created. */
  ghost predicate IdsOk(s: State) {
    && (forall id <- s.clients :: id != ZERO_ID && id !in s.creating && s.clients[id].lastUsed != ZERO_TIME)
    && (forall id <- s.creating :: id != ZERO_ID)
  }

  ghost predicate Init(s: State) {
    s.clients == map[] && s.creating == map[] && s.closed == [] && s.rejected == [] && s.dialled == 0
      && s.now > ZERO_TIME
  }

  // ---------------------------------------------------------------- one step at a time

  lemma {:induction false} RemoveSize(clients: Clients, ids: set<ClusterId>)
    requires ids <= clients.Keys
    ensures |clients - ids| == |clients| - |ids|
  {
    assert (clients - ids).Keys == clients.Keys - ids;
    assert |clients.Keys - ids| + |ids| == |clients.Keys| by { assert clients.Keys == (clients.Keys - ids) + ids; }
  }

  /** Clients leave the pool or creation for the logs of closed and rejected ones, and nothing else moves. */
  lemma {:induction false} ApartAfter(s: State, s': State, log: seq<nat>, rejects: seq<nat>)
    requires Apart(s) && s'.dialled == s.dialled && s'.closed == s.closed + log && s'.rejected == s.rejected + rejects
    requires forall id, h: nat :: InPool(s', id, h) ==> InPool(s, id, h) && h !in log && h !in rejects
    requires forall id, h: nat :: InCreation(s', id, h) ==> InCreation(s, id, h) && h !in log && h !in rejects
    requires forall h :: h in log || h in rejects ==> InUse(s, h)
    requires NoDuplicates(log + rejects)
    ensures Apart(s')
  {
    hide InPool, InCreation;
    Disjoint(log, rejects);
    NoDuplicatesAppend(s.closed, log);
    NoDuplicatesAppend(s.rejected, rejects);
  }

  lemma {:induction false} Disjoint(log: seq<nat>, rejects: seq<nat>)
    requires NoDuplicates(log + rejects)
    ensures NoDuplicates(log) && NoDuplicates(rejects)
    ensures forall h :: h in log ==> h !in rejects
  {
    var all := log + rejects;
    forall i, j | 0 <= i < |log| && 0 <= j < |rejects| ensures log[i] != rejects[j] {
      assert all[i] != all[|log| + j];
    }
    forall i, j | 0 <= i < j < |rejects| ensures rejects[i] != rejects[j] {
      assert all[|log| + i] != all[|log| + j];
    }
    forall i, j | 0 <= i < j < |log| ensures log[i] != log[j] {
      assert all[i] != all[j];
    }
  }

  lemma {:induction false} NoDuplicatesAppend(a: seq<nat>, b: seq<nat>)
    requires NoDuplicates(a) && NoDuplicates(b) && forall h :: h in b ==> h !in a
    ensures NoDuplicates(a + b)
  {
    forall i, j | 0 <= i < j < |a + b| ensures (a + b)[i] != (a + b)[j] {
      if i < |a| <= j {
        assert (a + b)[j] in b;
      }
    }
  }

  /** Closing and removing some pooled clients. */
  lemma {:induction false} CloseSome(maxConns: int, s: State, s': State, removed: Clients, order: seq<ClusterId>,
                                     log: seq<nat>)
    requires Inv(maxConns, s) && removed.Keys <= s.clients.Keys && forall id <- removed :: removed[id] == s.clients[id]
    requires Closes(removed, order, log) && s.now <= s'.now
    requires s' == s.(now := s'.now, clients := s.clients - removed.Keys, closed := s.closed + log)
    ensures Inv(maxConns, s')
  {
    hide Apart, Counted, Closes;
    CloseApart(s, s', removed, order, log);
    CloseCounted(s, s', removed, order, log);
  }

  lemma {:induction false} CloseApart(s: State, s': State, removed: Clients, order: seq<ClusterId>, log: seq<nat>)
    requires Apart(s) && removed.Keys <= s.clients.Keys && forall id <- removed :: removed[id] == s.clients[id]
    requires Closes(removed, order, log)
    requires s' == s.(now := s'.now, clients := s.clients - removed.Keys, closed := s.closed + log)
    ensures Apart(s')
  {
    hide Apart, LogsApart, Closes, InUse, NoDuplicates;
    LogIsRemoved(s, removed, order, log);
    assert log + [] == log && s.rejected + [] == s.rejected;
    assert forall id, h: nat :: InPool(s', id, h) ==> InPool(s, id, h) && id !in removed;
    assert forall id, h: nat :: InCreation(s', id, h) ==> InCreation(s, id, h);
    ApartAfter(s, s', log, []);
  }

  lemma {:induction false} CloseCounted(s: State, s': State, removed: Clients, order: seq<ClusterId>, log: seq<nat>)
    requires Counted(s) && removed.Keys <= s.clients.Keys && Closes(removed, order, log)
    requires s' == s.(now := s'.now, clients := s.clients - removed.Keys, closed := s.closed + log)
    ensures Counted(s') && |s'.clients| <= |s.clients|
  {
    RemoveSize(s.clients, removed.Keys);
    assert |removed.Keys| == |removed|;
  }

  lemma {:induction false} LogIsRemoved(s: State, removed: Clients, order: seq<ClusterId>, log: seq<nat>)
    requires Apart(s) && removed.Keys <= s.clients.Keys && forall id <- removed :: removed[id] == s.clients[id]
    requires Closes(removed, order, log)
    ensures NoDuplicates(log) && forall h :: h in log ==> InUse(s, h)
    ensures forall id, h: nat :: InPool(s, id, h) && h in log ==> id in removed
    ensures forall id, h: nat :: InCreation(s, id, h) ==> h !in log
  {
    forall i | 0 <= i < |log| ensures InPool(s, order[i], log[i]) {
      assert order[i] in order;
    }
    forall i, j | 0 <= i < j < |log| ensures log[i] != log[j] {
      assert order[i] != order[j];
    }
    forall id, h: nat | InPool(s, id, h) && h in log ensures id in removed {
      var i :| 0 <= i < |log| && log[i] == h;
      assert order[i] in order && order[i] == id;
    }
    forall id, h: nat | InCreation(s, id, h) ensures h !in log {
      forall i | 0 <= i < |log| ensures log[i] != h {
        assert InPool(s, order[i], log[i]);
      }
    }
  }

  lemma {:induction false} CloseOne(maxConns: int, s: State, s': State, id: ClusterId)
    requires Inv(maxConns, s) && s.now <= s'.now && id in s.clients
    requires s' == s.(now := s'.now, clients := s.clients - {id}, closed := s.closed + [s.clients[id].handle])
    ensures Inv(maxConns, s')
  {
    hide Inv, Apart, Counted, Closes;
    var removed: Clients := map[id := s.clients[id]];
    ClosesNothing();
    ClosesMore(map[], [], [], id, s.clients[id]);
    assert [] + [id] == [id] && [] + [s.clients[id].handle] == [s.clients[id].handle];
    assert map[][id := s.clients[id]] == removed;
    CloseSome(maxConns, s, s', removed, [id], [s.clients[id].handle]);
  }

  /** A step that moves no client. */
  lemma {:induction false} ApartStays(s: State, s': State)
    requires Apart(s) && s'.dialled == s.dialled && s'.closed == s.closed && s'.rejected == s.rejected
    requires forall id, h: nat :: InPool(s', id, h) ==> InPool(s, id, h)
    requires forall id, h: nat :: InCreation(s', id, h) ==> InCreation(s, id, h)
    ensures Apart(s')
  {
    hide InPool, InCreation, NoDuplicates;
  }

  lemma {:induction false} UseStep(maxConns: int, s: State, id: ClusterId, s': State)
    requires Inv(maxConns, s) && s.now <= s'.now && s' == s.(now := s'.now, clients := Touched(s.clients, id, s'.now))
    ensures Inv(maxConns, s')
  {
    hide Apart;
    assert s'.clients.Keys == s.clients.Keys && |s'.clients| == |s'.clients.Keys|;
    ApartStays(s, s');
  }

  /** Starting a dial, or giving it up, moves no client. */
  lemma {:induction false} NoClientStep(maxConns: int, s: State, id: ClusterId, s': State)
    requires Inv(maxConns, s) && s.now <= s'.now && s' == s.(now := s'.now, creating := s'.creating)
    requires if id in s.creating then s.creating[id] == None && s'.creating == s.creating - {id}
             else id != ZERO_ID && id !in s.clients && s'.creating == s.creating[id := None]
    ensures Inv(maxConns, s')
  {
    hide Apart;
    assert Dialling(s'.creating) == Dialling(s.creating);
    ApartStays(s, s');
  }

  lemma {:induction false} DialStep(maxConns: int, s: State, id: ClusterId, s': State)
    requires Inv(maxConns, s) && id in s.creating && s.creating[id] == None && s.now <= s'.now
    requires s' == s.(now := s'.now, creating := s.creating[id := Some(s.dialled)], dialled := s.dialled + 1)
    ensures Inv(maxConns, s')
  {
    hide Apart, IdsOk, Dialling;
    DiallingMore(s.creating, id, s.dialled);
    DialApart(s, id, s');
    assert IdsOk(s') by { IdsStay(s, s'); }
  }

  lemma {:induction false} IdsStay(s: State, s': State)
    requires IdsOk(s) && s'.clients == s.clients && s'.creating.Keys <= s.creating.Keys
    ensures IdsOk(s')
  {
  }

  lemma {:induction false} DiallingMore(creating: map<ClusterId, Option<nat>>, id: ClusterId, h: nat)
    requires id in creating && creating[id] == None
    ensures |Dialling(creating[id := Some(h)])| == |Dialling(creating)| + 1
  {
    assert Dialling(creating[id := Some(h)]) == Dialling(creating) + {id};
  }

  lemma {:induction false} DiallingFewer(creating: map<ClusterId, Option<nat>>, id: ClusterId)
    requires id in creating && creating[id].Some?
    ensures |Dialling(creating - {id})| == |Dialling(creating)| - 1
  {
    assert Dialling(creating - {id}) == Dialling(creating) - {id};
  }

  lemma {:induction false} DialApart(s: State, id: ClusterId, s': State)
    requires Apart(s) && id in s.creating && s.creating[id] == None
    requires s' == s.(now := s'.now, creating := s.creating[id := Some(s.dialled)], dialled := s.dialled + 1)
    ensures Apart(s')
  {
    hide NoDuplicates;
    assert forall x, h: nat :: InPool(s', x, h) ==> InPool(s, x, h);
    assert forall x, h: nat :: InCreation(s', x, h) ==> InCreation(s, x, h) || (x == id && h == s.dialled);
  }

  lemma {:induction false} InstallStep(maxConns: int, s: State, id: ClusterId, h: nat, s': State)
    requires Inv(maxConns, s) && InCreation(s, id, h) && |s.clients| < maxConns && s.now <= s'.now
    requires s' == s.(now := s'.now, clients := s.clients[id := Pooled(h, s'.now)], creating := s.creating - {id})
    ensures Inv(maxConns, s')
  {
    hide Apart, Dialling;
    DiallingFewer(s.creating, id);
    PutSize(s.clients, id, Pooled(h, s'.now));
    InstallApart(s, id, h, s');
  }

  lemma {:induction false} PutSize(clients: Clients, id: ClusterId, p: Pooled)
    requires id !in clients
    ensures |clients[id := p]| == |clients| + 1
  {
    assert clients[id := p].Keys == clients.Keys + {id};
  }

  lemma {:induction false} InstallApart(s: State, id: ClusterId, h: nat, s': State)
    requires Apart(s) && InCreation(s, id, h)
    requires s' == s.(now := s'.now, clients := s.clients[id := Pooled(h, s'.now)], creating := s.creating - {id})
    ensures Apart(s')
  {
    hide NoDuplicates;
    assert forall x, g: nat :: InPool(s', x, g) ==> InPool(s, x, g) || (x == id && g == h);
    assert forall x, g: nat :: InCreation(s', x, g) ==> InCreation(s, x, g) && x != id;
  }

  /** The dialled client goes to the rejected ones. */
  lemma {:induction false} RejectStep(maxConns: int, s: State, id: ClusterId, h: nat, now: int, s': State)
    requires Inv(maxConns, s) && InCreation(s, id, h) && s.now <= now
    requires s' == s.(now := now, creating := s.creating - {id}, rejected := s.rejected + [h])
    ensures Inv(maxConns, s')
  {
    hide NoDuplicates, Apart, LogsApart, InUse, IdsOk, Dialling;
    DiallingFewer(s.creating, id);
    IdsStay(s, s');
    ApartAt(s, id, h);
    OneIsDistinct(h);
    assert s.closed + [] == s.closed && [] + [h] == [h];
    assert forall x, g: nat :: InPool(s', x, g) ==> InPool(s, x, g);
    assert forall x, g: nat :: InCreation(s', x, g) ==> InCreation(s, x, g) && x != id;
    ApartAfter(s, s', [], [h]);
  }

  lemma {:induction false} OneIsDistinct(h: nat)
    ensures NoDuplicates([h])
  {
  }

  lemma {:induction false} ApartAt(s: State, id: ClusterId, h: nat)
    requires Apart(s) && InCreation(s, id, h)
    ensures InUse(s, h) && forall id', g: nat ::
            (InPool(s, id', g) ==> g != h) && (InCreation(s, id', g) && g == h ==> id' == id)
  {
  }

  lemma {:induction false} FullStep(maxConns: int, s: State, id: ClusterId, h: nat, s': State)
    requires Inv(maxConns, s) && InCreation(s, id, h) && EvictsOldest(s.clients, s.closed, s'.clients, s'.closed)
    requires s.now <= s'.now
    requires s' == s.(now := s'.now, clients := s'.clients, closed := s'.closed, creating := s.creating - {id},
                      rejected := s.rejected + [h])
    ensures Inv(maxConns, s')
  {
    hide Apart, Counted, NoneBefore;
    var between := s.(now := s'.now, creating := s.creating - {id}, rejected := s.rejected + [h]);
    RejectStep(maxConns, s, id, h, s'.now, between);
    if s.clients != map[] {
      var oldest :| LeastRecent(s.clients, oldest) && Evicts(s.clients, s.closed, s'.clients, s'.closed, oldest);
      if oldest != ZERO_ID {
        CloseOne(maxConns, between, s', oldest);
      }
    }
  }

  lemma {:induction false} CloseOneStep(maxConns: int, s: State, id: ClusterId, s': State)
    requires Inv(maxConns, s) && s.now <= s'.now
    requires s' == s.(now := s'.now, clients := s.clients - {id},
                      closed := s.closed + if id in s.clients then [s.clients[id].handle] else [])
    ensures Inv(maxConns, s')
  {
    hide Inv;
    if id in s.clients {
      CloseOne(maxConns, s, s', id);
    } else {
      assert s.clients - {id} == s.clients && s.closed + [] == s.closed;
      Later(maxConns, s, s');
    }
  }

  lemma {:induction false} CloseManyStep(maxConns: int, s: State, removed: Clients, log: seq<nat>, s': State)
    requires Inv(maxConns, s) && s.now <= s'.now && ClosesAll(removed, log)
    requires removed.Keys <= s.clients.Keys && forall id <- removed :: removed[id] == s.clients[id]
    requires s' == s.(now := s'.now, clients := s.clients - removed.Keys, closed := s.closed + log)
    ensures Inv(maxConns, s')
  {
    hide Inv, Closes;
    var order :| Closes(removed, order, log);
    CloseSome(maxConns, s, s', removed, order, log);
  }

  lemma {:induction false} Later(maxConns: int, s: State, s': State)
    requires Inv(maxConns, s) && s' == s.(now := s'.now) && s.now <= s'.now
    ensures Inv(maxConns, s')
  {
    assert forall id, h: nat :: InPool(s', id, h) <==> InPool(s, id, h);
    assert forall id, h: nat :: InCreation(s', id, h) <==> InCreation(s, id, h);
  }

  lemma {:induction false} NotBoth(maxConns: int, s: State)
    requires Inv(maxConns, s)
    ensures forall id <- s.creating :: id !in s.clients
  {
  }

  lemma {:induction false} UseCase(maxConns: int, s: State, id: ClusterId, handle: nat, s': State)
    requires Inv(maxConns, s) && Step(maxConns, s, Use(id, handle), s')
    ensures Inv(maxConns, s')
  {
    hide Inv, ClosesAll, EvictsOldest;
    if id in s.clients && s.clients[id].handle == handle {
      UseStep(maxConns, s, id, s');
    } else {
      Later(maxConns, s, s');
    }
  }

  lemma {:induction false} InstallCase(maxConns: int, s: State, id: ClusterId, outcome: Outcome, s': State)
    requires Inv(maxConns, s) && Step(maxConns, s, Install(id, outcome), s')
    ensures Inv(maxConns, s') && outcome != Existing
  {
    hide Inv, ClosesAll, EvictsOldest;
    NotBoth(maxConns, s);
    var h := s.creating[id].value;
    if |s.clients| < maxConns {
      InstallStep(maxConns, s, id, h, s');
    } else {
      FullStep(maxConns, s, id, h, s');
    }
  }

  lemma {:induction false} CloseAllCase(maxConns: int, s: State, s': State)
    requires Inv(maxConns, s) && Step(maxConns, s, CloseAll, s')
    ensures Inv(maxConns, s')
  {
    hide Inv, ClosesAll, EvictsOldest;
    var log :| s'.closed == s.closed + log && ClosesAll(s.clients, log);
    assert s.clients - s.clients.Keys == map[];
    CloseManyStep(maxConns, s, s.clients, log, s');
  }

  lemma {:induction false} ExpireCase(maxConns: int, s: State, cleanup: int, s': State)
    requires Inv(maxConns, s) && Step(maxConns, s, Expire(cleanup), s')
    ensures Inv(maxConns, s')
  {
    hide Inv, ClosesAll, EvictsOldest, Idle;
    var expired := IdleClients(s.clients, s'.now, cleanup);
    var log :| s'.closed == s.closed + log && ClosesAll(expired, log);
    CloseManyStep(maxConns, s, expired, log, s');
  }

  lemma {:induction false} StepKeepsInv(maxConns: int, s: State, a: Action, s': State)
    requires Inv(maxConns, s) && Step(maxConns, s, a, s')
    ensures Inv(maxConns, s')
    ensures a.Install? ==> a.outcome != Existing
  {
    hide Inv, ClosesAll, InstallTo, IdleClients;
    match a {
      case Use(id, handle) => UseCase(maxConns, s, id, handle, s');
      case Begin(id) => NoClientStep(maxConns, s, id, s');
      case DialFails(id) => NoClientStep(maxConns, s, id, s');
      case DialSucceeds(id) => DialStep(maxConns, s, id, s');
      case Install(id, outcome) => InstallCase(maxConns, s, id, outcome, s');
      case Close(id) => CloseOneStep(maxConns, s, id, s');
      case CloseAll => CloseAllCase(maxConns, s, s');
      case Expire(cleanup) => ExpireCase(maxConns, s, cleanup, s');
    }
  }

  // ---------------------------------------------------------------- every run

  ghost predicate Run(maxConns: int, states: seq<State>, actions: seq<Action>) {
    && |states| == |actions| + 1 && Init(states[0])
    && forall i :: 0 <= i < |actions| ==> Step(maxConns, states[i], actions[i], states[i + 1])
  }

  /** Every reachable state: at most maxConns clients are pooled, each open and under one id only; no client was
    * closed twice by the pool; and every client dialled so far is pooled, waiting to be installed, closed, or was
    * turned away when the pool was full. The third check of createClient never finds another client. */
  lemma {:induction false} PoolInvariant(maxConns: nat, states: seq<State>, actions: seq<Action>, i: nat)
    requires Run(maxConns, states, actions) && i < |states|
    ensures Inv(maxConns, states[i])
    ensures forall j :: 0 <= j < i && actions[j].Install? ==> actions[j].outcome != Existing
    decreases i
  {
    hide Step, Inv, Init;
    if i > 0 {
      PoolInvariant(maxConns, states, actions, i - 1);
      StepKeepsInv(maxConns, states[i - 1], actions[i - 1], states[i]);
    } else {
      InitInv(maxConns, states[0]);
    }
  }

  lemma {:induction false} InitInv(maxConns: nat, s: State)
    requires Init(s)
    ensures Inv(maxConns, s)
  {
    assert Dialling(s.creating) == {};
  }

  // ---------------------------------------------------------------- what a stamp means

  /** The client h is installed, or a caller that found it in the pool stamps it. */
  ghost predicate Uses(s: State, a: Action, h: nat) {
    || (a.Use? && a.handle == h && a.id in s.clients && s.clients[a.id].handle == h)
    || (a.Install? && a.outcome == Installed && a.id in s.creating && s.creating[a.id] == Some(h))
  }

  /** When h was last used before the k-th step. */
  ghost function LastUse(states: seq<State>, actions: seq<Action>, k: nat, h: nat): int
    requires k < |states| && k <= |actions|
  {
    if k == 0 then ZERO_TIME
    else if Uses(states[k - 1], actions[k - 1], h) then states[k].now
    else LastUse(states, actions, k - 1, h)
  }

  /** In every run the stamp of a pooled client is the time of its last use. */
  lemma {:induction false} StampIsLastUse(maxConns: nat, states: seq<State>, actions: seq<Action>, k: nat,
                                          id: ClusterId)
    requires Run(maxConns, states, actions) && k < |states| && id in states[k].clients
    ensures states[k].clients[id].lastUsed == LastUse(states, actions, k, states[k].clients[id].handle)
    decreases k
  {
    hide Step, Inv, Uses, Init;
    if k > 0 {
      var s, a, s' := states[k - 1], actions[k - 1], states[k];
      PoolInvariant(maxConns, states, actions, k - 1);
      assert Step(maxConns, s, a, s');
      StepStamps(maxConns, s, a, s', id);
      if !Uses(s, a, s'.clients[id].handle) {
        StampIsLastUse(maxConns, states, actions, k - 1, id);
      }
    } else {
      NothingPooled(states[0], id);
    }
  }

  lemma {:induction false} NothingPooled(s: State, id: ClusterId)
    requires Init(s)
    ensures id !in s.clients
  {
  }

  lemma {:induction false} StepStamps(maxConns: int, s: State, a: Action, s': State, id: ClusterId)
    requires Inv(maxConns, s) && Step(maxConns, s, a, s') && id in s'.clients
    ensures if Uses(s, a, s'.clients[id].handle) then s'.clients[id].lastUsed == s'.now
            else id in s.clients && s'.clients[id] == s.clients[id]
  {
    hide Inv, ClosesAll, Idle, EvictsOldest;
    if a.Use? {
      UseStamps(maxConns, s, a.id, a.handle, s', id);
    } else if a.Install? {
      InstallStamps(maxConns, s, a.id, a.outcome, s', id);
    }
  }

  lemma {:induction false} UseStamps(maxConns: int, s: State, used: ClusterId, handle: nat, s': State, id: ClusterId)
    requires Inv(maxConns, s) && Step(maxConns, s, Use(used, handle), s') && id in s'.clients
    ensures if Uses(s, Use(used, handle), s'.clients[id].handle) then s'.clients[id].lastUsed == s'.now
            else id in s.clients && s'.clients[id] == s.clients[id]
  {
    hide Counted, LogsApart;
    assert InPool(s, id, s.clients[id].handle);
    if used in s.clients {
      assert InPool(s, used, s.clients[used].handle);
    }
  }

  lemma {:induction false} InstallStamps(maxConns: int, s: State, installed: ClusterId, outcome: Outcome, s': State,
                                         id: ClusterId)
    requires Inv(maxConns, s) && Step(maxConns, s, Install(installed, outcome), s') && id in s'.clients
    ensures if Uses(s, Install(installed, outcome), s'.clients[id].handle) then s'.clients[id].lastUsed == s'.now
            else id in s.clients && s'.clients[id] == s.clients[id]
  {
    hide Counted, LogsApart, NoneBefore;
    NotBoth(maxConns, s);
    assert InCreation(s, installed, s.creating[installed].value);
    if id in s.clients {
      assert InPool(s, id, s.clients[id].handle);
    }
  }

  lemma {:induction false} Before(clients: Clients, id: ClusterId, other: ClusterId)
    requires LeastRecent(clients, id) && other in clients
    ensures clients[id].lastUsed <= clients[other].lastUsed
  {
  }

  /** The cleanup closes exactly those clients whose last use is longer ago than its limit. */
  lemma {:induction false} ExpiresUnused(maxConns: nat, states: seq<State>, actions: seq<Action>, k: nat, id: ClusterId)
    requires Run(maxConns, states, actions) && k < |actions| && actions[k].Expire? && id in states[k].clients
    ensures id !in states[k + 1].clients
            <==> states[k + 1].now - LastUse(states, actions, k, states[k].clients[id].handle) > actions[k].cleanup
    ensures id in states[k + 1].clients ==> states[k + 1].clients[id] == states[k].clients[id]
  {
    hide LastUse, ClosesAll;
    StampIsLastUse(maxConns, states, actions, k, id);
    assert Step(maxConns, states[k], actions[k], states[k + 1]);
  }

  /** An install is refused exactly when the pool is full; then one client goes, and no client that stays was last used
    * before it. Otherwise the new client is pooled and all others stay. */
  lemma {:induction false} WhatInstallDoes(maxConns: nat, states: seq<State>, actions: seq<Action>, k: nat)
    returns (evicted: ClusterId)
    requires Run(maxConns, states, actions) && k < |actions| && actions[k].Install?
    ensures var s, s', id := states[k], states[k + 1], actions[k].id;
            && id !in s.clients && id in s.creating && s.creating[id].Some?
            && (actions[k].outcome == TooManyConnections <==> |s.clients| >= maxConns)
            && (|s.clients| < maxConns ==>
                  s'.clients == s.clients[id := Pooled(s.creating[id].value, s'.now)] && s'.closed == s.closed)
            && (|s.clients| >= maxConns && s.clients != map[] ==>
                  && evicted in s.clients && s'.clients == s.clients - {evicted}
                  && s'.closed == s.closed + [s.clients[evicted].handle]
                  && forall other <- s.clients ::
                       LastUse(states, actions, k, s.clients[evicted].handle)
                       <= LastUse(states, actions, k, s.clients[other].handle))
  {
    hide LastUse, Apart, Counted, NoneBefore;
    var s, s', id := states[k], states[k + 1], actions[k].id;
    PoolInvariant(maxConns, states, actions, k);
    assert Step(maxConns, s, actions[k], s');
    NotBoth(maxConns, s);
    evicted := ZERO_ID;
    if |s.clients| >= maxConns && s.clients != map[] {
      evicted :| LeastRecent(s.clients, evicted) && Evicts(s.clients, s.closed, s'.clients, s'.closed, evicted);
      NoneUsedBefore(maxConns, states, actions, k, evicted);
    }
  }

  lemma {:induction false} NoneUsedBefore(maxConns: nat, states: seq<State>, actions: seq<Action>, k: nat,
                                          id: ClusterId)
    requires Run(maxConns, states, actions) && k < |actions| && LeastRecent(states[k].clients, id)
    ensures forall other <- states[k].clients ::
              LastUse(states, actions, k, states[k].clients[id].handle)
              <= LastUse(states, actions, k, states[k].clients[other].handle)
  {
    hide LastUse, Step, Init, NoneBefore;
    StampIsLastUse(maxConns, states, actions, k, id);
    forall other | other in states[k].clients
      ensures LastUse(states, actions, k, states[k].clients[id].handle)
              <= LastUse(states, actions, k, states[k].clients[other].handle)
    {
      StampIsLastUse(maxConns, states, actions, k, other);
      Before(states[k].clients, id, other);
    }
  }

  /** A rejection evicts a least recently used client, so a caller who tries again at once and whose dial succeeds
    * is served. */
  lemma {:induction false} RetrySucceeds(maxConns: nat, s: State, id: ClusterId, states: seq<State>, outcome: Outcome)
    requires 1 <= maxConns && Inv(maxConns, s) && |states| == 4
    requires Step(maxConns, s, Install(id, TooManyConnections), states[0])
    requires Step(maxConns, states[0], Begin(id), states[1])
    requires Step(maxConns, states[1], DialSucceeds(id), states[2])
    requires Step(maxConns, states[2], Install(id, outcome), states[3])
    ensures exists id' ::
              && LeastRecent(s.clients, id') && states[0].clients == s.clients - {id'}
              && s.clients[id'].handle in states[0].closed
    ensures outcome == Installed && id in states[3].clients && states[3].clients[id].handle == states[1].dialled
  {
    hide Inv, NoneBefore, EvictsOldest;
    var oldest := Turned(maxConns, s, id, states[0]);
    Again(maxConns, id, states, outcome);
  }

  lemma {:induction false} Turned(maxConns: nat, s: State, id: ClusterId, s': State) returns (oldest: ClusterId)
    requires 1 <= maxConns && Inv(maxConns, s) && Step(maxConns, s, Install(id, TooManyConnections), s')
    ensures LeastRecent(s.clients, oldest) && s'.clients == s.clients - {oldest}
    ensures s.clients[oldest].handle in s'.closed
    ensures id !in s'.clients && |s'.clients| < maxConns
  {
    hide Apart, Counted, NoneBefore;
    NotBoth(maxConns, s);
    assert id in s.creating && |s.clients| >= maxConns && s.clients != map[];
    oldest :| LeastRecent(s.clients, oldest) && Evicts(s.clients, s.closed, s'.clients, s'.closed, oldest);
    RemoveSize(s.clients, {oldest});
  }

  lemma {:induction false} Again(maxConns: nat, id: ClusterId, states: seq<State>, outcome: Outcome)
    requires |states| == 4 && id !in states[0].clients && |states[0].clients| < maxConns
    requires Step(maxConns, states[0], Begin(id), states[1])
    requires Step(maxConns, states[1], DialSucceeds(id), states[2])
    requires Step(maxConns, states[2], Install(id, outcome), states[3])
    ensures outcome == Installed && id in states[3].clients && states[3].clients[id].handle == states[1].dialled
  {
    hide EvictsOldest;
  }

  /** An install into a full pool can end without an eviction if and only if a client under the id 0 is among the least
    * recently used. Cluster ids are handed out from 1 on. */
  lemma {:induction false} BlockedIff(clients: Clients, closed: seq<nat>, maxConns: int, id: ClusterId, handle: nat,
                                      now: int)
    requires id !in clients && clients != map[] && |clients| >= maxConns
    ensures (exists clients', closed' ::
             InstallTo(clients, closed, clients', closed', maxConns, id, handle, now, TooManyConnections)
               && clients' == clients)
            <==> LeastRecent(clients, ZERO_ID)
  {
    hide NoneBefore;
    if LeastRecent(clients, ZERO_ID) {
      assert Evicts(clients, closed, clients, closed, ZERO_ID);
      assert InstallTo(clients, closed, clients, closed, maxConns, id, handle, now, TooManyConnections);
    }
    if clients', closed' :|
         && InstallTo(clients, closed, clients', closed', maxConns, id, handle, now, TooManyConnections)
         && clients' == clients {
      var oldest :| LeastRecent(clients, oldest) && Evicts(clients, closed, clients', closed', oldest);
      assert oldest !in clients - {oldest};
    }
  }

  /** For example, a client under the id 0 blocks a pool of one for good. */
  lemma {:induction false} ZeroIdBlocks(p: Pooled, closed: seq<nat>, clients': Clients, closed': seq<nat>,
                                        id: ClusterId, handle: nat, now: int, outcome: Outcome)
    requires id != ZERO_ID && InstallTo(map[ZERO_ID := p], closed, clients', closed', 1, id, handle, now, outcome)
    ensures outcome == TooManyConnections && clients' == map[ZERO_ID := p]
  {
    assert |map[ZERO_ID := p]| == 1;
  }
}
