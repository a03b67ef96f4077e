/** Bringing the topic rows of a cluster to a Kafka snapshot, two ways: the worker's loop
 * (internal/worker/sync_worker.go) and the service's loop (internal/service/topic/topic_service.go).
 *
 * Any subset of the repository writes may fail; within one run every topic name is written at most once, so a
 * failure pattern is the set of names whose write fails. */
module TopicSync {
  import opened Text

  datatype SyncStatus = Synced | Pending | Conflict

  datatype Topic = Topic(id: int, clusterId: int, name: string, description: string, partitions: int,
                         replicationFactor: int, config: map<string, string>, status: SyncStatus,
                         lastSyncAt: Option<int>)

  datatype TopicDetail = TopicDetail(numPartitions: int, replicationFactor: int)
  type Snapshot = map<string, TopicDetail>

  /** The table, keyed by its unique index (cluster_id, topic_name). */
  datatype Key = Key(cluster: int, name: string)
  type Rows = map<Key, Topic>

  ghost predicate RowsOk(rows: Rows, nextId: int) {
    KeysMatch(rows, nextId) && IdsDistinct(rows)
  }

  ghost predicate KeysMatch(rows: Rows, nextId: int) {
    0 < nextId && forall k <- rows ::
      rows[k].clusterId == k.cluster && rows[k].name == k.name && 0 < rows[k].id < nextId
  }

  ghost predicate IdsDistinct(rows: Rows) {
    forall k, k' :: k in rows && k' in rows && rows[k].id == rows[k'].id ==> k == k'
  }

  // ---------------------------------------------------------------- what a run is meant to do

  /** Who runs the sync: only the worker stamps the time and skips rows that are already right. */
  datatype Runner = Worker(now: int) | Service

  predicate AtTarget(row: Topic, detail: TopicDetail) {
    row.partitions == detail.numPartitions && row.replicationFactor == detail.replicationFactor && row.status == Synced
  }

  function UpdatedRow(who: Runner, row: Topic, detail: TopicDetail): Topic {
    var target := row.(partitions := detail.numPartitions, replicationFactor := detail.replicationFactor,
                       status := Synced);
    match who
    case Service => target
    case Worker(now) => if AtTarget(row, detail) then row else target.(lastSyncAt := Some(now))
  }

  function NewRow(who: Runner, cluster: int, name: string, detail: TopicDetail, id: int): Topic {
    Topic(id, cluster, name, "", detail.numPartitions, detail.replicationFactor, map[], Synced,
          if who.Worker? then Some(who.now) else None)
  }

  ghost predicate FreshId(before: Rows, id: int) {
    forall k <- before :: before[k].id != id
  }

  ghost predicate Untouched(before: Rows, after: Rows, k: Key) {
    if k in before then k in after && after[k] == before[k] else k !in after
  }

  /** What the run makes of one name. */
  ghost predicate Settled(who: Runner, before: Rows, after: Rows, cluster: int, snapshot: Snapshot, fails: set<string>,
                          n: string) {
    var k := Key(cluster, n);
    if n in fails then Untouched(before, after, k)
    else if n !in snapshot then k !in after
    else if k in before then k in after && after[k] == UpdatedRow(who, before[k], snapshot[n])
    else k in after && FreshId(before, after[k].id) && after[k] == NewRow(who, cluster, n, snapshot[n], after[k].id)
  }

  /** The effect of one run: every name of the cluster is settled, other clusters are untouched. */
  ghost predicate Reconciled(who: Runner, before: Rows, after: Rows, cluster: int, snapshot: Snapshot,
                             fails: set<string>) {
    OthersKept(before, after, cluster) && AllSettled(who, before, after, cluster, snapshot, fails)
  }

  ghost predicate OthersKept(before: Rows, after: Rows, cluster: int) {
    forall k: Key :: k.cluster != cluster ==> Untouched(before, after, k)
  }

  ghost predicate AllSettled(who: Runner, before: Rows, after: Rows, cluster: int, snapshot: Snapshot,
                             fails: set<string>) {
    forall n :: Settled(who, before, after, cluster, snapshot, fails, n)
  }

  /** A run half way: the names in `done` are settled, all else is as before. */
  ghost predicate Progress(who: Runner, before: Rows, rows: Rows, cluster: int, snapshot: Snapshot, fails: set<string>,
                           done: set<string>) {
    && (forall k: Key :: k.cluster != cluster || k.name !in done ==> Untouched(before, rows, k))
    && (forall n :: n in done ==> Settled(who, before, rows, cluster, snapshot, fails, n))
  }

  ghost function Names(rows: Rows, cluster: int): set<string> {
    set k | k in rows && k.cluster == cluster :: k.name
  }

  /** The row of a name is not what the snapshot says. */
  ghost predicate Diverges(rows: Rows, cluster: int, snapshot: Snapshot, n: string) {
    var k := Key(cluster, n);
    if n in snapshot then k !in rows || !AtTarget(rows[k], snapshot[n]) else k in rows
  }

  ghost function Divergent(rows: Rows, cluster: int, snapshot: Snapshot): set<string> {
    set n | n in Names(rows, cluster) + snapshot.Keys && Diverges(rows, cluster, snapshot, n)
  }

  // ---------------------------------------------------------------- the repository

  class TopicRepository {
    var rows: Rows
    var nextId: int
    ghost var attempts: seq<string>  // the names written so far, failed writes included

    constructor (rows: Rows, nextId: int)
      requires RowsOk(rows, nextId)
      ensures this.rows == rows && this.nextId == nextId && attempts == [] && RowsOk(this.rows, this.nextId)
    {
      this.rows, this.nextId, attempts := rows, nextId, [];
    }

    method ListByCluster(cluster: int) returns (topics: set<Topic>)
      ensures topics == set k | k in rows && k.cluster == cluster :: rows[k]
    {
      topics := set k | k in rows && k.cluster == cluster :: rows[k];
    }

    /** gorm's Save: the row with the topic's id is replaced, or the topic inserted if there is none (under a new id
      * if it has none). The unique index refuses a topic whose cluster and name belong to another row. */
    method Update(topic: Topic, fails: bool)
      requires RowsOk(rows, nextId)
      modifies this
      ensures rows == if fails || Refused(old(rows), topic) then old(rows) else Saved(old(rows), old(nextId), topic)
      ensures RowsOk(rows, nextId) && nextId >= old(nextId) && attempts == old(attempts) + [topic.name]
      ensures Present(old(rows), topic) ==> nextId == old(nextId)
    {
      attempts := attempts + [topic.name];
      if !fails && !Refused(rows, topic) {
        SaveKeepsOk(rows, nextId, topic);
        var id := SavedId(nextId, topic);
        rows := Saved(rows, nextId, topic);
        if id >= nextId {
          nextId := id + 1;
        }
      }
    }

    /** Inserts a row under a new id. The unique index refuses a second row with its cluster and name. */
    method Create(topic: Topic, fails: bool)
      requires RowsOk(rows, nextId)
      modifies this
      ensures var k := Key(topic.clusterId, topic.name);
              if fails || k in old(rows) then rows == old(rows) && nextId == old(nextId)
              else rows == old(rows)[k := topic.(id := old(nextId))] && nextId == old(nextId) + 1
      ensures RowsOk(rows, nextId) && attempts == old(attempts) + [topic.name]
    {
      attempts := attempts + [topic.name];
      var k := Key(topic.clusterId, topic.name);
      if !fails && k !in rows {
        rows := rows[k := topic.(id := nextId)];
        nextId := nextId + 1;
      }
    }

    method Delete(id: int, ghost name: string, fails: bool)
      requires RowsOk(rows, nextId)
      modifies this
      ensures rows == if fails then old(rows) else map k | k in old(rows) && old(rows)[k].id != id :: old(rows)[k]
      ensures RowsOk(rows, nextId) && nextId == old(nextId) && attempts == old(attempts) + [name]
    {
      attempts := attempts + [name];
      if !fails {
        rows := map k | k in rows && rows[k].id != id :: rows[k];
      }
    }
  }

  /** A row with the topic's id, cluster and name is there. */
  predicate Present(rows: Rows, topic: Topic) {
    var k := Key(topic.clusterId, topic.name);
    k in rows && rows[k].id == topic.id
  }

  predicate Refused(rows: Rows, topic: Topic) {
    var k := Key(topic.clusterId, topic.name);
    topic.id < 0 || (k in rows && rows[k].id != topic.id)
  }

  function SavedId(nextId: int, topic: Topic): int {
    if topic.id == 0 then nextId else topic.id
  }

  function Saved(rows: Rows, nextId: int, topic: Topic): Rows {
    var others := map k | k in rows && rows[k].id != topic.id :: rows[k];
    others[Key(topic.clusterId, topic.name) := topic.(id := SavedId(nextId, topic))]
  }

  lemma {:induction false} SaveKeepsOk(rows: Rows, nextId: int, topic: Topic)
    requires RowsOk(rows, nextId) && !Refused(rows, topic)
    ensures var id := SavedId(nextId, topic);
            RowsOk(Saved(rows, nextId, topic), if id >= nextId then id + 1 else nextId)
    ensures Present(rows, topic)
            ==> Saved(rows, nextId, topic) == rows[Key(topic.clusterId, topic.name) := topic] && topic.id < nextId
  {
  }

  /** The rows of a cluster by name, as both loops build it. */
  method TopicsByName(repo: TopicRepository, cluster: int) returns (byName: map<string, Topic>)
    requires RowsOk(repo.rows, repo.nextId)
    ensures byName == ByName(repo.rows, cluster)
  {
    var topics := repo.ListByCluster(cluster);
    byName := map[];
    var todo := topics;
    while todo != {}
      invariant todo <= topics
      invariant forall n :: n in byName <==> Key(cluster, n) in repo.rows && repo.rows[Key(cluster, n)] !in todo
      invariant forall n <- byName :: byName[n] == repo.rows[Key(cluster, n)]
      decreases todo
    {
      var topic :| topic in todo;
      todo := todo - {topic};
      byName := byName[topic.name := topic];
    }
  }

  ghost function ByName(rows: Rows, cluster: int): map<string, Topic> {
    map n | n in Names(rows, cluster) :: rows[Key(cluster, n)]
  }

  // ---------------------------------------------------------------- one name at a time

  lemma {:induction false} ByNameAt(rows: Rows, cluster: int)
    ensures ByName(rows, cluster).Keys == Names(rows, cluster)
    ensures forall n :: n in ByName(rows, cluster) <==> Key(cluster, n) in rows
    ensures forall n <- ByName(rows, cluster) :: ByName(rows, cluster)[n] == rows[Key(cluster, n)]
  {
    NamesKeys(rows, cluster);
  }

  lemma {:induction false} NamesKeys(rows: Rows, cluster: int)
    ensures forall n :: n in Names(rows, cluster) <==> Key(cluster, n) in rows
  {
    forall n ensures n in Names(rows, cluster) <==> Key(cluster, n) in rows {
      if Key(cluster, n) in rows {
        assert Key(cluster, n).name in Names(rows, cluster);
      }
    }
  }

  /** Between two writes: `done` is settled, all else is as before, and `written` lists the targets among `done`. */
  ghost predicate RunState(who: Runner, before: Rows, firstFresh: int, rows: Rows, nextId: int, cluster: int,
                           snapshot: Snapshot, fails: set<string>, targets: set<string>, done: set<string>,
                           written: seq<string>) {
    && RowsOk(before, firstFresh) && RowsOk(rows, nextId) && firstFresh <= nextId
    && Progress(who, before, rows, cluster, snapshot, fails, done)
    && Enumerates(written, targets * done)
  }

  /** One name was handled: its row is settled, no other row changed, and a new row has a new id. */
  ghost predicate Handled(who: Runner, rows: Rows, nextId: int, rows': Rows, nextId': int, cluster: int,
                          snapshot: Snapshot, fails: set<string>, n: string) {
    && RowsOk(rows', nextId') && nextId <= nextId'
    && OnlyTouched(rows, rows', Key(cluster, n))
    && Settled(who, rows, rows', cluster, snapshot, fails, n)
    && (Key(cluster, n) !in rows && Key(cluster, n) in rows' ==> rows'[Key(cluster, n)].id >= nextId)
  }

  ghost predicate OnlyTouched(rows: Rows, rows': Rows, touched: Key) {
    forall k: Key :: k != touched ==> Untouched(rows, rows', k)
  }

  lemma {:induction false} RunStep(who: Runner, before: Rows, firstFresh: int, rows: Rows, nextId: int, rows': Rows,
                                   nextId': int, cluster: int, snapshot: Snapshot, fails: set<string>,
                                   targets: set<string>, done: set<string>, written: seq<string>, n: string)
    requires RunState(who, before, firstFresh, rows, nextId, cluster, snapshot, fails, targets, done, written)
    requires Handled(who, rows, nextId, rows', nextId', cluster, snapshot, fails, n) && n !in done
    ensures RunState(who, before, firstFresh, rows', nextId', cluster, snapshot, fails, targets, done + {n},
                     if n in targets then written + [n] else written)
  {
    hide RowsOk, KeysMatch, IdsDistinct, AtTarget, UpdatedRow, NewRow, Enumerates;
    EnumeratesStep(written, targets, done, n);
    assert Untouched(before, rows, Key(cluster, n));
    assert Settled(who, before, rows', cluster, snapshot, fails, n) by {
      FreshAgain(before, firstFresh, nextId);
    }
    forall k: Key | k.cluster != cluster || k.name !in done + {n} ensures Untouched(before, rows', k) {
      assert Untouched(before, rows, k) && Untouched(rows, rows', k);
    }
    forall m | m in done ensures Settled(who, before, rows', cluster, snapshot, fails, m) {
      assert Settled(who, before, rows, cluster, snapshot, fails, m) && Untouched(rows, rows', Key(cluster, m));
    }
  }

  lemma {:induction false} EnumeratesStep(written: seq<string>, targets: set<string>, done: set<string>, n: string)
    requires Enumerates(written, targets * done) && n !in done
    ensures Enumerates(if n in targets then written + [n] else written, targets * (done + {n}))
  {
    if n in targets {
      assert targets * (done + {n}) == targets * done + {n};
    } else {
      assert targets * (done + {n}) == targets * done;
    }
  }

  lemma {:induction false} FreshAgain(before: Rows, firstFresh: int, nextId: int)
    requires RowsOk(before, firstFresh) && firstFresh <= nextId
    ensures forall id :: id >= nextId ==> FreshId(before, id)
  {
  }

  /** Saving the updated row handles its name; when it is right already, a worker handles it by leaving it alone. */
  lemma {:induction false} RowHandled(who: Runner, rows: Rows, nextId: int, cluster: int, snapshot: Snapshot,
                                      fails: set<string>, n: string)
    requires RowsOk(rows, nextId) && n in snapshot && Key(cluster, n) in rows
    ensures Diverges(rows, cluster, snapshot, n) <==> !AtTarget(rows[Key(cluster, n)], snapshot[n])
    ensures rows[Key(cluster, n)].name == n
    ensures var row := UpdatedRow(who, rows[Key(cluster, n)], snapshot[n]);
            && Present(rows, row)
            && Handled(who, rows, nextId, if n in fails || Refused(rows, row) then rows else Saved(rows, nextId, row),
                       nextId, cluster, snapshot, fails, n)
            && (row == rows[Key(cluster, n)] ==> Handled(who, rows, nextId, rows, nextId, cluster, snapshot, fails, n))
  {
    var row := UpdatedRow(who, rows[Key(cluster, n)], snapshot[n]);
    assert !Refused(rows, row);
    SaveKeepsOk(rows, nextId, row);
  }

  /** Creating the row of a name that has none handles the name. */
  lemma {:induction false} NewHandled(who: Runner, rows: Rows, nextId: int, cluster: int, snapshot: Snapshot,
                                      fails: set<string>, n: string, topic: Topic)
    requires RowsOk(rows, nextId) && n in snapshot && Key(cluster, n) !in rows
    requires topic == NewRow(who, cluster, n, snapshot[n], 0)
    ensures Diverges(rows, cluster, snapshot, n)
    ensures var rows' := if n in fails then rows else rows[Key(cluster, n) := topic.(id := nextId)];
            Handled(who, rows, nextId, rows', if n in fails then nextId else nextId + 1, cluster, snapshot, fails, n)
  {
    FreshAgain(rows, nextId, nextId);
  }

  /** Deleting by id removes exactly the row of that name. */
  lemma {:induction false} DeleteOne(rows: Rows, nextId: int, k: Key)
    requires RowsOk(rows, nextId) && k in rows
    ensures (map x | x in rows && rows[x].id != rows[k].id :: rows[x]) == rows - {k}
  {
  }

  lemma {:induction false} Finished(who: Runner, before: Rows, firstFresh: int, rows: Rows, nextId: int, cluster: int,
                                    snapshot: Snapshot, fails: set<string>, targets: set<string>, done: set<string>,
                                    written: seq<string>)
    requires RunState(who, before, firstFresh, rows, nextId, cluster, snapshot, fails, targets, done, written)
    requires done == Names(before, cluster) + snapshot.Keys && targets <= done
    ensures RowsOk(rows, nextId) && Reconciled(who, before, rows, cluster, snapshot, fails)
    ensures Enumerates(written, targets)
  {
    NamesKeys(before, cluster);
    assert targets * done == targets;
    forall n: string ensures Settled(who, before, rows, cluster, snapshot, fails, n) {
      if n !in done {
        assert Untouched(before, rows, Key(cluster, n));
      }
    }
  }

  // ---------------------------------------------------------------- the worker

  /** One turn of the worker's loop over the snapshot. */
  method WorkerSyncOne(repo: TopicRepository, cluster: int, ghost kafkaTopics: Snapshot, name: string,
                       detail: TopicDetail, dbTopicMap: map<string, Topic>, now: int, fails: set<string>)
    requires RowsOk(repo.rows, repo.nextId) && name in kafkaTopics && kafkaTopics[name] == detail
    requires name in dbTopicMap <==> Key(cluster, name) in repo.rows
    requires name in dbTopicMap ==> dbTopicMap[name] == repo.rows[Key(cluster, name)]
    modifies repo
    ensures Handled(Worker(now), old(repo.rows), old(repo.nextId), repo.rows, repo.nextId, cluster, kafkaTopics, fails,
                    name)
    ensures repo.attempts == old(repo.attempts) +
            if Diverges(old(repo.rows), cluster, kafkaTopics, name) then [name] else []
  {
    hide RowsOk, KeysMatch, IdsDistinct, Handled, OnlyTouched, Settled, Diverges, Present, Refused, Saved;
    ghost var rows, nextId := repo.rows, repo.nextId;
    if name in dbTopicMap {
      RowHandled(Worker(now), rows, nextId, cluster, kafkaTopics, fails, name);
      var existing := dbTopicMap[name];
      if existing.partitions != detail.numPartitions || existing.replicationFactor != detail.replicationFactor {
        existing := existing.(partitions := detail.numPartitions, replicationFactor := detail.replicationFactor,
                              status := Synced, lastSyncAt := Some(now));
        repo.Update(existing, name in fails);
      } else if existing.status != Synced {
        existing := existing.(status := Synced, lastSyncAt := Some(now));
        repo.Update(existing, name in fails);
      }
    } else {
      var topic := Topic(0, cluster, name, "", detail.numPartitions, detail.replicationFactor, map[], Synced,
                         Some(now));
      NewHandled(Worker(now), rows, nextId, cluster, kafkaTopics, fails, name, topic);
      repo.Create(topic, name in fails);
    }
  }

  /** The worker's loop over the snapshot; it drops every name it handles from the map of rows. */
  method WorkerUpdateAll(repo: TopicRepository, cluster: int, kafkaTopics: Snapshot, dbTopics: map<string, Topic>,
                         now: int, fails: set<string>)
    returns (dbTopicMap: map<string, Topic>, ghost written: seq<string>)
    requires RowsOk(repo.rows, repo.nextId) && dbTopics == ByName(repo.rows, cluster)
    modifies repo
    ensures dbTopicMap == dbTopics - kafkaTopics.Keys && repo.attempts == old(repo.attempts) + written
    ensures RunState(Worker(now), old(repo.rows), old(repo.nextId), repo.rows, repo.nextId, cluster, kafkaTopics, fails,
                     Divergent(old(repo.rows), cluster, kafkaTopics), kafkaTopics.Keys, written)
  {
    hide RowsOk, KeysMatch, IdsDistinct, RunState, Progress, Handled, OnlyTouched, Settled, Diverges, Divergent, Names,
         ByName;
    ghost var before, firstFresh, log := repo.rows, repo.nextId, repo.attempts;
    ghost var targets := Divergent(before, cluster, kafkaTopics);
    written := [];
    Start(Worker(now), before, firstFresh, cluster, kafkaTopics, fails, targets);
    dbTopicMap := dbTopics;
    var todo := kafkaTopics.Keys;
    assert kafkaTopics.Keys - todo == {};
    while todo != {}
      invariant todo <= kafkaTopics.Keys
      invariant dbTopicMap == dbTopics - (kafkaTopics.Keys - todo)
      invariant RunState(Worker(now), before, firstFresh, repo.rows, repo.nextId, cluster, kafkaTopics, fails, targets,
                         kafkaTopics.Keys - todo, written)
      invariant repo.attempts == log + written
      decreases todo
    {
      var name :| name in todo;
      ghost var rows, nextId, was, done := repo.rows, repo.nextId, todo, kafkaTopics.Keys - todo;
      NotYet(Worker(now), before, firstFresh, rows, nextId, cluster, kafkaTopics, fails, targets, done, written, name);
      WorkerSyncOne(repo, cluster, kafkaTopics, name, kafkaTopics[name], dbTopicMap, now, fails);
      RunStep(Worker(now), before, firstFresh, rows, nextId, repo.rows, repo.nextId, cluster, kafkaTopics, fails,
              targets, done, written, name);
      todo := todo - {name};
      dbTopicMap := dbTopicMap - {name};
      OneMore(kafkaTopics.Keys, was, todo, name);
      MinusOneMore(dbTopics, done, name);
      written := if name in targets then written + [name] else written;
    }
    assert kafkaTopics.Keys - todo == kafkaTopics.Keys;
  }

  /** Deletes the rows that are left. */
  method WorkerDeleteRest(repo: TopicRepository, cluster: int, ghost kafkaTopics: Snapshot,
                          dbTopicMap: map<string, Topic>, ghost now: int, fails: set<string>, ghost before: Rows,
                          ghost firstFresh: int, ghost targets: set<string>, ghost handled: seq<string>)
    returns (ghost written: seq<string>)
    requires RunState(Worker(now), before, firstFresh, repo.rows, repo.nextId, cluster, kafkaTopics, fails, targets,
                      kafkaTopics.Keys, handled)
    requires dbTopicMap == ByName(before, cluster) - kafkaTopics.Keys
    requires targets == Divergent(before, cluster, kafkaTopics)
    modifies repo
    ensures repo.attempts == old(repo.attempts) + written
    ensures RunState(Worker(now), before, firstFresh, repo.rows, repo.nextId, cluster, kafkaTopics, fails, targets,
                     kafkaTopics.Keys + dbTopicMap.Keys, handled + written)
  {
    hide RowsOk, KeysMatch, IdsDistinct, RunState, Progress, Handled, OnlyTouched, Settled, Diverges, Divergent, Names,
         ByName;
    ghost var log := repo.attempts;
    written := [];
    assert handled + written == handled;
    assert kafkaTopics.Keys + (dbTopicMap.Keys - dbTopicMap.Keys) == kafkaTopics.Keys;
    var todo := dbTopicMap.Keys;
    while todo != {}
      invariant todo <= dbTopicMap.Keys
      invariant RunState(Worker(now), before, firstFresh, repo.rows, repo.nextId, cluster, kafkaTopics, fails, targets,
                         kafkaTopics.Keys + (dbTopicMap.Keys - todo), handled + written)
      invariant repo.attempts == log + written
      decreases todo
    {
      var name :| name in todo;
      ghost var rows, nextId, done := repo.rows, repo.nextId, kafkaTopics.Keys + (dbTopicMap.Keys - todo);
      NotYet(Worker(now), before, firstFresh, rows, nextId, cluster, kafkaTopics, fails, targets, done,
             handled + written, name);
      DeleteHandled(Worker(now), rows, nextId, cluster, kafkaTopics, fails, name);
      repo.Delete(dbTopicMap[name].id, name, name in fails);
      RunStep(Worker(now), before, firstFresh, rows, nextId, repo.rows, repo.nextId, cluster, kafkaTopics, fails,
              targets, done, handled + written, name);
      todo := todo - {name};
      assert kafkaTopics.Keys + (dbTopicMap.Keys - todo) == done + {name};
      assert handled + (written + [name]) == handled + written + [name];
      written := written + [name];
    }
    assert kafkaTopics.Keys + (dbTopicMap.Keys - todo) == kafkaTopics.Keys + dbTopicMap.Keys;
  }

  method WorkerSyncTopics(repo: TopicRepository, cluster: int, kafkaTopics: Snapshot, now: int, fails: set<string>)
    returns (ghost written: seq<string>)
    requires RowsOk(repo.rows, repo.nextId)
    modifies repo
    ensures RowsOk(repo.rows, repo.nextId)
    ensures Reconciled(Worker(now), old(repo.rows), repo.rows, cluster, kafkaTopics, fails)
    ensures repo.attempts == old(repo.attempts) + written
    ensures Enumerates(written, Divergent(old(repo.rows), cluster, kafkaTopics))
  {
    hide RowsOk, KeysMatch, IdsDistinct, RunState, Progress, ByName, Reconciled, OthersKept, AllSettled, Enumerates,
         Lists, NoDuplicates, Names, Divergent;
    ghost var before, firstFresh, targets := repo.rows, repo.nextId, Divergent(repo.rows, cluster, kafkaTopics);
    DivergentAmong(before, cluster, kafkaTopics);
    var dbTopics := TopicsByName(repo, cluster);
    var dbTopicMap, updated := WorkerUpdateAll(repo, cluster, kafkaTopics, dbTopics, now, fails);
    var deleted := WorkerDeleteRest(repo, cluster, kafkaTopics, dbTopicMap, now, fails, before, firstFresh, targets,
                                    updated);
    written := updated + deleted;
    AllKeys(dbTopics, dbTopicMap, kafkaTopics.Keys);
    Finished(Worker(now), before, firstFresh, repo.rows, repo.nextId, cluster, kafkaTopics, fails, targets,
             kafkaTopics.Keys + dbTopicMap.Keys, written);
  }

  lemma {:induction false} DivergentAmong(rows: Rows, cluster: int, snapshot: Snapshot)
    ensures ByName(rows, cluster).Keys == Names(rows, cluster)
    ensures Divergent(rows, cluster, snapshot) <= Names(rows, cluster) + snapshot.Keys
  {
    ByNameAt(rows, cluster);
  }

  lemma {:induction false} OneMore(all: set<string>, todo: set<string>, todo': set<string>, n: string)
    requires todo <= all && n in todo && todo' == todo - {n}
    ensures all - todo' == (all - todo) + {n}
  {
  }

  lemma {:induction false} MinusOneMore<T>(m: map<string, T>, keys: set<string>, n: string)
    ensures m - keys - {n} == m - (keys + {n})
  {
  }

  lemma {:induction false} AllKeys<T>(all: map<string, T>, rest: map<string, T>, keys: set<string>)
    requires rest == all - keys
    ensures keys + rest.Keys == all.Keys + keys
  {
  }

  lemma {:induction false} Start(who: Runner, before: Rows, firstFresh: int, cluster: int, snapshot: Snapshot,
                                 fails: set<string>, targets: set<string>)
    requires RowsOk(before, firstFresh)
    ensures RunState(who, before, firstFresh, before, firstFresh, cluster, snapshot, fails, targets, {}, [])
  {
  }

  /** A name not handled yet still has its row, and is a target exactly if it diverged at the start. */
  lemma {:induction false} NotYet(who: Runner, before: Rows, firstFresh: int, rows: Rows, nextId: int, cluster: int,
                                  snapshot: Snapshot, fails: set<string>, targets: set<string>, done: set<string>,
                                  written: seq<string>, n: string)
    requires RunState(who, before, firstFresh, rows, nextId, cluster, snapshot, fails, targets, done, written)
    requires n !in done
    ensures RowsOk(rows, nextId)
    ensures n in ByName(before, cluster) <==> Key(cluster, n) in rows
    ensures n in ByName(before, cluster) ==> ByName(before, cluster)[n] == rows[Key(cluster, n)]
    ensures Diverges(rows, cluster, snapshot, n) <==> n in Divergent(before, cluster, snapshot)
  {
    ByNameAt(before, cluster);
    assert Untouched(before, rows, Key(cluster, n));
  }

  lemma {:induction false} DeleteHandled(who: Runner, rows: Rows, nextId: int, cluster: int, snapshot: Snapshot,
                                         fails: set<string>, n: string)
    requires RowsOk(rows, nextId) && n !in snapshot && Key(cluster, n) in rows
    ensures Diverges(rows, cluster, snapshot, n)
    ensures var id := rows[Key(cluster, n)].id;
            var rows' := if n in fails then rows else map k | k in rows && rows[k].id != id :: rows[k];
            Handled(who, rows, nextId, rows', nextId, cluster, snapshot, fails, n)
  {
    DeleteOne(rows, nextId, Key(cluster, n));
  }

  // ---------------------------------------------------------------- the service

  /** One turn of the service's loop over the snapshot. */
  method ServiceSyncOne(repo: TopicRepository, cluster: int, ghost kafkaTopics: Snapshot, name: string,
                        detail: TopicDetail, dbTopicMap: map<string, Topic>, fails: set<string>)
    requires RowsOk(repo.rows, repo.nextId) && name in kafkaTopics && kafkaTopics[name] == detail
    requires name in dbTopicMap <==> Key(cluster, name) in repo.rows
    requires name in dbTopicMap ==> dbTopicMap[name] == repo.rows[Key(cluster, name)]
    modifies repo
    ensures Handled(Service, old(repo.rows), old(repo.nextId), repo.rows, repo.nextId, cluster, kafkaTopics, fails,
                    name)
    ensures repo.attempts == old(repo.attempts) + [name]
  {
    hide RowsOk, KeysMatch, IdsDistinct, Handled, OnlyTouched, Settled, Diverges, Present, Refused, Saved;
    ghost var rows, nextId := repo.rows, repo.nextId;
    if name in dbTopicMap {
      RowHandled(Service, rows, nextId, cluster, kafkaTopics, fails, name);
      var dbTopic := dbTopicMap[name];
      dbTopic := dbTopic.(partitions := detail.numPartitions, replicationFactor := detail.replicationFactor,
                          status := Synced);
      repo.Update(dbTopic, name in fails);
    } else {
      var topic := Topic(0, cluster, name, "", detail.numPartitions, detail.replicationFactor, map[], Synced, None);
      NewHandled(Service, rows, nextId, cluster, kafkaTopics, fails, name, topic);
      repo.Create(topic, name in fails);
    }
  }

  /** The first pass: every name of the snapshot is updated or created. */
  method ServiceUpdateAll(repo: TopicRepository, cluster: int, kafkaTopicMap: Snapshot, dbTopicMap: map<string, Topic>,
                          fails: set<string>)
    returns (ghost written: seq<string>)
    requires RowsOk(repo.rows, repo.nextId) && dbTopicMap == ByName(repo.rows, cluster)
    modifies repo
    ensures repo.attempts == old(repo.attempts) + written
    ensures RunState(Service, old(repo.rows), old(repo.nextId), repo.rows, repo.nextId, cluster, kafkaTopicMap, fails,
                     kafkaTopicMap.Keys + dbTopicMap.Keys, kafkaTopicMap.Keys, written)
  {
    hide RowsOk, KeysMatch, IdsDistinct, RunState, Progress, Handled, OnlyTouched, Settled, Diverges, Divergent, Names,
         ByName;
    ghost var before, firstFresh, log := repo.rows, repo.nextId, repo.attempts;
    ghost var targets := kafkaTopicMap.Keys + dbTopicMap.Keys;
    written := [];
    Start(Service, before, firstFresh, cluster, kafkaTopicMap, fails, targets);
    var todo := kafkaTopicMap.Keys;
    assert kafkaTopicMap.Keys - todo == {};
    while todo != {}
      invariant todo <= kafkaTopicMap.Keys
      invariant RunState(Service, before, firstFresh, repo.rows, repo.nextId, cluster, kafkaTopicMap, fails, targets,
                         kafkaTopicMap.Keys - todo, written)
      invariant repo.attempts == log + written
      decreases todo
    {
      var name :| name in todo;
      ghost var rows, nextId, was, done := repo.rows, repo.nextId, todo, kafkaTopicMap.Keys - todo;
      NotYet(Service, before, firstFresh, rows, nextId, cluster, kafkaTopicMap, fails, targets, done, written, name);
      ServiceSyncOne(repo, cluster, kafkaTopicMap, name, kafkaTopicMap[name], dbTopicMap, fails);
      RunStep(Service, before, firstFresh, rows, nextId, repo.rows, repo.nextId, cluster, kafkaTopicMap, fails, targets,
              done, written, name);
      todo := todo - {name};
      OneMore(kafkaTopicMap.Keys, was, todo, name);
      written := written + [name];
    }
    assert kafkaTopicMap.Keys - todo == kafkaTopicMap.Keys;
  }

  /** The second pass: every row whose name is not in the snapshot is deleted. */
  method ServiceDeleteRest(repo: TopicRepository, cluster: int, kafkaTopicMap: Snapshot, dbTopicMap: map<string, Topic>,
                           fails: set<string>, ghost before: Rows, ghost firstFresh: int, ghost handled: seq<string>)
    returns (ghost written: seq<string>)
    requires RunState(Service, before, firstFresh, repo.rows, repo.nextId, cluster, kafkaTopicMap, fails,
                      kafkaTopicMap.Keys + dbTopicMap.Keys, kafkaTopicMap.Keys, handled)
    requires dbTopicMap == ByName(before, cluster)
    modifies repo
    ensures repo.attempts == old(repo.attempts) + written
    ensures RunState(Service, before, firstFresh, repo.rows, repo.nextId, cluster, kafkaTopicMap, fails,
                     kafkaTopicMap.Keys + dbTopicMap.Keys, kafkaTopicMap.Keys + dbTopicMap.Keys, handled + written)
  {
    hide RowsOk, KeysMatch, IdsDistinct, RunState, Progress, Handled, OnlyTouched, Settled, Diverges, Divergent, Names,
         ByName;
    ghost var log := repo.attempts;
    ghost var targets := kafkaTopicMap.Keys + dbTopicMap.Keys;
    written := [];
    assert handled + written == handled;
    assert kafkaTopicMap.Keys + (dbTopicMap.Keys - dbTopicMap.Keys) == kafkaTopicMap.Keys;
    var todo := dbTopicMap.Keys;
    while todo != {}
      invariant todo <= dbTopicMap.Keys
      invariant RunState(Service, before, firstFresh, repo.rows, repo.nextId, cluster, kafkaTopicMap, fails, targets,
                         kafkaTopicMap.Keys + (dbTopicMap.Keys - todo), handled + written)
      invariant repo.attempts == log + written
      decreases todo
    {
      var name :| name in todo;
      ghost var done := kafkaTopicMap.Keys + (dbTopicMap.Keys - todo);
      todo := todo - {name};
      assert kafkaTopicMap.Keys + (dbTopicMap.Keys - todo) == done + {name};
      if name in kafkaTopicMap {
        assert done + {name} == done;
      } else {
        ghost var rows, nextId := repo.rows, repo.nextId;
        NotYet(Service, before, firstFresh, rows, nextId, cluster, kafkaTopicMap, fails, targets, done,
               handled + written, name);
        DeleteHandled(Service, rows, nextId, cluster, kafkaTopicMap, fails, name);
        repo.Delete(dbTopicMap[name].id, name, name in fails);
        RunStep(Service, before, firstFresh, rows, nextId, repo.rows, repo.nextId, cluster, kafkaTopicMap, fails,
                targets, done, handled + written, name);
        assert handled + (written + [name]) == handled + written + [name];
        written := written + [name];
      }
    }
    assert kafkaTopicMap.Keys + (dbTopicMap.Keys - todo) == kafkaTopicMap.Keys + dbTopicMap.Keys;
  }

  method ServiceSyncTopics(repo: TopicRepository, cluster: int, kafkaTopics: Snapshot, fails: set<string>)
    returns (ghost written: seq<string>)
    requires RowsOk(repo.rows, repo.nextId)
    modifies repo
    ensures RowsOk(repo.rows, repo.nextId)
    ensures Reconciled(Service, old(repo.rows), repo.rows, cluster, kafkaTopics, fails)
    ensures repo.attempts == old(repo.attempts) + written
    ensures Enumerates(written, Names(old(repo.rows), cluster) + kafkaTopics.Keys)
  {
    hide RowsOk, KeysMatch, IdsDistinct, RunState, Progress, ByName, Reconciled, OthersKept, AllSettled, Enumerates,
         Lists, NoDuplicates, Names, Divergent;
    ghost var before, firstFresh := repo.rows, repo.nextId;
    DivergentAmong(before, cluster, kafkaTopics);
    var dbTopicMap := TopicsByName(repo, cluster);
    var updated := ServiceUpdateAll(repo, cluster, kafkaTopics, dbTopicMap, fails);
    var deleted := ServiceDeleteRest(repo, cluster, kafkaTopics, dbTopicMap, fails, before, firstFresh, updated);
    written := updated + deleted;
    ghost var all := kafkaTopics.Keys + dbTopicMap.Keys;
    assert all == Names(before, cluster) + kafkaTopics.Keys;
    Finished(Service, before, firstFresh, repo.rows, repo.nextId, cluster, kafkaTopics, fails, all, all, written);
  }

  // ---------------------------------------------------------------- what a run achieves

  lemma {:induction false} DivergentAt(rows: Rows, cluster: int, snapshot: Snapshot, n: string)
    ensures n in Divergent(rows, cluster, snapshot) <==> Diverges(rows, cluster, snapshot, n)
  {
    NamesKeys(rows, cluster);
  }

  /** One name after a run: it diverges exactly if it did before and its write failed, and its row is the old one or
    * right. */
  lemma {:induction false} OneName(who: Runner, before: Rows, after: Rows, cluster: int, snapshot: Snapshot,
                                   fails: set<string>, n: string)
    requires Settled(who, before, after, cluster, snapshot, fails, n)
    ensures Diverges(after, cluster, snapshot, n) <==> Diverges(before, cluster, snapshot, n) && n in fails
    ensures Untouched(before, after, Key(cluster, n)) || !Diverges(after, cluster, snapshot, n)
  {
  }

  /** Failed writes are contained: after the run exactly those names diverge that did before and whose write failed;
    * every other name is right, every failed one still has its old row, and other clusters are untouched. */
  lemma {:induction false} FailuresContained(who: Runner, before: Rows, after: Rows, cluster: int, snapshot: Snapshot,
                                             fails: set<string>)
    requires Reconciled(who, before, after, cluster, snapshot, fails)
    ensures Divergent(after, cluster, snapshot) == Divergent(before, cluster, snapshot) * fails
    ensures forall n :: n in fails ==> Untouched(before, after, Key(cluster, n))
    ensures forall k: Key :: k.cluster != cluster ==> Untouched(before, after, k)
  {
    hide Divergent, Diverges;
    forall n ensures n in Divergent(after, cluster, snapshot)
      <==> n in Divergent(before, cluster, snapshot) && n in fails {
      assert Settled(who, before, after, cluster, snapshot, fails, n);
      DivergentAt(before, cluster, snapshot, n);
      DivergentAt(after, cluster, snapshot, n);
      OneName(who, before, after, cluster, snapshot, fails, n);
    }
    forall n | n in fails ensures Untouched(before, after, Key(cluster, n)) {
      assert Settled(who, before, after, cluster, snapshot, fails, n);
    }
  }

  /** A row that was there keeps all but its numbers and its status, which are the snapshot's and synced; the worker
    * stamps it if it had to be changed. */
  ghost predicate BroughtUp(who: Runner, row: Topic, row': Topic, detail: TopicDetail) {
    var right := row.partitions == detail.numPartitions && row.replicationFactor == detail.replicationFactor
                 && row.status == Synced;
    row' == row.(partitions := detail.numPartitions, replicationFactor := detail.replicationFactor, status := Synced,
                 lastSyncAt := if who.Worker? && !right then Some(who.now) else row.lastSyncAt)
  }

  /** A new row has no description and no configuration; the worker stamps it. */
  ghost predicate Fresh(who: Runner, cluster: int, n: string, row: Topic, detail: TopicDetail) {
    && row.clusterId == cluster && row.name == n && row.description == "" && row.config == map[]
    && row.partitions == detail.numPartitions && row.replicationFactor == detail.replicationFactor
    && row.status == Synced && row.lastSyncAt == if who.Worker? then Some(who.now) else None
  }

  lemma {:induction false} RowAfter(who: Runner, before: Rows, after: Rows, cluster: int, snapshot: Snapshot,
                                    fails: set<string>, n: string)
    requires Settled(who, before, after, cluster, snapshot, fails, n) && n in snapshot
    requires n in fails ==> !Diverges(before, cluster, snapshot, n)
    ensures var k := Key(cluster, n);
            && k in after
            && if k in before then BroughtUp(who, before[k], after[k], snapshot[n])
               else Fresh(who, cluster, n, after[k], snapshot[n]) && FreshId(before, after[k].id)
  {
  }

  /** Without a failed write on a divergent name the cluster's rows have exactly the snapshot's names, with its
    * partitions and replication factor and status synced; a row that was there keeps all else, but for the worker's
    * time stamp, and a new row has nothing else. */
  lemma {:induction false} Converges(who: Runner, before: Rows, after: Rows, cluster: int, snapshot: Snapshot,
                                     fails: set<string>)
    requires Reconciled(who, before, after, cluster, snapshot, fails) && Divergent(before, cluster, snapshot) !! fails
    ensures Names(after, cluster) == snapshot.Keys
    ensures forall n <- snapshot :: Key(cluster, n) in after && AtTarget(after[Key(cluster, n)], snapshot[n])
    ensures forall n <- snapshot :: Key(cluster, n) in before ==>
              BroughtUp(who, before[Key(cluster, n)], after[Key(cluster, n)], snapshot[n])
    ensures forall n <- snapshot :: Key(cluster, n) !in before ==>
              Fresh(who, cluster, n, after[Key(cluster, n)], snapshot[n]) && FreshId(before, after[Key(cluster, n)].id)
  {
    hide BroughtUp, Fresh, FreshId, Settled;
    FailuresContained(who, before, after, cluster, snapshot, fails);
    NamesKeys(after, cluster);
    forall n
      ensures n in Names(after, cluster) <==> n in snapshot
      ensures n in snapshot ==> Key(cluster, n) in after && AtTarget(after[Key(cluster, n)], snapshot[n])
    {
      DivergentAt(after, cluster, snapshot, n);
      DivergentAt(before, cluster, snapshot, n);
    }
    forall n | n in snapshot
      ensures Key(cluster, n) in before ==>
                BroughtUp(who, before[Key(cluster, n)], after[Key(cluster, n)], snapshot[n])
      ensures Key(cluster, n) !in before ==>
                Fresh(who, cluster, n, after[Key(cluster, n)], snapshot[n])
                  && FreshId(before, after[Key(cluster, n)].id)
    {
      assert Settled(who, before, after, cluster, snapshot, fails, n);
      DivergentAt(before, cluster, snapshot, n);
      RowAfter(who, before, after, cluster, snapshot, fails, n);
    }
  }

  lemma {:induction false} ListsNothing(written: seq<string>, names: set<string>)
    requires Enumerates(written, names)
    ensures |written| > 0 ==> names != {}
  {
    if |written| > 0 {
      assert written[0] in names;
    }
  }

  /** A worker's run on rows that are right changes nothing and writes nothing, whatever would have failed. */
  lemma {:induction false} NothingLeftToDo(now: int, before: Rows, after: Rows, cluster: int, snapshot: Snapshot,
                                           fails: set<string>, written: seq<string>)
    requires Reconciled(Worker(now), before, after, cluster, snapshot, fails)
    requires Divergent(before, cluster, snapshot) == {}
    requires Enumerates(written, Divergent(before, cluster, snapshot))
    ensures after == before && written == []
  {
    assert |written| == 0 by { ListsNothing(written, Divergent(before, cluster, snapshot)); }
    forall k: Key ensures Untouched(before, after, k) {
      if k.cluster == cluster {
        assert Settled(Worker(now), before, after, cluster, snapshot, fails, k.name);
        DivergentAt(before, cluster, snapshot, k.name);
        assert k == Key(cluster, k.name);
      }
    }
    forall k: Key ensures (k in before <==> k in after) && (k in before ==> before[k] == after[k]) {
      assert Untouched(before, after, k);
    }
  }

  // ---------------------------------------------------------------- the two loops agree

  /** Equal but for the time of the last sync and the id of a row that was not there before. */
  ghost predicate SameRow(before: Rows, k: Key, a: Topic, b: Topic) {
    a.(lastSyncAt := None, id := 0) == b.(lastSyncAt := None, id := 0) && (k in before ==> a.id == b.id)
  }

  ghost predicate SameRows(before: Rows, a: Rows, b: Rows) {
    a.Keys == b.Keys && forall k <- a :: SameRow(before, k, a[k], b[k])
  }

  /** From the same rows, on the same snapshot, with the same failures, worker and service leave the same rows. */
  lemma {:induction false} WorkerAndServiceAgree(now: int, before: Rows, byWorker: Rows, byService: Rows, cluster: int,
                                                 snapshot: Snapshot, fails: set<string>)
    requires Reconciled(Worker(now), before, byWorker, cluster, snapshot, fails)
    requires Reconciled(Service, before, byService, cluster, snapshot, fails)
    ensures SameRows(before, byWorker, byService)
  {
    forall k: Key
      ensures k in byWorker <==> k in byService
      ensures k in byWorker ==> SameRow(before, k, byWorker[k], byService[k])
    {
      if k.cluster == cluster {
        assert Settled(Worker(now), before, byWorker, cluster, snapshot, fails, k.name);
        assert Settled(Service, before, byService, cluster, snapshot, fails, k.name);
        assert k == Key(cluster, k.name);
      } else {
        assert Untouched(before, byWorker, k) && Untouched(before, byService, k);
      }
    }
  }

  // ---------------------------------------------------------------- many runs

  datatype Run = Run(who: Runner, fails: set<string>)

  /** The states of the table between runs, by worker or service, on one snapshot. */
  ghost predicate RunsOf(states: seq<Rows>, runs: seq<Run>, cluster: int, snapshot: Snapshot) {
    && |states| == |runs| + 1
    && forall i :: 0 <= i < |runs| ==>
         Reconciled(runs[i].who, states[i], states[i + 1], cluster, snapshot, runs[i].fails)
  }

  /** However worker and service runs alternate and whatever writes fail, a name still diverges at the end exactly if it
    * did at the start and its write failed in every single run. */
  lemma {:induction false} OnlyAlwaysFailingDiverge(states: seq<Rows>, runs: seq<Run>, cluster: int, snapshot: Snapshot,
                                                    n: string)
    requires RunsOf(states, runs, cluster, snapshot)
    ensures n in Divergent(Last(states), cluster, snapshot)
            <==> n in Divergent(states[0], cluster, snapshot) && forall i :: 0 <= i < |runs| ==> n in runs[i].fails
    decreases |runs|
  {
    hide Reconciled, OthersKept, AllSettled, Divergent;
    if runs != [] {
      var k := |runs| - 1;
      OnlyAlwaysFailingDiverge(states[..k + 1], runs[..k], cluster, snapshot, n);
      FailuresContained(runs[k].who, states[k], states[k + 1], cluster, snapshot, runs[k].fails);
      assert (forall i :: 0 <= i < |runs| ==> n in runs[i].fails)
             <==> (forall i :: 0 <= i < k ==> n in runs[..k][i].fails) && n in runs[k].fails;
    }
  }
}
