/** The bounded fan-out over clusters: internal/collector/collector.go and internal/worker/sync_worker.go.
 *
 * One goroutine per cluster, a channel as a semaphore, and a WaitGroup. The collector takes its slot and then adds
 * to the WaitGroup; the worker does it the other way round. The main loop and the goroutines interleave step by
 * step. */
module FanOut {
  const DEFAULT_CONCURRENCY := 10

  /** NewCollector's reading of the configured concurrency. */
  function Concurrency(configured: int): (r: nat)
    ensures 1 <= r && (1 <= configured ==> r == configured) && (configured <= 0 ==> r == 10)
  {
    if configured <= 0 then DEFAULT_CONCURRENCY else configured
  }

  /** What collecting a cluster yields: a number of metrics, or an error. */
  datatype Outcome = Collected(metrics: nat) | Failed

  datatype Counters = Counters(success: nat, fail: nat, total: nat)

  /** Counting one outcome, under the lock. */
  function Counting(c: Counters, o: Outcome): Counters {
    match o
    case Collected(metrics) => c.(success := c.success + 1, total := c.total + metrics)
    case Failed => c.(fail := c.fail + 1)
  }

  /** Collecting the clusters one after the other, with no concurrency at all. */
  function Sequential(outcomes: seq<Outcome>): (c: Counters)
    ensures c.success + c.fail == |outcomes|
  {
    if outcomes == [] then Counters(0, 0, 0)
    else Counting(Sequential(outcomes[..|outcomes| - 1]), outcomes[|outcomes| - 1])
  }

  /** The metrics of the clusters that were collected. */
  function Metrics(outcomes: seq<Outcome>): nat {
    if outcomes == [] then 0 else
      Metrics(outcomes[1..]) + match outcomes[0] { case Collected(metrics) => metrics case Failed => 0 }
  }

  ghost function Successes(outcomes: seq<Outcome>): set<int> {
    set i | 0 <= i < |outcomes| && outcomes[i].Collected?
  }

  ghost function Failures(outcomes: seq<Outcome>): set<int> {
    set i | 0 <= i < |outcomes| && outcomes[i].Failed?
  }

  /** The counters say how many clusters were collected, how many failed, and how many metrics there were. */
  ghost predicate Counts(c: Counters, outcomes: seq<Outcome>) {
    c.success == |Successes(outcomes)| && c.fail == |Failures(outcomes)| && c.total == Metrics(outcomes)
  }

  lemma {:induction false} SequentialCounts(outcomes: seq<Outcome>)
    ensures Counts(Sequential(outcomes), outcomes)
  {
    hide Metrics, Successes, Failures;
    if outcomes == [] {
      CountNone();
    } else {
      var front, last := outcomes[..|outcomes| - 1], outcomes[|outcomes| - 1];
      SequentialCounts(front);
      CountLast(front, last);
      assert front + [last] == outcomes;
    }
  }

  lemma {:induction false} CountNone()
    ensures Successes([]) == Failures([]) == {} && Metrics([]) == 0
  {
  }

  lemma {:induction false} CountLast(front: seq<Outcome>, last: Outcome)
    ensures |Successes(front + [last])| == |Successes(front)| + if last.Collected? then 1 else 0
    ensures |Failures(front + [last])| == |Failures(front)| + if last.Failed? then 1 else 0
    ensures Metrics(front + [last])
            == Metrics(front) + match last { case Collected(metrics) => metrics case Failed => 0 }
  {
    hide Metrics;
    var n, all := |front|, front + [last];
    assert Successes(all) == Successes(front) + if last.Collected? then {n} else {};
    assert Failures(all) == Failures(front) + if last.Failed? then {n} else {};
    MetricsLast(front, last);
  }

  lemma {:induction false} MetricsLast(front: seq<Outcome>, last: Outcome)
    ensures Metrics(front + [last])
            == Metrics(front) + match last { case Collected(metrics) => metrics case Failed => 0 }
  {
    if front == [] {
      assert front + [last] == [last];
    } else {
      MetricsLast(front[1..], last);
      assert (front + [last])[1..] == front[1..] + [last];
    }
  }

  /** A goroutine: not started; collecting; counted; slot released; done. */
  datatype Phase = Pending | Running | Counted | Released | Done

  datatype Order = AcquireThenAdd | AddThenAcquire

  /** `spawned` goroutines were started; `half`: the main loop has done the first half of the next iteration; `sem`
    * slots are taken; `wg` is the WaitGroup's counter. */
  datatype State = State(tasks: seq<Phase>, spawned: nat, half: bool, sem: int, wg: int, counters: Counters,
                         returned: bool)

  datatype Action =
    | Acquire      // the main loop takes a slot, blocking while the semaphore is full
    | Add          // the main loop adds one to the WaitGroup
    | Count(i: nat)
    | Release(i: nat)
    | Finish(i: nat)
    | Return       // the WaitGroup's counter is zero

  datatype Config = Config(order: Order, slots: nat, outcomes: seq<Outcome>)

  function Init(c: Config, sem: int): State {
    State(seq(|c.outcomes|, _ => Pending), 0, false, sem, 0, Counters(0, 0, 0), false)
  }

  predicate IsTask(s: State, i: nat, p: Phase) {
    i < |s.tasks| && s.tasks[i] == p
  }

  predicate Enabled(c: Config, s: State, a: Action) {
    match a
    case Acquire => s.spawned < |s.tasks| && s.sem < c.slots && s.half == (c.order == AddThenAcquire)
    case Add => s.spawned < |s.tasks| && s.half == (c.order == AcquireThenAdd)
    case Count(i) => IsTask(s, i, Running)
    case Release(i) => IsTask(s, i, Counted)
    case Finish(i) => IsTask(s, i, Released)
    case Return => s.spawned == |s.tasks| && !s.half && s.wg == 0 && !s.returned
  }

  /** After the second half of an iteration the goroutine runs. */
  function Iterate(s: State): State {
    if !s.half then s.(half := true)
    else if s.spawned < |s.tasks|
      then s.(half := false, spawned := s.spawned + 1, tasks := s.tasks[s.spawned := Running])
    else s
  }

  /** The state after an enabled action. */
  function After(c: Config, s: State, a: Action): State
    requires Enabled(c, s, a) && |s.tasks| == |c.outcomes|
  {
    match a
    case Acquire => Iterate(s.(sem := s.sem + 1))
    case Add => Iterate(s.(wg := s.wg + 1))
    case Count(i) => s.(tasks := s.tasks[i := Counted], counters := Counting(s.counters, c.outcomes[i]))
    case Release(i) => s.(tasks := s.tasks[i := Released], sem := s.sem - 1)
    case Finish(i) => s.(tasks := s.tasks[i := Done], wg := s.wg - 1)
    case Return => s.(returned := true)
  }

  // ---------------------------------------------------------------- counting goroutines

  predicate Holds(p: Phase) { p == Running || p == Counted }

  predicate Live(p: Phase) { Holds(p) || p == Released }

  predicate Past(p: Phase) { p == Counted || p == Released || p == Done }

  function One(b: bool): nat { if b then 1 else 0 }

  function Holding(tasks: seq<Phase>): nat {
    if tasks == [] then 0 else Holding(tasks[..|tasks| - 1]) + One(Holds(tasks[|tasks| - 1]))
  }

  function Living(tasks: seq<Phase>): nat {
    if tasks == [] then 0 else Living(tasks[..|tasks| - 1]) + One(Live(tasks[|tasks| - 1]))
  }

  function Collecting(tasks: seq<Phase>): nat {
    if tasks == [] then 0 else Collecting(tasks[..|tasks| - 1]) + One(tasks[|tasks| - 1] == Running)
  }

  /** What the counters should say: the outcomes of the goroutines that have counted. */
  function Tally(tasks: seq<Phase>, outcomes: seq<Outcome>): Counters
    requires |tasks| == |outcomes|
  {
    if tasks == [] then Counters(0, 0, 0) else
      var rest := Tally(tasks[..|tasks| - 1], outcomes[..|tasks| - 1]);
      if Past(tasks[|tasks| - 1]) then Counting(rest, outcomes[|tasks| - 1]) else rest
  }

  /** How many steps of their own the goroutines still have to do. */
  function Rank(p: Phase): nat {
    match p
    case Pending => 3
    case Running => 3
    case Counted => 2
    case Released => 1
    case Done => 0
  }

  function Remaining(tasks: seq<Phase>): nat {
    if tasks == [] then 0 else Remaining(tasks[..|tasks| - 1]) + Rank(tasks[|tasks| - 1])
  }

  lemma {:induction false} Update(tasks: seq<Phase>, i: nat, p: Phase)
    requires i < |tasks|
    ensures Holding(tasks[i := p]) == Holding(tasks) - One(Holds(tasks[i])) + One(Holds(p))
    ensures Living(tasks[i := p]) == Living(tasks) - One(Live(tasks[i])) + One(Live(p))
    ensures Remaining(tasks[i := p]) == Remaining(tasks) - Rank(tasks[i]) + Rank(p)
  {
    hide Holds, Live, Rank;
    var last, front := |tasks| - 1, tasks[..|tasks| - 1];
    if i == last {
      assert tasks[i := p][..last] == front;
    } else {
      assert tasks[i := p][..last] == front[i := p];
      Update(front, i, p);
    }
  }

  /** A goroutine's outcome is counted when it passes that point, whatever the order in which goroutines do. */
  lemma {:induction false} UpdateTally(tasks: seq<Phase>, outcomes: seq<Outcome>, i: nat, p: Phase)
    requires i < |tasks| == |outcomes| && (Past(tasks[i]) ==> Past(p))
    ensures Tally(tasks[i := p], outcomes) ==
            if Past(p) && !Past(tasks[i]) then Counting(Tally(tasks, outcomes), outcomes[i]) else Tally(tasks, outcomes)
  {
    hide Past;
    var last, front := |tasks| - 1, tasks[..|tasks| - 1];
    if i == last {
      assert tasks[i := p][..last] == front;
    } else {
      assert tasks[i := p][..last] == front[i := p];
      UpdateTally(front, outcomes[..last], i, p);
    }
  }

  lemma {:induction false} NoneStarted(n: nat, outcomes: seq<Outcome>)
    requires n == |outcomes|
    ensures var tasks := seq(n, _ => Pending);
            Holding(tasks) == Living(tasks) == 0 && Remaining(tasks) == 3 * n
              && Tally(tasks, outcomes) == Counters(0, 0, 0)
  {
    if n > 0 {
      var front: seq<Phase> := seq(n - 1, _ => Pending);
      assert seq(n, _ => Pending)[..n - 1] == front;
      NoneStarted(n - 1, outcomes[..n - 1]);
    }
  }

  lemma {:induction false} AllDone(tasks: seq<Phase>, outcomes: seq<Outcome>)
    requires |tasks| == |outcomes| && forall i :: 0 <= i < |tasks| ==> tasks[i] == Done
    ensures Holding(tasks) == Remaining(tasks) == 0 && Tally(tasks, outcomes) == Sequential(outcomes)
  {
    if tasks != [] {
      AllDone(tasks[..|tasks| - 1], outcomes[..|tasks| - 1]);
    }
  }

  lemma {:induction false} NoneLive(tasks: seq<Phase>)
    ensures Living(tasks) == 0 <==> forall i :: 0 <= i < |tasks| ==> !Live(tasks[i])
    ensures Collecting(tasks) <= Holding(tasks) <= Living(tasks)
  {
    if tasks != [] {
      var front := tasks[..|tasks| - 1];
      NoneLive(front);
      assert forall i :: 0 <= i < |front| ==> front[i] == tasks[i];
    }
  }

  // ---------------------------------------------------------------- every step

  /** The first goroutines were started, in order. */
  predicate Pendings(tasks: seq<Phase>, spawned: nat) {
    forall i :: 0 <= i < |tasks| ==> (tasks[i] == Pending <==> spawned <= i)
  }

  predicate Inv(c: Config, s: State) {
    && |s.tasks| == |c.outcomes| && s.spawned <= |s.tasks| && (s.half ==> s.spawned < |s.tasks|)
    && Pendings(s.tasks, s.spawned)
    && s.sem == Holding(s.tasks) + One(s.half && c.order == AcquireThenAdd) && s.sem <= c.slots
    && s.wg == Living(s.tasks) + One(s.half && c.order == AddThenAcquire)
    && s.counters == Tally(s.tasks, c.outcomes)
    && (s.returned ==> s.spawned == |s.tasks| && !s.half && s.wg == 0)
  }

  /** The steps still to come: two per iteration of the main loop, three per goroutine, and the return. */
  function StepsLeft(s: State): int {
    2 * (|s.tasks| - s.spawned) - One(s.half) + Remaining(s.tasks) + One(!s.returned)
  }

  /** A goroutine moves on from one phase to the next. */
  lemma {:induction false} TaskStep(c: Config, s: State, i: nat, p: Phase)
    requires |s.tasks| == |c.outcomes| && i < |s.tasks| && Pendings(s.tasks, s.spawned)
    requires (p == Counted && s.tasks[i] == Running) || (p == Released && s.tasks[i] == Counted)
             || (p == Done && s.tasks[i] == Released)
    ensures var tasks := s.tasks[i := p];
            && Pendings(tasks, s.spawned)
            && Holding(tasks) == Holding(s.tasks) - One(p.Released?) && Living(tasks) == Living(s.tasks) - One(p.Done?)
            && Remaining(tasks) == Remaining(s.tasks) - 1
            && Tally(tasks, c.outcomes) ==
               if p.Counted? then Counting(Tally(s.tasks, c.outcomes), c.outcomes[i]) else Tally(s.tasks, c.outcomes)
  {
    Update(s.tasks, i, p);
    UpdateTally(s.tasks, c.outcomes, i, p);
  }

  lemma {:induction false} StepKeepsInv(c: Config, s: State, a: Action)
    requires Inv(c, s) && Enabled(c, s, a)
    ensures Inv(c, After(c, s, a)) && StepsLeft(After(c, s, a)) == StepsLeft(s) - 1
  {
    hide Tally, Counting, Holding, Living, Remaining, Pendings;
    match a {
      case Acquire =>
        if s.half {
          Spawn(c, s);
        }
      case Add =>
        if s.half {
          Spawn(c, s);
        }
      case Count(i) => TaskStep(c, s, i, Counted);
      case Release(i) => TaskStep(c, s, i, Released);
      case Finish(i) => TaskStep(c, s, i, Done);
      case Return =>
    }
  }

  lemma {:induction false} Spawn(c: Config, s: State)
    requires |s.tasks| == |c.outcomes| && s.spawned < |s.tasks| && Pendings(s.tasks, s.spawned)
    ensures var tasks := s.tasks[s.spawned := Running];
            && Pendings(tasks, s.spawned + 1) && Holding(tasks) == Holding(s.tasks) + 1
               && Living(tasks) == Living(s.tasks) + 1
            && Remaining(tasks) == Remaining(s.tasks) && Tally(tasks, c.outcomes) == Tally(s.tasks, c.outcomes)
  {
    Update(s.tasks, s.spawned, Running);
    UpdateTally(s.tasks, c.outcomes, s.spawned, Running);
  }

  /** With a slot to give, no state short of the return is stuck: a goroutine can go on, or none is live and the
    * main loop can. */
  lemma {:induction false} NeverStuck(c: Config, s: State)
    requires Inv(c, s) && !s.returned && 1 <= c.slots
    ensures exists a :: Enabled(c, s, a)
  {
    hide Tally;
    NoneLive(s.tasks);
    if i: nat :| i < |s.tasks| && Live(s.tasks[i]) {
      match s.tasks[i] {
        case Running => assert Enabled(c, s, Count(i));
        case Counted => assert Enabled(c, s, Release(i));
        case Released => assert Enabled(c, s, Finish(i));
      }
    } else if s.spawned == |s.tasks| {
      assert Enabled(c, s, Return);
    } else if s.half == (c.order == AddThenAcquire) {
      assert Enabled(c, s, Acquire);
    } else {
      assert Enabled(c, s, Add);
    }
  }

  // ---------------------------------------------------------------- every run

  /** A round that starts with `sem` slots taken. */
  ghost predicate Run(c: Config, sem: int, states: seq<State>, actions: seq<Action>) {
    && |states| == |actions| + 1 && states[0] == Init(c, sem)
    && forall i :: 0 <= i < |actions| ==> StepTo(c, states[i], actions[i], states[i + 1])
  }

  ghost predicate StepTo(c: Config, s: State, a: Action, s': State) {
    |s.tasks| == |c.outcomes| && Enabled(c, s, a) && s' == After(c, s, a)
  }

  lemma {:induction false} InitInv(c: Config)
    ensures Inv(c, Init(c, 0)) && StepsLeft(Init(c, 0)) == 5 * |c.outcomes| + 1
  {
    NoneStarted(|c.outcomes|, c.outcomes);
  }

  /** Every reachable state keeps the invariant, and every step is one of the 5n + 1 that a complete round takes. */
  lemma {:induction false} RunKeepsInv(c: Config, states: seq<State>, actions: seq<Action>, k: nat)
    requires Run(c, 0, states, actions) && k < |states|
    ensures Inv(c, states[k]) && StepsLeft(states[k]) == 5 * |c.outcomes| + 1 - k
    decreases k
  {
    hide Inv, Enabled, StepsLeft;
    if k == 0 {
      InitInv(c);
    } else {
      RunKeepsInv(c, states, actions, k - 1);
      assert StepTo(c, states[k - 1], actions[k - 1], states[k]);
      StepKeepsInv(c, states[k - 1], actions[k - 1]);
    }
  }

  /** At no time are more clusters collected than there are slots. */
  lemma {:induction false} Bounded(c: Config, states: seq<State>, actions: seq<Action>, k: nat)
    requires Run(c, 0, states, actions) && k < |states|
    ensures Collecting(states[k].tasks) <= c.slots
  {
    hide StepTo;
    RunKeepsInv(c, states, actions, k);
    NoneLive(states[k].tasks);
  }

  /** How often cluster i was collected. */
  function Collections(actions: seq<Action>, i: nat): nat {
    if actions == [] then 0 else Collections(actions[..|actions| - 1], i) + One(actions[|actions| - 1] == Count(i))
  }

  lemma {:induction false} CollectionsSoFar(c: Config, states: seq<State>, actions: seq<Action>, i: nat, k: nat)
    requires Run(c, 0, states, actions) && k < |states| && i < |c.outcomes|
    ensures |states[k].tasks| == |c.outcomes| && Collections(actions[..k], i) == One(Past(states[k].tasks[i]))
    decreases k
  {
    hide Inv, StepTo;
    if k > 0 {
      CollectionsSoFar(c, states, actions, i, k - 1);
      assert StepTo(c, states[k - 1], actions[k - 1], states[k]);
      assert actions[..k][..k - 1] == actions[..k - 1];
      RunKeepsInv(c, states, actions, k - 1);
      CountedNow(c, states[k - 1], actions[k - 1], states[k], i);
    }
  }

  lemma {:induction false} CountedNow(c: Config, s: State, a: Action, s': State, i: nat)
    requires Inv(c, s) && StepTo(c, s, a, s') && i < |c.outcomes|
    ensures |s'.tasks| == |c.outcomes| && One(Past(s'.tasks[i])) == One(Past(s.tasks[i])) + One(a == Count(i))
  {
    hide Tally, Holding, Living, Counting;
  }

  /** When the wait is over: every slot is free again, every cluster was collected exactly once, and the counters
    * are those of collecting one cluster after the other, so that success + fail is the number of clusters. */
  lemma {:induction false} RoundComplete(c: Config, states: seq<State>, actions: seq<Action>)
    requires Run(c, 0, states, actions) && states[|actions|].returned
    ensures var s := states[|actions|];
            && s.sem == 0 && s.counters == Sequential(c.outcomes) && Counts(s.counters, c.outcomes)
            && s.counters.success + s.counters.fail == |c.outcomes|
            && (forall i :: 0 <= i < |s.tasks| ==> s.tasks[i] == Done)
    ensures forall i :: 0 <= i < |c.outcomes| ==> Collections(actions, i) == 1
    ensures |actions| == 5 * |c.outcomes| + 1
  {
    hide StepTo, Collections, Counts;
    var s := states[|actions|];
    RunKeepsInv(c, states, actions, |actions|);
    NoneLive(s.tasks);
    AllDone(s.tasks, c.outcomes);
    SequentialCounts(c.outcomes);
    forall i | 0 <= i < |c.outcomes| ensures Collections(actions, i) == 1 {
      CollectionsSoFar(c, states, actions, i, |actions|);
      assert actions[..|actions|] == actions;
    }
  }

  /** Every schedule ends, and always with the return: no run is longer than 5n + 1 steps, and one that cannot go on
    * has returned. */
  lemma {:induction false} EveryScheduleReturns(c: Config, states: seq<State>, actions: seq<Action>)
    requires Run(c, 0, states, actions) && 1 <= c.slots
    ensures |actions| <= 5 * |c.outcomes| + 1
    ensures (forall a :: !Enabled(c, states[|actions|], a)) <==> states[|actions|].returned
  {
    hide StepTo, Remaining, Tally, Enabled;
    var s := states[|actions|];
    RunKeepsInv(c, states, actions, |actions|);
    if s.returned {
      NothingAfterReturn(c, s);
    } else {
      NeverStuck(c, s);
    }
  }

  lemma {:induction false} NothingAfterReturn(c: Config, s: State)
    requires Inv(c, s) && s.returned
    ensures forall a :: !Enabled(c, s, a)
  {
    NoneLive(s.tasks);
  }

  /** The collector keeps its semaphore from one round to the next: however many rounds there are, each starts with
    * every slot free and ends with the counters of a sequential collection. */
  lemma {:induction false} EveryRound(configs: seq<Config>, rounds: seq<(int, seq<State>, seq<Action>)>, k: nat)
    requires |configs| == |rounds| && k < |rounds|
    requires forall r :: 0 <= r < |rounds| ==> Round(configs[r], rounds[r])
    requires rounds[0].0 == 0 && forall r :: 0 <= r < |rounds| - 1 ==> rounds[r + 1].0 == Final(rounds[r]).sem
    ensures rounds[k].0 == 0 && Final(rounds[k]).sem == 0
    ensures Final(rounds[k]).counters == Sequential(configs[k].outcomes)
    ensures Counts(Final(rounds[k]).counters, configs[k].outcomes)
    decreases k
  {
    hide StepTo, Counts;
    assert Round(configs[k], rounds[k]);
    if k > 0 {
      EveryRound(configs, rounds, k - 1);
      assert Round(configs[k - 1], rounds[k - 1]);
      assert rounds[(k - 1) + 1].0 == Final(rounds[k - 1]).sem;
    }
    RoundComplete(configs[k], rounds[k].1, rounds[k].2);
  }

  ghost predicate Round(c: Config, round: (int, seq<State>, seq<Action>)) {
    Run(c, round.0, round.1, round.2) && Final(round).returned
  }

  function Final(round: (int, seq<State>, seq<Action>)): State {
    if round.1 == [] then Init(Config(AcquireThenAdd, 0, []), 0) else round.1[|round.1| - 1]
  }
}
