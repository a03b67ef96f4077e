/** The shared token refresh: frontend/src/services/api.ts.
 *
 * The class has one method per stretch of the response interceptor between two awaits. Below it, a state machine
 * runs any number of requests: responses, the end of a refresh and the resumption of the requests that waited for
 * it interleave. */
module TokenRefresh {
  import opened Text

  const UNAUTHORIZED := 401
  const ME := "/auth/me"
  const REFRESH := "/auth/refresh"
  const LOGIN := "/login"

  /** Endpoints whose 401 never starts a refresh. */
  predicate IsAuthEndpoint(url: string) {
    Contains(url, ME) || Contains(url, REFRESH)
  }

  /** A reply, or an error with the status of its response, if there is one. */
  datatype Reply = Ok | Error(status: Option<int>)

  /** What the interceptor does with a reply: settle with it, wait for a refresh in flight, or post one and wait for
    * it. */
  datatype Next = Settle | Join(refresh: nat) | Start(refresh: nat)

  /** Refreshes are numbered in the order in which they are posted. */
  function Decide(url: string, retry: bool, reply: Reply, refreshPromise: Option<nat>, posted: nat): Next {
    if reply != Error(Some(UNAUTHORIZED)) || retry || IsAuthEndpoint(url) then Settle
    else if refreshPromise.Some? then Join(refreshPromise.value)
    else Start(posted)
  }

  class RequestConfig {
    const url: string
    var retry: bool  // config._retry

    constructor (url: string)
      ensures this.url == url && !retry
    {
      this.url, retry := url, false;
    }
  }

  class Interceptor {
    var refreshPromise: Option<nat>
    var posted: nat  // how many refreshes were posted

    constructor ()
      ensures refreshPromise == None && posted == 0
    {
      refreshPromise, posted := None, 0;
    }

    /** The interceptor, up to its first await. */
    method OnReply(request: RequestConfig, reply: Reply) returns (next: Next)
      modifies this, request
      ensures next == Decide(request.url, old(request.retry), reply, old(refreshPromise), old(posted))
      ensures request.retry == (old(request.retry) || !next.Settle?)
      ensures refreshPromise == if next.Start? then Some(next.refresh) else old(refreshPromise)
      ensures posted == old(posted) + if next.Start? then 1 else 0
    {
      if reply == Error(Some(UNAUTHORIZED)) && !request.retry {
        var isAuthEndpoint := IsAuthEndpoint(request.url);
        if !isAuthEndpoint {
          request.retry := true;
          if refreshPromise.Some? {
            return Join(refreshPromise.value);
          }
          refreshPromise := Some(posted);
          posted := posted + 1;
          return Start(refreshPromise.value);
        }
      }
      return Settle;
    }

    /** The `finally` of a refresh. */
    method OnRefreshDone()
      modifies this`refreshPromise
      ensures refreshPromise == None
    {
      refreshPromise := None;
    }
  }

  // ---------------------------------------------------------------- any schedule

  datatype Phase = Idle | InFlight | Awaiting | Settled(reply: Reply)

  /** A request: its `_retry` flag; the refresh it waited or waits for; whether it posted that refresh; how often it
    * was sent. */
  datatype Request = Request(url: string, retry: bool, phase: Phase, refresh: Option<nat>, started: bool, sent: nat)

  datatype RefreshStatus = Pending | Succeeded | Rejected

  /** `path` is the browser's path name, which a failed refresh replaces. */
  datatype State = State(requests: seq<Request>, refreshes: seq<RefreshStatus>, refreshPromise: Option<nat>,
                         path: string)

  datatype Action =
    | Send(i: nat)
    | Receive(i: nat, reply: Reply)
    | RefreshDone(refresh: nat, ok: bool)
    | Resume(i: nat)

  predicate IsIn(s: State, i: nat, p: Phase) {
    i < |s.requests| && s.requests[i].phase == p
  }

  predicate Enabled(s: State, a: Action) {
    match a
    case Send(i) => IsIn(s, i, Idle)
    case Receive(i, reply) => IsIn(s, i, InFlight)
    case RefreshDone(r, ok) => r < |s.refreshes| && s.refreshes[r] == Pending
    case Resume(i) => IsIn(s, i, Awaiting) && WaitIsOver(s, s.requests[i])
  }

  predicate WaitIsOver(s: State, q: Request) {
    q.refresh.Some? && q.refresh.value < |s.refreshes| && s.refreshes[q.refresh.value] != Pending
  }

  function Put(s: State, i: nat, q: Request): State
    requires i < |s.requests|
  {
    s.(requests := s.requests[i := q])
  }

  function After(s: State, a: Action): State
    requires Enabled(s, a)
  {
    match a
    case Send(i) => Put(s, i, s.requests[i].(phase := InFlight, sent := s.requests[i].sent + 1))
    case Receive(i, reply) =>
      var q := s.requests[i];
      (match Decide(q.url, q.retry, reply, s.refreshPromise, |s.refreshes|)
       case Settle => Put(s, i, q.(phase := Settled(reply)))
       case Join(r) => Put(s, i, q.(phase := Awaiting, retry := true, refresh := Some(r)))
       case Start(r) =>
         Put(s, i, q.(phase := Awaiting, retry := true, refresh := Some(r), started := true))
         .(refreshes := s.refreshes + [Pending], refreshPromise := Some(r)))
    case RefreshDone(r, ok) => s.(refreshes := s.refreshes[r := if ok then Succeeded else Rejected],
                                  refreshPromise := None)
    case Resume(i) =>
      var q := s.requests[i];
      if s.refreshes[q.refresh.value] == Succeeded then Put(s, i, q.(phase := InFlight, sent := q.sent + 1))
      else Put(s, i, q.(phase := Settled(Error(Some(UNAUTHORIZED))))).(path := if q.started then LOGIN else s.path)
  }

  function NewRequest(url: string): Request {
    Request(url, false, Idle, None, false, 0)
  }

  function Init(urls: seq<string>, path: string): State {
    State(seq(|urls|, (i: int) requires 0 <= i < |urls| => NewRequest(urls[i])), [], None, path)
  }

  // ---------------------------------------------------------------- every step

  /** The refreshes are settled, but for the one that refreshPromise holds, if any. */
  predicate OneInFlight(refreshes: seq<RefreshStatus>, refreshPromise: Option<nat>) {
    && (refreshPromise.Some? ==> refreshPromise.value < |refreshes|)
    && forall r :: 0 <= r < |refreshes| ==> (refreshes[r] == Pending <==> refreshPromise == Some(r))
  }

  /** Where a request stands says how often it was sent, and what became of the refresh it waited for. */
  predicate RequestOk(q: Request, refreshes: seq<RefreshStatus>) {
    && (q.retry <==> q.refresh.Some?)
    && (q.refresh.Some? ==> q.refresh.value < |refreshes| && !IsAuthEndpoint(q.url))
    && (q.started ==> q.retry)
    && match q.phase
       case Idle => !q.retry && q.sent == 0
       case InFlight => if q.retry then q.sent == 2 && refreshes[q.refresh.value] == Succeeded else q.sent == 1
       case Awaiting => q.retry && q.sent == 1
       case Settled(reply) =>
         if !q.retry then q.sent == 1 && (reply == Error(Some(UNAUTHORIZED)) ==> IsAuthEndpoint(q.url))
         else if q.sent == 1 then refreshes[q.refresh.value] == Rejected && reply == Error(Some(UNAUTHORIZED))
         else q.sent == 2 && refreshes[q.refresh.value] == Succeeded
  }

  predicate RequestsOk(requests: seq<Request>, refreshes: seq<RefreshStatus>) {
    forall i :: 0 <= i < |requests| ==> RequestOk(requests[i], refreshes)
  }

  predicate Starts(requests: seq<Request>, i: int, r: int) {
    0 <= i < |requests| && requests[i].started && requests[i].refresh == Some(r)
  }

  ghost predicate HasStarter(requests: seq<Request>, r: int) {
    exists i :: Starts(requests, i, r)
  }

  /** Each refresh was posted by exactly one request, and no request posted two. */
  ghost predicate StartersOk(requests: seq<Request>, n: nat) {
    && (forall r :: 0 <= r < n ==> HasStarter(requests, r))
    && (forall i, j, r :: Starts(requests, i, r) && Starts(requests, j, r) ==> i == j)
    && Started(requests) == n
  }

  function One(b: bool): nat { if b then 1 else 0 }

  function Started(requests: seq<Request>): nat {
    if requests == [] then 0 else Started(requests[..|requests| - 1]) + One(Last(requests).started)
  }

  function Sent(requests: seq<Request>): nat {
    if requests == [] then 0 else Sent(requests[..|requests| - 1]) + Last(requests).sent
  }

  /** The request posted a refresh, which failed, and was told so. */
  predicate SentToLogin(q: Request) {
    q.started && q.phase.Settled? && q.sent == 1
  }

  predicate SentAt(requests: seq<Request>, i: int) {
    0 <= i < |requests| && SentToLogin(requests[i])
  }

  ghost predicate PathOk(requests: seq<Request>, path0: string, path: string) {
    path == if exists i :: SentAt(requests, i) then LOGIN else path0
  }

  ghost predicate Inv(path0: string, s: State) {
    && OneInFlight(s.refreshes, s.refreshPromise)
    && RequestsOk(s.requests, s.refreshes)
    && StartersOk(s.requests, |s.refreshes|)
    && PathOk(s.requests, path0, s.path)
  }

  /** A bound on the steps a request still has before it. */
  function Rank(q: Request): nat {
    match q.phase
    case Idle => 5
    case InFlight => if q.retry then 1 else 4
    case Awaiting => 2
    case Settled(_) => 0
  }

  function Ranks(requests: seq<Request>): nat {
    if requests == [] then 0 else Ranks(requests[..|requests| - 1]) + Rank(Last(requests))
  }

  function StepsLeft(s: State): nat {
    Ranks(s.requests) + One(s.refreshPromise.Some?)
  }

  lemma {:induction false} Update(requests: seq<Request>, i: nat, q: Request)
    requires i < |requests|
    ensures Started(requests[i := q]) == Started(requests) - One(requests[i].started) + One(q.started)
    ensures Ranks(requests[i := q]) == Ranks(requests) - Rank(requests[i]) + Rank(q)
  {
    hide Rank;
    var last, front := |requests| - 1, requests[..|requests| - 1];
    if i == last {
      assert requests[i := q][..last] == front;
    } else {
      assert requests[i := q][..last] == front[i := q];
      Update(front, i, q);
    }
  }

  lemma {:induction false} PutStarters(requests: seq<Request>, n: nat, i: nat, q: Request)
    requires StartersOk(requests, n) && i < |requests|
    requires q.started == requests[i].started && (q.started ==> q.refresh == requests[i].refresh)
    ensures StartersOk(requests[i := q], n)
  {
    hide Started;
    Update(requests, i, q);
    var requests' := requests[i := q];
    assert forall j, r :: Starts(requests', j, r) <==> Starts(requests, j, r);
    forall r | HasStarter(requests, r) ensures HasStarter(requests', r) {
      var j :| Starts(requests, j, r);
      assert Starts(requests', j, r);
    }
  }

  lemma {:induction false} NewStarter(requests: seq<Request>, n: nat, i: nat, q: Request)
    requires StartersOk(requests, n) && i < |requests| && !requests[i].started && q.started && q.refresh == Some(n)
    requires forall j :: 0 <= j < |requests| && requests[j].refresh.Some? ==> requests[j].refresh.value < n
    ensures StartersOk(requests[i := q], n + 1)
  {
    hide Started;
    Update(requests, i, q);
    var requests' := requests[i := q];
    assert Starts(requests', i, n) && HasStarter(requests', n);
    assert forall j, r :: Starts(requests', j, r) <==> Starts(requests, j, r) || (j == i && r == n);
    forall r | HasStarter(requests, r) ensures HasStarter(requests', r) {
      var j :| Starts(requests, j, r);
      assert Starts(requests', j, r);
    }
  }

  lemma {:induction false} PutPath(requests: seq<Request>, path0: string, path: string, i: nat, q: Request)
    requires PathOk(requests, path0, path) && i < |requests| && (SentToLogin(requests[i]) ==> SentToLogin(q))
    ensures PathOk(requests[i := q], path0, if SentToLogin(q) then LOGIN else path)
  {
    hide SentToLogin;
    var requests' := requests[i := q];
    assert SentAt(requests', i) <==> SentToLogin(q);
    assert forall j :: SentAt(requests', j) <==> SentAt(requests, j) || (j == i && SentToLogin(q));
  }

  /** A step of one request that posts no refresh. */
  lemma {:induction false} PutRequest(path0: string, s: State, i: nat, q: Request)
    requires Inv(path0, s) && i < |s.requests| && RequestOk(q, s.refreshes)
    requires q.started == s.requests[i].started && (q.started ==> q.refresh == s.requests[i].refresh)
    requires SentToLogin(s.requests[i]) ==> SentToLogin(q)
    ensures Inv(path0, Put(s, i, q).(path := if SentToLogin(q) then LOGIN else s.path))
    ensures Ranks(s.requests[i := q]) == Ranks(s.requests) - Rank(s.requests[i]) + Rank(q)
  {
    hide RequestOk, StartersOk, PathOk, SentToLogin, OneInFlight, Rank;
    Update(s.requests, i, q);
    PutStarters(s.requests, |s.refreshes|, i, q);
    PutPath(s.requests, path0, s.path, i, q);
  }

  lemma {:induction false} StartRefresh(path0: string, s: State, i: nat)
    requires Inv(path0, s) && IsIn(s, i, InFlight) && !s.requests[i].retry && s.refreshPromise == None
    requires !IsAuthEndpoint(s.requests[i].url)
    ensures var r := |s.refreshes|;
            var q := s.requests[i].(phase := Awaiting, retry := true, refresh := Some(r), started := true);
            && Inv(path0, Put(s, i, q).(refreshes := s.refreshes + [Pending], refreshPromise := Some(r)))
            && Ranks(s.requests[i := q]) == Ranks(s.requests) - 2
  {
    hide StartersOk, PathOk, IsAuthEndpoint;
    var q := s.requests[i].(phase := Awaiting, retry := true, refresh := Some(|s.refreshes|), started := true);
    Update(s.requests, i, q);
    NewStarter(s.requests, |s.refreshes|, i, q);
    PutPath(s.requests, path0, s.path, i, q);
  }

  lemma {:induction false} EndRefresh(path0: string, s: State, r: nat, status: RefreshStatus)
    requires Inv(path0, s) && r < |s.refreshes| && s.refreshes[r] == Pending && status != Pending
    ensures s.refreshPromise == Some(r) && Inv(path0, s.(refreshes := s.refreshes[r := status], refreshPromise := None))
  {
    hide StartersOk, PathOk, IsAuthEndpoint;
  }

  lemma {:induction false} StepKeepsInv(path0: string, s: State, a: Action)
    requires Inv(path0, s) && Enabled(s, a)
    ensures Inv(path0, After(s, a)) && StepsLeft(After(s, a)) < StepsLeft(s)
  {
    hide StartersOk, PathOk, OneInFlight, Ranks, IsAuthEndpoint;
    match a {
      case Send(i) => PutRequest(path0, s, i, After(s, a).requests[i]);
      case Receive(i, reply) =>
        match Decide(s.requests[i].url, s.requests[i].retry, reply, s.refreshPromise, |s.refreshes|) {
          case Settle => PutRequest(path0, s, i, s.requests[i].(phase := Settled(reply)));
          case Join(r) =>
            PromiseInRange(path0, s);
            PutRequest(path0, s, i, s.requests[i].(phase := Awaiting, retry := true, refresh := Some(r)));
          case Start(r) => StartRefresh(path0, s, i);
        }
      case RefreshDone(r, ok) => EndRefresh(path0, s, r, if ok then Succeeded else Rejected);
      case Resume(i) => PutRequest(path0, s, i, After(s, a).requests[i]);
    }
  }

  lemma {:induction false} PromiseInRange(path0: string, s: State)
    requires Inv(path0, s)
    ensures s.refreshPromise.Some? ==> s.refreshPromise.value < |s.refreshes|
  {
  }

  // ---------------------------------------------------------------- every run

  ghost predicate Run(urls: seq<string>, path0: string, states: seq<State>, actions: seq<Action>) {
    && |states| == |actions| + 1 && states[0] == Init(urls, path0)
    && forall k :: 0 <= k < |actions| ==> StepTo(states[k], actions[k], states[k + 1])
  }

  ghost predicate StepTo(s: State, a: Action, s': State) {
    Enabled(s, a) && s' == After(s, a)
  }

  lemma {:induction false} InitInv(urls: seq<string>, path0: string)
    ensures Inv(path0, Init(urls, path0)) && StepsLeft(Init(urls, path0)) == 5 * |urls|
  {
    var s := Init(urls, path0);
    assert forall i :: !SentAt(s.requests, i);
    InitSums(urls);
  }

  lemma {:induction false} InitSums(urls: seq<string>)
    ensures var requests := Init(urls, "").requests; Started(requests) == 0 && Ranks(requests) == 5 * |urls|
  {
    if urls != [] {
      var last := |urls| - 1;
      assert Init(urls, "").requests[..last] == Init(urls[..last], "").requests;
      InitSums(urls[..last]);
    }
  }

  /** Every reachable state keeps the invariant, and a run of n requests ends after at most 5n steps. */
  lemma {:induction false} RunKeepsInv(urls: seq<string>, path0: string, states: seq<State>, actions: seq<Action>,
                                       k: nat)
    requires Run(urls, path0, states, actions) && k < |states|
    ensures Inv(path0, states[k]) && |states[k].requests| == |urls| && StepsLeft(states[k]) <= 5 * |urls| - k
    ensures forall i :: 0 <= i < |urls| ==> states[k].requests[i].url == urls[i]
    decreases k
  {
    hide Inv, StepsLeft, Enabled, Decide;
    if k == 0 {
      InitInv(urls, path0);
    } else {
      RunKeepsInv(urls, path0, states, actions, k - 1);
      assert StepTo(states[k - 1], actions[k - 1], states[k]);
      StepKeepsInv(path0, states[k - 1], actions[k - 1]);
      UrlsStay(states[k - 1], actions[k - 1]);
    }
  }

  lemma {:induction false} UrlsStay(s: State, a: Action)
    requires Enabled(s, a)
    ensures var s' := After(s, a);
            |s'.requests| == |s.requests|
              && forall i :: 0 <= i < |s.requests| ==> s'.requests[i].url == s.requests[i].url
  {
    hide Decide;
  }

  /** Requests and refreshes that went over the network. */
  function TotalSends(s: State): nat {
    Sent(s.requests) + |s.refreshes|
  }

  lemma {:induction false} SendsBound(requests: seq<Request>, refreshes: seq<RefreshStatus>)
    requires RequestsOk(requests, refreshes)
    ensures Sent(requests) <= 2 * |requests| && Started(requests) <= |requests|
  {
    hide IsAuthEndpoint;
    if requests != [] {
      assert RequestOk(Last(requests), refreshes);
      SendsBound(requests[..|requests| - 1], refreshes);
    }
  }

  /** At any time, on any schedule: at most one refresh is in flight; a request was sent at most twice and posted at
    * most one refresh; one for an authentication endpoint was sent once and posted none; and n requests cost at
    * most 3n sends. */
  lemma {:induction false} SendsAreBounded(urls: seq<string>, path0: string, states: seq<State>, actions: seq<Action>,
                                           k: nat)
    requires Run(urls, path0, states, actions) && k < |states|
    ensures var s := states[k];
            && (forall r, r' :: 0 <= r < r' < |s.refreshes| ==> s.refreshes[r] != Pending || s.refreshes[r'] != Pending)
            && |s.requests| == |urls|
            && (forall i :: 0 <= i < |urls| ==> s.requests[i].sent <= if IsAuthEndpoint(urls[i]) then 1 else 2)
            && (forall i, r :: Starts(s.requests, i, r) ==> !IsAuthEndpoint(urls[i]))
            && (forall i, r, r' :: Starts(s.requests, i, r) && Starts(s.requests, i, r') ==> r == r')
            && TotalSends(s) <= 3 * |urls|
    ensures |actions| <= 5 * |urls|
  {
    hide Run, IsAuthEndpoint, Sent, Started;
    RunKeepsInv(urls, path0, states, actions, k);
    RunLength(urls, path0, states, actions);
    var s := states[k];
    SendsBound(s.requests, s.refreshes);
    forall i | 0 <= i < |urls| ensures s.requests[i].sent <= if IsAuthEndpoint(urls[i]) then 1 else 2 {
      assert RequestOk(s.requests[i], s.refreshes);
    }
    forall i, r | Starts(s.requests, i, r) ensures !IsAuthEndpoint(urls[i]) {
      assert RequestOk(s.requests[i], s.refreshes);
    }
  }

  lemma {:induction false} RunLength(urls: seq<string>, path0: string, states: seq<State>, actions: seq<Action>)
    requires Run(urls, path0, states, actions)
    ensures |actions| <= 5 * |urls|
  {
    RunKeepsInv(urls, path0, states, actions, |actions|);
  }

  /** A schedule that cannot go on has settled every request. Those that waited for a refresh were sent again
    * exactly when that refresh succeeded, and otherwise were rejected with their own 401; those that did not wait
    * were settled by their one reply, which was a 401 for an authentication endpoint only. The browser is at the
    * login page if any refresh failed, and where it was otherwise. */
  lemma {:induction false} EveryScheduleSettles(urls: seq<string>, path0: string, states: seq<State>,
                                                actions: seq<Action>)
    requires Run(urls, path0, states, actions) && forall a :: !Enabled(states[|actions|], a)
    ensures var s := states[|actions|];
            && |s.requests| == |urls| && s.refreshPromise == None
            && (forall i :: 0 <= i < |urls| ==> s.requests[i].phase.Settled? && Outcome(s.requests[i], s.refreshes))
            && s.path == if Rejected in s.refreshes then LOGIN else path0
  {
    hide StepTo, IsAuthEndpoint, StepsLeft, Enabled;
    var s := states[|actions|];
    RunKeepsInv(urls, path0, states, actions, |actions|);
    AllSettled(path0, s);
    forall i | 0 <= i < |urls| ensures Outcome(s.requests[i], s.refreshes) {
      assert RequestOk(s.requests[i], s.refreshes);
    }
    WhereItEnds(path0, s);
  }

  predicate Outcome(q: Request, refreshes: seq<RefreshStatus>)
    requires q.phase.Settled?
  {
    if q.refresh.Some? then
      && q.refresh.value < |refreshes|
      && (refreshes[q.refresh.value] == Succeeded <==> q.sent == 2)
      && (refreshes[q.refresh.value] == Rejected <==> q.sent == 1)
      && (q.sent == 1 ==> q.phase.reply == Error(Some(UNAUTHORIZED)))
      && 1 <= q.sent <= 2
    else
      q.sent == 1 && (q.phase.reply == Error(Some(UNAUTHORIZED)) ==> IsAuthEndpoint(q.url))
  }

  lemma {:induction false} AllSettled(path0: string, s: State)
    requires Inv(path0, s) && forall a :: !Enabled(s, a)
    ensures s.refreshPromise == None && forall i :: 0 <= i < |s.requests| ==> s.requests[i].phase.Settled?
  {
    hide StartersOk, PathOk, IsAuthEndpoint;
    var r := if s.refreshPromise.Some? then s.refreshPromise.value else 0;
    assert !Enabled(s, RefreshDone(r, true));
    forall i | 0 <= i < |s.requests| ensures s.requests[i].phase.Settled? {
      assert RequestOk(s.requests[i], s.refreshes);
      assert !Enabled(s, Send(i)) && !Enabled(s, Receive(i, Ok)) && !Enabled(s, Resume(i));
    }
  }

  lemma {:induction false} WhereItEnds(path0: string, s: State)
    requires Inv(path0, s) && s.refreshPromise == None
             && forall i :: 0 <= i < |s.requests| ==> s.requests[i].phase.Settled?
    ensures s.path == if Rejected in s.refreshes then LOGIN else path0
  {
    hide IsAuthEndpoint, Started;
    if Rejected in s.refreshes {
      var r :| 0 <= r < |s.refreshes| && s.refreshes[r] == Rejected;
      assert HasStarter(s.requests, r);
      var i :| Starts(s.requests, i, r);
      assert RequestOk(s.requests[i], s.refreshes) && SentAt(s.requests, i);
    }
    forall i | SentAt(s.requests, i) ensures Rejected in s.refreshes {
      assert RequestOk(s.requests[i], s.refreshes);
    }
  }

  // ---------------------------------------------------------------- what the replies say

  /** The replies that request i received, in order. */
  function Replies(actions: seq<Action>, i: nat): seq<Reply> {
    if actions == [] then [] else
      Replies(actions[..|actions| - 1], i)
      + match Last(actions)
        case Receive(j, reply) => if j == i then [reply] else []
        case _ => []
  }

  /** A 401 to a request that is not for an authentication endpoint. */
  predicate AsksForRefresh(url: string, reply: Reply) {
    reply == Error(Some(401)) && !Contains(url, "/auth/me") && !Contains(url, "/auth/refresh")
  }

  /** A request waits for a refresh, posts one or is sent again only if its first reply asked for it; it never gets more
    * than two replies; and it is settled with the last one, the only one if that did not ask for a refresh. */
  predicate AsReplied(q: Request, replies: seq<Reply>) {
    && (q.phase.Awaiting? || q.refresh.Some? || q.retry || q.started || q.sent > 1 ==>
          replies != [] && AsksForRefresh(q.url, replies[0]))
    && |replies| == (if q.phase.InFlight? then q.sent - 1 else q.sent)
    && q.sent <= 2
    && (q.phase.Settled? ==> replies != [] && q.phase.reply == Last(replies))
    && (q.phase.Settled? && q.refresh == None ==> q.sent == 1 && !AsksForRefresh(q.url, replies[0]))
  }

  /** On every schedule, at any time, what has become of a request is what its replies said. */
  lemma {:induction false} RunAsReplied(urls: seq<string>, path0: string, states: seq<State>, actions: seq<Action>,
                                        k: nat, i: nat)
    requires Run(urls, path0, states, actions) && k < |states| && i < |urls|
    ensures |states[k].requests| == |urls| && AsReplied(states[k].requests[i], Replies(actions[..k], i))
    decreases k
  {
    hide Inv, AsReplied, After, Enabled;
    RunKeepsInv(urls, path0, states, actions, k);
    if k == 0 {
      NothingReplied(urls[i]);
    } else {
      RunKeepsInv(urls, path0, states, actions, k - 1);
      RunAsReplied(urls, path0, states, actions, k - 1, i);
      assert StepTo(states[k - 1], actions[k - 1], states[k]);
      assert actions[..k][..k - 1] == actions[..k - 1] && Last(actions[..k]) == actions[k - 1];
      StepAsReplied(path0, states[k - 1], actions[..k - 1], actions[k - 1], i);
      assert actions[..k - 1] + [actions[k - 1]] == actions[..k];
    }
  }

  lemma {:induction false} NothingReplied(url: string)
    ensures AsReplied(NewRequest(url), [])
  {
  }

  lemma {:induction false} StepAsReplied(path0: string, s: State, actions: seq<Action>, a: Action, i: nat)
    requires Inv(path0, s) && Enabled(s, a) && i < |s.requests| && AsReplied(s.requests[i], Replies(actions, i))
    ensures i < |After(s, a).requests| && AsReplied(After(s, a).requests[i], Replies(actions + [a], i))
  {
    hide StartersOk, PathOk, OneInFlight, Contains, Replies, AsReplied;
    assert RequestOk(s.requests[i], s.refreshes);
    OneMoreReply(actions, a, i);
    if a.Receive? && a.i == i {
      ReceiveAsReplied(s, i, a.reply, Replies(actions, i));
    } else {
      NoReply(s, a, i, Replies(actions, i));
    }
  }

  lemma {:induction false} OneMoreReply(actions: seq<Action>, a: Action, i: nat)
    ensures Replies(actions + [a], i) == if a.Receive? && a.i == i then Replies(actions, i) + [a.reply]
                                         else Replies(actions, i)
  {
    assert (actions + [a])[..|actions|] == actions && Last(actions + [a]) == a;
  }

  lemma {:induction false} ReceiveAsReplied(s: State, i: nat, reply: Reply, replies: seq<Reply>)
    requires Enabled(s, Receive(i, reply)) && RequestOk(s.requests[i], s.refreshes)
    requires AsReplied(s.requests[i], replies)
    ensures i < |After(s, Receive(i, reply)).requests|
    ensures AsReplied(After(s, Receive(i, reply)).requests[i], replies + [reply])
  {
    hide Contains;
    var q, all := s.requests[i], replies + [reply];
    assert Last(all) == reply;
    assert q.retry ==> all[0] == replies[0];
    assert !q.retry ==> replies == [] && all[0] == reply;
  }

  lemma {:induction false} NoReply(s: State, a: Action, i: nat, replies: seq<Reply>)
    requires Enabled(s, a) && i < |s.requests| && !(a.Receive? && a.i == i)
    requires RequestOk(s.requests[i], s.refreshes) && AsReplied(s.requests[i], replies)
    ensures i < |After(s, a).requests| && AsReplied(After(s, a).requests[i], replies)
  {
    hide Contains, IsAuthEndpoint;
  }

  /** A reply that asks for a refresh makes its request wait for the one in flight, or for a new one if there is none;
    * any other reply, and every reply to a request that was sent again, settles its request and does nothing else. */
  lemma {:induction false} WhatAReplyDoes(urls: seq<string>, path0: string, states: seq<State>, actions: seq<Action>,
                                          k: nat, i: nat, reply: Reply)
    requires Run(urls, path0, states, actions) && k < |actions| && actions[k] == Receive(i, reply)
    ensures var s, s' := states[k], states[k + 1];
            && i < |s.requests| == |s'.requests| == |urls| && s'.path == s.path
            && (forall j :: 0 <= j < |s.requests| && j != i ==> s'.requests[j] == s.requests[j])
            && if s.requests[i].sent == 1 && AsksForRefresh(urls[i], reply) then
                 && s'.requests[i].phase == Awaiting && s'.refreshPromise.Some?
                 && s'.requests[i].refresh == s'.refreshPromise
                 && (s'.requests[i].started <==> Pending !in s.refreshes)
                 && s'.refreshes == s.refreshes + (if Pending in s.refreshes then [] else [Pending])
                 && s'.refreshPromise.value < |s'.refreshes| && s'.refreshes[s'.refreshPromise.value] == Pending
               else
                 s' == s.(requests := s.requests[i := s.requests[i].(phase := Settled(reply))])
  {
    hide StartersOk, PathOk, Contains, StepsLeft;
    RunKeepsInv(urls, path0, states, actions, k);
    RunKeepsInv(urls, path0, states, actions, k + 1);
    assert StepTo(states[k], actions[k], states[k + 1]);
    assert RequestOk(states[k].requests[i], states[k].refreshes);
  }
}
