/** The serialised command queue of `mqtt-admin.service.ts` as a state machine: one step per event the
    service reacts to. The promise chain in `queue` is kept as the list of requests in submission
    order, each still chained, running, or settled. */
module BrokerQueue {

  import opened SampleMath

  datatype Failure = BrokerUnavailable | BrokerDidNotRespond | CouldNotReachBroker | Refused(error: string)

  datatype Outcome = Resolved(command: string) | Rejected(failure: Failure)

  datatype Request =
    | Chained(command: string)
    | Running(command: string, token: nat)
    | Settled(command: string, outcome: Outcome)

  /** The correlation record. `owner` is the request whose promise its `resolve` and `reject` settle. */
  datatype InFlight = InFlight(token: nat, command: string, owner: nat)

  /** A decoded frame on the response topic. */
  datatype Frame = Unparseable | NoResponse | Response(command: string, error: Option<string>)

  /** A pending callback made by one attempt: it closes over the attempt's token and promise. */
  datatype Callback = Callback(token: nat, owner: nat)

  datatype State = State(
    connected: bool,
    inFlight: Option<InFlight>,
    nextToken: nat,
    requests: seq<Request>,
    timers: set<Callback>,      // armed timeouts
    publishes: set<Callback>)   // publish callbacks not called yet

  datatype Event =
    | Connection(up: bool)
    | Submit(command: string)
    | Run(k: nat)                                // the chained reaction of request k
    | TimerFires(timer: Callback)
    | PublishReturns(publish: Callback, failed: bool)
    | FrameArrives(frame: Frame)

  const Initial := State(false, None, 0, [], {}, {})

  // ------------------------------------------------------------------------------------------
  // Steps
  // ------------------------------------------------------------------------------------------

  /** Settling a promise: only the first settlement of a request counts. */
  function SettlePromise(requests: seq<Request>, k: nat, o: Outcome): (r: seq<Request>)
    ensures |r| == |requests|
  {
    if k < |requests| && !requests[k].Settled? then requests[k := Settled(requests[k].command, o)] else requests
  }

  /** `settle`, called for the attempt of `c`: unless that attempt is the current one, nothing happens. */
  function Settle(s: State, c: Callback, o: Outcome): State {
    if s.inFlight.None? || s.inFlight.value.token != c.token then s else
      var f := s.inFlight.value;
      s.(inFlight := None,
         timers := s.timers - {Callback(f.token, f.owner)},
         requests := SettlePromise(s.requests, c.owner, o))
  }

  /** `sendNow`, run for request `k`. */
  function SendNow(s: State, k: nat): State
    requires k < |s.requests|
  {
    var command := s.requests[k].command;
    if !s.connected then
      s.(requests := SettlePromise(s.requests, k, Rejected(BrokerUnavailable)))
    else
      var token := s.nextToken + 1;
      s.(nextToken := token,
         timers := s.timers + {Callback(token, k)},
         publishes := s.publishes + {Callback(token, k)},
         inFlight := Some(InFlight(token, command, k)),
         requests := s.requests[k := Running(command, token)])
  }

  /** A response with an error rejects; an empty error is none. */
  function Answered(frame: Frame): Outcome
    requires frame.Response?
  {
    if frame.error.Some? && frame.error.value != "" then Rejected(Refused(frame.error.value))
    else Resolved(frame.command)
  }

  function OnResponse(s: State, frame: Frame): State {
    if s.inFlight.None? || !frame.Response? || frame.command != s.inFlight.value.command then s else
      var f := s.inFlight.value;
      Settle(s, Callback(f.token, f.owner), Answered(frame))
  }

  /** What can happen next. A chained request runs once its predecessor has settled, either way. */
  predicate Enabled(s: State, e: Event) {
    match e
    case Connection(_) => true
    case Submit(_) => true
    case Run(k) => k < |s.requests| && s.requests[k].Chained? && (k == 0 || s.requests[k - 1].Settled?)
    case TimerFires(c) => c in s.timers
    case PublishReturns(c, _) => c in s.publishes
    case FrameArrives(_) => true
  }

  function Step(s: State, e: Event): State
    requires Enabled(s, e)
  {
    match e
    case Connection(up) => s.(connected := up)
    case Submit(command) => s.(requests := s.requests + [Chained(command)])
    case Run(k) => SendNow(s, k)
    case TimerFires(c) => Settle(s.(timers := s.timers - {c}), c, Rejected(BrokerDidNotRespond))
    case PublishReturns(c, failed) =>
      var s' := s.(publishes := s.publishes - {c});
      if failed then Settle(s', c, Rejected(CouldNotReachBroker)) else s'
    case FrameArrives(frame) => OnResponse(s, frame)
  }

  // ------------------------------------------------------------------------------------------
  // The invariant
  // ------------------------------------------------------------------------------------------

  /** The requests before `n` have settled, those after it are still chained. */
  ghost predicate Front(requests: seq<Request>, n: nat) {
    && n <= |requests|
    && (forall k :: 0 <= k < n ==> requests[k].Settled?)
    && (forall k :: n < k < |requests| ==> requests[k].Chained?)
    && (n < |requests| ==> !requests[n].Settled?)
  }

  /** How many requests have settled. */
  function Done(requests: seq<Request>): (n: nat)
    ensures n <= |requests|
  {
    if requests == [] || !requests[0].Settled? then 0 else 1 + Done(requests[1..])
  }

  lemma {:induction false} DoneIsFront(requests: seq<Request>, n: nat)
    requires Front(requests, n)
    ensures Done(requests) == n
  {
    if n > 0 {
      DoneIsFront(requests[1..], n - 1);
    }
  }

  /** A pending publish callback belongs to a request that has run, and to its only attempt. */
  ghost predicate OfAnAttempt(s: State, c: Callback) {
    && c.token <= s.nextToken && c.owner < |s.requests|
    && match s.requests[c.owner]
       case Chained(_) => false
       case Running(_, token) => c.token == token
       case Settled(_, _) => true
  }

  /** Requests settle in order with at most one running; the correlation record, if any, is that
      request's, and so is the one armed timer. */
  ghost predicate Inv(s: State) {
    var n := Done(s.requests);
    && Front(s.requests, n)
    && (forall c :: c in s.publishes ==> OfAnAttempt(s, c))
    && match s.inFlight
       case None => s.timers == {} && (n < |s.requests| ==> s.requests[n].Chained?)
       case Some(f) =>
         && n < |s.requests| && s.requests[n] == Running(f.command, f.token) && f.owner == n
         && f.token <= s.nextToken
         && s.timers == {Callback(f.token, n)}
         && (forall c :: c in s.publishes && c.token == f.token ==> c.owner == n)
  }

  lemma InitialInv()
    ensures Inv(Initial)
  {}

  /** One step touches no request but the first unsettled one, settles at most that one, and lets go of
      the command in flight only by settling it. */
  ghost predicate Advances(s: State, s': State) {
    var n := Done(s.requests);
    && |s.requests| <= |s'.requests|
    && n <= Done(s'.requests) <= n + 1
    && (forall k :: 0 <= k < |s.requests| && k != n ==> s'.requests[k] == s.requests[k])
    && (forall k :: 0 <= k < |s.requests| ==> s'.requests[k].command == s.requests[k].command)
    && (s.inFlight.Some? && s'.inFlight != s.inFlight ==> s'.inFlight.None? && Done(s'.requests) == n + 1)
  }

  lemma SettleInv(s: State, c: Callback, o: Outcome)
    requires Inv(s) && s.inFlight.Some?
    requires c.token == s.inFlight.value.token && c.owner == s.inFlight.value.owner
    ensures Inv(Settle(s, c, o)) && Advances(s, Settle(s, c, o))
    ensures Done(Settle(s, c, o).requests) == Done(s.requests) + 1
    ensures Settle(s, c, o).requests
            == s.requests[Done(s.requests) := Settled(s.requests[Done(s.requests)].command, o)]
  {
    DoneIsFront(Settle(s, c, o).requests, Done(s.requests) + 1);
  }

  /** A timer that has just gone off is the in-flight command's own. */
  lemma TimerInv(s: State, c: Callback)
    requires Inv(s) && c in s.timers
    ensures s.inFlight.Some? && c == Callback(s.inFlight.value.token, Done(s.requests))
    ensures Step(s, TimerFires(c)) == Settle(s, c, Rejected(BrokerDidNotRespond))
  {
    assert s.timers - {c} == {};
    assert s.timers - {c} - {c} == s.timers - {c};
  }

  lemma RunIsNext(s: State, k: nat)
    requires Inv(s) && Enabled(s, Run(k))
    ensures s.inFlight.None? && k == Done(s.requests)
  {}

  lemma SentInv(s: State, k: nat)
    requires Inv(s) && s.connected && s.inFlight.None? && k == Done(s.requests) < |s.requests|
    ensures Inv(SendNow(s, k)) && Advances(s, SendNow(s, k)) && Done(SendNow(s, k).requests) == k
  {
    DoneIsFront(SendNow(s, k).requests, k);
  }

  lemma RefusedInv(s: State, k: nat)
    requires Inv(s) && !s.connected && s.inFlight.None? && k == Done(s.requests) < |s.requests|
    ensures Inv(SendNow(s, k)) && Advances(s, SendNow(s, k)) && Done(SendNow(s, k).requests) == k + 1
  {
    DoneIsFront(SendNow(s, k).requests, k + 1);
  }

  lemma RunInv(s: State, k: nat)
    requires Inv(s) && Enabled(s, Run(k))
    ensures s.inFlight.None? && k == Done(s.requests)
    ensures Inv(SendNow(s, k)) && Advances(s, SendNow(s, k))
    ensures Done(SendNow(s, k).requests) == if s.connected then k else k + 1
  {
    RunIsNext(s, k);
    if s.connected {
      SentInv(s, k);
    } else {
      RefusedInv(s, k);
    }
  }

  lemma PublishInv(s: State, c: Callback, failed: bool)
    requires Inv(s) && c in s.publishes
    ensures Inv(Step(s, PublishReturns(c, failed))) && Advances(s, Step(s, PublishReturns(c, failed)))
  {
    var t := s.(publishes := s.publishes - {c});
    if failed && s.inFlight.Some? && c.token == s.inFlight.value.token {
      SettleInv(t, c, Rejected(CouldNotReachBroker));
    }
  }

  ghost predicate Names(s: State, frame: Frame) {
    frame.Response? && s.inFlight.Some? && frame.command == s.inFlight.value.command
  }

  /** A frame settles the command in flight exactly when it names it: the name is all that is compared,
      so an answer to an earlier command of the same name counts as well. */
  lemma FrameSettlesByName(s: State, frame: Frame)
    requires Inv(s)
    ensures var s', n := OnResponse(s, frame), Done(s.requests);
            && Inv(s') && Advances(s, s')
            && (Done(s'.requests) == n + 1 <==> Names(s, frame))
            && (!Names(s, frame) ==> s' == s)
            && (Names(s, frame) ==> s'.requests[n] == Settled(frame.command,
                  if frame.error.Some? && frame.error.value != "" then Rejected(Refused(frame.error.value))
                  else Resolved(frame.command)))
  {
    if Names(s, frame) {
      var f := s.inFlight.value;
      SettleInv(s, Callback(f.token, f.owner), Answered(frame));
    }
  }

  lemma StepInv(s: State, e: Event)
    requires Inv(s) && Enabled(s, e)
    ensures Inv(Step(s, e)) && Advances(s, Step(s, e))
  {
    match e
    case Connection(_) =>
    case Submit(_) => DoneIsFront(Step(s, e).requests, Done(s.requests));
    case Run(k) => RunInv(s, k);
    case TimerFires(c) =>
      TimerInv(s, c);
      SettleInv(s, c, Rejected(BrokerDidNotRespond));
    case PublishReturns(c, failed) => PublishInv(s, c, failed);
    case FrameArrives(frame) => FrameSettlesByName(s, frame);
  }

  // ------------------------------------------------------------------------------------------
  // Every interleaving
  // ------------------------------------------------------------------------------------------

  /** A run of the service: `states[i + 1]` follows `states[i]` by `events[i]`. */
  ghost predicate IsRun(states: seq<State>, events: seq<Event>) {
    && |states| == |events| + 1
    && states[0] == Initial
    && forall i :: 0 <= i < |events| ==> Enabled(states[i], events[i]) && states[i + 1] == Step(states[i], events[i])
  }

  lemma {:induction false} ReachedInv(states: seq<State>, events: seq<Event>, i: nat)
    requires IsRun(states, events) && i < |states|
    ensures Inv(states[i])
  {
    if i == 0 {
      InitialInv();
    } else {
      ReachedInv(states, events, i - 1);
      StepInv(states[i - 1], events[i - 1]);
      assert states[i - 1 + 1] == Step(states[i - 1], events[i - 1]);
    }
  }

  /** **Exactly once and in order**: over every run, whatever has settled keeps its outcome for good and
      the settled requests are always a prefix of the submissions. */
  lemma {:induction false} SettledForGood(states: seq<State>, events: seq<Event>, i: nat, j: nat)
    requires IsRun(states, events) && i <= j < |states|
    ensures var n := Done(states[i].requests);
            && Front(states[i].requests, n) && |states[i].requests| <= |states[j].requests|
            && n <= Done(states[j].requests)
            && (forall k :: 0 <= k < n ==>
                states[i].requests[k].Settled? && states[j].requests[k] == states[i].requests[k])
    decreases j - i
  {
    ReachedInv(states, events, i);
    if i < j {
      SettledForGood(states, events, i, j - 1);
      ReachedInv(states, events, j - 1);
      StepInv(states[j - 1], events[j - 1]);
      assert states[j - 1 + 1] == Step(states[j - 1], events[j - 1]);
    }
  }

  /** **Nothing in flight is ever overwritten**: a command is sent only when no other is unsettled, and
      what is in flight leaves only by settling. */
  lemma NeverOverwritten(states: seq<State>, events: seq<Event>, i: nat)
    requires IsRun(states, events) && i < |events|
    ensures events[i].Run? ==> states[i].inFlight.None? && events[i].k == Done(states[i].requests)
    ensures states[i].inFlight.Some? && states[i + 1].inFlight != states[i].inFlight ==>
              && states[i + 1].inFlight.None?
              && Done(states[i + 1].requests) == Done(states[i].requests) + 1
              && states[i].inFlight.value.owner == Done(states[i].requests)
  {
    ReachedInv(states, events, i);
    StepInv(states[i], events[i]);
    if events[i].Run? {
      RunInv(states[i], events[i].k);
    }
  }

  /** **A publish callback is its own request's and nobody else's**: if it reports an error and its request
      has not settled it settles that one; otherwise, and so always once its request has settled, it changes
      nothing but itself. */
  lemma CallbackIsItsOwn(s: State, c: Callback, failed: bool)
    requires Inv(s) && c in s.publishes
    ensures c.owner < |s.requests|
    ensures s.requests[c.owner].Settled? <==> c.owner != Done(s.requests)
    ensures var t := s.(publishes := s.publishes - {c});
            Step(s, PublishReturns(c, failed))
            == if failed && !s.requests[c.owner].Settled? then
                 t.(inFlight := None, timers := {},
                    requests := s.requests[c.owner := Settled(s.requests[c.owner].command,
                                                              Rejected(CouldNotReachBroker))])
               else t
  {
    assert OfAnAttempt(s, c);
    if s.inFlight.Some? {
      var f := s.inFlight.value;
      assert s.timers - {Callback(f.token, f.owner)} == {};
    }
  }

  /** **Once settled, a request is out of the way**: from then on, in every run, its publish callback changes
      nothing but the set of pending callbacks, and no timer of it ever fires. */
  lemma StaleCallbackIsInert(states: seq<State>, events: seq<Event>, i: nat, j: nat, k: nat)
    requires IsRun(states, events) && i <= j < |events|
    requires k < |states[i].requests| && states[i].requests[k].Settled?
    ensures events[j].PublishReturns? && events[j].publish.owner == k ==>
              states[j + 1] == states[j].(publishes := states[j].publishes - {events[j].publish})
    ensures events[j].TimerFires? ==> events[j].timer.owner != k
  {
    SettledForGood(states, events, i, j);
    ReachedInv(states, events, i);
    ReachedInv(states, events, j);
    assert k < Done(states[i].requests);
    if events[j].PublishReturns? {
      CallbackIsItsOwn(states[j], events[j].publish, events[j].failed);
    }
    if events[j].TimerFires? {
      TimerInv(states[j], events[j].timer);
    }
  }

  /** The commands submitted by a list of events. */
  ghost function Submitted(events: seq<Event>): seq<string> {
    if events == [] then [] else
      var n := |events| - 1;
      Submitted(events[..n]) + (if events[n].Submit? then [events[n].command] else [])
  }

  /** The broker was last seen up. */
  ghost predicate LastUp(events: seq<Event>) {
    events != [] && var e := events[|events| - 1]; if e.Connection? then e.up else LastUp(events[..|events| - 1])
  }

  /** **The requests are what was submitted, in that order**, and the service knows whether the broker is up. */
  lemma {:induction false} RequestsAreSubmissions(states: seq<State>, events: seq<Event>, i: nat)
    requires IsRun(states, events) && i < |states|
    ensures |states[i].requests| == |Submitted(events[..i])| && (states[i].connected <==> LastUp(events[..i]))
    ensures forall k :: 0 <= k < |states[i].requests| ==>
              states[i].requests[k].command == Submitted(events[..i])[k]
  {
    if i > 0 {
      RequestsAreSubmissions(states, events, i - 1);
      ReachedInv(states, events, i - 1);
      assert events[..i][..i - 1] == events[..i - 1] && events[..i][i - 1] == events[i - 1];
      assert states[i - 1 + 1] == Step(states[i - 1], events[i - 1]);
      StepKeepsCommands(states[i - 1], events[i - 1]);
    }
  }

  lemma StepKeepsCommands(s: State, e: Event)
    requires Inv(s) && Enabled(s, e)
    ensures var s' := Step(s, e);
            && |s'.requests| == |s.requests| + (if e.Submit? then 1 else 0)
            && (forall k :: 0 <= k < |s.requests| ==> s'.requests[k].command == s.requests[k].command)
            && (e.Submit? ==> s'.requests[|s.requests|] == Chained(e.command))
            && s'.connected == (if e.Connection? then e.up else s.connected)
  {
    StepInv(s, e);
  }

  // ------------------------------------------------------------------------------------------
  // How a request ends
  // ------------------------------------------------------------------------------------------

  /** The events that end request `k`: being run without a broker, its own timer or failed publish, or a frame that
      names it while it is in flight. */
  ghost predicate Ends(s: State, e: Event, k: nat)
    requires k < |s.requests|
  {
    match e
    case Connection(_) => false
    case Submit(_) => false
    case Run(j) => j == k && !s.connected
    case TimerFires(c) => c.owner == k
    case PublishReturns(c, failed) => c.owner == k && failed
    case FrameArrives(frame) =>
      && s.requests[k].Running? && frame.Response? && frame.command == s.requests[k].command
  }

  /** How each of them ends it. */
  ghost predicate EndsWith(e: Event, command: string, o: Outcome) {
    match e
    case Connection(_) => false
    case Submit(_) => false
    case Run(_) => o == Rejected(BrokerUnavailable)
    case TimerFires(_) => o == Rejected(BrokerDidNotRespond)
    case PublishReturns(_, _) => o == Rejected(CouldNotReachBroker)
    case FrameArrives(frame) =>
      frame.Response? && o == if frame.error == None || frame.error == Some("") then Resolved(command)
                              else Rejected(Refused(frame.error.value))
  }

  /** A request in flight is the first unsettled one. */
  lemma RunningIsNext(s: State, k: nat)
    requires Inv(s) && k < |s.requests| && s.requests[k].Running?
    ensures k == Done(s.requests) && s.inFlight == Some(InFlight(s.requests[k].token, s.requests[k].command, k))
  {}

  lemma FrameEnds(s: State, frame: Frame, k: nat)
    requires Inv(s) && k < |s.requests| && !s.requests[k].Settled?
    ensures var s', e := OnResponse(s, frame), FrameArrives(frame);
            && (s'.requests[k].Settled? <==> Ends(s, e, k))
            && (Ends(s, e, k) ==> s'.requests[k].command == s.requests[k].command
                                  && EndsWith(e, s.requests[k].command, s'.requests[k].outcome))
  {
    FrameSettlesByName(s, frame);
    if s.requests[k].Running? {
      RunningIsNext(s, k);
    }
  }

  /** **A request ends exactly by one of those events, with exactly that event's outcome**: so it is resolved only
      by a frame without an error that names it, and a command that was never sent is rejected. */
  lemma StepEnds(s: State, e: Event, k: nat)
    requires Inv(s) && Enabled(s, e) && k < |s.requests| && !s.requests[k].Settled?
    ensures var s' := Step(s, e);
            && k < |s'.requests|
            && (s'.requests[k].Settled? <==> Ends(s, e, k))
            && (Ends(s, e, k) ==> s'.requests[k].command == s.requests[k].command
                                  && EndsWith(e, s.requests[k].command, s'.requests[k].outcome))
  {
    match e
    case Connection(_) =>
    case Submit(_) =>
    case Run(j) => RunIsNext(s, j);
    case TimerFires(c) => TimerInv(s, c);
    case PublishReturns(c, failed) => CallbackIsItsOwn(s, c, failed);
    case FrameArrives(frame) => FrameEnds(s, frame, k);
  }

  /** **Over every run, an outcome is that of the one event that brought it.** */
  lemma EveryOutcomeIsEarned(states: seq<State>, events: seq<Event>, i: nat, k: nat)
    requires IsRun(states, events) && i < |events| && k < |states[i].requests| && !states[i].requests[k].Settled?
    ensures k < |states[i + 1].requests|
    ensures states[i + 1].requests[k].Settled? <==> Ends(states[i], events[i], k)
    ensures Ends(states[i], events[i], k) ==>
              EndsWith(events[i], states[i].requests[k].command, states[i + 1].requests[k].outcome)
  {
    ReachedInv(states, events, i);
    StepEnds(states[i], events[i], k);
  }

  /** **Without a broker a request is refused and nothing else happens; with one it is sent**: it is the one command
      in flight, under a token nothing pending has, with its own timer and publish. */
  lemma RunSendsOrRefuses(s: State, k: nat)
    requires Inv(s) && Enabled(s, Run(k))
    ensures var s', command := Step(s, Run(k)), s.requests[k].command;
            if !s.connected then
              s' == s.(requests := s.requests[k := Settled(command, Rejected(BrokerUnavailable))])
            else
              && s'.connected && s'.inFlight.Some? && s'.inFlight.value.command == command
              && s'.inFlight.value.owner == k
              && var token := s'.inFlight.value.token;
                 && token == s'.nextToken > s.nextToken && (forall c :: c in s.publishes ==> c.token < token)
                 && s'.timers == {Callback(token, k)} && s'.publishes == s.publishes + {Callback(token, k)}
                 && s'.requests == s.requests[k := Running(command, token)]
  {
    RunIsNext(s, k);
    forall c | c in s.publishes ensures c.token <= s.nextToken {
      assert OfAnAttempt(s, c);
    }
  }

  /** **The same name is enough**: a run in which the broker's late answer to a request that timed out
      resolves the next one, which the broker has not answered. */
  lemma LateAnswerSettlesNext(command: string) returns (states: seq<State>, events: seq<Event>)
    ensures IsRun(states, events) && |events| == 7
    ensures events[4] == TimerFires(Callback(1, 0)) && events[6] == FrameArrives(Response(command, None))
    ensures states[6].requests == [Settled(command, Rejected(BrokerDidNotRespond)), Running(command, 2)]
    ensures states[7].requests
            == [Settled(command, Rejected(BrokerDidNotRespond)), Settled(command, Resolved(command))]
  {
    events := [Connection(true), Submit(command), Submit(command), Run(0), TimerFires(Callback(1, 0)), Run(1),
               FrameArrives(Response(command, None))];
    var s1 := Initial.(connected := true);
    var s2 := s1.(requests := [Chained(command)]);
    var s3 := s1.(requests := [Chained(command), Chained(command)]);
    var s4 := State(true, Some(InFlight(1, command, 0)), 1, [Running(command, 1), Chained(command)],
                    {Callback(1, 0)}, {Callback(1, 0)});
    var timedOut := Settled(command, Rejected(BrokerDidNotRespond));
    var s5 := State(true, None, 1, [timedOut, Chained(command)], {}, {Callback(1, 0)});
    var s6 := State(true, Some(InFlight(2, command, 1)), 2, [timedOut, Running(command, 2)],
                    {Callback(2, 1)}, {Callback(1, 0), Callback(2, 1)});
    var s7 := s6.(inFlight := None, timers := {}, requests := [timedOut, Settled(command, Resolved(command))]);
    states := [Initial, s1, s2, s3, s4, s5, s6, s7];
    assert Step(s3, events[3]) == s4;
    assert Step(s4, events[4]) == s5;
    assert Step(s5, events[5]) == s6;
    assert Step(s6, events[6]) == s7;
  }

  // ------------------------------------------------------------------------------------------
  // No deadlock
  // ------------------------------------------------------------------------------------------

  /** The event that moves the queue on without help from the broker. */
  function NextMove(s: State): Event
    requires s.inFlight.None? ==> Done(s.requests) < |s.requests|
  {
    if s.inFlight.Some? then TimerFires(Callback(s.inFlight.value.token, s.inFlight.value.owner))
    else Run(Done(s.requests))
  }

  function Unsettled(s: State): nat {
    |s.requests| - Done(s.requests)
  }

  function Work(s: State): int {
    2 * Unsettled(s) - (if s.inFlight.Some? then 1 else 0)
  }

  /** While a request is unsettled some move is enabled, a timer if a command is in flight, and it
      brings the end nearer. */
  lemma SomethingCanMove(s: State)
    requires Inv(s) && Unsettled(s) > 0
    ensures Enabled(s, NextMove(s)) && Inv(Step(s, NextMove(s)))
    ensures 0 <= Work(Step(s, NextMove(s))) < Work(s)
    ensures |Step(s, NextMove(s)).requests| == |s.requests|
  {
    var e, n := NextMove(s), Done(s.requests);
    StepInv(s, e);
    if s.inFlight.Some? {
      TimerInv(s, e.timer);
      SettleInv(s, e.timer, Rejected(BrokerDidNotRespond));
    } else {
      RunInv(s, n);
    }
  }

  /** Taking those moves from `s`. */
  ghost function Drained(s: State): State
    requires Inv(s)
    decreases Work(s)
  {
    if Unsettled(s) == 0 then s else
      SomethingCanMove(s);
      Drained(Step(s, NextMove(s)))
  }

  ghost function Moves(s: State): nat
    requires Inv(s)
    decreases Work(s)
  {
    if Unsettled(s) == 0 then 0 else
      SomethingCanMove(s);
      1 + Moves(Step(s, NextMove(s)))
  }

  /** **The queue never deadlocks**: from every reachable state, even if the broker never speaks again,
      every request submitted so far settles within two moves each. */
  lemma {:induction false} EverythingSettles(s: State)
    requires Inv(s)
    ensures Inv(Drained(s)) && Unsettled(Drained(s)) == 0 && |Drained(s).requests| == |s.requests|
    ensures Moves(s) <= Work(s) <= 2 * Unsettled(s)
    decreases Work(s)
  {
    if Unsettled(s) > 0 {
      SomethingCanMove(s);
      EverythingSettles(Step(s, NextMove(s)));
    } else if s.inFlight.Some? {
      assert false;
    }
  }

  // ------------------------------------------------------------------------------------------
  // The service object
  // ------------------------------------------------------------------------------------------

  class MqttAdminService {
    var connected: bool
    var inFlight: Option<InFlight>
    var nextToken: nat
    var requests: seq<Request>
    var timers: set<Callback>
    var publishes: set<Callback>

    function Now(): State
      reads this
    {
      State(connected, inFlight, nextToken, requests, timers, publishes)
    }

    constructor ()
      ensures Now() == Initial
    {
      connected, inFlight, nextToken, requests, timers, publishes := false, None, 0, [], {}, {};
    }

    method Submit(command: string)
      modifies this`requests
      ensures Now() == Step(old(Now()), Event.Submit(command))
    {
      requests := requests + [Chained(command)];
    }

    method SettleToken(c: Callback, o: Outcome)
      modifies this`inFlight, this`timers, this`requests
      ensures Now() == Settle(old(Now()), c, o)
    {
      if inFlight.None? || inFlight.value.token != c.token {
        return;
      }
      timers := timers - {Callback(inFlight.value.token, inFlight.value.owner)};
      inFlight := None;
      requests := SettlePromise(requests, c.owner, o);
    }

    method RunRequest(k: nat)
      requires Enabled(Now(), Run(k))
      modifies this`inFlight, this`timers, this`requests, this`publishes, this`nextToken
      ensures Now() == Step(old(Now()), Run(k))
    {
      if !connected {
        requests := SettlePromise(requests, k, Rejected(BrokerUnavailable));
        return;
      }
      nextToken := nextToken + 1;
      var token, command := nextToken, requests[k].command;
      timers := timers + {Callback(token, k)};
      inFlight := Some(InFlight(token, command, k));
      publishes := publishes + {Callback(token, k)};
      requests := requests[k := Running(command, token)];
    }

    method OnTimer(c: Callback)
      requires Enabled(Now(), TimerFires(c))
      modifies this`inFlight, this`timers, this`requests
      ensures Now() == Step(old(Now()), TimerFires(c))
    {
      timers := timers - {c};
      SettleToken(c, Rejected(BrokerDidNotRespond));
    }

    method OnPublished(c: Callback, failed: bool)
      requires Enabled(Now(), PublishReturns(c, failed))
      modifies this`inFlight, this`timers, this`requests, this`publishes
      ensures Now() == Step(old(Now()), PublishReturns(c, failed))
    {
      publishes := publishes - {c};
      if failed {
        SettleToken(c, Rejected(CouldNotReachBroker));
      }
    }

    method OnFrame(frame: Frame)
      modifies this`inFlight, this`timers, this`requests
      ensures Now() == Step(old(Now()), FrameArrives(frame))
    {
      if inFlight.None? || !frame.Response? || frame.command != inFlight.value.command {
        return;
      }
      var c := Callback(inFlight.value.token, inFlight.value.owner);
      if frame.error.Some? && frame.error.value != "" {
        SettleToken(c, Rejected(Refused(frame.error.value)));
      } else {
        SettleToken(c, Resolved(frame.command));
      }
    }
  }
}
