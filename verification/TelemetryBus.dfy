/** The refcounted Redis subscriptions of `live-telemetry-bus.service.ts` as a state machine over every
    interleaving of viewers joining and leaving, Redis answering, and waiting callers resuming. */
module TelemetryBus {

  /** What a subscribe promise has come to. */
  datatype Promise = Pending | Fulfilled | Failed

  /** One record of the `cars` map. Records keep their identity after they leave the map, so a caller
      still waiting on one can tell it from a newer one. */
  datatype Entry = Entry(car: string, count: int, subscribing: Promise)

  /** `Leaving` is a caller that has called `removeViewer` while its `addViewer` was still waiting. */
  datatype Phase = Waiting | Leaving | Live | Refused | Left

  /** A caller of `addViewer`, and the record it awaits. */
  datatype Viewer = Viewer(entry: nat, phase: Phase)

  /** Commands on the one Redis connection, sent and answered in order. */
  datatype Command = Subscribe(entry: nat) | Unsubscribe(car: string)

  datatype State = State(
    cars: map<string, nat>,
    entries: seq<Entry>,
    viewers: map<int, Viewer>,
    commands: seq<Command>,       // sent, not answered
    subscribed: set<string>,      // at Redis
    faulted: set<string>)         // cars one of whose commands ever failed

  datatype Event =
    | Join(viewer: int, car: string)
    | Resume(viewer: int)
    | Leave(viewer: int)
    | Answer(ok: bool)

  const Initial := State(map[], [], map[], [], {}, {})

  // ------------------------------------------------------------------------------------------
  // Steps
  // ------------------------------------------------------------------------------------------

  /** `addViewer` up to its `await`. */
  function AddViewer(s: State, v: int, car: string): State
    requires car in s.cars ==> s.cars[car] < |s.entries|
  {
    var s' := if car in s.cars then s else
                s.(entries := s.entries + [Entry(car, 0, Pending)],
                   commands := s.commands + [Subscribe(|s.entries|)],
                   cars := s.cars[car := |s.entries|]);
    var e := s'.cars[car];
    s'.(entries := s'.entries[e := s'.entries[e].(count := s'.entries[e].count + 1)],
        viewers := s'.viewers[v := Viewer(e, Waiting)])
  }

  /** What a caller is once its `addViewer` has returned or thrown. */
  function Resumed(phase: Phase, failed: bool): Phase {
    if phase == Leaving then Left else if failed then Refused else Live
  }

  /** `addViewer` after its `await`. */
  function AfterAwait(s: State, v: int): State
    requires v in s.viewers && s.viewers[v].entry < |s.entries|
  {
    var e := s.viewers[v].entry;
    var car, failed := s.entries[e].car, s.entries[e].subscribing.Failed?;
    s.(cars := if failed && car in s.cars && s.cars[car] == e then s.cars - {car} else s.cars,
       viewers := s.viewers[v := Viewer(e, Resumed(s.viewers[v].phase, failed))])
  }

  /** `removeViewer(car)` with the refcount of `release`, whoever calls it. */
  function ReleaseCar(s: State, car: string): State
    requires forall c :: c in s.cars ==> s.cars[c] < |s.entries|
  {
    if car !in s.cars then s else
      var e := s.cars[car];
      if s.entries[e].count <= 1 then
        s.(cars := s.cars - {car}, commands := s.commands + [Unsubscribe(car)])
      else
        s.(entries := s.entries[e := s.entries[e].(count := s.entries[e].count - 1)])
  }

  /** What a caller is once it has called `removeViewer`. */
  function Gone(phase: Phase): Phase {
    if phase == Waiting || phase == Leaving then Leaving else Left
  }

  function LeftBy(s: State, v: int): State
    requires v in s.viewers
  {
    s.(viewers := s.viewers[v := Viewer(s.viewers[v].entry, Gone(s.viewers[v].phase))])
  }

  /** `removeViewer` for a caller that has called `addViewer`. */
  function RemoveViewer(s: State, v: int): State
    requires v in s.viewers && s.viewers[v].entry < |s.entries|
    requires forall c :: c in s.cars ==> s.cars[c] < |s.entries|
  {
    ReleaseCar(LeftBy(s, v), s.entries[s.viewers[v].entry].car)
  }

  function CarOf(s: State, c: Command): string
    requires c.Subscribe? ==> c.entry < |s.entries|
  {
    if c.Subscribe? then s.entries[c.entry].car else c.car
  }

  /** Redis answers the oldest command. */
  function OnAnswer(s: State, ok: bool): State
    requires s.commands != [] && (s.commands[0].Subscribe? ==> s.commands[0].entry < |s.entries|)
  {
    var c := s.commands[0];
    var car := CarOf(s, c);
    var s' := s.(commands := s.commands[1..], faulted := if ok then s.faulted else s.faulted + {car});
    match c
    case Subscribe(e) =>
      s'.(entries := s.entries[e := s.entries[e].(subscribing := if ok then Fulfilled else Failed)],
          subscribed := if ok then s.subscribed + {car} else s.subscribed)
    case Unsubscribe(_) =>
      s'.(subscribed := if ok then s.subscribed - {car} else s.subscribed)
  }

  /** References never dangle. */
  predicate WellFormed(s: State) {
    && (forall c :: c in s.cars ==> s.cars[c] < |s.entries|)
    && (forall v :: v in s.viewers ==> s.viewers[v].entry < |s.entries|)
    && (forall i :: 0 <= i < |s.commands| && s.commands[i].Subscribe? ==> s.commands[i].entry < |s.entries|)
  }

  /** Record `e` is the one its car maps to. */
  predicate Current(s: State, e: nat)
    requires e < |s.entries|
  {
    s.entries[e].car in s.cars && s.cars[s.entries[e].car] == e
  }

  /** A viewer joins once, resumes once its subscribe has settled, and leaves once: when it is live, or while it
      waits on the record its car still maps to. */
  predicate Enabled(s: State, e: Event)
    requires WellFormed(s)
  {
    match e
    case Join(v, _) => v !in s.viewers
    case Resume(v) => v in s.viewers && Awaits(s.viewers[v].phase)
        && !s.entries[s.viewers[v].entry].subscribing.Pending?
    case Leave(v) => v in s.viewers
        && (s.viewers[v].phase == Live || (s.viewers[v].phase == Waiting && Current(s, s.viewers[v].entry)))
    case Answer(_) => s.commands != []
  }

  predicate Awaits(phase: Phase) { phase == Waiting || phase == Leaving }

  /** Still to be counted by its car's record. */
  predicate Holds(phase: Phase) { phase == Waiting || phase == Live }

  function Step(s: State, e: Event): State
    requires WellFormed(s) && Enabled(s, e)
  {
    match e
    case Join(v, car) => AddViewer(s, v, car)
    case Resume(v) => AfterAwait(s, v)
    case Leave(v) => RemoveViewer(s, v)
    case Answer(ok) => OnAnswer(s, ok)
  }

  // ------------------------------------------------------------------------------------------
  // The invariant
  // ------------------------------------------------------------------------------------------

  /** The viewers a record has. */
  ghost function Holding(viewers: map<int, Viewer>, e: nat): set<int> {
    set v | v in viewers && viewers[v].entry == e && Holds(viewers[v].phase)
  }

  /** A mapped record is its car's own and has viewers: it counts them all, or, once failed, some of them. */
  ghost predicate Counted(entry: Entry, car: string, holders: set<int>) {
    && entry.car == car && 1 <= entry.count <= |holders|
    && (entry.subscribing.Failed? || entry.count == |holders|)
  }

  ghost predicate RecordOk(s: State, c: string)
    requires WellFormed(s) && c in s.cars
  {
    Counted(s.entries[s.cars[c]], c, Holding(s.viewers, s.cars[c]))
  }

  ghost predicate CountsRight(s: State)
    requires WellFormed(s)
  {
    forall c {:trigger RecordOk(s, c)} :: c in s.cars ==> RecordOk(s, c)
  }

  ghost predicate ViewerOk(s: State, v: int)
    requires WellFormed(s) && v in s.viewers
  {
    var e := s.viewers[v].entry;
    match s.viewers[v].phase
    case Waiting => Current(s, e) || s.entries[e].subscribing.Failed?
    case Live => Current(s, e) && s.entries[e].subscribing.Fulfilled?
    case Refused => !Current(s, e) && s.entries[e].subscribing.Failed?
    case Leaving => true
    case Left => true
  }

  /** Viewers agree with the record they await. */
  ghost predicate ViewersOk(s: State)
    requires WellFormed(s)
  {
    forall v {:trigger ViewerOk(s, v)} :: v in s.viewers ==> ViewerOk(s, v)
  }

  /** Wherever the one command stands, the other comes behind it. */
  ghost predicate Behind(commands: seq<Command>, one: Command, other: Command) {
    forall i :: 0 <= i < |commands| && commands[i] == one ==> other in commands[i + 1..]
  }

  /** An unanswered record is mapped, or nobody is left on it and its unsubscribe is on its way as well. */
  ghost predicate PendingAt(s: State, e: nat)
    requires e < |s.entries|
  {
    s.entries[e].subscribing.Pending? ==>
      && Subscribe(e) in s.commands
      && (Current(s, e)
          || (Holding(s.viewers, e) == {} && Behind(s.commands, Subscribe(e), Unsubscribe(s.entries[e].car))))
  }

  /** A record is pending exactly while its subscribe is unanswered. */
  ghost predicate PendingOk(s: State)
    requires WellFormed(s)
  {
    && (forall e {:trigger PendingAt(s, e)} :: 0 <= e < |s.entries| ==> PendingAt(s, e))
    && (forall i :: 0 <= i < |s.commands| && s.commands[i].Subscribe? ==>
          s.entries[s.commands[i].entry].subscribing.Pending?)
    && Distinct(s.commands)
  }

  /** No subscribe is sent twice. */
  ghost predicate Distinct(commands: seq<Command>) {
    forall i, j :: 0 <= i < j < |commands| && commands[i].Subscribe? ==> commands[i] != commands[j]
  }

  /** Redis has every car whose mapped record is fulfilled. */
  ghost predicate Listening(s: State)
    requires WellFormed(s)
  {
    forall c :: c in s.cars && s.entries[s.cars[c]].subscribing.Fulfilled? ==> c in s.subscribed
  }

  /** A mapped car's unsubscribe can only be left over from an earlier record: the subscribe of its
      present one is still to come behind it. */
  ghost predicate Resubscribing(s: State)
    requires WellFormed(s)
  {
    forall c :: c in s.cars ==> Behind(s.commands, Unsubscribe(c), Subscribe(s.cars[c]))
  }

  /** Nothing else stays subscribed, unless a command for it failed or its unsubscribe is on its way. */
  ghost predicate NoStrays(s: State)
    requires WellFormed(s)
  {
    && (forall c :: c in s.subscribed && c !in s.faulted ==> c in s.cars || Unsubscribe(c) in s.commands)
    && (forall e :: 0 <= e < |s.entries| && s.entries[e].subscribing.Failed? ==> s.entries[e].car in s.faulted)
  }

  ghost predicate Inv(s: State) {
    && WellFormed(s)
    && CountsRight(s) && ViewersOk(s) && PendingOk(s) && Listening(s) && Resubscribing(s) && NoStrays(s)
  }

  lemma InitialInv()
    ensures Inv(Initial)
  {}

  // ------------------------------------------------------------------------------------------
  // Commands and holders
  // ------------------------------------------------------------------------------------------

  lemma BehindAppended(commands: seq<Command>, one: Command, other: Command, last: Command)
    requires Behind(commands, one, other) && last != one
    ensures Behind(commands + [last], one, other)
  {
    var more := commands + [last];
    forall i | 0 <= i < |more| && more[i] == one ensures other in more[i + 1..] {
      assert more[i + 1..] == commands[i + 1..] + [last];
    }
  }

  lemma BehindRest(commands: seq<Command>, one: Command, other: Command)
    requires commands != [] && Behind(commands, one, other)
    ensures Behind(commands[1..], one, other)
  {
    forall i | 0 <= i < |commands| - 1 && commands[1..][i] == one ensures other in commands[1..][i + 1..] {
      assert commands[1..][i + 1..] == commands[i + 1 + 1..];
    }
  }

  /** What has just been sent is behind everything else. */
  lemma LastIsBehind(commands: seq<Command>, one: Command, last: Command)
    requires last != one
    ensures Behind(commands + [last], one, last)
  {
    var more := commands + [last];
    forall i | 0 <= i < |more| && more[i] == one ensures last in more[i + 1..] {
      assert more[i + 1..][|more| - 1 - (i + 1)] == last;
    }
  }

  lemma RestHas(commands: seq<Command>, c: Command)
    requires commands != [] && c in commands && commands[0] != c
    ensures c in commands[1..]
  {
    var i :| 0 <= i < |commands| && commands[i] == c;
    assert commands[1..][i - 1] == c;
  }

  lemma HoldingJoined(viewers: map<int, Viewer>, v: int, e: nat, d: nat)
    requires v !in viewers
    ensures Holding(viewers[v := Viewer(e, Waiting)], d) == Holding(viewers, d) + (if d == e then {v} else {})
    ensures v !in Holding(viewers, d)
  {}

  /** Changing what `v` is doing matters only to its own record. */
  lemma HoldingChanged(viewers: map<int, Viewer>, v: int, phase: Phase, d: nat)
    requires v in viewers
    ensures Holding(viewers[v := Viewer(viewers[v].entry, phase)], d)
            == if d != viewers[v].entry then Holding(viewers, d)
               else Holding(viewers, d) - {v} + (if Holds(phase) then {v} else {})
  {}

  lemma EmptyOrInhabited(holders: set<int>)
    ensures holders == {} || exists v :: v in holders
  {
    if forall v :: v !in holders {
      assert holders == {};
    }
  }

  lemma Someone(holders: set<int>) returns (v: int)
    requires holders != {}
    ensures v in holders
  {
    EmptyOrInhabited(holders);
    v :| v in holders;
  }

  lemma NobodyHoldsNew(s: State)
    requires WellFormed(s)
    ensures Holding(s.viewers, |s.entries|) == {}
  {
    forall v ensures v !in Holding(s.viewers, |s.entries|) {
      if v in s.viewers {
        assert s.viewers[v].entry < |s.entries|;
      }
    }
  }

  // ------------------------------------------------------------------------------------------
  // Every step keeps it
  // ------------------------------------------------------------------------------------------

  // Joining: a car with no record yet gets one, with its subscribe behind everything sent before.

  lemma JoinRecord(s: State, v: int, car: string, c: string)
    requires WellFormed(s) && CountsRight(s) && v !in s.viewers
    requires c in AddViewer(s, v, car).cars
    ensures var s' := AddViewer(s, v, car); WellFormed(s') && RecordOk(s', c)
  {
    var s' := AddViewer(s, v, car);
    NobodyHoldsNew(s);
    HoldingJoined(s.viewers, v, s'.cars[car], s'.cars[c]);
    assert c in s.cars ==> RecordOk(s, c);
    assert car in s.cars ==> RecordOk(s, car);
  }

  lemma JoinCounts(s: State, v: int, car: string)
    requires WellFormed(s) && CountsRight(s) && v !in s.viewers
    ensures var s' := AddViewer(s, v, car); WellFormed(s') && CountsRight(s')
  {
    var s' := AddViewer(s, v, car);
    forall c | c in s'.cars ensures RecordOk(s', c) {
      JoinRecord(s, v, car, c);
    }
  }

  lemma JoinViewers(s: State, v: int, car: string)
    requires WellFormed(s) && CountsRight(s) && ViewersOk(s) && v !in s.viewers
    ensures var s' := AddViewer(s, v, car); WellFormed(s') && ViewersOk(s')
  {
    var s' := AddViewer(s, v, car);
    assert car in s.cars ==> RecordOk(s, car);
    forall w | w in s'.viewers ensures ViewerOk(s', w) {
      if w != v {
        assert ViewerOk(s, w);
      }
    }
  }

  lemma JoinPendingAt(s: State, v: int, car: string, e: nat)
    requires WellFormed(s) && CountsRight(s) && PendingOk(s) && v !in s.viewers
    requires e < |AddViewer(s, v, car).entries|
    ensures PendingAt(AddViewer(s, v, car), e)
  {
    var s' := AddViewer(s, v, car);
    assert car in s.cars ==> RecordOk(s, car);
    if e < |s.entries| {
      assert PendingAt(s, e);
      HoldingJoined(s.viewers, v, s'.cars[car], e);
      if s.entries[e].subscribing.Pending? && car !in s.cars && !Current(s, e) {
        BehindAppended(s.commands, Subscribe(e), Unsubscribe(s.entries[e].car), Subscribe(|s.entries|));
      }
    } else {
      assert s'.commands[|s.commands|] == Subscribe(e);
    }
  }

  lemma JoinPending(s: State, v: int, car: string)
    requires WellFormed(s) && CountsRight(s) && PendingOk(s) && v !in s.viewers
    ensures var s' := AddViewer(s, v, car); WellFormed(s') && PendingOk(s')
  {
    var s' := AddViewer(s, v, car);
    forall e | 0 <= e < |s'.entries| ensures PendingAt(s', e) {
      JoinPendingAt(s, v, car, e);
    }
  }

  lemma JoinRedis(s: State, v: int, car: string)
    requires WellFormed(s) && Listening(s) && NoStrays(s) && v !in s.viewers
    ensures var s' := AddViewer(s, v, car); WellFormed(s') && Listening(s') && NoStrays(s')
  {
    var s' := AddViewer(s, v, car);
    forall d | 0 <= d < |s.entries|
      ensures s'.entries[d].car == s.entries[d].car && s'.entries[d].subscribing == s.entries[d].subscribing
    {}
  }

  lemma JoinResubscribing(s: State, v: int, car: string)
    requires WellFormed(s) && Resubscribing(s) && v !in s.viewers
    ensures var s' := AddViewer(s, v, car); WellFormed(s') && Resubscribing(s')
  {
    var s' := AddViewer(s, v, car);
    if car !in s.cars {
      forall c | c in s'.cars ensures Behind(s'.commands, Unsubscribe(c), Subscribe(s'.cars[c])) {
        if c == car {
          LastIsBehind(s.commands, Unsubscribe(c), Subscribe(|s.entries|));
        } else {
          BehindAppended(s.commands, Unsubscribe(c), Subscribe(s.cars[c]), Subscribe(|s.entries|));
        }
      }
    }
  }

  // Resuming: the viewer either is live on its mapped record or takes a failed record out of the map.

  lemma ResumeCounts(s: State, v: int)
    requires WellFormed(s) && CountsRight(s) && ViewersOk(s) && Enabled(s, Resume(v))
    ensures var s' := AfterAwait(s, v); WellFormed(s') && CountsRight(s')
  {
    var s' := AfterAwait(s, v);
    forall c | c in s'.cars ensures RecordOk(s', c) {
      assert RecordOk(s, c);
      HoldingChanged(s.viewers, v, s'.viewers[v].phase, s'.cars[c]);
      assert Holding(s'.viewers, s'.cars[c]) == Holding(s.viewers, s'.cars[c]);
    }
  }

  lemma ResumeViewers(s: State, v: int)
    requires WellFormed(s) && CountsRight(s) && ViewersOk(s) && Enabled(s, Resume(v))
    ensures var s' := AfterAwait(s, v); WellFormed(s') && ViewersOk(s')
  {
    var s' := AfterAwait(s, v);
    assert ViewerOk(s, v);
    forall w | w in s'.viewers ensures ViewerOk(s', w) {
      assert ViewerOk(s, w);
    }
  }

  lemma ResumePending(s: State, v: int)
    requires WellFormed(s) && PendingOk(s) && Enabled(s, Resume(v))
    ensures var s' := AfterAwait(s, v); WellFormed(s') && PendingOk(s')
  {
    var s' := AfterAwait(s, v);
    forall e | 0 <= e < |s'.entries| ensures PendingAt(s', e) {
      assert PendingAt(s, e);
      HoldingChanged(s.viewers, v, s'.viewers[v].phase, e);
    }
  }

  lemma ResumeRedis(s: State, v: int)
    requires WellFormed(s) && Listening(s) && Resubscribing(s) && NoStrays(s) && Enabled(s, Resume(v))
    ensures var s' := AfterAwait(s, v); WellFormed(s') && Listening(s') && Resubscribing(s') && NoStrays(s')
  {}

  // Leaving. A caller that its car's record counts gives back the count it took; the last one takes the
  // record out of the map and sends the unsubscribe, answered or not.

  /** `v` is one of the viewers of its car's record. */
  ghost predicate CountedIn(s: State, v: int)
    requires WellFormed(s)
  {
    v in s.viewers && Holds(s.viewers[v].phase) && Current(s, s.viewers[v].entry)
  }

  lemma OneFewer(holders: set<int>, v: int)
    requires v in holders
    ensures |holders - {v}| == |holders| - 1
  {}

  lemma LeaveHolding(s: State, v: int, d: nat)
    requires WellFormed(s) && CountedIn(s, v)
    ensures var e := s.viewers[v].entry;
            Holding(RemoveViewer(s, v).viewers, d)
            == if d == e then Holding(s.viewers, d) - {v} else Holding(s.viewers, d)
  {
    HoldingChanged(s.viewers, v, Gone(s.viewers[v].phase), d);
  }

  lemma LeaveCounts(s: State, v: int)
    requires WellFormed(s) && CountsRight(s) && CountedIn(s, v)
    ensures var s' := RemoveViewer(s, v); WellFormed(s') && CountsRight(s')
  {
    var s', e := RemoveViewer(s, v), s.viewers[v].entry;
    OneFewer(Holding(s.viewers, e), v);
    forall c | c in s'.cars ensures RecordOk(s', c) {
      assert RecordOk(s, c);
      LeaveHolding(s, v, s'.cars[c]);
    }
  }

  lemma LeaveViewers(s: State, v: int)
    requires WellFormed(s) && CountsRight(s) && ViewersOk(s) && CountedIn(s, v)
    ensures var s' := RemoveViewer(s, v); WellFormed(s') && ViewersOk(s')
  {
    var s', e := RemoveViewer(s, v), s.viewers[v].entry;
    assert RecordOk(s, s.entries[e].car);
    OneFewer(Holding(s.viewers, e), v);
    forall w | w in s'.viewers ensures ViewerOk(s', w) {
      assert ViewerOk(s, w);
      if w != v && s.entries[e].count <= 1 && s.viewers[w].entry == e && Holds(s.viewers[w].phase) {
        assert w in Holding(s.viewers, e) - {v};
      }
    }
  }

  lemma LeavePendingAt(s: State, v: int, d: nat)
    requires WellFormed(s) && CountsRight(s) && PendingOk(s) && CountedIn(s, v) && d < |s.entries|
    ensures PendingAt(RemoveViewer(s, v), d)
  {
    var s', e := RemoveViewer(s, v), s.viewers[v].entry;
    var car := s.entries[e].car;
    assert PendingAt(s, d) && RecordOk(s, car);
    LeaveHolding(s, v, d);
    if s.entries[d].subscribing.Pending? && s.entries[e].count <= 1 {
      assert Subscribe(d) in s'.commands;
      if d == e {
        OneFewer(Holding(s.viewers, e), v);
        LastIsBehind(s.commands, Subscribe(e), Unsubscribe(car));
      } else if !Current(s, d) {
        BehindAppended(s.commands, Subscribe(d), Unsubscribe(s.entries[d].car), Unsubscribe(car));
      }
    }
  }

  lemma LeavePending(s: State, v: int)
    requires WellFormed(s) && CountsRight(s) && PendingOk(s) && CountedIn(s, v)
    ensures var s' := RemoveViewer(s, v); WellFormed(s') && PendingOk(s')
  {
    var s' := RemoveViewer(s, v);
    forall d | 0 <= d < |s'.entries| ensures PendingAt(s', d) {
      LeavePendingAt(s, v, d);
    }
  }

  /** However a release comes about, no car still mapped loses its subscription by it. */
  lemma ReleaseRedis(s: State, car: string)
    requires WellFormed(s) && Listening(s) && NoStrays(s)
    ensures var s' := ReleaseCar(s, car); WellFormed(s') && Listening(s') && NoStrays(s')
  {
    var s' := ReleaseCar(s, car);
    if car in s.cars && s.entries[s.cars[car]].count <= 1 {
      assert s'.commands[|s.commands|] == Unsubscribe(car);
    }
  }

  lemma ReleaseResubscribing(s: State, car: string)
    requires WellFormed(s) && Resubscribing(s)
    ensures var s' := ReleaseCar(s, car); WellFormed(s') && Resubscribing(s')
  {
    var s' := ReleaseCar(s, car);
    if car in s.cars && s.entries[s.cars[car]].count <= 1 {
      forall c | c in s'.cars ensures Behind(s'.commands, Unsubscribe(c), Subscribe(s'.cars[c])) {
        BehindAppended(s.commands, Unsubscribe(c), Subscribe(s.cars[c]), Unsubscribe(car));
      }
    }
  }

  lemma LeaveInv(s: State, v: int)
    requires Inv(s) && CountedIn(s, v)
    ensures Inv(RemoveViewer(s, v))
  {
    LeaveCounts(s, v);
    LeaveViewers(s, v);
    LeavePending(s, v);
    ReleaseRedis(LeftBy(s, v), s.entries[s.viewers[v].entry].car);
    ReleaseResubscribing(LeftBy(s, v), s.entries[s.viewers[v].entry].car);
  }

  /** Marking a caller that no mapped record counts. */
  lemma LeftUncounted(s: State, v: int)
    requires Inv(s) && v in s.viewers && !CountedIn(s, v)
    ensures Inv(LeftBy(s, v))
  {
    var s' := LeftBy(s, v);
    forall c | c in s'.cars ensures RecordOk(s', c) {
      assert RecordOk(s, c);
      HoldingChanged(s.viewers, v, Gone(s.viewers[v].phase), s.cars[c]);
      assert Holding(s'.viewers, s.cars[c]) == Holding(s.viewers, s.cars[c]);
    }
    forall w | w in s'.viewers ensures ViewerOk(s', w) {
      assert ViewerOk(s, w);
    }
    forall e | 0 <= e < |s'.entries| ensures PendingAt(s', e) {
      assert PendingAt(s, e);
      HoldingChanged(s.viewers, v, Gone(s.viewers[v].phase), e);
    }
  }

  // Answering the oldest command.

  lemma AnswerRest(s: State, ok: bool)
    requires WellFormed(s) && s.commands != []
    ensures var s' := OnAnswer(s, ok);
            && WellFormed(s') && |s'.entries| == |s.entries|
            && (forall i :: 0 <= i < |s'.commands| ==> s'.commands[i] == s.commands[i + 1])
            && (forall e :: 0 <= e < |s.entries| && s.commands[0] != Subscribe(e) ==> s'.entries[e] == s.entries[e])
  {}

  lemma AnswerCounts(s: State, ok: bool)
    requires WellFormed(s) && CountsRight(s) && PendingOk(s) && s.commands != []
    ensures var s' := OnAnswer(s, ok); WellFormed(s') && CountsRight(s')
  {
    var s' := OnAnswer(s, ok);
    AnswerRest(s, ok);
    forall c | c in s'.cars ensures RecordOk(s', c) {
      assert RecordOk(s, c);
    }
  }

  lemma AnswerViewers(s: State, ok: bool)
    requires WellFormed(s) && ViewersOk(s) && PendingOk(s) && s.commands != []
    ensures var s' := OnAnswer(s, ok); WellFormed(s') && ViewersOk(s')
  {
    var s' := OnAnswer(s, ok);
    AnswerRest(s, ok);
    forall w | w in s'.viewers ensures ViewerOk(s', w) {
      assert ViewerOk(s, w);
    }
  }

  lemma AnswerPendingAt(s: State, ok: bool, e: nat)
    requires WellFormed(s) && PendingOk(s) && s.commands != [] && e < |s.entries|
    ensures WellFormed(OnAnswer(s, ok)) && PendingAt(OnAnswer(s, ok), e)
  {
    AnswerRest(s, ok);
    assert PendingAt(s, e);
    if s.entries[e].subscribing.Pending? && s.commands[0] != Subscribe(e) {
      RestHas(s.commands, Subscribe(e));
      if !Current(s, e) {
        BehindRest(s.commands, Subscribe(e), Unsubscribe(s.entries[e].car));
      }
    }
  }

  lemma AnswerPending(s: State, ok: bool)
    requires WellFormed(s) && PendingOk(s) && s.commands != []
    ensures var s' := OnAnswer(s, ok); WellFormed(s') && PendingOk(s')
  {
    var s' := OnAnswer(s, ok);
    AnswerRest(s, ok);
    forall e | 0 <= e < |s'.entries| ensures PendingAt(s', e) {
      AnswerPendingAt(s, ok, e);
    }
  }

  lemma AnswerListening(s: State, ok: bool)
    requires WellFormed(s) && CountsRight(s) && PendingOk(s) && Listening(s) && Resubscribing(s) && s.commands != []
    ensures var s' := OnAnswer(s, ok); WellFormed(s') && Listening(s')
  {
    var s', first := OnAnswer(s, ok), s.commands[0];
    AnswerRest(s, ok);
    if first.Unsubscribe? && first.car in s.cars {
      var e := s.cars[first.car];
      assert Subscribe(e) in s.commands[0 + 1..];
      var i :| 0 <= i < |s.commands| && s.commands[i] == Subscribe(e);
      assert s.entries[s.commands[i].entry].subscribing.Pending?;
    }
    if first.Subscribe? {
      assert s.entries[first.entry].car in s.cars ==> RecordOk(s, s.entries[first.entry].car);
    }
    forall c | c in s'.cars && s'.entries[s'.cars[c]].subscribing.Fulfilled? ensures c in s'.subscribed {
      assert RecordOk(s, c);
    }
  }

  lemma AnswerResubscribing(s: State, ok: bool)
    requires WellFormed(s) && Resubscribing(s) && s.commands != []
    ensures var s' := OnAnswer(s, ok); WellFormed(s') && Resubscribing(s')
  {
    var s' := OnAnswer(s, ok);
    AnswerRest(s, ok);
    forall c | c in s'.cars ensures Behind(s'.commands, Unsubscribe(c), Subscribe(s'.cars[c])) {
      BehindRest(s.commands, Unsubscribe(c), Subscribe(s.cars[c]));
    }
  }

  /** The unsubscribe of a record nobody is left on is still to come when its subscribe is answered. */
  lemma UnsubscribeToCome(s: State)
    requires WellFormed(s) && PendingOk(s) && s.commands != [] && s.commands[0].Subscribe?
    ensures var e := s.commands[0].entry; Current(s, e) || Unsubscribe(s.entries[e].car) in s.commands[1..]
  {
    assert PendingAt(s, s.commands[0].entry);
  }

  lemma AnswerStrays(s: State, ok: bool)
    requires WellFormed(s) && PendingOk(s) && NoStrays(s) && s.commands != []
    ensures var s' := OnAnswer(s, ok); WellFormed(s') && NoStrays(s')
  {
    var s', first := OnAnswer(s, ok), s.commands[0];
    AnswerRest(s, ok);
    if first.Subscribe? {
      UnsubscribeToCome(s);
    }
    forall c | c in s'.subscribed && c !in s'.faulted ensures c in s'.cars || Unsubscribe(c) in s'.commands {
      if c in s.subscribed && c !in s.cars && first != Unsubscribe(c) {
        RestHas(s.commands, Unsubscribe(c));
      }
    }
  }

  lemma AnswerInv(s: State, ok: bool)
    requires Inv(s) && s.commands != []
    ensures Inv(OnAnswer(s, ok))
  {
    AnswerCounts(s, ok);
    AnswerViewers(s, ok);
    AnswerPending(s, ok);
    AnswerListening(s, ok);
    AnswerResubscribing(s, ok);
    AnswerStrays(s, ok);
  }

  lemma JoinInv(s: State, v: int, car: string)
    requires Inv(s) && v !in s.viewers
    ensures Inv(AddViewer(s, v, car))
  {
    JoinCounts(s, v, car);
    JoinViewers(s, v, car);
    JoinPending(s, v, car);
    JoinRedis(s, v, car);
    JoinResubscribing(s, v, car);
  }

  lemma ResumeInv(s: State, v: int)
    requires Inv(s) && Enabled(s, Resume(v))
    ensures Inv(AfterAwait(s, v))
  {
    ResumeCounts(s, v);
    ResumeViewers(s, v);
    ResumePending(s, v);
    ResumeRedis(s, v);
  }

  lemma StepInv(s: State, e: Event)
    requires Inv(s) && Enabled(s, e)
    ensures Inv(Step(s, e))
  {
    match e
    case Join(v, car) => JoinInv(s, v, car);
    case Resume(v) => ResumeInv(s, v);
    case Leave(v) =>
      assert ViewerOk(s, v);
      LeaveInv(s, v);
    case Answer(ok) => AnswerInv(s, ok);
  }

  // ------------------------------------------------------------------------------------------
  // Every interleaving
  // ------------------------------------------------------------------------------------------

  ghost predicate Follows(s: State, e: Event, s': State) {
    WellFormed(s) && Enabled(s, e) && s' == Step(s, e)
  }

  /** What the service can do from `states[0]` on. */
  ghost predicate Path(states: seq<State>, events: seq<Event>) {
    && |states| == |events| + 1
    && forall i :: 0 <= i < |events| ==> Follows(states[i], events[i], states[i + 1])
  }

  ghost predicate IsRun(states: seq<State>, events: seq<Event>) {
    Path(states, events) && states[0] == Initial
  }

  lemma FollowsInv(s: State, e: Event, s': State)
    requires Inv(s) && Follows(s, e, s')
    ensures Inv(s')
  {
    StepInv(s, e);
  }

  lemma {:induction false} PathInv(states: seq<State>, events: seq<Event>, i: nat)
    requires Path(states, events) && Inv(states[0]) && i < |states|
    ensures Inv(states[i])
  {
    if i > 0 {
      PathInv(states, events, i - 1);
      NextInv(states, events, i - 1);
    }
  }

  lemma NextInv(states: seq<State>, events: seq<Event>, i: nat)
    requires Path(states, events) && i < |events| && Inv(states[i])
    ensures Inv(states[i + 1])
  {
    FollowsInv(states[i], events[i], states[i + 1]);
  }

  lemma ReachedInv(states: seq<State>, events: seq<Event>, i: nat)
    requires IsRun(states, events) && i < |states|
    ensures Inv(states[i])
  {
    InitialInv();
    PathInv(states, events, i);
  }

  /** **No viewer sits on a silent socket**: at every moment of every run, whatever fails, the car of
      every live viewer is subscribed at Redis and its record counts that viewer. */
  lemma LiveMeansSubscribed(states: seq<State>, events: seq<Event>, i: nat, v: int)
    requires IsRun(states, events) && i < |states|
    requires v in states[i].viewers && states[i].viewers[v].phase == Live
    ensures var s := states[i];
            && WellFormed(s)
            && var e := s.viewers[v].entry;
            && var car := s.entries[e].car;
            && car in s.subscribed && car in s.cars && s.cars[car] == e
            && v in Holding(s.viewers, e) && s.entries[e].count == |Holding(s.viewers, e)|
  {
    var s := states[i];
    ReachedInv(states, events, i);
    assert ViewerOk(s, v);
    assert RecordOk(s, s.entries[s.viewers[v].entry].car);
  }

  /** Cars with a viewer who has joined, or is still waiting to. */
  ghost predicate Watched(s: State, car: string)
    requires WellFormed(s)
  {
    exists v :: v in s.viewers && s.entries[s.viewers[v].entry].car == car && Holds(s.viewers[v].phase)
  }

  /** With every command answered the cars subscribed are exactly those with a viewer, for every car none
      of whose commands failed. */
  ghost predicate Exact(s: State, car: string)
    requires WellFormed(s)
  {
    s.commands == [] && car !in s.faulted ==> (car in s.subscribed <==> Watched(s, car))
  }

  lemma InvIsExact(s: State, car: string)
    requires Inv(s)
    ensures Exact(s, car)
    ensures s.commands == [] && car !in s.faulted ==> (car in s.subscribed <==> car in s.cars)
  {
    if car in s.cars {
      assert RecordOk(s, car);
      var v := Someone(Holding(s.viewers, s.cars[car]));
      assert PendingAt(s, s.cars[car]);
      assert v in s.viewers && s.entries[s.viewers[v].entry].car == car && Holds(s.viewers[v].phase);
    }
    if Watched(s, car) {
      var v :| v in s.viewers && s.entries[s.viewers[v].entry].car == car && Holds(s.viewers[v].phase);
      assert ViewerOk(s, v);
    }
  }

  /** **Once every command is answered** the cars subscribed at Redis are exactly those with a viewer,
      for every car none of whose commands failed. */
  lemma DrainedIsExact(states: seq<State>, events: seq<Event>, i: nat, car: string)
    requires IsRun(states, events) && i < |states|
    requires states[i].commands == [] && car !in states[i].faulted
    ensures WellFormed(states[i])
    ensures car in states[i].subscribed <==> Watched(states[i], car)
    ensures car in states[i].subscribed <==> car in states[i].cars
  {
    ReachedInv(states, events, i);
    InvIsExact(states[i], car);
  }

  /** A caller is never stuck: its subscribe has been answered, or is among the commands sent. */
  lemma WaiterIsServed(states: seq<State>, events: seq<Event>, i: nat, v: int)
    requires IsRun(states, events) && i < |states|
    requires v in states[i].viewers && Awaits(states[i].viewers[v].phase)
    ensures WellFormed(states[i])
    ensures Enabled(states[i], Resume(v)) || Subscribe(states[i].viewers[v].entry) in states[i].commands
  {
    ReachedInv(states, events, i);
    assert PendingAt(states[i], states[i].viewers[v].entry);
  }

  /** What a step can do to record `e`: its promise settles once, and once it is out of the map it never
      comes back. */
  lemma StepKeepsRecords(s: State, e: Event, d: nat)
    requires Inv(s) && Enabled(s, e) && d < |s.entries|
    ensures var s' := Step(s, e);
            && d < |s'.entries| && s'.entries[d].car == s.entries[d].car
            && (!s.entries[d].subscribing.Pending? ==> s'.entries[d].subscribing == s.entries[d].subscribing)
            && (!Current(s, d) ==> !Current(s', d))
  {
    if e.Answer? {
      AnswerKeepsRecords(s, e.ok, d);
    }
  }

  lemma AnswerKeepsRecords(s: State, ok: bool, d: nat)
    requires WellFormed(s) && s.commands != [] && d < |s.entries|
    requires s.commands[0] == Subscribe(d) ==> s.entries[d].subscribing.Pending?
    ensures var s' := OnAnswer(s, ok);
            && d < |s'.entries| && s'.entries[d].car == s.entries[d].car
            && (!s.entries[d].subscribing.Pending? ==> s'.entries[d].subscribing == s.entries[d].subscribing)
            && (!Current(s, d) ==> !Current(s', d))
  {}

  ghost predicate FailedAt(s: State, e: nat) {
    e < |s.entries| && s.entries[e].subscribing.Failed?
  }

  lemma FailedStays(s: State, event: Event, s': State, e: nat)
    requires Inv(s) && Follows(s, event, s') && FailedAt(s, e)
    ensures FailedAt(s', e)
  {
    StepKeepsRecords(s, event, e);
  }

  lemma FailedNext(states: seq<State>, events: seq<Event>, i: nat, e: nat)
    requires Path(states, events) && Inv(states[0]) && i < |events| && FailedAt(states[i], e)
    ensures FailedAt(states[i + 1], e)
  {
    PathInv(states, events, i);
    FailedStays(states[i], events[i], states[i + 1], e);
  }

  /** No step of the run takes record `e` back from failed. */
  ghost predicate NeverRecovers(states: seq<State>, e: nat) {
    forall i {:trigger FailedAt(states[i], e)} :: 0 <= i < |states| - 1 && FailedAt(states[i], e) ==>
      FailedAt(states[i + 1], e)
  }

  lemma RunNeverRecovers(states: seq<State>, events: seq<Event>, e: nat)
    requires Path(states, events) && Inv(states[0])
    ensures NeverRecovers(states, e)
  {
    forall i | 0 <= i < |events| && FailedAt(states[i], e) ensures FailedAt(states[i + 1], e) {
      FailedNext(states, events, i, e);
    }
  }

  lemma {:induction false} FailedForGood(states: seq<State>, i: nat, j: nat, e: nat)
    requires NeverRecovers(states, e) && i <= j < |states| && FailedAt(states[i], e)
    ensures FailedAt(states[j], e)
    decreases j - i
  {
    if i < j {
      FailedForGood(states, i, j - 1, e);
    }
  }

  /** The record `e` is taken out of the map, if it is in it. */
  ghost function Unmapped(cars: map<string, nat>, e: nat): map<string, nat> {
    map c | c in cars && cars[c] != e :: cars[c]
  }

  /** **A settled subscribe settles its callers**: one that waits is live or refused as the subscribe went, one that
      has left is gone, and a failed record is out of the map with the first caller told. Nothing else changes. */
  lemma ResumeSettles(s: State, v: int)
    requires Inv(s) && Enabled(s, Resume(v))
    ensures var s', e := Step(s, Resume(v)), s.viewers[v].entry;
            var failed := s.entries[e].subscribing == Failed;
            && s'.viewers == s.viewers[v := Viewer(e, if s.viewers[v].phase == Leaving then Left
                                                      else if failed then Refused else Live)]
            && s'.cars == (if failed then Unmapped(s.cars, e) else s.cars)
            && (failed ==> !Current(s', e))
            && s'.entries == s.entries && s'.commands == s.commands
            && s'.subscribed == s.subscribed && s'.faulted == s.faulted
  {
    var e := s.viewers[v].entry;
    forall c | c in s.cars && s.cars[c] == e ensures c == s.entries[e].car {
      assert RecordOk(s, c);
    }
    if s.entries[e].subscribing.Failed? {
      assert Step(s, Resume(v)).cars == Unmapped(s.cars, e);
    }
  }

  /** **Who joins a mapped car shares its record, anybody else has a new one made and sends a `SUBSCRIBE` for it.** */
  lemma JoinIsCounted(s: State, v: int, car: string)
    requires Inv(s) && Enabled(s, Join(v, car))
    ensures var s', made := Step(s, Join(v, car)), car !in s.cars;
            var e := if made then |s.entries| else s.cars[car];
            && WellFormed(s') && s'.viewers == s.viewers[v := Viewer(e, Waiting)] && s'.cars == s.cars[car := e]
            && |s'.entries| == |s.entries| + (if made then 1 else 0)
            && s'.entries[e] == (if made then Entry(car, 1, Pending)
                                 else Entry(car, s.entries[e].count + 1, s.entries[e].subscribing))
            && (forall d :: 0 <= d < |s.entries| && d != e ==> s'.entries[d] == s.entries[d])
            && s'.commands == s.commands + (if made then [Subscribe(e)] else [])
            && s'.subscribed == s.subscribed && s'.faulted == s.faulted
  {
    if car in s.cars {
      assert RecordOk(s, car);
      assert s.cars[car := s.cars[car]] == s.cars;
    }
  }

  /** **Who leaves gives up one place on its record, and the last to leave a record takes it out of the map and sends
      an `UNSUBSCRIBE`**: on a record that has not failed that is who leaves nobody else waiting or live. */
  lemma LeaveIsCounted(s: State, v: int)
    requires Inv(s) && Enabled(s, Leave(v))
    ensures var s', e := Step(s, Leave(v)), s.viewers[v].entry;
            var car, last := s.entries[e].car, s.entries[e].count == 1;
            && (s.entries[e].subscribing != Failed ==> (last <==> Holding(s.viewers, e) == {v}))
            && s'.viewers == s.viewers[v := Viewer(e, if s.viewers[v].phase == Live then Left else Leaving)]
            && s'.cars == (if last then Unmapped(s.cars, e) else s.cars)
            && s'.commands == s.commands + (if last then [Unsubscribe(car)] else [])
            && s'.entries == (if last then s.entries
                              else s.entries[e := s.entries[e].(count := s.entries[e].count - 1)])
            && s'.subscribed == s.subscribed && s'.faulted == s.faulted
  {
    var e := s.viewers[v].entry;
    assert ViewerOk(s, v);
    assert RecordOk(s, s.entries[e].car);
    OnlyHolder(Holding(s.viewers, e), v);
    forall c | c in s.cars && s.cars[c] == e ensures c == s.entries[e].car {
      assert RecordOk(s, c);
    }
    if s.entries[e].count == 1 {
      assert Step(s, Leave(v)).cars == Unmapped(s.cars, e);
    }
  }

  lemma OnlyHolder(holders: set<int>, v: int)
    requires v in holders
    ensures |holders| == 1 <==> holders == {v}
  {
    OneFewer(holders, v);
    EmptyOrInhabited(holders - {v});
  }

  /** **Redis has a car's channels from a granted `SUBSCRIBE` until a granted `UNSUBSCRIBE`**: an answer settles the
      promise of its own record and no other, and a refused command leaves Redis as it was. */
  lemma AnswerSettles(s: State, ok: bool)
    requires Inv(s) && Enabled(s, Answer(ok))
    ensures var s', c := Step(s, Answer(ok)), s.commands[0];
            && s'.commands == s.commands[1..] && s'.cars == s.cars && s'.viewers == s.viewers
            && |s'.entries| == |s.entries|
            && (forall e :: 0 <= e < |s.entries| && c != Subscribe(e) ==> s'.entries[e] == s.entries[e])
            && (c.Subscribe? ==> s'.entries[c.entry]
                                 == s.entries[c.entry].(subscribing := if ok then Fulfilled else Failed))
            && s'.faulted == (if ok then s.faulted
                              else s.faulted + {if c.Subscribe? then s.entries[c.entry].car else c.car})
            && (!ok ==> s'.subscribed == s.subscribed)
            && (ok && c.Subscribe? ==> s'.subscribed == s.subscribed + {s.entries[c.entry].car})
            && (ok && c.Unsubscribe? ==> s'.subscribed == s.subscribed - {c.car})
  {}

  /** **A failed subscribe is retried by the next viewer**: once a caller has been told, whoever joins that car
      has a record of its own with a subscribe on its way, unless somebody has already made a newer one. */
  lemma FailureIsRetried(s: State, v: int, w: int)
    requires Inv(s) && Enabled(s, Resume(v)) && w !in s.viewers
    requires s.entries[s.viewers[v].entry].subscribing == Failed
    ensures var e, t := s.viewers[v].entry, Step(s, Resume(v));
            var car := s.entries[e].car;
            && Inv(t) && Enabled(t, Join(w, car))
            && var u := Step(t, Join(w, car));
               && WellFormed(u) && u.viewers[w].phase == Waiting && u.viewers[w].entry != e
               && Current(u, u.viewers[w].entry)
               && (car !in s.cars || s.cars[car] == e ==>
                   && u.commands == s.commands + [Subscribe(u.viewers[w].entry)]
                   && u.viewers[w].entry == |s.entries| && u.entries[|s.entries|] == Entry(car, 1, Pending))
  {
    StepInv(s, Resume(v));
    ResumeSettles(s, v);
    JoinIsCounted(Step(s, Resume(v)), w, s.entries[s.viewers[v].entry].car);
  }

  /** **Everybody waiting on a failed subscribe fails**: once it has failed, no caller that awaits its
      record is ever live, and once one of them has been told the record is out of the map. */
  lemma FailureReachesEveryWaiter(states: seq<State>, events: seq<Event>, i: nat, j: nat, e: nat, v: int)
    requires IsRun(states, events) && i <= j < |states|
    requires e < |states[i].entries| && states[i].entries[e].subscribing.Failed?
    requires v in states[j].viewers && states[j].viewers[v].entry == e
    ensures WellFormed(states[j]) && states[j].viewers[v].phase != Live
    ensures states[j].viewers[v].phase == Refused ==> !Current(states[j], e)
    ensures states[j].viewers[v].phase == Waiting ==>
              && Enabled(states[j], Resume(v))
              && var told := Step(states[j], Resume(v));
                 WellFormed(told) && told.viewers[v].phase == Refused && !Current(told, e)
  {
    InitialInv();
    RunNeverRecovers(states, events, e);
    FailedForGood(states, i, j, e);
    ReachedInv(states, events, j);
    assert ViewerOk(states[j], v);
    if states[j].viewers[v].phase == Waiting {
      StepInv(states[j], Resume(v));
      ResumeSettles(states[j], v);
    }
  }

  /** Record `e` is out of the map. */
  ghost predicate Out(s: State, e: nat) {
    WellFormed(s) && e < |s.entries| && !Current(s, e)
  }

  lemma OutNext(states: seq<State>, events: seq<Event>, i: nat, e: nat)
    requires IsRun(states, events) && i < |events| && Out(states[i], e)
    ensures Out(states[i + 1], e)
  {
    ReachedInv(states, events, i);
    ReachedInv(states, events, i + 1);
    StepKeepsRecords(states[i], events[i], e);
  }

  /** What is out of the map in one state of a run is out of it in the next. */
  ghost predicate StaysOut(states: seq<State>, k: nat, e: nat)
    requires k + 1 < |states|
  {
    Out(states[k], e) ==> Out(states[k + 1], e)
  }

  lemma RunStaysOut(states: seq<State>, events: seq<Event>, e: nat)
    requires IsRun(states, events)
    ensures forall k {:trigger StaysOut(states, k, e)} :: 0 <= k < |states| - 1 ==> StaysOut(states, k, e)
  {
    forall k | 0 <= k < |states| - 1 ensures StaysOut(states, k, e) {
      if Out(states[k], e) {
        OutNext(states, events, k, e);
      }
    }
  }

  lemma {:induction false} OutForGood(states: seq<State>, i: nat, j: nat, e: nat)
    requires forall k {:trigger StaysOut(states, k, e)} :: 0 <= k < |states| - 1 ==> StaysOut(states, k, e)
    requires i <= j < |states| && Out(states[i], e)
    ensures Out(states[j], e)
    decreases j - i
  {
    if i < j {
      OutForGood(states, i, j - 1, e);
      assert StaysOut(states, j - 1, e);
    }
  }

  ghost predicate Told(s: State, v: int) {
    v in s.viewers && s.viewers[v].phase == Refused
  }

  lemma {:induction false} ToldForGood(states: seq<State>, events: seq<Event>, i: nat, j: nat, v: int)
    requires IsRun(states, events) && i <= j < |states| && Told(states[i], v)
    ensures Told(states[j], v)
    decreases j - i
  {
    if i < j {
      ToldForGood(states, events, i, j - 1, v);
      ReachedInv(states, events, j - 1);
      assert Follows(states[j - 1], events[j - 1], states[j - 1 + 1]);
    }
  }

  /** **A failure is final and forgotten**: over every run, once a caller waiting on a failed record is resumed it is
      refused for good, and the record is out of the map for good. */
  lemma FailureIsFinal(states: seq<State>, events: seq<Event>, i: nat, j: nat, v: int)
    requires IsRun(states, events) && i < j < |states| && events[i] == Resume(v)
    requires v in states[i].viewers && states[i].viewers[v].entry < |states[i].entries|
    requires states[i].entries[states[i].viewers[v].entry].subscribing == Failed
    ensures states[i].viewers[v].phase == Waiting ==> Told(states[j], v)
    ensures Out(states[j], states[i].viewers[v].entry)
  {
    ReachedInv(states, events, i);
    ReachedInv(states, events, i + 1);
    assert Follows(states[i], events[i], states[i + 1]);
    ResumeSettles(states[i], v);
    RunStaysOut(states, events, states[i].viewers[v].entry);
    OutForGood(states, i + 1, j, states[i].viewers[v].entry);
    if states[i].viewers[v].phase == Waiting {
      ToldForGood(states, events, i + 1, j, v);
    }
  }

  /** A failed caller's clean-up never takes a newer record out of the map. */
  lemma OldFailureSparesNewer(s: State, v: int, car: string)
    requires Inv(s) && Enabled(s, Resume(v)) && car in s.cars && s.cars[car] != s.viewers[v].entry
    ensures var s' := AfterAwait(s, v); car in s'.cars && s'.cars[car] == s.cars[car]
  {}

  // ------------------------------------------------------------------------------------------
  // Leaving at the wrong time
  // ------------------------------------------------------------------------------------------

  /** Viewer `v` is live and its car is not subscribed. */
  ghost predicate Silent(s: State, v: int)
    requires WellFormed(s)
  {
    v in s.viewers && s.viewers[v].phase == Live && s.entries[s.viewers[v].entry].car !in s.subscribed
  }

  /** Nobody live is silent, and once drained Redis has exactly the cars watched. */
  ghost predicate Healthy(s: State) {
    WellFormed(s) && (forall v {:trigger Silent(s, v)} :: !Silent(s, v)) && (forall car :: Exact(s, car))
  }

  /** Whatever happens from `s` on, all is well. */
  ghost predicate Harmless(s: State) {
    forall states, events :: Path(states, events) && states[0] == s ==> Healthy(states[|states| - 1])
  }

  lemma InvIsHealthy(s: State)
    requires Inv(s)
    ensures Healthy(s)
  {
    forall v ensures !Silent(s, v) {
      assert v in s.viewers ==> ViewerOk(s, v);
    }
    forall car ensures Exact(s, car) {
      InvIsExact(s, car);
    }
  }

  lemma InvIsHarmless(s: State)
    requires Inv(s)
    ensures Harmless(s)
  {
    forall states, events | Path(states, events) && states[0] == s ensures Healthy(states[|states| - 1]) {
      PathInv(states, events, |states| - 1);
      InvIsHealthy(states[|states| - 1]);
    }
  }

  /** No record, or one whose subscribe has failed: nothing for a release to take from anybody. */
  ghost predicate Spared(s: State, car: string)
    requires WellFormed(s)
  {
    car !in s.cars || s.entries[s.cars[car]].subscribing.Failed?
  }

  lemma SparedCounts(s: State, car: string)
    requires WellFormed(s) && CountsRight(s) && ViewersOk(s) && Spared(s, car)
    ensures var s' := ReleaseCar(s, car); WellFormed(s') && CountsRight(s') && ViewersOk(s')
  {
    var s' := ReleaseCar(s, car);
    forall c | c in s'.cars ensures RecordOk(s', c) {
      assert RecordOk(s, c);
    }
    forall w | w in s'.viewers ensures ViewerOk(s', w) {
      assert ViewerOk(s, w);
    }
  }

  lemma SparedPendingAt(s: State, car: string, d: nat)
    requires WellFormed(s) && PendingOk(s) && Spared(s, car) && d < |s.entries|
    ensures PendingAt(ReleaseCar(s, car), d)
  {
    assert PendingAt(s, d);
    if s.entries[d].subscribing.Pending? && !Current(s, d) {
      BehindAppended(s.commands, Subscribe(d), Unsubscribe(s.entries[d].car), Unsubscribe(car));
    }
  }

  lemma SparedInv(s: State, car: string)
    requires Inv(s) && Spared(s, car)
    ensures Inv(ReleaseCar(s, car))
  {
    var s' := ReleaseCar(s, car);
    SparedCounts(s, car);
    SparedPending(s, car);
    ReleaseRedis(s, car);
    ReleaseResubscribing(s, car);
  }

  lemma SparedPending(s: State, car: string)
    requires WellFormed(s) && PendingOk(s) && Spared(s, car)
    ensures PendingOk(ReleaseCar(s, car))
  {
    forall d | 0 <= d < |s.entries| ensures PendingAt(ReleaseCar(s, car), d) {
      SparedPendingAt(s, car, d);
    }
  }

  /** A viewer `w` that will not be told: it is, or will be, live on record `e`, which counts one viewer too
      few, or is already out of the map with its unsubscribe the last command sent. */
  ghost predicate Doomed(s: State, e: nat, w: int) {
    && WellFormed(s) && e < |s.entries| && w in Holding(s.viewers, e) && !s.entries[e].subscribing.Failed?
    && (s.entries[e].subscribing.Pending? ==> Subscribe(e) in s.commands)
    && var car := s.entries[e].car;
       if car in s.cars then s.cars[car] == e && 1 <= s.entries[e].count == |Holding(s.viewers, e)| - 1
       else if s.commands == [] then car !in s.subscribed
       else s.commands[|s.commands| - 1] == Unsubscribe(car)
  }

  lemma ReleaseDooms(s: State, car: string) returns (w: int)
    requires Inv(s) && !Spared(s, car)
    ensures Doomed(ReleaseCar(s, car), s.cars[car], w)
  {
    assert RecordOk(s, car) && PendingAt(s, s.cars[car]);
    w := Someone(Holding(s.viewers, s.cars[car]));
  }

  lemma AnswerDooms(s: State, e: nat, w: int)
    requires Doomed(s, e, w) && s.commands != []
    ensures Doomed(OnAnswer(s, true), e, w)
  {
    AnswerRest(s, true);
    if s.entries[e].subscribing.Pending? && s.commands[0] != Subscribe(e) {
      RestHas(s.commands, Subscribe(e));
    }
  }

  /** A run one event longer. */
  lemma Extend(states: seq<State>, events: seq<Event>, e: Event) returns (more: seq<State>, done: seq<Event>)
    requires Path(states, events) && WellFormed(states[|states| - 1]) && Enabled(states[|states| - 1], e)
    ensures more == states + [Step(states[|states| - 1], e)] && done == events + [e] && Path(more, done)
  {
    more, done := states + [Step(states[|states| - 1], e)], events + [e];
    forall i | 0 <= i < |done| ensures Follows(more[i], done[i], more[i + 1]) {
      if i < |events| {
        assert Follows(states[i], events[i], states[i + 1]);
      }
    }
  }

  /** What a run towards the end of `w` keeps of the state it started from. */
  ghost predicate Onward(states: seq<State>, events: seq<Event>, start: State, e: nat, w: int) {
    Path(states, events) && states[0] == start && Doomed(states[|states| - 1], e, w)
  }

  /** The other viewers of the record leave, and with the last but one of them the record goes. */
  lemma {:induction false} OthersLeave(states: seq<State>, events: seq<Event>, start: State, e: nat, w: int)
    returns (more: seq<State>, done: seq<Event>)
    requires Onward(states, events, start, e, w)
    ensures Onward(more, done, start, e, w)
    ensures var s := more[|more| - 1]; s.entries[e].car !in s.cars
    decreases states[|states| - 1].entries[e].count
  {
    var s := states[|states| - 1];
    more, done := states, events;
    if s.entries[e].car in s.cars {
      var u := OneLeaves(s, e, w);
      more, done := Extend(states, events, Leave(u));
      var left := more[|more| - 1];
      if left.entries[e].car in left.cars {
        more, done := OthersLeave(more, done, start, e, w);
      }
    }
  }

  lemma OneLeaves(s: State, e: nat, w: int) returns (u: int)
    requires Doomed(s, e, w) && s.entries[e].car in s.cars
    ensures Enabled(s, Leave(u)) && Doomed(Step(s, Leave(u)), e, w)
    ensures var s' := Step(s, Leave(u)); s'.entries[e].car in s'.cars ==> s'.entries[e].count < s.entries[e].count
  {
    var holders := Holding(s.viewers, e);
    OneFewer(holders, w);
    u := Someone(holders - {w});
    OneFewer(holders, u);
    LeaveHolding(s, u, e);
  }

  /** Redis answers everything. */
  lemma {:induction false} Drain(states: seq<State>, events: seq<Event>, start: State, e: nat, w: int)
    returns (more: seq<State>, done: seq<Event>)
    requires Onward(states, events, start, e, w)
    requires var s := states[|states| - 1]; s.entries[e].car !in s.cars
    ensures Onward(more, done, start, e, w)
    ensures var s := more[|more| - 1]; s.entries[e].car !in s.cars && s.commands == []
    decreases |states[|states| - 1].commands|
  {
    var s := states[|states| - 1];
    more, done := states, events;
    if s.commands != [] {
      AnswerDooms(s, e, w);
      AnswerRest(s, true);
      more, done := Extend(states, events, Answer(true));
      more, done := Drain(more, done, start, e, w);
    }
  }

  /** **From a doomed viewer's state there is a run to its silence**: the others leave, Redis answers, and the
      viewer, once it has resumed, is live on a car nobody is subscribed to. */
  lemma Silenced(s: State, e: nat, w: int) returns (states: seq<State>, events: seq<Event>)
    requires Doomed(s, e, w)
    ensures Path(states, events) && states[0] == s
    ensures var t := states[|states| - 1]; WellFormed(t) && Silent(t, w)
  {
    states, events := OthersLeave([s], [], s, e, w);
    states, events := Drain(states, events, s, e, w);
    var t := states[|states| - 1];
    if t.viewers[w].phase == Waiting {
      states, events := Extend(states, events, Resume(w));
    }
  }

  /** **A leave with no join does no harm exactly when the car has no record, or a failed one**; from any other
      state a run leads to a live viewer whose car is not subscribed. */
  lemma UnjoinedLeave(s: State, car: string)
    requires Inv(s)
    ensures Harmless(ReleaseCar(s, car)) <==> Spared(s, car)
  {
    if Spared(s, car) {
      SparedInv(s, car);
      InvIsHarmless(ReleaseCar(s, car));
    } else {
      var w := ReleaseDooms(s, car);
      var states, events := Silenced(ReleaseCar(s, car), s.cars[car], w);
      assert !Healthy(states[|states| - 1]);
    }
  }

  /** **A caller that its car's record counts may leave whenever it likes**, live or waiting, answered or not;
      any other caller exactly when a leave with no join does no harm. */
  lemma UnpairedLeave(s: State, v: int)
    requires Inv(s) && v in s.viewers
    ensures Harmless(RemoveViewer(s, v)) <==> CountedIn(s, v) || Spared(s, s.entries[s.viewers[v].entry].car)
  {
    if CountedIn(s, v) {
      LeaveInv(s, v);
      InvIsHarmless(RemoveViewer(s, v));
    } else {
      LeftUncounted(s, v);
      UnjoinedLeave(LeftBy(s, v), s.entries[s.viewers[v].entry].car);
    }
  }

  /** A viewer joins, its subscribe is answered, and it resumes. */
  lemma OneLiveViewer(car: string) returns (states: seq<State>, events: seq<Event>)
    ensures IsRun(states, events)
    ensures states[|states| - 1]
            == State(map[car := 0], [Entry(car, 1, Fulfilled)], map[1 := Viewer(0, Live)], [], {car}, {})
  {
    var s1 := State(map[car := 0], [Entry(car, 1, Pending)], map[1 := Viewer(0, Waiting)], [Subscribe(0)], {}, {});
    var s2 := State(map[car := 0], [Entry(car, 1, Fulfilled)], map[1 := Viewer(0, Waiting)], [], {car}, {});
    var s3 := s2.(viewers := map[1 := Viewer(0, Live)]);
    states, events := Extend([Initial], [], Join(1, car));
    assert Step(Initial, Join(1, car)) == s1;
    states, events := Extend(states, events, Answer(true));
    assert Step(s1, Answer(true)) == s2;
    states, events := Extend(states, events, Resume(1));
    assert Step(s2, Resume(1)) == s3;
  }

  /** **A leave with no join silences a live viewer**: once its unsubscribe is answered the viewer who did
      join is live on a car nobody is subscribed to. */
  lemma UnjoinedLeaveSilences(car: string) returns (states: seq<State>, events: seq<Event>, after: State)
    ensures IsRun(states, events) && WellFormed(states[|states| - 1])
    ensures var s := ReleaseCar(states[|states| - 1], car);
            WellFormed(s) && Enabled(s, Answer(true)) && after == Step(s, Answer(true))
    ensures WellFormed(after) && Silent(after, 1)
  {
    states, events := OneLiveViewer(car);
    after := Step(ReleaseCar(states[|states| - 1], car), Answer(true));
  }

  // ------------------------------------------------------------------------------------------
  // The service object
  // ------------------------------------------------------------------------------------------

  class LiveTelemetryBus {
    var cars: map<string, nat>
    var entries: seq<Entry>
    var viewers: map<int, Viewer>
    var commands: seq<Command>
    var subscribed: set<string>
    var faulted: set<string>

    function Now(): State
      reads this
    {
      State(cars, entries, viewers, commands, subscribed, faulted)
    }

    constructor ()
      ensures Now() == Initial
    {
      cars, entries, viewers, commands, subscribed, faulted := map[], [], map[], [], {}, {};
    }

    method AddViewer(v: int, carId: string)
      requires WellFormed(Now()) && Enabled(Now(), Join(v, carId))
      modifies this`cars, this`entries, this`commands, this`viewers
      ensures Now() == Step(old(Now()), Join(v, carId))
    {
      if carId !in cars {
        commands := commands + [Subscribe(|entries|)];
        cars := cars[carId := |entries|];
        entries := entries + [Entry(carId, 0, Pending)];
      }
      var e := cars[carId];
      entries := entries[e := entries[e].(count := entries[e].count + 1)];
      viewers := viewers[v := Viewer(e, Waiting)];
    }

    method ResumeViewer(v: int)
      requires WellFormed(Now()) && Enabled(Now(), Resume(v))
      modifies this`cars, this`viewers
      ensures Now() == Step(old(Now()), Resume(v))
    {
      var e := viewers[v].entry;
      var carId := entries[e].car;
      if entries[e].subscribing.Failed? {
        if carId in cars && cars[carId] == e {
          cars := cars - {carId};
        }
      }
      viewers := viewers[v := Viewer(e, Resumed(viewers[v].phase, entries[e].subscribing.Failed?))];
    }

    /** Counts one viewer less, or takes the record out when nobody else is left on it. */
    method Release(carId: string) returns (last: bool)
      requires WellFormed(Now())
      modifies this`cars, this`entries
      ensures last <==> carId in old(cars) && old(entries[cars[carId]]).count <= 1
      ensures cars == if last then old(cars) - {carId} else old(cars)
      ensures entries == if last || carId !in old(cars) then old(entries)
                         else var e := old(cars[carId]);
                              old(entries)[e := old(entries)[e].(count := old(entries)[e].count - 1)]
    {
      if carId !in cars {
        return false;
      }
      var e := cars[carId];
      if entries[e].count <= 1 {
        cars := cars - {carId};
        return true;
      }
      entries := entries[e := entries[e].(count := entries[e].count - 1)];
      return false;
    }

    method RemoveViewer(v: int)
      requires WellFormed(Now()) && Enabled(Now(), Leave(v))
      modifies this`cars, this`entries, this`commands, this`viewers
      ensures Now() == Step(old(Now()), Leave(v))
    {
      var carId := entries[viewers[v].entry].car;
      viewers := viewers[v := Viewer(viewers[v].entry, Gone(viewers[v].phase))];
      var last := Release(carId);
      if last {
        commands := commands + [Unsubscribe(carId)];
      }
    }
  }
}
