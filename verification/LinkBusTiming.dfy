// How long one slave can hold the bus of an unbalanced master (link_layer.c): what a slave that does not answer costs,
// and by when every slave has had its turn.
module LinkBusTiming {
  import Bytes
  import opened LinkBus
  import opened LinkFrames
  import opened LinkUnbalanced
  import opened Rings
  import opened Wrappers

  // ---------------------------------------------------------------- a silent slave

  /** Timing between the runs of a waiting connection under a monotone clock: `prev` is the time of the last run. */
  predicate Timed(c: Connection, prev: nat) {
    && c.waiting && c.lastSend <= prev
    && match c.state
       case SendConfirm | RequestRespond =>
         && c.originalSend <= c.lastSend <= c.originalSend + c.parameters.timeoutRepeat
         && prev <= c.originalSend + c.parameters.timeoutRepeat + c.parameters.timeoutForAck
       case RequestStatus | ResetRemote => prev <= c.lastSend + c.parameters.timeoutForAck
       case Idle => true
       case _ => false
  }

  /** When a slave that stays silent has lost its turn at the latest, with runs at least every d ms. */
  function ReleaseBy(c: Connection, prev: nat, d: nat): nat {
    var ack := c.parameters.timeoutForAck;
    match c.state
    case SendConfirm => c.originalSend + c.parameters.timeoutRepeat + ack + d
    case RequestRespond => c.originalSend + c.parameters.timeoutRepeat + ack + d + (d + ack + d)
    case Idle => prev + (d + ack + d)
    case _ => c.lastSend + ack + d
  }

  predicate Progresses(c: Connection, prev: nat, now: nat, d: nat) {
    var c1 := RunConnection(c, now).0;
    && c1.parameters == c.parameters
    && if c1.waiting then Timed(c1, now) && ReleaseBy(c1, now, d) <= ReleaseBy(c, prev, d)
       else c1.state == TimedOut && now <= ReleaseBy(c, prev, d)
  }

  lemma SilentConfirm(c: Connection, prev: nat, now: nat, d: nat)
    requires Timed(c, prev) && prev <= now <= prev + d && c.state == SendConfirm
    ensures Progresses(c, prev, now, d)
  {
    hide DataRequests, TestRequest;
    assert Plausible(c.lastSend, now) == c.lastSend;
  }

  lemma SilentPoll(c: Connection, prev: nat, now: nat, d: nat)
    requires Timed(c, prev) && prev <= now <= prev + d && c.state == RequestRespond
    ensures Progresses(c, prev, now, d)
  {
    hide PollRequest;
    assert Plausible(c.lastSend, now) == c.lastSend;
  }

  lemma SilentAtStart(c: Connection, prev: nat, now: nat, d: nat)
    requires Timed(c, prev) && prev <= now <= prev + d && c.state in {Idle, RequestStatus, ResetRemote}
    ensures Progresses(c, prev, now, d)
  {
    assert Plausible(c.lastSend, now) == c.lastSend;
  }

  /** One run without a response: the turn ends by the deadline, or the deadline does not move. */
  lemma SilentRun(c: Connection, prev: nat, now: nat, d: nat)
    requires Timed(c, prev) && prev <= now <= prev + d
    ensures Progresses(c, prev, now, d)
  {
    if c.state == SendConfirm {
      SilentConfirm(c, prev, now, d);
    } else if c.state == RequestRespond {
      SilentPoll(c, prev, now, d);
    } else {
      SilentAtStart(c, prev, now, d);
    }
  }

  /** A silent slave leaves SEND_CONFIRM at the first run after the repetitions and one more timeout. */
  lemma SendConfirmEnds(c: Connection, prev: nat, now: nat)
    requires Timed(c, prev) && prev <= now && c.state == SendConfirm
    requires now > c.originalSend + c.parameters.timeoutRepeat + c.parameters.timeoutForAck
    ensures var c1 := RunConnection(c, now).0;
            c1.state == TimedOut && !c1.waiting
  {
  }

  predicate Paced(prev: nat, times: seq<nat>, d: nat)
    decreases |times|
  {
    times == [] || (prev <= times[0] <= prev + d && Paced(times[0], times[1..], d))
  }

  function Last(prev: nat, times: seq<nat>): nat { if times == [] then prev else times[|times| - 1] }

  /** Some run among these ends the turn. */
  predicate Released(c: Connection, times: seq<nat>)
    decreases |times|
  {
    times != []
    && var c1 := RunConnection(c, times[0]).0;
       !c1.waiting || Released(c1, times[1..])
  }

  /** A slave that stays silent loses its turn by the deadline. */
  lemma {:induction false} SilentSlaveReleased(c: Connection, prev: nat, times: seq<nat>, d: nat)
    requires Timed(c, prev) && Paced(prev, times, d) && Last(prev, times) > ReleaseBy(c, prev, d)
    ensures Released(c, times)
    decreases |times|
  {
    hide RunConnection, Timed, ReleaseBy;
    if times == [] {
      NotYetDue(c, prev, d);
    } else {
      SilentRun(c, prev, times[0], d);
      var c1 := RunConnection(c, times[0]).0;
      if c1.waiting {
        assert Last(times[0], times[1..]) == Last(prev, times);
        SilentSlaveReleased(c1, times[0], times[1..], d);
      }
    }
  }

  lemma NotYetDue(c: Connection, prev: nat, d: nat)
    requires Timed(c, prev)
    ensures prev <= ReleaseBy(c, prev, d)
  {
  }

  /** With DFC set in a response the connection waits for good: no run ends the turn. */
  lemma {:induction false} BusyNeverReleased(c: Connection, r: Response, now: nat, times: seq<nat>)
    requires c.state == SendConfirm && c.waiting && r.dfc
    ensures !Released(HandleResponse(c, r, now).c, times)
    decreases |times|
  {
    var b := HandleResponse(c, r, now).c;
    assert b.state == Busy && b.waiting;
    if times != [] {
      BusyNeverReleased(c, r, now, times[1..]);
    }
  }

  // ---------------------------------------------------------------- reachable connections

  /** What the master's application may ask of a connection at any time. */
  datatype Ask = AskSend(message: seq<Bytes.byte>) | AskData(class1: bool) | AskTest

  function Asked(c: Connection, ask: Ask): Connection {
    match ask
    case AskSend(message) => if c.hasMessage then c else c.(hasMessage := true, message := message)
    case AskData(class1) => if class1 then c.(class1 := true) else c.(class2 := true)
    case AskTest => c.(test := true)
  }

  /** What holds of a connection at any time under a monotone clock. */
  predicate Sound(c: Connection, clock: nat) {
    && c.lastSend <= clock
    && (c.state in {Available, TimedOut} ==> !c.waiting)
    && (c.waiting && c.state in {SendConfirm, RequestRespond} ==>
          c.originalSend <= c.lastSend <= c.originalSend + c.parameters.timeoutRepeat)
  }

  predicate SoundAndTimed(c: Connection, now: nat) {
    Sound(c, now) && (c.waiting && c.state != Busy ==> Timed(c, now))
  }

  lemma SoundAvailable(c: Connection, clock: nat, now: nat)
    requires Sound(c, clock) && clock <= now && c.state == Available
    ensures var c1 := RunAvailable(c, now).0; SoundAndTimed(c1, now) && c1.parameters == c.parameters && c1.state != Busy
  {
    hide DataRequests, PollRequest, TestRequest;
  }

  lemma SoundConfirm(c: Connection, clock: nat, now: nat)
    requires Sound(c, clock) && clock <= now && c.state == SendConfirm
    ensures var c1 := RunConnection(c, now).0; SoundAndTimed(c1, now) && c1.parameters == c.parameters && c1.state != Busy
  {
    hide DataRequests, PollRequest, TestRequest;
    assert Plausible(c.lastSend, now) == c.lastSend;
  }

  lemma SoundPoll(c: Connection, clock: nat, now: nat)
    requires Sound(c, clock) && clock <= now && c.state == RequestRespond
    ensures var c1 := RunConnection(c, now).0; SoundAndTimed(c1, now) && c1.parameters == c.parameters && c1.state != Busy
  {
    hide DataRequests, PollRequest, TestRequest;
    assert Plausible(c.lastSend, now) == c.lastSend;
  }

  lemma SoundSetup(c: Connection, clock: nat, now: nat)
    requires Sound(c, clock) && clock <= now && c.state in {Idle, TimedOut, RequestStatus, ResetRemote, Busy}
    ensures var c1 := RunConnection(c, now).0; SoundAndTimed(c1, now) && c1.parameters == c.parameters
                                                && (c1.state == Busy ==> c1 == c)
  {
    assert Plausible(c.lastSend, now) == c.lastSend;
  }

  /** Every run keeps it, and leaves a waiting connection timed from this run on. */
  lemma RunKeepsSound(c: Connection, clock: nat, now: nat)
    requires Sound(c, clock) && clock <= now
    ensures var c1 := RunConnection(c, now).0; SoundAndTimed(c1, now) && c1.parameters == c.parameters
                                                && (c1.state == Busy ==> c1 == c)
  {
    hide SoundAndTimed, Sound, RunAvailable;
    match c.state
    case Available => SoundAvailable(c, clock, now);
    case SendConfirm => SoundConfirm(c, clock, now);
    case RequestRespond => SoundPoll(c, clock, now);
    case _ => SoundSetup(c, clock, now);
  }

  /** A response without DFC ends the wait unless it is a status of link. */
  lemma ServiceKeepsSound(c: Connection, r: Response, clock: nat, now: nat)
    requires Sound(c, clock) && clock <= now && r.fc != STATUS_OF_LINK
    ensures var o := HandleService(c, r, now);
            Sound(o.c, now) && !o.c.waiting && o.c.parameters == c.parameters && o.requests == []
  {
    if r.fc == ACK {
      assert Acknowledged(c).lastSend == c.lastSend && !Acknowledged(c).waiting;
    } else if r.fc == RESP_USER_DATA || r.fc == RESP_NO_DATA {
      assert Answered(c, r).c.lastSend == c.lastSend && !Answered(c, r).c.waiting;
    }
    hide Acknowledged, Answered;
    assert Acknowledged(c).parameters == c.parameters && Answered(c, r).c.parameters == c.parameters by {
      KeepParameters(c, r);
    }
    NoRequests(c, r);
  }

  lemma KeepParameters(c: Connection, r: Response)
    ensures Acknowledged(c).parameters == c.parameters && Answered(c, r).c.parameters == c.parameters
  {
  }

  lemma NoRequests(c: Connection, r: Response)
    ensures Answered(c, r).requests == []
  {
  }

  lemma StatusKeepsSound(c: Connection, r: Response, clock: nat, now: nat)
    requires Sound(c, clock) && clock <= now && r.fc == STATUS_OF_LINK
    ensures var o := HandleService(c, r, now);
            && Sound(o.c, now) && o.c.parameters == c.parameters
            && (o.requests != [] <==> c.state == RequestStatus)
            && (o.requests != [] ==> o.c.state == ResetRemote && o.c.lastSend == now && Timed(o.c, now))
  {
    hide Acknowledged, Answered;
  }

  lemma DfcKeepsSound(c: Connection, r: Response, clock: nat, now: nat)
    requires Sound(c, clock) && clock <= now && r.dfc
    ensures var o := HandleResponse(c, r, now);
            Sound(o.c, now) && o.c.parameters == c.parameters && o.requests == []
  {
    hide HandleService;
  }

  lemma DemandKeepsTiming(c: Connection, acd: bool, now: nat)
    ensures var d := Demanded(c, acd);
            && Sound(d, now) == Sound(c, now) && Timed(d, now) == Timed(c, now) && d.parameters == c.parameters
            && d.waiting == c.waiting && d.state == c.state && d.lastSend == c.lastSend
  {
  }

  /** So does every response; one that makes the master write a request leaves the connection timed from then on. */
  lemma ResponseKeepsSound(c: Connection, r: Response, clock: nat, now: nat)
    requires Sound(c, clock) && clock <= now
    ensures var o := HandleResponse(c, r, now);
            && Sound(o.c, now) && o.c.parameters == c.parameters
            && (o.requests != [] ==> Timed(o.c, now))
            && (!r.dfc && r.fc != STATUS_OF_LINK ==> !o.c.waiting && o.requests == [])
            && (!r.dfc && r.fc == STATUS_OF_LINK && c.state == RequestStatus ==>
                  o.c.state == ResetRemote && o.c.lastSend == now && o.requests != [])
  {
    if r.dfc {
      DfcKeepsSound(c, r, clock, now);
    } else {
      var d := Demanded(c, r.acd);
      assert Sound(d, clock) && d.state == c.state && d.parameters == c.parameters;
      var o := HandleService(d, r, now);
      assert HandleResponse(c, r, now) == o.(c := Demanded(o.c, r.acd));
      DemandKeepsTiming(o.c, r.acd, now);
      hide HandleService, HandleResponse, Sound, Demanded, Timed;
      if r.fc == STATUS_OF_LINK {
        StatusKeepsSound(d, r, clock, now);
      } else {
        ServiceKeepsSound(d, r, clock, now);
      }
    }
  }

  lemma AskKeepsSound(c: Connection, ask: Ask, clock: nat, now: nat)
    requires Sound(c, clock) && clock <= now
    ensures Sound(Asked(c, ask), now)
  {
  }

  datatype ConnectionEvent = Ran(now: nat) | Responded(r: Response, now: nat) | AskedFor(ask: Ask, now: nat)

  function ConnectionAfter(parameters: Parameters, events: seq<ConnectionEvent>): Connection {
    if events == [] then NewConnection(parameters)
    else
      var c := ConnectionAfter(parameters, events[..|events| - 1]);
      match events[|events| - 1]
      case Ran(now) => RunConnection(c, now).0
      case Responded(r, now) => HandleResponse(c, r, now).c
      case AskedFor(ask, now) => Asked(c, ask)
  }

  function ClockAfter(events: seq<ConnectionEvent>): nat { if events == [] then 0 else events[|events| - 1].now }

  predicate Monotone(events: seq<ConnectionEvent>) {
    events == []
    || (Monotone(events[..|events| - 1]) && ClockAfter(events[..|events| - 1]) <= events[|events| - 1].now)
  }

  lemma {:induction false} EveryConnectionSound(parameters: Parameters, events: seq<ConnectionEvent>)
    requires Monotone(events)
    ensures Sound(ConnectionAfter(parameters, events), ClockAfter(events))
    ensures ConnectionAfter(parameters, events).parameters == parameters
  {
    if events == [] {
    } else {
      hide Sound, RunConnection, HandleResponse;
      var front := events[..|events| - 1];
      EveryConnectionSound(parameters, front);
      var c, clock := ConnectionAfter(parameters, front), ClockAfter(front);
      match events[|events| - 1]
      case Ran(now) => RunKeepsSound(c, clock, now);
      case Responded(r, now) => ResponseKeepsSound(c, r, clock, now);
      case AskedFor(ask, now) => AskKeepsSound(c, ask, clock, now);
    }
  }

  /** The longest a silent slave can wait from a run on. */
  function LongestSilence(parameters: Parameters, d: nat): nat {
    parameters.timeoutRepeat + 2 * parameters.timeoutForAck + 3 * d
  }

  lemma ReleaseBounded(c: Connection, now: nat, d: nat)
    requires Timed(c, now)
    ensures ReleaseBy(c, now, d) <= now + LongestSilence(c.parameters, d)
  {
  }

  /** Whatever happened to a connection before: if its slave stays silent from now on, then within LongestSilence of the
      next run the connection has lost its turn, unless a response with DFC has made it BUSY. */
  lemma ReachableSlaveReleased(parameters: Parameters, events: seq<ConnectionEvent>, first: nat, times: seq<nat>, d: nat)
    requires Monotone(events) && ClockAfter(events) <= first && Paced(first, times, d)
    requires Last(first, times) > first + LongestSilence(parameters, d)
    ensures var c := RunConnection(ConnectionAfter(parameters, events), first).0;
            c.waiting && c.state != Busy ==> Released(c, times)
  {
    hide RunConnection, Sound, Timed, ReleaseBy;
    EveryConnectionSound(parameters, events);
    RunKeepsSound(ConnectionAfter(parameters, events), ClockAfter(events), first);
    var c := RunConnection(ConnectionAfter(parameters, events), first).0;
    if c.waiting && c.state != Busy {
      ReleaseBounded(c, first, d);
      SilentSlaveReleased(c, first, times, d);
    }
  }

  // ---------------------------------------------------------------- every slave gets its turn

  /** The bus, the time of its last run or, if later, of the last request written for the current slave, the time of its
      last run, the present, and the slaves that were given a turn. */
  datatype Timeline = Timeline(b: Bus, mark: nat, run: nat, clock: nat, turns: seq<nat>)

  datatype BusEvent = BusRuns(now: nat) | Answers(i: nat, r: Response, now: nat) | AppAsks(i: nat, ask: Ask, now: nat)

  function BusStep(t: Timeline, e: BusEvent): (u: Timeline)
    requires ValidBus(t.b)
    ensures ValidBus(u.b) && |u.b.connections| == |t.b.connections|
  {
    match e
    case BusRuns(now) =>
      Timeline(RunBus(t.b, now).0, now, now, now, if KeepsTurn(t.b) then t.turns else t.turns + [t.b.nextIndex])
    case Answers(i, r, now) =>
      if i >= |t.b.connections| then t.(clock := now)
      else
        var o := HandleResponse(t.b.connections[i], r, now);
        t.(b := t.b.(connections := t.b.connections[i := o.c]), clock := now,
           mark := if t.b.current == Some(i) && o.requests != [] then now else t.mark)
    case AppAsks(i, ask, now) =>
      if i >= |t.b.connections| then t.(clock := now)
      else t.(b := t.b.(connections := t.b.connections[i := Asked(t.b.connections[i], ask)]), clock := now)
  }

  /** A slave does not set DFC while the connection waits for the acknowledgement of user data or of a reset, and while
      the connection waits it reports the status of the link only when it is asked for it. */
  predicate Cooperative(c: Connection, r: Response) {
    if r.dfc then !(c.waiting && c.state in {SendConfirm, ResetRemote})
    else r.fc == STATUS_OF_LINK ==> c.waiting == (c.state == RequestStatus)
  }

  /** Time does not run backwards and the bus runs at least every d ms. Slaves may answer anything cooperative at any time,
      or nothing. */
  predicate Orderly(t: Timeline, e: BusEvent, d: nat) {
    && t.clock <= e.now <= t.run + d
    && (e.Answers? && e.i < |t.b.connections| ==> Cooperative(t.b.connections[e.i], e.r))
  }

  predicate SoundAlone(c: Connection, parameters: Parameters, clock: nat) {
    c.parameters == parameters && Sound(c, clock) && !(c.state == Busy && c.waiting)
  }

  predicate AllSound(connections: seq<Connection>, parameters: Parameters, clock: nat) {
    forall i | 0 <= i < |connections| :: SoundAlone(connections[i], parameters, clock)
  }

  predicate OnTime(t: Timeline, parameters: Parameters, d: nat) {
    && ValidBus(t.b) && t.run <= t.mark <= t.clock <= t.run + d
    && AllSound(t.b.connections, parameters, t.clock)
    && (KeepsTurn(t.b) ==> Timed(t.b.connections[t.b.current.value], t.mark))
  }

  /** When the turn of a waiting connection is over at the latest, counting a status of link still to come. */
  function TurnEnd(c: Connection, mark: nat, d: nat): nat {
    ReleaseBy(c, mark, d)
    + if c.state in {RequestStatus, Idle, RequestRespond} then c.parameters.timeoutForAck + d else 0
  }

  /** When the next slave has its turn at the latest. */
  function NextTurnBy(t: Timeline, d: nat): nat
    requires ValidBus(t.b)
  {
    if KeepsTurn(t.b) then TurnEnd(t.b.connections[t.b.current.value], t.mark, d) + d else t.run + d
  }

  /** The longest turn and the wait for the next run. */
  function LongestTurn(parameters: Parameters, d: nat): nat {
    parameters.timeoutRepeat + 3 * parameters.timeoutForAck + 5 * d
  }

  lemma TurnEndBounded(c: Connection, now: nat, d: nat)
    requires Timed(c, now)
    ensures now <= TurnEnd(c, now, d) && TurnEnd(c, now, d) + d <= now + LongestTurn(c.parameters, d)
  {
  }

  /** A silent run of the slave whose turn it is: the end of the turn does not move. */
  lemma SilentTurn(c: Connection, mark: nat, now: nat, d: nat)
    requires Timed(c, mark) && mark <= now <= mark + d
    ensures var c1 := RunConnection(c, now).0;
            if c1.waiting then Timed(c1, now) && TurnEnd(c1, now, d) <= TurnEnd(c, mark, d)
            else now <= TurnEnd(c, mark, d)
  {
    SilentRun(c, mark, now, d);
    StatusStillToCome(c, mark, now);
    hide RunConnection, Timed, ReleaseBy;
  }

  /** States that may still see a status of link come only from such states. */
  lemma StatusStillToCome(c: Connection, mark: nat, now: nat)
    requires Timed(c, mark)
    ensures var c1 := RunConnection(c, now).0;
            c1.state in {RequestStatus, Idle, RequestRespond} && c1.waiting ==> c.state in {RequestStatus, Idle, RequestRespond}
  {
    hide DataRequests, PollRequest, TestRequest;
  }

  /** A run keeps every connection sound, BUSY ones not waiting. */
  lemma RunKeepsAlone(c: Connection, parameters: Parameters, clock: nat, now: nat)
    requires SoundAlone(c, parameters, clock) && clock <= now
    ensures var c1 := RunConnection(c, now).0;
            SoundAlone(c1, parameters, now) && (c1.waiting ==> Timed(c1, now))
  {
    RunKeepsSound(c, clock, now);
  }

  lemma LaterSound(connections: seq<Connection>, parameters: Parameters, clock: nat, now: nat, i: nat, c: Connection)
    requires AllSound(connections, parameters, clock) && clock <= now && i < |connections|
    requires SoundAlone(c, parameters, now)
    ensures AllSound(connections[i := c], parameters, now)
  {
    hide Sound;
    var changed := connections[i := c];
    forall j | 0 <= j < |changed| ensures SoundAlone(changed[j], parameters, now) {
      SoundLater(connections[j], clock, now);
    }
  }

  lemma SoundLater(c: Connection, clock: nat, now: nat)
    requires Sound(c, clock) && clock <= now
    ensures Sound(c, now)
  {
  }

  lemma RunOnTime(t: Timeline, parameters: Parameters, now: nat, d: nat)
    requires OnTime(t, parameters, d) && Orderly(t, BusRuns(now), d)
    ensures var u := BusStep(t, BusRuns(now));
            && OnTime(u, parameters, d)
            && NextTurnBy(u, d) <= NextTurnBy(t, d) + if KeepsTurn(t.b) then 0 else LongestTurn(parameters, d)
  {
    hide RunConnection, Sound, Timed, TurnEnd, LongestTurn;
    SelectKeepsValid(t.b);
    var s := Select(t.b);
    var i := s.current.value;
    var c := s.connections[i];
    var c1 := RunConnection(c, now).0;
    RunKeepsAlone(c, parameters, t.clock, now);
    LaterSound(t.b.connections, parameters, t.clock, now, i, c1);
    var u := BusStep(t, BusRuns(now));
    assert u.b.connections[i] == c1 && u.b.current == Some(i);
    if KeepsTurn(t.b) {
      SilentTurn(c, t.mark, now, d);
    } else if c1.waiting {
      TurnEndBounded(c1, now, d);
    } else {
      ShortTurn(parameters, d);
    }
  }

  lemma ShortTurn(parameters: Parameters, d: nat)
    ensures LongestTurn(parameters, d) >= d
  {
  }

  /** A cooperative response never delays the next turn. */
  lemma AnswerOnTime(t: Timeline, parameters: Parameters, i: nat, r: Response, now: nat, d: nat)
    requires OnTime(t, parameters, d) && Orderly(t, Answers(i, r, now), d)
    ensures var u := BusStep(t, Answers(i, r, now));
            OnTime(u, parameters, d) && NextTurnBy(u, d) <= NextTurnBy(t, d)
  {
    hide HandleResponse, Sound, Cooperative;
    var u := BusStep(t, Answers(i, r, now));
    if i >= |t.b.connections| {
      EveryoneLater(t.b.connections, parameters, t.clock, now);
    } else {
      var c := t.b.connections[i];
      var o := HandleResponse(c, r, now);
      ResponseKeepsSound(c, r, t.clock, now);
      AnsweredAlone(c, parameters, r, t.clock, now);
      LaterSound(t.b.connections, parameters, t.clock, now, i, o.c);
      if t.b.current == Some(i) {
        if c.waiting { TurnEndLater(c, t.mark, d); }
      }
    }
  }

  lemma TurnEndLater(c: Connection, mark: nat, d: nat)
    requires Timed(c, mark)
    ensures mark <= TurnEnd(c, mark, d)
  {
  }

  /** A connection that waits behind a cooperative response was waiting before: it is as it was, or waits for the
      acknowledgement of the reset. */
  lemma AnsweredAlone(c: Connection, parameters: Parameters, r: Response, clock: nat, now: nat)
    requires SoundAlone(c, parameters, clock) && clock <= now && Cooperative(c, r)
    ensures var o := HandleResponse(c, r, now);
            && SoundAlone(o.c, parameters, now)
            && (o.c.waiting ==>
                  if r.dfc then o.c == c && o.requests == []
                  else r.fc == STATUS_OF_LINK && c.state == RequestStatus && o.c.state == ResetRemote && c.waiting)
  {
    if r.dfc {
      hide Sound, HandleService;
      ResponseKeepsSound(c, r, clock, now);
    } else {
      hide HandleResponse, Sound;
      ResponseKeepsSound(c, r, clock, now);
      if r.fc == STATUS_OF_LINK && c.state != RequestStatus { UnaskedStatus(c, r, now); }
    }
  }

  lemma UnaskedStatus(c: Connection, r: Response, now: nat)
    requires !r.dfc && r.fc == STATUS_OF_LINK && c.state != RequestStatus
    ensures var o := HandleResponse(c, r, now); o.c.state == Idle && o.c.waiting == c.waiting && o.requests == []
  {
  }

  lemma EveryoneLater(connections: seq<Connection>, parameters: Parameters, clock: nat, now: nat)
    requires AllSound(connections, parameters, clock) && clock <= now
    ensures AllSound(connections, parameters, now)
  {
    hide Sound;
    forall j | 0 <= j < |connections| ensures SoundAlone(connections[j], parameters, now) {
      SoundLater(connections[j], clock, now);
    }
  }

  lemma AskOnTime(t: Timeline, parameters: Parameters, i: nat, ask: Ask, now: nat, d: nat)
    requires OnTime(t, parameters, d) && Orderly(t, AppAsks(i, ask, now), d)
    ensures var u := BusStep(t, AppAsks(i, ask, now));
            OnTime(u, parameters, d) && NextTurnBy(u, d) == NextTurnBy(t, d)
  {
    hide Sound;
    if i >= |t.b.connections| {
      EveryoneLater(t.b.connections, parameters, t.clock, now);
    } else {
      var c := t.b.connections[i];
      AskKeepsSound(c, ask, t.clock, now);
      AskKeepsTiming(c, ask, t.mark, d);
      LaterSound(t.b.connections, parameters, t.clock, now, i, Asked(c, ask));
    }
  }

  lemma AskKeepsFields(c: Connection, ask: Ask)
    ensures var a := Asked(c, ask);
            && a.waiting == c.waiting && a.state == c.state && a.parameters == c.parameters
            && a.lastSend == c.lastSend && a.originalSend == c.originalSend
  {
  }

  lemma AskKeepsTiming(c: Connection, ask: Ask, mark: nat, d: nat)
    ensures var a := Asked(c, ask);
            && a.waiting == c.waiting && a.state == c.state && a.parameters == c.parameters
            && Timed(a, mark) == Timed(c, mark) && TurnEnd(a, mark, d) == TurnEnd(c, mark, d)
  {
    hide Asked;
    AskKeepsFields(c, ask);
  }

  lemma StepOnTime(t: Timeline, parameters: Parameters, e: BusEvent, d: nat)
    requires OnTime(t, parameters, d) && Orderly(t, e, d)
    ensures var u := BusStep(t, e);
            && OnTime(u, parameters, d)
            && |t.turns| <= |u.turns| <= |t.turns| + 1
            && NextTurnBy(u, d) <= NextTurnBy(t, d) + if |u.turns| == |t.turns| then 0 else LongestTurn(parameters, d)
  {
    hide OnTime, NextTurnBy, LongestTurn, RunBus;
    match e
    case BusRuns(now) => RunOnTime(t, parameters, now, d);
    case Answers(i, r, now) => AnswerOnTime(t, parameters, i, r, now, d);
    case AppAsks(i, ask, now) => AskOnTime(t, parameters, i, ask, now, d);
  }

  function BusAfter(t: Timeline, events: seq<BusEvent>): (u: Timeline)
    requires ValidBus(t.b)
    ensures ValidBus(u.b) && |u.b.connections| == |t.b.connections|
  {
    if events == [] then t else BusStep(BusAfter(t, events[..|events| - 1]), events[|events| - 1])
  }

  predicate AllOrderly(t: Timeline, events: seq<BusEvent>, d: nat)
    requires ValidBus(t.b)
  {
    events == []
    || (AllOrderly(t, events[..|events| - 1], d) && Orderly(BusAfter(t, events[..|events| - 1]), events[|events| - 1], d))
  }

  /** Every further turn comes within LongestTurn of the one before. */
  lemma {:induction false} TurnsKeepPace(t: Timeline, parameters: Parameters, events: seq<BusEvent>, d: nat)
    requires OnTime(t, parameters, d) && AllOrderly(t, events, d)
    ensures var u := BusAfter(t, events);
            && OnTime(u, parameters, d) && |t.turns| <= |u.turns|
            && NextTurnBy(u, d) <= NextTurnBy(t, d) + (|u.turns| - |t.turns|) * LongestTurn(parameters, d)
  {
    assert ValidBus(t.b);
    Unfolded(t, events, d);
    hide OnTime, NextTurnBy, LongestTurn, BusStep, Orderly, BusAfter, AllOrderly, ValidBus;
    if events == [] {
    } else {
      var front, e := events[..|events| - 1], events[|events| - 1];
      TurnsKeepPace(t, parameters, front, d);
      var u, v := BusAfter(t, front), BusAfter(t, events);
      StepOnTime(u, parameters, e, d);
      Pace(NextTurnBy(t, d), NextTurnBy(u, d), NextTurnBy(v, d), |u.turns| - |t.turns|, |v.turns| - |u.turns|,
           LongestTurn(parameters, d));
    }
  }

  lemma {:induction false} Unfolded(t: Timeline, events: seq<BusEvent>, d: nat)
    requires ValidBus(t.b) && AllOrderly(t, events, d)
    ensures events == [] ==> BusAfter(t, events) == t
    ensures events != [] ==>
              var front, e := events[..|events| - 1], events[|events| - 1];
              && AllOrderly(t, front, d) && Orderly(BusAfter(t, front), e, d)
              && BusAfter(t, events) == BusStep(BusAfter(t, front), e)
  {
    hide BusStep, Orderly;
  }

  lemma Pace(base: int, before: int, after: int, k: nat, more: nat, step: nat)
    requires before <= base + k * step && more <= 1 && after <= before + if more == 0 then 0 else step
    ensures after <= base + (k + more) * step
  {
    assert (k + 1) * step == k * step + step;
  }

  /** A history of the bus as LinkBus sees it: its runs, and connections changed in between. */
  function Untimed(t: Timeline, events: seq<BusEvent>): seq<LinkBus.Event>
    requires ValidBus(t.b)
  {
    if events == [] then []
    else
      Untimed(t, events[..|events| - 1])
      + [match events[|events| - 1]
         case BusRuns(now) => LinkBus.Event.Runs(now)
         case _ => LinkBus.Event.Changed(BusAfter(t, events).b.connections)]
  }

  lemma {:induction false} TimelineIsHistory(t: Timeline, events: seq<BusEvent>)
    requires ValidBus(t.b)
    ensures var (b, turns) := History(t.b, Untimed(t, events));
            BusAfter(t, events).b == b && BusAfter(t, events).turns == t.turns + turns
  {
    hide RunConnection, HandleResponse, Asked, Following;
    if events == [] {
    } else {
      var front, e := events[..|events| - 1], events[|events| - 1];
      TimelineIsHistory(t, front);
      var untimed := Untimed(t, events);
      assert untimed[..|untimed| - 1] == Untimed(t, front);
      UntimedStep(BusAfter(t, front), e);
    }
  }

  /** Anything but a run leaves the turns alone. */
  lemma UntimedStep(t: Timeline, e: BusEvent)
    requires ValidBus(t.b)
    ensures var u := BusStep(t, e);
            if e.BusRuns? then
              u.b == RunBus(t.b, e.now).0 && u.turns == if KeepsTurn(t.b) then t.turns else t.turns + [t.b.nextIndex]
            else
              && u.turns == t.turns && u.b == t.b.(connections := u.b.connections)
              && |u.b.connections| == |t.b.connections|
  {
    hide RunBus, HandleResponse, Asked;
  }

  /** The turns follow the list. */
  lemma BusTurnsInOrder(t: Timeline, events: seq<BusEvent>, j: nat)
    requires ValidBus(t.b)
    ensures var u := BusAfter(t, events);
            && |t.turns| <= |u.turns|
            && u.b.nextIndex == Turn(t.b.nextIndex, |u.turns| - |t.turns|, |t.b.connections|)
            && (|t.turns| + j < |u.turns| ==> u.turns[|t.turns| + j] == Turn(t.b.nextIndex, j, |t.b.connections|))
  {
    hide Turn, Untimed, BusAfter, ValidBus, History;
    TimelineIsHistory(t, events);
    TurnsInOrder(t.b, Untimed(t, events), j);
  }

  function NewBus(parameters: Parameters, n: nat, start: nat): Timeline
  {
    Timeline(Bus(seq(n, _ => NewConnection(parameters)), None, 0), start, start, start, [])
  }

  lemma LaterRun(t: Timeline, parameters: Parameters, d: nat)
    requires OnTime(t, parameters, d)
    ensures t.run <= NextTurnBy(t, d)
  {
    if KeepsTurn(t.b) { TurnEndLater(t.b.connections[t.b.current.value], t.mark, d); }
  }

  lemma MulMono(a: int, b: int, c: nat)
    ensures a <= b ==> a * c <= b * c
  {
    assert (b - a) * c == b * c - a * c;
  }

  /** Once the bus has run late enough, n more turns have been given, in order. */
  lemma TurnsGiven(t: Timeline, parameters: Parameters, n: nat, events: seq<BusEvent>, d: nat) returns (given: seq<nat>)
    requires OnTime(t, parameters, d) && AllOrderly(t, events, d) && n == |t.b.connections|
    requires BusAfter(t, events).run > NextTurnBy(t, d) + (n - 1) * LongestTurn(parameters, d)
    ensures |BusAfter(t, events).turns| >= |t.turns| + n && given == BusAfter(t, events).turns[|t.turns|..]
    ensures forall j | 0 <= j < |given| :: given[j] == Turn(t.b.nextIndex, j, n)
  {
    assert ValidBus(t.b);
    hide OnTime, NextTurnBy, LongestTurn, BusStep, Orderly, BusAfter, AllOrderly, Turn;
    TurnsKeepPace(t, parameters, events, d);
    var u := BusAfter(t, events);
    LaterRun(u, parameters, d);
    MulMono(|u.turns| - |t.turns|, n - 1, LongestTurn(parameters, d));
    given := u.turns[|t.turns|..];
    forall j | 0 <= j < |given| ensures given[j] == Turn(t.b.nextIndex, j, n) {
      BusTurnsInOrder(t, events, j);
    }
  }

  /** Among the first n further turns, this one is the slave's, and no other. */
  predicate ServedOnce(turns: seq<nat>, from: nat, n: nat, slave: nat, i: nat) {
    && from <= i < from + n <= |turns| && turns[i] == slave
    && forall j | from <= j < from + n && turns[j] == slave :: j == i
  }

  lemma ServedFrom(t: Timeline, parameters: Parameters, n: nat, events: seq<BusEvent>, d: nat, slave: nat) returns (i: nat)
    requires OnTime(t, parameters, d) && AllOrderly(t, events, d) && slave < n == |t.b.connections|
    requires BusAfter(t, events).run > NextTurnBy(t, d) + (n - 1) * LongestTurn(parameters, d)
    ensures ServedOnce(BusAfter(t, events).turns, |t.turns|, n, slave, i)
  {
    assert ValidBus(t.b);
    TurnBelow(t);
    hide OnTime, NextTurnBy, LongestTurn, BusStep, Orderly, BusAfter, AllOrderly, Turn, ValidBus;
    var given := TurnsGiven(t, parameters, n, events, d);
    var k := EachOnceInOrder(given, t.b.nextIndex, n, 0, slave);
    i := |t.turns| + k;
    SameTurn(BusAfter(t, events).turns, |t.turns|, given, n, slave, k);
  }

  /** From the start of the master on, through any orderly history: once the bus has run beyond the end of the present
      turn and n - 1 longest turns, each of the n slaves has had its turn, silent or not; exactly one among the first n. */
  lemma EverySlaveServed(parameters: Parameters, n: nat, start: nat, before: seq<BusEvent>, events: seq<BusEvent>, d: nat,
                         slave: nat) returns (i: nat)
    requires slave < n && AllOrderly(NewBus(parameters, n, start), before, d)
    requires var t := BusAfter(NewBus(parameters, n, start), before);
             && AllOrderly(t, events, d)
             && BusAfter(t, events).run > NextTurnBy(t, d) + (n - 1) * LongestTurn(parameters, d)
    ensures var t := BusAfter(NewBus(parameters, n, start), before);
            ServedOnce(BusAfter(t, events).turns, |t.turns|, n, slave, i)
  {
    NewBusOnTime(parameters, n, start, d);
    hide OnTime, NextTurnBy, LongestTurn, NewBus, BusAfter, AllOrderly, ServedOnce;
    TurnsKeepPace(NewBus(parameters, n, start), parameters, before, d);
    i := ServedFrom(BusAfter(NewBus(parameters, n, start), before), parameters, n, events, d, slave);
  }

  lemma TurnBelow(t: Timeline)
    requires ValidBus(t.b)
    ensures t.b.nextIndex < |t.b.connections|
  {
  }

  lemma SameTurn(turns: seq<nat>, from: nat, given: seq<nat>, n: nat, slave: nat, k: nat)
    requires from + n <= |turns| && given == turns[from..] && k < n && given[k] == slave
    requires forall j | 0 <= j < n && given[j] == slave :: j == k
    ensures ServedOnce(turns, from, n, slave, from + k)
  {
    forall j | from <= j < from + n && turns[j] == slave ensures j == from + k {
      assert given[j - from] == slave;
    }
  }

  lemma NewBusOnTime(parameters: Parameters, n: nat, start: nat, d: nat)
    requires n > 0
    ensures OnTime(NewBus(parameters, n, start), parameters, d) && |NewBus(parameters, n, start).b.connections| == n
  {
  }

  /** The acknowledgement of a reset, with DFC. */
  function AfterBusy(c: Connection, now: nat): Connection { HandleResponse(c, Response(ACK, false, true, []), now).c }

  /** DFC at one time, a run later, then a status, and so on. */
  function BusyRounds(c: Connection, rounds: seq<(nat, nat, nat)>): Connection {
    if rounds == [] then c
    else
      var (first, run, second) := rounds[|rounds| - 1];
      var busy := AfterBusy(BusyRounds(c, rounds[..|rounds| - 1]), first);
      HandleResponse(RunConnection(busy, run).0, Plain(STATUS_OF_LINK), second).c
  }

  predicate AwaitsReset(c: Connection, parameters: Parameters, lastSend: nat) {
    c.state == ResetRemote && c.waiting && c.parameters == parameters && c.lastSend == lastSend
  }

  lemma BusyRound(c: Connection, first: nat, run: nat, second: nat)
    requires AwaitsReset(c, c.parameters, c.lastSend) && run <= c.lastSend + c.parameters.timeoutForAck
    ensures var busy := AfterBusy(c, first);
            var ran := RunConnection(busy, run).0;
            && busy.waiting && ran.waiting
            && AwaitsReset(HandleResponse(ran, Plain(STATUS_OF_LINK), second).c, c.parameters, second)
  {
    hide DataRequests, HandleService, RunAvailable;
    var busy := AfterBusy(c, first);
    assert busy == c.(state := RequestStatus);
    var ran := RunConnection(busy, run).0;
    assert ran == busy.(lastSend := Plausible(busy.lastSend, run));
    hide RunConnection, AfterBusy;
    StatusWritesReset(ran, second);
  }

  lemma StatusWritesReset(c: Connection, now: nat)
    requires c.state == RequestStatus
    ensures AwaitsReset(HandleResponse(c, Plain(STATUS_OF_LINK), now).c, c.parameters, now)
  {
    hide Acknowledged, Answered;
  }

  function SentBefore(c: Connection, rounds: seq<(nat, nat, nat)>, i: nat): nat
    requires i <= |rounds|
  {
    if i == 0 then c.lastSend else rounds[i - 1].2
  }

  /** A slave that acknowledges the reset with DFC and then reports its status before the timeout, and so on, keeps the turn
      as well. */
  lemma {:induction false} BusyForResetKeepsTurn(c: Connection, rounds: seq<(nat, nat, nat)>, i: nat)
    requires c.state == ResetRemote && c.waiting && i <= |rounds|
    requires forall j | 0 <= j < |rounds| :: rounds[j].1 <= SentBefore(c, rounds, j) + c.parameters.timeoutForAck
    ensures var before := BusyRounds(c, rounds[..i]);
            && AwaitsReset(before, c.parameters, SentBefore(c, rounds, i))
            && (i < |rounds| ==>
                  var busy := AfterBusy(before, rounds[i].0);
                  busy.waiting && RunConnection(busy, rounds[i].1).0.waiting)
  {
    hide AfterBusy, RunConnection, HandleResponse;
    if i == 0 {
      assert rounds[..0] == [];
    } else {
      BusyForResetKeepsTurn(c, rounds, i - 1);
      assert rounds[..i][..i - 1] == rounds[..i - 1];
      var before := BusyRounds(c, rounds[..i - 1]);
      BusyRound(before, rounds[i - 1].0, rounds[i - 1].1, rounds[i - 1].2);
    }
    if i < |rounds| {
      BusyRound(BusyRounds(c, rounds[..i]), rounds[i].0, rounds[i].1, rounds[i].2);
    }
  }

  /** A status at one time, a run later, another status, and so on. */
  function StatusRounds(c: Connection, rounds: seq<(nat, nat, nat)>): Connection {
    if rounds == [] then c
    else
      var before := StatusRounds(c, rounds[..|rounds| - 1]);
      var (first, run, second) := rounds[|rounds| - 1];
      HandleResponse(RunConnection(HandleResponse(before, Plain(STATUS_OF_LINK), first).c, run).0,
                     Plain(STATUS_OF_LINK), second).c
  }

  /** A slave that answers the reset with a status of link, and so on, keeps the turn as long as it likes, whatever time
      passes: in every round the run finds the connection waiting and leaves it waiting. */
  lemma {:induction false} StatusForResetKeepsTurn(c: Connection, rounds: seq<(nat, nat, nat)>, i: nat)
    requires c.state == ResetRemote && c.waiting && i <= |rounds|
    ensures var before := StatusRounds(c, rounds[..i]);
            && before.state == ResetRemote && before.waiting
            && (i < |rounds| ==>
                  var idle := HandleResponse(before, Plain(STATUS_OF_LINK), rounds[i].0).c;
                  idle.state == Idle && idle.waiting && RunConnection(idle, rounds[i].1).0.waiting)
  {
    if i == 0 {
      assert rounds[..0] == [];
    } else {
      StatusForResetKeepsTurn(c, rounds, i - 1);
      assert rounds[..i][..i - 1] == rounds[..i - 1];
    }
  }
}
