// A master and all its slaves on one unbalanced bus (link_layer.c): the sessions of LinkUnbalanced under the turns of
// LinkBus, from the creation of the master on.
module LinkBusSystem {
  import opened Bytes
  import opened LinkBus
  import opened LinkFrames
  import opened Wrappers
  import U = LinkUnbalanced

  /** Each slave with the master's connection to it and the frames under way between them; and the master's turns. */
  datatype System = System(sessions: seq<U.Session>, current: Option<nat>, nextIndex: nat)

  function BusOf(y: System): Bus {
    Bus(seq(|y.sessions|, i requires 0 <= i < |y.sessions| => y.sessions[i].c), y.current, y.nextIndex)
  }

  predicate ValidSystem(y: System) { ValidBus(BusOf(y)) }

  /** `addressed` is false for a response without an address, the single character. */
  datatype Event =
    | BusRuns(now: nat)
    | ResponseArrives(from: nat, addressed: bool, now: nat)
    | RequestArrives(at: nat, supply: U.Supply)
    | FramesLost(at: nat)
    | MessageGiven(to: nat, message: seq<byte>)
    | DataAskedFor(of: nat, class1: bool)

  function Advance(y: System, i: nat, e: U.Event): System
    requires i < |y.sessions|
  {
    y.(sessions := y.sessions[i := U.Step(y.sessions[i], e)])
  }

  /** LinkLayerPrimaryUnbalanced_handleMessage: whose connection gets a response. */
  function Recipient(y: System, from: nat, addressed: bool): Option<nat> { if addressed then Some(from) else y.current }

  /** The response leaves the medium on its slave's side and reaches the recipient's connection. */
  function Deliver(y: System, from: nat, to: nat, now: nat): System
    requires from < |y.sessions| && to < |y.sessions| && y.sessions[from].toMaster != []
  {
    var response, others := y.sessions[from].toMaster[0], y.sessions[from].toMaster[1..];
    var rest := y.sessions[from := y.sessions[from].(toMaster := others)];
    var s := rest[to];
    Advance(y.(sessions := rest[to := s.(toMaster := [response] + s.toMaster)]), to, U.MasterReceives(now))
  }

  /** Events that concern no slave change nothing. */
  function Step(y: System, e: Event): System
    requires ValidSystem(y)
  {
    match e
    case BusRuns(now) =>
      SelectKeepsValid(BusOf(y));
      var b := Select(BusOf(y));
      Advance(y, b.current.value, U.MasterRuns(now)).(current := b.current, nextIndex := b.nextIndex)
    case ResponseArrives(from, addressed, now) =>
      var to := Recipient(y, from, addressed);
      if from >= |y.sessions| || y.sessions[from].toMaster == [] then y
      else if to.None? then y.(sessions := y.sessions[from := y.sessions[from].(toMaster := y.sessions[from].toMaster[1..])])
      else Deliver(y, from, to.value, now)
    case RequestArrives(i, supply) => if i < |y.sessions| then Advance(y, i, U.SlaveReceives(supply)) else y
    case FramesLost(i) => if i < |y.sessions| then Advance(y, i, U.Lost) else y
    case MessageGiven(i, message) => if i < |y.sessions| then Advance(y, i, U.SendConfirmed(message)) else y
    case DataAskedFor(i, class1) => if i < |y.sessions| then Advance(y, i, U.RequestData(class1)) else y
  }

  /** A run of the system is a run of the bus. */
  lemma RunsAsBus(y: System, now: nat)
    requires ValidSystem(y)
    ensures BusOf(Step(y, BusRuns(now))) == RunBus(BusOf(y), now).0
  {
    SelectKeepsValid(BusOf(y));
    hide U.RunConnection;
    var i := Select(BusOf(y)).current.value;
    assert Step(y, BusRuns(now)).sessions[i].c == U.RunConnection(y.sessions[i].c, now).0;
    assert BusOf(Step(y, BusRuns(now))).connections == RunBus(BusOf(y), now).0.connections;
  }

  // ---------------------------------------------------------------- one exchange at a time

  predicate Asks(state: PrimaryState, r: Request) {
    match state
    case RequestStatus => r == Request(REQUEST_LINK_STATUS, false, false, [])
    case ResetRemote => r == Request(RESET_REMOTE_LINK, false, false, [])
    case SendConfirm => r.fc == USER_DATA_CONFIRMED
    case RequestRespond => r.fc in {REQUEST_CLASS_1, REQUEST_CLASS_2}
    case _ => false
  }

  predicate Replies(state: PrimaryState, r: Response) {
    && !r.dfc
    && match state
       case RequestStatus => r.fc == STATUS_OF_LINK
       case ResetRemote => r.fc == ACK
       case SendConfirm => r.fc == ACK
       case RequestRespond => r.fc in {ACK, RESP_NO_DATA, RESP_USER_DATA}
       case _ => false
  }

  /** Whatever is under way between a connection and its slave belongs to the exchange the connection waits for. */
  predicate Exchange(s: U.Session) {
    && U.OneUnderWay(s) && !s.c.test && s.c.state != Busy && (s.c.hasMessage ==> s.c.message != [])
    && (s.c.state in {RequestStatus, ResetRemote, SendConfirm, RequestRespond} ==> s.c.waiting)
    && (s.c.state in {Available, TimedOut} ==> !s.c.waiting)
    && (s.toSlave != [] ==> Asks(s.c.state, s.toSlave[0]))
    && (s.toMaster != [] ==>
          Replies(s.c.state, s.toMaster[0]) && (s.c.state == ResetRemote ==> s.slave.expectedFcb))
  }

  lemma OneDataRequest(n: nat, fcb: bool, message: seq<byte>)
    ensures var r := DataRequests(n, fcb, message); |r| <= 1 && (r != [] ==> r[0].fc == USER_DATA_CONFIRMED)
  {
  }

  /** A run writes nothing, or the one request that the connection then waits for, once the last exchange is over. */
  predicate AsksOnce(s: U.Session, c: U.Connection, out: seq<Request>) {
    && !c.test && c.state != Busy && |out| <= 1 && c.hasMessage == s.c.hasMessage && c.message == s.c.message
    && (c.state in {RequestStatus, ResetRemote, SendConfirm, RequestRespond} ==> c.waiting)
    && (c.state in {Available, TimedOut} ==> !c.waiting)
    && (out != [] ==> U.NothingUnderWay(s) && Asks(c.state, out[0]))
    && (out == [] && !U.NothingUnderWay(s) ==> c.state == s.c.state)
  }

  lemma AvailableAsksOnce(s: U.Session, now: nat)
    requires Exchange(s) && s.c.state == Available
    ensures var (c, out) := U.RunConnection(s.c, now); AsksOnce(s, c, out)
  {
    OneDataRequest(s.c.parameters.addressLength, s.c.nextFcb, s.c.message);
    hide DataRequests;
  }

  lemma ConfirmAsksOnce(s: U.Session, now: nat)
    requires Exchange(s) && U.Allowed(s, U.MasterRuns(now)) && s.c.state == SendConfirm
    ensures var (c, out) := U.RunConnection(s.c, now); AsksOnce(s, c, out)
  {
    OneDataRequest(s.c.parameters.addressLength, !s.c.nextFcb, s.c.message);
    hide DataRequests, Replies, U.RunAvailable;
  }

  lemma PollAsksOnce(s: U.Session, now: nat)
    requires Exchange(s) && U.Allowed(s, U.MasterRuns(now)) && s.c.state == RequestRespond
    ensures var (c, out) := U.RunConnection(s.c, now); AsksOnce(s, c, out)
  {
    hide DataRequests, Replies, U.RunAvailable;
  }

  lemma SetUpAsksOnce(s: U.Session, now: nat)
    requires Exchange(s) && U.Allowed(s, U.MasterRuns(now))
    requires s.c.state in {Idle, TimedOut, RequestStatus, ResetRemote}
    ensures var (c, out) := U.RunConnection(s.c, now); AsksOnce(s, c, out)
  {
  }

  lemma RunKeepsExchange(s: U.Session, now: nat)
    requires Exchange(s) && U.Allowed(s, U.MasterRuns(now))
    ensures Exchange(U.Step(s, U.MasterRuns(now)))
  {
    hide U.RunConnection, U.Allowed;
    match s.c.state
    case Available => AvailableAsksOnce(s, now);
    case SendConfirm => ConfirmAsksOnce(s, now);
    case RequestRespond => PollAsksOnce(s, now);
    case _ => SetUpAsksOnce(s, now);
  }

  /** What an expected reply leaves: the next state, waiting or not, and the request that follows. */
  predicate Ends(c: U.Connection, o: U.ConnectionOutcome, state: PrimaryState, requests: seq<Request>) {
    && !o.c.test && (o.c.hasMessage ==> c.hasMessage) && o.c.message == c.message
    && o.c.state == state && o.c.waiting == (requests != []) && o.requests == requests
  }

  lemma StatusEnds(c: U.Connection, r: Response, now: nat)
    requires c.state == RequestStatus && r.fc == STATUS_OF_LINK && !c.test
    ensures Ends(c, U.HandleService(c, r, now), ResetRemote, [Request(RESET_REMOTE_LINK, false, false, [])])
  {
    hide U.Acknowledged, U.Answered;
  }

  lemma AckEnds(c: U.Connection, r: Response, now: nat)
    requires c.state in {ResetRemote, SendConfirm, RequestRespond} && r.fc == ACK && !c.test
    ensures Ends(c, U.HandleService(c, r, now), Available, [])
  {
    hide U.Answered;
  }

  lemma AnswerEnds(c: U.Connection, r: Response, now: nat)
    requires c.state == RequestRespond && r.fc in {RESP_USER_DATA, RESP_NO_DATA} && !c.test
    ensures Ends(c, U.HandleService(c, r, now), Available, [])
  {
    hide U.Acknowledged;
  }

  /** An expected reply ends the exchange; the status of the link is followed by a reset. */
  lemma ReplyEndsExchange(c: U.Connection, r: Response, now: nat)
    requires Replies(c.state, r) && !c.test
    ensures Ends(c, U.HandleResponse(c, r, now), if c.state == RequestStatus then ResetRemote else Available,
                 if c.state == RequestStatus then [Request(RESET_REMOTE_LINK, false, false, [])] else [])
  {
    hide U.HandleService;
    var d := U.Demanded(c, r.acd);
    if c.state == RequestStatus {
      StatusEnds(d, r, now);
    } else if r.fc == ACK {
      AckEnds(d, r, now);
    } else {
      AnswerEnds(d, r, now);
    }
  }

  lemma ResponseKeepsExchange(s: U.Session, now: nat)
    requires Exchange(s)
    ensures var t := U.Step(s, U.MasterReceives(now)); Exchange(t) && (t.c.waiting ==> s.c.waiting)
  {
    if s.toMaster != [] {
      ReplyEndsExchange(s.c, s.toMaster[0], now);
      assert s.toSlave == [] && s.toMaster[1..] == [];
    }
    hide U.RunConnection, U.HandleRequest, U.HandleResponse;
  }

  lemma RequestKeepsExchange(s: U.Session, supply: U.Supply)
    requires Exchange(s)
    ensures var t := U.Step(s, U.SlaveReceives(supply)); Exchange(t) && t.c == s.c
  {
    hide U.RunConnection, U.HandleResponse;
  }

  lemma OtherKeepsExchange(s: U.Session, e: U.Event)
    requires Exchange(s) && U.Allowed(s, e) && (e.Lost? || e.SendConfirmed? || e.RequestData?)
    ensures Exchange(U.Step(s, e)) && U.Step(s, e).c.waiting == s.c.waiting
  {
    hide Asks, Replies, U.RunConnection, U.HandleRequest, U.HandleResponse;
  }

  lemma EventKeepsExchange(s: U.Session, e: U.Event)
    requires Exchange(s) && U.Allowed(s, e)
    ensures var t := U.Step(s, e); Exchange(t) && (t.c.waiting ==> s.c.waiting || e.MasterRuns?)
  {
    hide Exchange, U.Step;
    match e
    case MasterRuns(now) => RunKeepsExchange(s, now);
    case MasterReceives(now) => ResponseKeepsExchange(s, now);
    case SlaveReceives(supply) => RequestKeepsExchange(s, supply);
    case _ => OtherKeepsExchange(s, e);
  }

  // ---------------------------------------------------------------- the whole bus

  /** Only the slave whose turn it is may have an exchange open. */
  predicate Inv(y: System) {
    && ValidSystem(y)
    && forall i | 0 <= i < |y.sessions| :: Exchange(y.sessions[i]) && (y.sessions[i].c.waiting ==> y.current == Some(i))
  }

  /** What an event is for one slave and its connection, if it concerns them. */
  function Share(y: System, e: Event, i: nat): Option<U.Event>
    requires ValidSystem(y)
  {
    match e
    case BusRuns(now) => if Select(BusOf(y)).current == Some(i) then Some(U.MasterRuns(now)) else None
    case ResponseArrives(from, _, now) => if from == i then Some(U.MasterReceives(now)) else None
    case RequestArrives(at, supply) => if at == i then Some(U.SlaveReceives(supply)) else None
    case FramesLost(at) => if at == i then Some(U.Lost) else None
    case MessageGiven(to, message) => if to == i then Some(U.SendConfirmed(message)) else None
    case DataAskedFor(of, class1) => if of == i then Some(U.RequestData(class1)) else None
  }

  /** Every frame is received before the acknowledgement timeout or lost; ASDUs are not empty. */
  predicate Allowed(y: System, e: Event)
    requires ValidSystem(y)
  {
    forall i | 0 <= i < |y.sessions| :: Share(y, e, i).Some? ==> U.Allowed(y.sessions[i], Share(y, e, i).value)
  }

  /** Never are two frames under way on the bus, and the one that is belongs to the slave whose turn it is. */
  lemma OneFrameOnBus(y: System, i: nat, j: nat)
    requires Inv(y) && i < |y.sessions| && j < |y.sessions|
    requires !U.NothingUnderWay(y.sessions[i]) && !U.NothingUnderWay(y.sessions[j])
    ensures i == j && y.current == Some(i) && U.OneUnderWay(y.sessions[i])
  {
  }

  /** A response reaches its slave's connection, with an address or without. */
  lemma ResponseFindsSlave(y: System, from: nat, addressed: bool, now: nat)
    requires Inv(y) && from < |y.sessions|
    ensures Step(y, ResponseArrives(from, addressed, now)).sessions
            == y.sessions[from := U.Step(y.sessions[from], U.MasterReceives(now))]
  {
    hide Exchange, U.Step;
    var s := y.sessions[from];
    if s.toMaster == [] {
      NothingReceived(s, now);
    } else {
      UnderWayWaits(s);
      var rest := y.sessions[from := s.(toMaster := s.toMaster[1..])];
      assert [s.toMaster[0]] + s.toMaster[1..] == s.toMaster;
      assert rest[from := s] == y.sessions;
    }
  }

  lemma NothingReceived(s: U.Session, now: nat)
    requires s.toMaster == []
    ensures U.Step(s, U.MasterReceives(now)) == s
  {
  }

  lemma UnderWayWaits(s: U.Session)
    requires Exchange(s) && !U.NothingUnderWay(s)
    ensures s.c.waiting
  {
  }

  /** Every event is, for each slave, an event of its own session or none. */
  lemma EverySlaveItsShare(y: System, e: Event, i: nat)
    requires Inv(y) && i < |y.sessions|
    ensures Step(y, e).sessions[i] == match Share(y, e, i)
                                      case None => y.sessions[i]
                                      case Some(own) => U.Step(y.sessions[i], own)
    ensures |Step(y, e).sessions| == |y.sessions|
  {
    hide Exchange, U.Step;
    match e
    case BusRuns(now) => SelectKeepsValid(BusOf(y));
    case ResponseArrives(from, addressed, now) =>
      if from < |y.sessions| { ResponseFindsSlave(y, from, addressed, now); }
    case _ =>
  }

  /** Only a run gives a turn, and only when nobody waits; without one nobody begins to wait. */
  lemma TurnsFollow(y: System, e: Event)
    requires Inv(y)
    ensures var z := Step(y, e);
            && ValidSystem(z)
            && (if e.BusRuns? then z.current == Select(BusOf(y)).current else z.current == y.current)
    ensures e.BusRuns? ==> forall i | 0 <= i < |y.sessions| && y.sessions[i].c.waiting :: Select(BusOf(y)).current == Some(i)
  {
    hide Exchange, U.Step;
    SelectKeepsValid(BusOf(y));
    match e
    case ResponseArrives(from, addressed, now) =>
      if from < |y.sessions| && y.sessions[from].toMaster != [] {
        ResponseFindsSlave(y, from, addressed, now);
        UnderWayWaits(y.sessions[from]);
      }
    case _ =>
  }

  lemma StepKeepsInv(y: System, e: Event)
    requires Inv(y) && Allowed(y, e)
    ensures Inv(Step(y, e)) && |Step(y, e).sessions| == |y.sessions|
  {
    hide Exchange, U.Step, U.Allowed, Select;
    var z := Step(y, e);
    TurnsFollow(y, e);
    if y.sessions != [] { EverySlaveItsShare(y, e, 0); }
    forall i | 0 <= i < |z.sessions|
      ensures Exchange(z.sessions[i]) && (z.sessions[i].c.waiting ==> z.current == Some(i))
    {
      hide Step;
      EverySlaveItsShare(y, e, i);
      if Share(y, e, i).Some? {
        EventKeepsExchange(y.sessions[i], Share(y, e, i).value);
      }
    }
  }

  function After(y: System, events: seq<Event>): (z: System)
    requires ValidSystem(y)
    ensures ValidSystem(z) && |z.sessions| == |y.sessions|
  {
    if events == [] then y
    else
      var before := After(y, events[..|events| - 1]);
      StepKeepsValid(before, events[|events| - 1]);
      Step(before, events[|events| - 1])
  }

  lemma StepKeepsValid(y: System, e: Event)
    requires ValidSystem(y)
    ensures ValidSystem(Step(y, e)) && |Step(y, e).sessions| == |y.sessions|
  {
    hide U.Step;
    SelectKeepsValid(BusOf(y));
  }

  predicate AllAllowed(y: System, events: seq<Event>)
    requires ValidSystem(y)
  {
    events == []
    || (AllAllowed(y, events[..|events| - 1]) && Allowed(After(y, events[..|events| - 1]), events[|events| - 1]))
  }

  lemma {:induction false} EveryRunKeepsInv(y: System, events: seq<Event>)
    requires Inv(y) && AllAllowed(y, events)
    ensures Inv(After(y, events))
  {
    hide Step, Exchange, Allowed;
    if events == [] {
    } else {
      EveryRunKeepsInv(y, events[..|events| - 1]);
      StepKeepsInv(After(y, events[..|events| - 1]), events[|events| - 1]);
    }
  }

  /** One slave's share of a history of the bus. */
  function ShareOf(y: System, events: seq<Event>, i: nat): seq<U.Event>
    requires ValidSystem(y)
  {
    if events == [] then []
    else
      ShareOf(y, events[..|events| - 1], i)
      + U.AsSeq(Share(After(y, events[..|events| - 1]), events[|events| - 1], i))
  }

  /** The bus is n sessions of one master and one slave each: every slave and its connection go through exactly their own
      share of the history, as LinkUnbalanced has it. */
  lemma {:induction false} EverySlaveItsSession(y: System, events: seq<Event>, i: nat)
    requires Inv(y) && AllAllowed(y, events) && i < |y.sessions|
    ensures After(y, events).sessions[i] == U.After(y.sessions[i], ShareOf(y, events, i))
  {
    hide Step, Share, Allowed, U.Step;
    if events == [] {
    } else {
      var front, e := events[..|events| - 1], events[|events| - 1];
      EverySlaveItsSession(y, front, i);
      EveryRunKeepsInv(y, front);
      hide Inv;
      EverySlaveItsShare(After(y, front), e, i);
      var before := ShareOf(y, front, i);
      match Share(After(y, front), e, i)
      case None => assert ShareOf(y, events, i) == before;
      case Some(own) => assert ShareOf(y, events, i)[..|before|] == before;
    }
  }

  // ---------------------------------------------------------------- every session on the bus is safe

  /** The master has not had the link to the slave so far. */
  predicate Young(s: U.Session) {
    && s.c.state in {Idle, TimedOut, RequestStatus, ResetRemote} && s.c.nextFcb
    && s.sent == [] && s.delivered == [] && s.confirmed == 0 && s.taken == [] && s.received == []
  }

  predicate Secure(s: U.Session) { Young(s) || (U.Open(s) && U.Inv(s)) }

  predicate ExactlyOnce(s: U.Session) {
    s.c.state == Available ==> s.delivered == s.sent && s.received == s.taken && s.confirmed == |s.sent|
  }

  /** When the link is set up for the first time, both frame count bits are true. */
  lemma YoungStep(s: U.Session, e: U.Event)
    requires Exchange(s) && Young(s) && U.Allowed(s, e)
    ensures Secure(U.Step(s, e))
  {
    match e
    case MasterRuns(now) => YoungRuns(s, now);
    case MasterReceives(now) => YoungReceives(s, now);
    case SlaveReceives(supply) => YoungAsks(s, supply);
    case _ =>
      hide Secure, U.RunConnection, U.HandleResponse, U.HandleRequest;
      assert Young(U.Step(s, e));
      assert Secure(U.Step(s, e)) by { OnlyYoung(U.Step(s, e)); }
  }

  lemma OnlyYoung(s: U.Session)
    requires Young(s)
    ensures Secure(s)
  {
  }

  lemma YoungRuns(s: U.Session, now: nat)
    requires Exchange(s) && Young(s)
    ensures Young(U.Step(s, U.MasterRuns(now)))
  {
    hide DataRequests;
  }

  lemma YoungAsks(s: U.Session, supply: U.Supply)
    requires Exchange(s) && Young(s)
    ensures Young(U.Step(s, U.SlaveReceives(supply)))
  {
    hide U.RunConnection, U.HandleResponse;
  }

  lemma YoungReceives(s: U.Session, now: nat)
    requires Exchange(s) && Young(s)
    ensures Secure(U.Step(s, U.MasterReceives(now)))
  {
    hide U.RunConnection, U.HandleRequest;
    var t := U.Step(s, U.MasterReceives(now));
    if t.c.state == Available {
      assert U.Settled(t);
    } else {
      assert Young(t);
    }
  }

  lemma SecureStep(s: U.Session, e: U.Event)
    requires Exchange(s) && Secure(s) && U.Allowed(s, e)
    ensures var t := U.Step(s, e);
            && U.Safe(t) && ExactlyOnce(t)
            && ((U.Open(s) ==> U.Open(t)) ==> Secure(t))
  {
    hide Exchange, Young, U.Step, U.Inv, U.Safe, U.Allowed;
    var t := U.Step(s, e);
    if Young(s) {
      YoungStep(s, e);
      SecureIsSafe(t);
    } else {
      U.StepKeepsInv(s, e);
      if U.Open(t) { U.InvIsSafe(t); }
    }
  }

  lemma SecureIsSafe(s: U.Session)
    requires Secure(s)
    ensures U.Safe(s) && ExactlyOnce(s)
  {
    hide U.Inv;
    if U.Inv(s) { U.InvIsSafe(s); }
  }

  /** Slave i's session, once it has begun, has not been ended. */
  predicate NotEnded(y: System, events: seq<Event>, i: nat)
    requires ValidSystem(y) && i < |y.sessions|
  {
    events == []
    || (&& NotEnded(y, events[..|events| - 1], i)
        && (U.Open(After(y, events[..|events| - 1]).sessions[i]) ==> U.Open(After(y, events).sessions[i])))
  }

  lemma {:induction false} SecureOnBus(y: System, events: seq<Event>, i: nat)
    requires Inv(y) && AllAllowed(y, events) && i < |y.sessions| && Secure(y.sessions[i])
    requires events == [] || NotEnded(y, events[..|events| - 1], i)
    ensures var s := After(y, events).sessions[i];
            U.Safe(s) && ExactlyOnce(s) && (NotEnded(y, events, i) ==> Secure(s))
  {
    hide Step, Share, U.Step, U.Allowed, Secure, ExactlyOnce, Exchange, U.Safe;
    if events == [] {
      SecureIsSafe(y.sessions[i]);
    } else {
      var front, e := events[..|events| - 1], events[|events| - 1];
      SecureOnBus(y, front, i);
      EveryRunKeepsInv(y, front);
      var before := After(y, front);
      EverySlaveItsShare(before, e, i);
      var s := before.sessions[i];
      match Share(before, e, i)
      case None => SecureIsSafe(s);
      case Some(own) => SecureStep(s, own);
    }
  }

  function NewSession(parameters: Parameters, slave: U.Slave): U.Session {
    U.Session(U.NewConnection(parameters), slave, [], [], [], [], 0, [], [])
  }

  /** The master is created, with any slaves in any state. */
  function Created(parameters: Parameters, slaves: seq<U.Slave>): System {
    System(seq(|slaves|, i requires 0 <= i < |slaves| => NewSession(parameters, slaves[i])), None, 0)
  }

  /** From the creation of the master on, whatever the slaves' state, for any history of the shared bus: every slave's
      data arrives in order and at most once in both directions, and exactly once whenever its connection is available,
      up to and including the event that ends its first session. */
  lemma EverySlaveSafe(parameters: Parameters, slaves: seq<U.Slave>, events: seq<Event>, i: nat)
    requires i < |slaves| && AllAllowed(Created(parameters, slaves), events)
    requires events == [] || NotEnded(Created(parameters, slaves), events[..|events| - 1], i)
    ensures var s := After(Created(parameters, slaves), events).sessions[i];
            U.Safe(s) && ExactlyOnce(s)
  {
    CreatedInv(parameters, slaves, i);
    SecureOnBus(Created(parameters, slaves), events, i);
  }

  lemma CreatedInv(parameters: Parameters, slaves: seq<U.Slave>, i: nat)
    requires i < |slaves|
    ensures Inv(Created(parameters, slaves)) && Secure(Created(parameters, slaves).sessions[i])
  {
    forall slave: U.Slave
      ensures var s := NewSession(parameters, slave); Exchange(s) && !s.c.waiting && Young(s)
    {
      NewIsYoung(parameters, slave);
    }
    hide Exchange, Young, NewSession;
    assert forall j | 0 <= j < |slaves| :: Created(parameters, slaves).sessions[j] == NewSession(parameters, slaves[j]);
  }

  lemma NewIsYoung(parameters: Parameters, slave: U.Slave)
    ensures var s := NewSession(parameters, slave); Exchange(s) && !s.c.waiting && Young(s)
  {
  }

  // ---------------------------------------------------------------- later sessions

  /** What happened on the link so far is set aside. */
  function Cleared(s: U.Session): U.Session {
    s.(sent := [], delivered := [], confirmed := 0, taken := [], received := [])
  }

  function Afresh(y: System, i: nat): System
    requires i < |y.sessions|
  {
    y.(sessions := y.sessions[i := Cleared(y.sessions[i])])
  }

  /** The acknowledgement of a reset makes a connection available, and the session that then begins starts with agreeing
      frame count bits if and only if the master's bit is true: the reset sets the slave's bit and leaves the master's. */
  lemma SessionBegins(y: System, i: nat, addressed: bool, now: nat)
    requires Inv(y) && i < |y.sessions| && y.sessions[i].c.state == ResetRemote && y.sessions[i].toMaster != []
    ensures var z := Step(y, ResponseArrives(i, addressed, now));
            && Inv(Afresh(z, i)) && z.sessions[i].c.state == Available
            && (U.Starts(Afresh(z, i).sessions[i]) <==> y.sessions[i].c.nextFcb)
  {
    ResponseFindsSlave(y, i, addressed, now);
    TurnsFollow(y, ResponseArrives(i, addressed, now));
    ResetAcknowledged(y.sessions[i], now);
    ResponseKeepsExchange(y.sessions[i], now);
    hide Step, Exchange, U.Step;
    var t := U.Step(y.sessions[i], U.MasterReceives(now));
    RecordsDoNotMatter(t);
  }

  lemma ResetAcknowledged(s: U.Session, now: nat)
    requires Exchange(s) && s.c.state == ResetRemote && s.toMaster != []
    ensures var t := U.Step(s, U.MasterReceives(now));
            t.c.state == Available && (U.Starts(Cleared(t)) <==> s.c.nextFcb)
  {
  }

  lemma RecordsDoNotMatter(s: U.Session)
    ensures Exchange(Cleared(s)) == Exchange(s)
  {
  }

  /** Every later session that starts with agreeing bits is as safe as the first. */
  lemma EveryLaterSessionSafe(y: System, events: seq<Event>, i: nat)
    requires Inv(y) && AllAllowed(y, events) && i < |y.sessions| && U.Starts(y.sessions[i])
    requires events == [] || NotEnded(y, events[..|events| - 1], i)
    ensures var s := After(y, events).sessions[i];
            U.Safe(s) && ExactlyOnce(s)
  {
    U.InvAtStart(y.sessions[i]);
    SecureOnBus(y, events, i);
  }
}
