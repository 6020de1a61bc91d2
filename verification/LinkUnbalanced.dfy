// The unbalanced link layer (link_layer.c): a slave that repeats its stored answer, the master's connection to it, and
// the guarantees of one session in which every request or reply is lost or received before the timeout.
module LinkUnbalanced {
  import opened Bytes
  import opened LinkFrames
  import opened Wrappers

  // ---------------------------------------------------------------- slave

  /** `stored` is the last user data taken for a poll; empty when the last poll found none. */
  datatype Slave = Slave(addressLength: nat, singleCharAck: bool, expectedFcb: bool, stored: seq<byte>)

  /** What the slave's application would answer: the next class 1 and class 2 data, and whether class 1 data is waiting
      once the request has been served. */
  datatype Supply = Supply(class1: Option<seq<byte>>, class2: Option<seq<byte>>, accessDemand: bool)

  datatype SlaveOutcome =
    SlaveOutcome(slave: Slave, delivered: seq<seq<byte>>, taken: seq<seq<byte>>, responses: seq<Response>)

  /** The single character stands for an acknowledgement without access demand; a primary reads it as ACK. */
  function Short(s: Slave, fc: nat, accessDemand: bool): Response {
    if s.singleCharAck && !accessDemand then Plain(ACK) else Response(fc, accessDemand, false, [])
  }

  function Answer(s: Slave, asdu: Option<seq<byte>>, accessDemand: bool): seq<Response> {
    match asdu
    case Some(data) => if Ft12.FitsVariable(s.addressLength, data) then [Response(RESP_USER_DATA, accessDemand, false, data)]
                       else []
    case None => [Short(s, RESP_NO_DATA, accessDemand)]
  }

  function AsSeq<T>(o: Option<T>): seq<T> { if o.Some? then [o.value] else [] }

  function Poll(s: Slave, r: Request, data: Option<seq<byte>>, accessDemand: bool): SlaveOutcome {
    if r.fcv && r.fcb != s.expectedFcb then
      SlaveOutcome(s, [], [], Answer(s, if s.stored != [] then Some(s.stored) else None, accessDemand))
    else
      var t := s.(expectedFcb := if r.fcv then !s.expectedFcb else s.expectedFcb,
                  stored := if data.Some? then data.value else []);
      SlaveOutcome(t, [], AsSeq(data), Answer(t, data, accessDemand))
  }

  /** LinkLayerSecondaryUnbalanced_handleMessage. */
  function HandleRequest(s: Slave, r: Request, supply: Supply): SlaveOutcome {
    if r.fc == REQUEST_LINK_STATUS then
      SlaveOutcome(s, [], [], if r.fcv then [] else [Response(STATUS_OF_LINK, supply.accessDemand, false, [])])
    else if r.fc == RESET_REMOTE_LINK || r.fc == RESET_FCB then
      if r.fcv || r.fcb then SlaveOutcome(s, [], [], [])
      else SlaveOutcome(s.(expectedFcb := true), [], [], [Plain(ACK)])
    else if r.fc == REQUEST_CLASS_2 then Poll(s, r, supply.class2, supply.accessDemand)
    else if r.fc == REQUEST_CLASS_1 then Poll(s, r, supply.class1, supply.accessDemand)
    else if r.fc == USER_DATA_CONFIRMED then
      var isNew := !r.fcv || r.fcb == s.expectedFcb;
      SlaveOutcome(s.(expectedFcb := if r.fcv && isNew then !s.expectedFcb else s.expectedFcb),
                   if isNew && r.data != [] then [r.data] else [], [], [Short(s, ACK, supply.accessDemand)])
    else if r.fc == USER_DATA_NO_REPLY then
      SlaveOutcome(s, if !r.fcv && r.data != [] then [r.data] else [], [], [])
    else SlaveOutcome(s, [], [], [Plain(NOT_IMPLEMENTED)])
  }

  // ---------------------------------------------------------------- the master's connection

  datatype Connection = Connection(state: PrimaryState, parameters: Parameters, hasMessage: bool, message: seq<byte>,
                                   lastSend: nat, originalSend: nat, class1: bool, class2: bool, waiting: bool,
                                   test: bool, nextFcb: bool)

  function NewConnection(parameters: Parameters): Connection {
    Connection(Idle, parameters, false, [], 0, 0, false, false, false, false, true)
  }

  datatype ConnectionOutcome = ConnectionOutcome(c: Connection, received: seq<seq<byte>>, requests: seq<Request>)

  function Acknowledged(c: Connection): Connection {
    var done := c.(waiting := false);
    match c.state
    case ResetRemote => done.(state := Available)
    case SendConfirm =>
      if c.test then done.(test := false, state := Available) else done.(hasMessage := false, state := Available)
    case RequestRespond => done.(state := Available)
    case _ => done
  }

  function Answered(c: Connection, r: Response): ConnectionOutcome {
    var done := c.(waiting := false);
    if c.state != RequestRespond then ConnectionOutcome(done.(state := Idle), [], [])
    else if r.fc == RESP_USER_DATA then
      ConnectionOutcome(done.(class1 := false, class2 := false, state := Available), [r.data], [])
    else ConnectionOutcome(done.(state := Available), [], [])
  }

  function HandleService(c: Connection, r: Response, now: nat): ConnectionOutcome {
    var done := c.(waiting := false);
    if r.fc == ACK then ConnectionOutcome(Acknowledged(c), [], [])
    else if r.fc == NACK then
      ConnectionOutcome(if c.state == SendConfirm then done.(state := Busy) else done, [], [])
    else if r.fc == STATUS_OF_LINK then
      if c.state == RequestStatus then
        ConnectionOutcome(c.(lastSend := now, waiting := true, state := ResetRemote), [],
                          [Request(RESET_REMOTE_LINK, false, false, [])])
      else ConnectionOutcome(c.(state := Idle), [], [])
    else if r.fc == RESP_USER_DATA || r.fc == RESP_NO_DATA then Answered(c, r)
    else if r.fc == NOT_FUNCTIONING || r.fc == NOT_IMPLEMENTED then
      ConnectionOutcome(done.(state := if c.state == SendConfirm then Available else c.state), [], [])
    else ConnectionOutcome(done, [], [])
  }

  function Demanded(c: Connection, acd: bool): Connection { c.(class1 := c.class1 || acd) }

  /** LinkLayerSlaveConnection_HandleMessage. An access demand goes to the master's application last of all, which asks
      for class 1 data (IPrimaryApplicationLayer_AccessDemand in cs101_master.c). */
  function HandleResponse(c: Connection, r: Response, now: nat): ConnectionOutcome {
    if r.dfc then
      ConnectionOutcome(match c.state
                        case ResetRemote => c.(state := RequestStatus)
                        case SendConfirm => c.(state := Busy)
                        case _ => c, [], [])
    else
      var o := HandleService(Demanded(c, r.acd), r, now);
      o.(c := Demanded(o.c, r.acd))
  }

  function PollRequest(class1: bool, fcb: bool): Request {
    Request(if class1 then REQUEST_CLASS_1 else REQUEST_CLASS_2, fcb, true, [])
  }

  type RunOutcome = (Connection, seq<Request>)

  function RunAvailable(c: Connection, now: nat): RunOutcome {
    var begun := c.(nextFcb := !c.nextFcb, lastSend := now, originalSend := now, waiting := true);
    if c.test then (begun.(state := RequestRespond), [TestRequest(c.nextFcb)])
    else if c.hasMessage then
      (begun.(state := SendConfirm), DataRequests(c.parameters.addressLength, c.nextFcb, c.message))
    else if c.class1 then (begun.(class1 := false, state := RequestRespond), [PollRequest(true, c.nextFcb)])
    else if c.class2 then (begun.(class2 := false, state := RequestRespond), [PollRequest(false, c.nextFcb)])
    else (c, [])
  }

  predicate AckOverdue(c: Connection, now: nat) { now > c.lastSend + c.parameters.timeoutForAck }

  predicate RepeatOver(c: Connection, now: nat) { now > c.originalSend + c.parameters.timeoutRepeat }

  /** LinkLayerSlaveConnection_runStateMachine. */
  function RunConnection(c0: Connection, now: nat): RunOutcome {
    var c := c0.(lastSend := Plausible(c0.lastSend, now));
    match c0.state
    case TimedOut => (if now > c.lastSend + c.parameters.timeoutLinkState then c.(state := Idle) else c, [])
    case Idle =>
      (c0.(originalSend := 0, test := false, lastSend := now, waiting := true, state := RequestStatus),
       [Request(REQUEST_LINK_STATUS, false, false, [])])
    case RequestStatus =>
      if c0.waiting then
        (if AckOverdue(c, now) then c.(waiting := false, lastSend := now, state := TimedOut) else c, [])
      else
        (c0.(lastSend := now, waiting := true, nextFcb := true, state := ResetRemote),
         [Request(RESET_REMOTE_LINK, false, false, [])])
    case ResetRemote =>
      if c0.waiting then
        (if AckOverdue(c, now) then c.(waiting := false, lastSend := now, state := TimedOut) else c, [])
      else (c0.(state := Available), [])
    case Available => RunAvailable(c0, now)
    case SendConfirm =>
      if !AckOverdue(c, now) then (c, [])
      else if RepeatOver(c, now) then (c.(waiting := false, lastSend := now, state := TimedOut), [])
      else (c.(lastSend := now),
            if c.test then [TestRequest(!c.nextFcb)]
            else DataRequests(c.parameters.addressLength, !c.nextFcb, c.message))
    case RequestRespond =>
      if !AckOverdue(c, now) then (c, [])
      else if RepeatOver(c, now) then (c.(class1 := false, class2 := false, state := Idle), [])
      else (c.(lastSend := now), [PollRequest(c.class1, !c.nextFcb)])
    case Busy => (c0, [])
  }

  // ---------------------------------------------------------------- one session

  /** The connection and its slave, what is under way, and what happened: messages of the master first sent and handed
      to the slave's application, how many of them are confirmed, user data taken from the slave's application and
      handed to the master's. */
  datatype Session = Session(c: Connection, slave: Slave, toSlave: seq<Request>, toMaster: seq<Response>,
                             sent: seq<seq<byte>>, delivered: seq<seq<byte>>, confirmed: nat,
                             taken: seq<seq<byte>>, received: seq<seq<byte>>)

  datatype Event =
    | MasterRuns(now: nat)
    | MasterReceives(now: nat)
    | SlaveReceives(supply: Supply)
    | Lost
    | SendConfirmed(message: seq<byte>)
    | RequestData(class1: bool)

  predicate Open(s: Session) { s.c.state in {Available, SendConfirm, RequestRespond} }

  function Step(s: Session, e: Event): Session {
    match e
    case MasterRuns(now) =>
      var (c, out) := RunConnection(s.c, now);
      var begins := s.c.state == Available && c.state == SendConfirm;
      s.(c := c, toSlave := s.toSlave + out, sent := if begins then s.sent + [c.message] else s.sent)
    case MasterReceives(now) =>
      if s.toMaster == [] then s
      else
        var o := HandleResponse(s.c, s.toMaster[0], now);
        s.(c := o.c, toMaster := s.toMaster[1..], toSlave := s.toSlave + o.requests,
           received := s.received + o.received,
           confirmed := if s.c.hasMessage && !o.c.hasMessage then s.confirmed + 1 else s.confirmed)
    case SlaveReceives(supply) =>
      if s.toSlave == [] then s
      else
        var o := HandleRequest(s.slave, s.toSlave[0], supply);
        s.(slave := o.slave, toSlave := s.toSlave[1..], toMaster := s.toMaster + o.responses,
           delivered := s.delivered + o.delivered, taken := s.taken + o.taken)
    case Lost => s.(toSlave := [], toMaster := [])
    case SendConfirmed(message) =>
      if s.c.hasMessage then s else s.(c := s.c.(hasMessage := true, message := message))
    case RequestData(class1) =>
      if class1 then s.(c := s.c.(class1 := true)) else s.(c := s.c.(class2 := true))
  }

  /** A frame under way is received before the acknowledgement timeout or lost; ASDUs are not empty. */
  predicate Allowed(s: Session, e: Event) {
    match e
    case MasterRuns(now) =>
      (s.toSlave == [] && s.toMaster == []) || now <= s.c.lastSend + s.c.parameters.timeoutForAck
    case SlaveReceives(supply) => supply.class1 != Some([]) && supply.class2 != Some([])
    case SendConfirmed(message) => message != []
    case _ => true
  }

  predicate Starts(s: Session) {
    && s.c.state == Available && s.c.nextFcb == s.slave.expectedFcb && !s.c.test
    && (s.c.hasMessage ==> s.c.message != [])
    && s.toSlave == [] && s.toMaster == [] && s.sent == [] && s.delivered == [] && s.confirmed == 0
    && s.taken == [] && s.received == []
  }

  // ---------------------------------------------------------------- the invariant

  predicate NothingUnderWay(s: Session) { s.toSlave == [] && s.toMaster == [] }

  predicate OneUnderWay(s: Session) { |s.toSlave| + |s.toMaster| <= 1 }

  predicate MessagesSettled(s: Session) { s.delivered == s.sent && s.confirmed == |s.sent| }

  predicate Settled(s: Session) {
    && s.c.state == Available && s.c.nextFcb == s.slave.expectedFcb && NothingUnderWay(s)
    && MessagesSettled(s) && s.taken == s.received
  }

  predicate Sending(s: Session) {
    && s.c.state == SendConfirm && OneUnderWay(s) && s.c.hasMessage && s.taken == s.received
    && |s.sent| > 0 && s.c.message == s.sent[|s.sent| - 1] && s.confirmed == |s.sent| - 1
    && (s.toSlave != [] ==> s.toSlave[0] == Request(USER_DATA_CONFIRMED, !s.c.nextFcb, true, s.c.message))
  }

  predicate SendingNew(s: Session) {
    Sending(s) && s.slave.expectedFcb != s.c.nextFcb && s.toMaster == [] && s.delivered == s.sent[..|s.sent| - 1]
  }

  predicate SendingRepeated(s: Session) {
    && Sending(s) && s.slave.expectedFcb == s.c.nextFcb && s.delivered == s.sent
    && (s.toMaster != [] ==> s.toMaster[0].fc == ACK && !s.toMaster[0].dfc)
  }

  predicate IsPoll(r: Request, fcb: bool) { r == PollRequest(true, fcb) || r == PollRequest(false, fcb) }

  predicate Polling(s: Session) {
    && s.c.state == RequestRespond && OneUnderWay(s) && MessagesSettled(s)
    && (s.toSlave != [] ==> IsPoll(s.toSlave[0], !s.c.nextFcb))
  }

  predicate PollingNew(s: Session) {
    Polling(s) && s.slave.expectedFcb != s.c.nextFcb && s.toMaster == [] && s.taken == s.received
  }

  /** The slave holds the answer until it has arrived. */
  predicate PollingRepeated(s: Session) {
    && Polling(s) && s.slave.expectedFcb == s.c.nextFcb
    && s.taken == s.received + (if s.slave.stored != [] then [s.slave.stored] else [])
    && (s.toMaster != [] ==>
          && !s.toMaster[0].dfc
          && if s.slave.stored != [] then s.toMaster[0].fc == RESP_USER_DATA && s.toMaster[0].data == s.slave.stored
             else s.toMaster[0].fc in {ACK, RESP_NO_DATA})
  }

  predicate Inv(s: Session) {
    && !s.c.test && (s.c.hasMessage ==> s.c.message != [])
    && (Settled(s) || SendingNew(s) || SendingRepeated(s) || PollingNew(s) || PollingRepeated(s))
  }

  /** In both directions data arrives in order and at most once, at most the last is missing, and what the master treats
      as confirmed has arrived. */
  predicate Safe(s: Session) {
    && s.delivered <= s.sent && |s.sent| <= |s.delivered| + 1
    && s.confirmed <= |s.delivered| && |s.sent| <= s.confirmed + 1
    && s.received <= s.taken && |s.taken| <= |s.received| + 1
  }

  lemma InvIsSafe(s: Session)
    requires Inv(s)
    ensures Safe(s)
    ensures s.c.state == Available ==> s.delivered == s.sent && s.received == s.taken && s.confirmed == |s.sent|
  {
  }

  lemma MasterRunsAvailable(s: Session, now: nat)
    requires Inv(s) && Settled(s)
    ensures Inv(Step(s, MasterRuns(now)))
  {
    var t := Step(s, MasterRuns(now));
    if t.c.state == SendConfirm {
      assert SendingNew(t);
    } else if t.c.state == RequestRespond {
      assert PollingNew(t);
    }
  }

  lemma MasterRunsSending(s: Session, now: nat)
    requires Inv(s) && Sending(s) && Allowed(s, MasterRuns(now))
    ensures var t := Step(s, MasterRuns(now));
            Safe(t) && (Open(t) ==> Inv(t))
  {
    var t := Step(s, MasterRuns(now));
    if t.c.state == SendConfirm {
      assert Sending(t);
    }
  }

  lemma MasterRunsPolling(s: Session, now: nat)
    requires Inv(s) && Polling(s) && Allowed(s, MasterRuns(now))
    ensures var t := Step(s, MasterRuns(now));
            Safe(t) && (Open(t) ==> Inv(t))
  {
    var t := Step(s, MasterRuns(now));
    if t.c.state == RequestRespond {
      assert Polling(t);
    }
  }

  lemma MasterReceivesAck(s: Session, now: nat)
    requires Inv(s) && Sending(s)
    ensures Inv(Step(s, MasterReceives(now)))
  {
    if s.toMaster != [] {
      assert Settled(Step(s, MasterReceives(now)));
    }
  }

  lemma MasterReceivesAnswer(s: Session, now: nat)
    requires Inv(s) && Polling(s)
    ensures Inv(Step(s, MasterReceives(now)))
  {
    if s.toMaster != [] {
      assert Settled(Step(s, MasterReceives(now)));
    }
  }

  lemma SlaveReceivesData(s: Session, supply: Supply)
    requires Inv(s) && Sending(s)
    ensures Inv(Step(s, SlaveReceives(supply)))
  {
    if s.toSlave != [] {
      assert SendingRepeated(Step(s, SlaveReceives(supply)));
    }
  }

  lemma SlaveReceivesPoll(s: Session, supply: Supply)
    requires Inv(s) && PollingNew(s) && Allowed(s, SlaveReceives(supply))
    ensures Inv(Step(s, SlaveReceives(supply)))
  {
    hide RunConnection, HandleResponse;
    if s.toSlave != [] {
      assert PollingRepeated(Step(s, SlaveReceives(supply)));
    }
  }

  lemma SlaveReceivesPollAgain(s: Session, supply: Supply)
    requires Inv(s) && PollingRepeated(s)
    ensures Inv(Step(s, SlaveReceives(supply)))
  {
    hide RunConnection, HandleResponse;
    if s.toSlave != [] {
      assert PollingRepeated(Step(s, SlaveReceives(supply)));
    }
  }

  lemma LossKeepsInv(s: Session)
    requires Inv(s)
    ensures Inv(Step(s, Lost))
  {
  }

  lemma SendConfirmedKeepsInv(s: Session, message: seq<byte>)
    requires Inv(s) && message != []
    ensures Inv(Step(s, SendConfirmed(message)))
  {
    hide PollRequest;
  }

  lemma RequestDataKeepsInv(s: Session, class1: bool)
    requires Inv(s)
    ensures Inv(Step(s, RequestData(class1)))
  {
    hide PollRequest;
    var t := Step(s, RequestData(class1));
    if Settled(s) {
      assert Settled(t);
    } else if Sending(s) {
      assert Sending(t);
    } else {
      assert Polling(t);
    }
  }

  lemma StepKeepsInv(s: Session, e: Event)
    requires Inv(s) && Allowed(s, e)
    ensures Safe(Step(s, e)) && (Open(Step(s, e)) ==> Inv(Step(s, e)))
  {
    hide Step, Safe;
    match e
    case MasterRuns(now) =>
      if Settled(s) {
        MasterRunsAvailable(s, now);
        InvIsSafe(Step(s, e));
      } else if Sending(s) {
        MasterRunsSending(s, now);
      } else {
        MasterRunsPolling(s, now);
      }
    case MasterReceives(now) =>
      if Sending(s) {
        MasterReceivesAck(s, now);
      } else if Polling(s) {
        MasterReceivesAnswer(s, now);
      } else {
        NothingReceived(s, e);
      }
      InvIsSafe(Step(s, e));
    case SlaveReceives(supply) =>
      if Sending(s) {
        SlaveReceivesData(s, supply);
      } else if PollingNew(s) {
        SlaveReceivesPoll(s, supply);
      } else if Polling(s) {
        SlaveReceivesPollAgain(s, supply);
      } else {
        NothingReceived(s, e);
      }
      InvIsSafe(Step(s, e));
    case Lost =>
      LossKeepsInv(s);
      InvIsSafe(Step(s, e));
    case SendConfirmed(message) =>
      SendConfirmedKeepsInv(s, message);
      InvIsSafe(Step(s, e));
    case RequestData(class1) =>
      RequestDataKeepsInv(s, class1);
      InvIsSafe(Step(s, e));
  }

  lemma NothingReceived(s: Session, e: Event)
    requires Settled(s) && (e.MasterReceives? || e.SlaveReceives?)
    ensures Step(s, e) == s
  {
  }

  function After(s: Session, events: seq<Event>): Session {
    if events == [] then s else Step(After(s, events[..|events| - 1]), events[|events| - 1])
  }

  /** The session stays open up to the last event. */
  predicate SessionOf(s: Session, events: seq<Event>) {
    Starts(s)
    && forall i | 0 <= i < |events| :: Open(After(s, events[..i])) && Allowed(After(s, events[..i]), events[i])
  }

  /** Every schedule is safe up to and including the event that ends the session; and whenever the connection is
      available again, every message sent has been delivered and confirmed exactly once, and every ASDU taken from the
      slave has been received exactly once. */
  lemma {:induction false} EverySessionSafe(s: Session, events: seq<Event>)
    requires SessionOf(s, events)
    ensures var t := After(s, events);
            && Safe(t) && (Open(t) ==> Inv(t))
            && (t.c.state == Available ==> t.delivered == t.sent && t.received == t.taken && t.confirmed == |t.sent|)
  {
    hide Inv, Safe, Step, Allowed;
    if events == [] {
      InvAtStart(s);
    } else {
      var front := events[..|events| - 1];
      assert forall i | 0 <= i < |front| :: front[..i] == events[..i] && front[i] == events[i];
      EverySessionSafe(s, front);
      assert Open(After(s, front)) && Allowed(After(s, front), events[|events| - 1]);
      StepKeepsInv(After(s, front), events[|events| - 1]);
    }
    if After(s, events).c.state == Available {
      InvIsSafe(After(s, events));
    }
  }

  lemma InvAtStart(s: Session)
    requires Starts(s)
    ensures Inv(s) && Safe(s)
  {
  }

  /** The repetition of a class 1 poll is a class 2 poll unless class 1 data was asked for again meanwhile. */
  lemma RepeatedPollIsClassTwo(c: Connection, sendTime: nat, now: nat)
    requires c.state == Available && c.class1 && !c.hasMessage && !c.test
    requires sendTime + c.parameters.timeoutForAck < now <= sendTime + c.parameters.timeoutRepeat
    ensures var (sent, first) := RunConnection(c, sendTime);
            && first == [PollRequest(true, c.nextFcb)]
            && RunConnection(sent, now).1 == [PollRequest(false, c.nextFcb)]
  {
  }

  /** An answer that arrives after the poll was repeated is received twice: the second copy passes for the answer to
      the next poll. */
  lemma LateAnswerReceivedTwice(s: Session, now: nat, supply: Supply)
    requires Inv(s) && PollingRepeated(s) && s.slave.stored != [] && s.toSlave == []
    requires s.toMaster == [Response(RESP_USER_DATA, false, false, s.slave.stored)] && !supply.accessDemand
    requires Ft12.FitsVariable(s.slave.addressLength, s.slave.stored) && !s.c.hasMessage
    requires AckOverdue(s.c, now) && s.c.lastSend <= now && !RepeatOver(s.c, now)
    ensures var repeated := Step(Step(s, MasterRuns(now)), SlaveReceives(supply));
            var next := Step(Step(Step(repeated, MasterReceives(now)), RequestData(true)), MasterRuns(now));
            var t := Step(next, MasterReceives(now));
            t.received == s.received + [s.slave.stored, s.slave.stored] && t.taken == s.received + [s.slave.stored]
  {
    assert s.c.state == RequestRespond && !s.c.test;
    hide Step, Inv, PollingRepeated, Ft12.FitsVariable;
    var answer := s.toMaster[0];
    AnswerRepeated(s, now, supply);
    var repeated := s.(c := s.c.(lastSend := now), toMaster := [answer, answer]);
    SecondCopyTaken(repeated, now);
  }

  lemma AnswerRepeated(s: Session, now: nat, supply: Supply)
    requires Inv(s) && PollingRepeated(s) && s.slave.stored != [] && s.toSlave == []
    requires s.toMaster == [Response(RESP_USER_DATA, false, false, s.slave.stored)] && !supply.accessDemand
    requires Ft12.FitsVariable(s.slave.addressLength, s.slave.stored)
    requires AckOverdue(s.c, now) && s.c.lastSend <= now && !RepeatOver(s.c, now)
    ensures Step(Step(s, MasterRuns(now)), SlaveReceives(supply))
            == s.(c := s.c.(lastSend := now), toMaster := s.toMaster + s.toMaster)
  {
    var s1 := s.(c := s.c.(lastSend := now), toSlave := [PollRequest(s.c.class1, !s.c.nextFcb)]);
    assert Step(s, MasterRuns(now)) == s1;
    assert Poll(s.slave, s1.toSlave[0], None, false).responses == s.toMaster;
  }

  lemma SecondCopyTaken(s: Session, now: nat)
    requires s.c.state == RequestRespond && !s.c.test && !s.c.hasMessage
    requires |s.toMaster| == 2 && s.toMaster[0] == s.toMaster[1]
    requires s.toMaster[0].fc == RESP_USER_DATA && !s.toMaster[0].acd && !s.toMaster[0].dfc
    ensures var next := Step(Step(Step(s, MasterReceives(now)), RequestData(true)), MasterRuns(now));
            var t := Step(next, MasterReceives(now));
            t.received == s.received + [s.toMaster[0].data, s.toMaster[0].data] && t.taken == s.taken
  {
    var c2 := s.c.(waiting := false, class1 := false, class2 := false, state := Available);
    var first := s.(c := c2, toMaster := s.toMaster[1..], received := s.received + [s.toMaster[0].data]);
    assert Step(s, MasterReceives(now)) == first;
    var c3 := c2.(nextFcb := !c2.nextFcb, lastSend := now, originalSend := now, waiting := true, state := RequestRespond);
    var next := first.(c := c3, toSlave := first.toSlave + [PollRequest(true, c2.nextFcb)]);
    assert Step(Step(first, RequestData(true)), MasterRuns(now)) == next;
    hide Step;
    assert Step(next, MasterReceives(now)).received == first.received + [s.toMaster[0].data] by {
      AnswerTaken(next, now);
    }
    AnswerTaken(next, now);
  }

  lemma AnswerTaken(s: Session, now: nat)
    requires s.c.state == RequestRespond && s.toMaster != []
    requires s.toMaster[0].fc == RESP_USER_DATA && !s.toMaster[0].dfc
    ensures var t := Step(s, MasterReceives(now));
            t.received == s.received + [s.toMaster[0].data] && t.taken == s.taken
  {
  }

  /** Events that an open session allows. */
  predicate Continues(s: Session, events: seq<Event>) {
    forall i | 0 <= i < |events| :: Open(After(s, events[..i])) && Allowed(After(s, events[..i]), events[i])
  }

  lemma OneMore(s: Session, events: seq<Event>, e: Event)
    requires Continues(s, events) && Open(After(s, events)) && Allowed(After(s, events), e)
    ensures Continues(s, events + [e]) && After(s, events + [e]) == Step(After(s, events), e)
  {
    hide Open, Allowed, Step;
    var more := events + [e];
    assert more[..|events|] == events;
    assert forall i | 0 <= i < |events| :: more[..i] == events[..i] && more[i] == events[i];
  }

  predicate IsAck(r: Response) { r.fc == ACK && !r.dfc }

  /** A message was delivered and acknowledged twice. */
  predicate AcknowledgedTwice(s: Session, now: nat) {
    && s.c.state == SendConfirm && s.c.hasMessage && !s.c.test && s.c.lastSend == now && s.toSlave == []
    && |s.toMaster| == 2 && IsAck(s.toMaster[0]) && IsAck(s.toMaster[1])
    && s.delivered == s.sent && s.confirmed == |s.sent| - 1
    && s.c.message != [] && Ft12.FitsVariable(s.c.parameters.addressLength, s.c.message)
  }

  /** A run that repeats nothing is safe, whatever is under way; it may end the session. */
  lemma RunWithoutRepetition(s: Session, now: nat)
    requires Inv(s) && (NothingUnderWay(s) || RunConnection(s.c, now).1 == [])
    ensures var t := Step(s, MasterRuns(now));
            Safe(t) && (Open(t) ==> Inv(t))
  {
    if NothingUnderWay(s) {
      StepKeepsInv(s, MasterRuns(now));
    } else {
      assert s.c.state in {SendConfirm, RequestRespond};
      ServiceRun(s.c, now);
      InvIsSafe(s);
      var t := s.(c := RunConnection(s.c, now).0);
      assert Step(s, MasterRuns(now)) == t by { assert s.toSlave + [] == s.toSlave; }
      hide RunConnection, Step, Inv, Safe, SameExchange;
      SameRecords(s, t.c);
      if Open(t) { SameService(s, t.c); }
    }
  }

  /** Only times, flags and perhaps the state differ. */
  predicate SameExchange(c: Connection, c1: Connection) {
    && c1.nextFcb == c.nextFcb && c1.test == c.test && c1.hasMessage == c.hasMessage && c1.message == c.message
    && c1.parameters == c.parameters
  }

  /** A run while the master waits for a service changes no bit and no message. */
  lemma ServiceRun(c: Connection, now: nat)
    requires c.state in {SendConfirm, RequestRespond}
    ensures var c1 := RunConnection(c, now).0; SameExchange(c, c1) && c1.state in {c.state, Idle, TimedOut}
  {
    hide RunConnection, SameExchange;
    if c.state == SendConfirm {
      ConfirmRun(c, now);
    } else {
      PollRun(c, now);
    }
  }

  lemma ConfirmRun(c: Connection, now: nat)
    requires c.state == SendConfirm
    ensures var c1 := RunConnection(c, now).0; SameExchange(c, c1) && c1.state in {SendConfirm, TimedOut}
  {
    hide DataRequests, PollRequest, TestRequest, RunAvailable;
  }

  lemma PollRun(c: Connection, now: nat)
    requires c.state == RequestRespond
    ensures var c1 := RunConnection(c, now).0; SameExchange(c, c1) && c1.state in {RequestRespond, Idle}
  {
    hide DataRequests, PollRequest, TestRequest, RunAvailable;
  }

  lemma SameRecords(s: Session, c: Connection)
    requires Safe(s)
    ensures Safe(s.(c := c))
  {
  }

  lemma SameService(s: Session, c: Connection)
    requires Inv(s) && SameExchange(s.c, c) && c.state == s.c.state
    ensures Inv(s.(c := c))
  {
    hide PollRequest;
    var t := s.(c := c);
    if Settled(s) {
      assert Settled(t);
    } else if Sending(s) {
      assert Sending(t);
    } else {
      assert Polling(t);
    }
  }

  /** A message or its acknowledgement overtaken by the repetition always does harm: the session has a continuation, with
      nothing else overtaken, in which the second acknowledgement confirms the next message, which never arrived. */
  lemma OvertakenMessageHarms(s: Session, now: nat) returns (events: seq<Event>)
    requires Inv(s) && Sending(s) && !NothingUnderWay(s) && RunConnection(s.c, now).1 != []
    ensures var t := Step(s, MasterRuns(now));
            Continues(t, events) && !Safe(After(t, events))
  {
    var t, idle := Step(s, MasterRuns(now)), SlaveReceives(Supply(None, None, false));
    Repetition(s, now);
    hide Step, RunConnection, Inv, Safe;
    if s.toSlave == [] {
      events := [];
    } else {
      events := [] + [idle];
      OneMore(t, [], idle);
    }
    RepeatAcknowledged(After(t, events), now);
    OneMore(t, events, idle);
    events := events + [idle];
    var u := After(t, events);
    NextMessageConfirmed(u, now);
    OneMore(t, events, MasterReceives(now));
    events := events + [MasterReceives(now)];
    OneMore(t, events, SendConfirmed(u.c.message));
    events := events + [SendConfirmed(u.c.message)];
    OneMore(t, events, MasterRuns(now));
    events := events + [MasterRuns(now)];
    OneMore(t, events, MasterReceives(now));
    events := events + [MasterReceives(now)];
  }

  /** One copy of the message is still to come, the other was acknowledged. */
  predicate RepeatUnderWay(s: Session, now: nat) {
    && s.c.state == SendConfirm && s.c.hasMessage && !s.c.test && s.c.lastSend == now
    && s.c.message != [] && Ft12.FitsVariable(s.c.parameters.addressLength, s.c.message)
    && s.toSlave == [Request(USER_DATA_CONFIRMED, !s.c.nextFcb, true, s.c.message)] && s.slave.expectedFcb == s.c.nextFcb
    && |s.toMaster| == 1 && IsAck(s.toMaster[0]) && s.delivered == s.sent && s.confirmed == |s.sent| - 1
  }

  lemma Repetition(s: Session, now: nat)
    requires Inv(s) && Sending(s) && !NothingUnderWay(s) && RunConnection(s.c, now).1 != []
    ensures var t, idle := Step(s, MasterRuns(now)), SlaveReceives(Supply(None, None, false));
            && Open(t) && Allowed(t, idle)
            && RepeatUnderWay(if s.toSlave == [] then t else Step(t, idle), now)
  {
    hide HandleResponse, Poll;
    var message := Request(USER_DATA_CONFIRMED, !s.c.nextFcb, true, s.c.message);
    var t := s.(c := s.c.(lastSend := now), toSlave := s.toSlave + [message]);
    assert Step(s, MasterRuns(now)) == t;
    if s.toSlave != [] {
      assert t.toSlave == [message, message];
      hide RunConnection;
      assert HandleRequest(s.slave, message, Supply(None, None, false)).responses == [Plain(ACK)];
    }
  }

  lemma RepeatAcknowledged(s: Session, now: nat)
    requires RepeatUnderWay(s, now)
    ensures var idle := SlaveReceives(Supply(None, None, false));
            Open(s) && Allowed(s, idle) && AcknowledgedTwice(Step(s, idle), now)
  {
    hide HandleResponse, Poll, RunConnection;
  }

  lemma NextMessageConfirmed(s: Session, now: nat)
    requires AcknowledgedTwice(s, now)
    ensures var s1 := Step(s, MasterReceives(now));
            var s2 := Step(s1, SendConfirmed(s.c.message));
            var s3 := Step(s2, MasterRuns(now));
            && Open(s) && Open(s1) && Open(s2) && Open(s3) && Allowed(s1, SendConfirmed(s.c.message))
            && Allowed(s2, MasterRuns(now)) && !Safe(Step(s3, MasterReceives(now)))
  {
    hide HandleRequest;
    var s1 := Step(s, MasterReceives(now));
    assert s1.c.state == Available && !s1.c.hasMessage && s1.toMaster == [s.toMaster[1]] && s1.confirmed == |s1.delivered|;
    assert s1.c.lastSend == now && !s1.c.test;
    hide HandleResponse;
    var s2 := Step(s1, SendConfirmed(s.c.message));
    var s3 := Step(s2, MasterRuns(now));
    assert s3.c.state == SendConfirm && s3.c.hasMessage && !s3.c.test && s3.toMaster == s1.toMaster;
    hide RunConnection;
    MessageConfirmed(s3, now);
  }

  // ---------------------------------------------------------------- across a broken link

  /** An undisturbed set-up of the link behind a timeout: status request, reset, available. */
  function SetUp(s: Session, now: nat, supply: Supply): Session {
    var asked := Step(Step(s, MasterRuns(now)), MasterRuns(now));
    var answered := Step(Step(asked, SlaveReceives(supply)), MasterReceives(now));
    Step(Step(answered, SlaveReceives(supply)), MasterReceives(now))
  }

  /** One message sent, received and confirmed without losses. */
  function Delivery(s: Session, now: nat, supply: Supply): Session {
    Step(Step(Step(s, MasterRuns(now)), SlaveReceives(supply)), MasterReceives(now))
  }

  /** The set-up makes the slave's frame count bit true and leaves the master's as it is. */
  lemma SetUpKeepsMastersBit(s: Session, now: nat, supply: Supply)
    requires s.c.state == TimedOut && NothingUnderWay(s)
    requires s.c.lastSend + s.c.parameters.timeoutLinkState < now
    ensures var t := SetUp(s, now, supply);
            && t.c == s.c.(state := Available, waiting := false, test := false, originalSend := 0, lastSend := now,
                           class1 := t.c.class1)
            && t.slave == s.slave.(expectedFcb := true) && NothingUnderWay(t)
            && t.delivered == s.delivered && t.confirmed == s.confirmed
  {
    hide Step;
    var asked := s.c.(state := RequestStatus, originalSend := 0, test := false, lastSend := now, waiting := true);
    var s2 := s.(c := asked, toSlave := [Request(REQUEST_LINK_STATUS, false, false, [])]);
    StatusAsked(s, now);
    StatusAnswered(s2, now, supply);
    var s4 := s2.(c := asked.(state := ResetRemote, class1 := s.c.class1 || supply.accessDemand),
                  toSlave := [Request(RESET_REMOTE_LINK, false, false, [])]);
    ResetReceived(s4, supply);
    ResetConfirmed(s4.(slave := s.slave.(expectedFcb := true), toSlave := [], toMaster := [Plain(ACK)]), now);
  }

  lemma StatusAsked(s: Session, now: nat)
    requires s.c.state == TimedOut && s.toSlave == [] && s.c.lastSend + s.c.parameters.timeoutLinkState < now
    ensures Step(Step(s, MasterRuns(now)), MasterRuns(now))
            == s.(c := s.c.(state := RequestStatus, originalSend := 0, test := false, lastSend := now, waiting := true),
                  toSlave := [Request(REQUEST_LINK_STATUS, false, false, [])])
  {
    hide RunAvailable;
    assert Step(s, MasterRuns(now)) == s.(c := s.c.(state := Idle));
  }

  lemma StatusAnswered(s: Session, now: nat, supply: Supply)
    requires s.c.state == RequestStatus && s.toSlave == [Request(REQUEST_LINK_STATUS, false, false, [])]
    requires s.toMaster == [] && s.c.waiting && s.c.lastSend == now
    ensures Step(Step(s, SlaveReceives(supply)), MasterReceives(now))
            == s.(c := s.c.(state := ResetRemote, class1 := s.c.class1 || supply.accessDemand),
                  toSlave := [Request(RESET_REMOTE_LINK, false, false, [])])
  {
    hide RunConnection, Acknowledged, Answered, Poll;
    NoData(s);
    var s1 := s.(toSlave := [], toMaster := [Response(STATUS_OF_LINK, supply.accessDemand, false, [])]);
    assert Step(s, SlaveReceives(supply)) == s1;
  }

  lemma ResetReceived(s: Session, supply: Supply)
    requires s.toSlave == [Request(RESET_REMOTE_LINK, false, false, [])] && s.toMaster == []
    ensures Step(s, SlaveReceives(supply))
            == s.(slave := s.slave.(expectedFcb := true), toSlave := [], toMaster := [Plain(ACK)])
  {
    hide RunConnection, HandleResponse, Poll;
    NoData(s);
  }

  lemma NoData(s: Session)
    ensures s.delivered + [] == s.delivered && s.taken + [] == s.taken && s.received + [] == s.received
  {
  }

  lemma ResetConfirmed(s: Session, now: nat)
    requires s.c.state == ResetRemote && s.toMaster == [Plain(ACK)] && s.toSlave == []
    ensures Step(s, MasterReceives(now)) == s.(c := s.c.(state := Available, waiting := false), toMaster := [])
  {
    NoData(s);
  }

  /** The master's message is confirmed; the slave's application gets it if and only if the bits agreed, and afterwards
      they do. */
  lemma DeliveryOutcome(s: Session, now: nat, supply: Supply)
    requires s.c.state == Available && NothingUnderWay(s) && s.c.hasMessage && s.c.message != [] && !s.c.test
    requires Ft12.FitsVariable(s.c.parameters.addressLength, s.c.message)
    ensures var t := Delivery(s, now, supply);
            && t.c.state == Available && !t.c.hasMessage && t.confirmed == s.confirmed + 1
            && t.delivered == s.delivered + (if s.c.nextFcb == s.slave.expectedFcb then [s.c.message] else [])
            && t.c.nextFcb == t.slave.expectedFcb
  {
    hide HandleResponse;
    var s1 := Step(s, MasterRuns(now));
    assert s1.toSlave == [Request(USER_DATA_CONFIRMED, s.c.nextFcb, true, s.c.message)];
    assert s1.c.state == SendConfirm && s1.c.hasMessage && !s1.c.test && s1.toMaster == [];
    assert s1.delivered == s.delivered && s1.confirmed == s.confirmed && s1.slave == s.slave && s1.c.nextFcb == !s.c.nextFcb;
    MessageReceived(s1, supply);
    hide Step, HandleRequest, RunConnection;
    MessageConfirmed(Step(s1, SlaveReceives(supply)), now);
  }

  lemma MessageReceived(s: Session, supply: Supply)
    requires |s.toSlave| == 1 && s.toMaster == []
    requires s.toSlave[0].fc == USER_DATA_CONFIRMED && s.toSlave[0].fcv && s.toSlave[0].data != []
    ensures var t := Step(s, SlaveReceives(supply));
            && t.c == s.c && t.confirmed == s.confirmed && |t.toMaster| == 1
            && t.toMaster[0].fc == ACK && !t.toMaster[0].dfc
            && t.delivered == s.delivered + (if s.toSlave[0].fcb == s.slave.expectedFcb then [s.toSlave[0].data] else [])
            && t.slave.expectedFcb == !s.toSlave[0].fcb
  {
  }

  lemma MessageConfirmed(s: Session, now: nat)
    requires s.c.state == SendConfirm && s.c.hasMessage && !s.c.test && |s.toMaster| == 1
    requires s.toMaster[0].fc == ACK && !s.toMaster[0].dfc
    ensures var t := Step(s, MasterReceives(now));
            && t.c.state == Available && !t.c.hasMessage && t.confirmed == s.confirmed + 1 && t.delivered == s.delivered
            && t.c.nextFcb == s.c.nextFcb && t.slave == s.slave
  {
  }

  /** A message that survives a broken link: once the link is set up again it is sent and confirmed, and it reaches the
      slave's application if and only if the master's bit is true. */
  lemma RetainedMessage(s: Session, now: nat, supply: Supply)
    requires s.c.state == TimedOut && NothingUnderWay(s) && s.c.hasMessage && s.c.message != []
    requires Ft12.FitsVariable(s.c.parameters.addressLength, s.c.message)
    requires s.c.lastSend + s.c.parameters.timeoutLinkState < now
    ensures var t := Delivery(SetUp(s, now, supply), now, supply);
            && t.c.state == Available && !t.c.hasMessage && t.confirmed == s.confirmed + 1
            && t.delivered == s.delivered + if s.c.nextFcb then [s.c.message] else []
  {
    hide SetUp, Delivery;
    SetUpKeepsMastersBit(s, now, supply);
    DeliveryOutcome(SetUp(s, now, supply), now, supply);
  }

  /** A message sent over a link that breaks before the slave gets it: it is confirmed over the next link, but reaches the
      slave's application if and only if the service that broke had begun with the master's bit false; the first one
      begins with true. */
  lemma BrokenLink(s: Session, sendTime: nat, giveUp: nat, now: nat, supply: Supply)
    requires Settled(s) && !s.c.test && s.c.hasMessage && s.c.message != []
    requires Ft12.FitsVariable(s.c.parameters.addressLength, s.c.message)
    requires giveUp > sendTime + s.c.parameters.timeoutForAck && giveUp > sendTime + s.c.parameters.timeoutRepeat
    requires giveUp + s.c.parameters.timeoutLinkState < now
    ensures var broken := Step(Step(Step(s, MasterRuns(sendTime)), Lost), MasterRuns(giveUp));
            var t := Delivery(SetUp(broken, now, supply), now, supply);
            && broken.c.state == TimedOut && t.c.state == Available && t.confirmed == s.confirmed + 1
            && t.delivered == s.delivered + if s.c.nextFcb then [] else [s.c.message]
  {
    hide DataRequests, SetUp, Delivery;
    var broken := Step(Step(Step(s, MasterRuns(sendTime)), Lost), MasterRuns(giveUp));
    assert broken.c.state == TimedOut && broken.c.lastSend == giveUp && broken.c.nextFcb == !s.c.nextFcb;
    RetainedMessage(broken, now, supply);
  }
}
