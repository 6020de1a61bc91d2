// The services of the unbalanced link layer (link_layer.c) from end to end: which data a poll fetches, access demand, the
// repetition behind a loss, resets, link tests, broadcasts, and what every response does to a connection.
module LinkUnbalancedService {
  import opened Bytes
  import Ft12
  import opened LinkFrames
  import opened LinkUnbalanced
  import opened Wrappers

  // ---------------------------------------------------------------- polls

  /** Data that the slave can send at all. */
  predicate Answerable(s: Slave, data: Option<seq<byte>>) {
    data.Some? ==> data.value != [] && Ft12.FitsVariable(s.addressLength, data.value)
  }

  function Polled(supply: Supply, class1: bool): Option<seq<byte>> { if class1 then supply.class1 else supply.class2 }

  /** A new poll takes the data of its own class from the slave's application and answers with it; every answer says
      whether class 1 data is waiting. */
  lemma PollTakesItsClass(s: Session, supply: Supply, class1: bool)
    requires PollingNew(s) && s.toSlave == [PollRequest(class1, !s.c.nextFcb)]
    ensures var t, data := Step(s, SlaveReceives(supply)), Polled(supply, class1);
            && t.taken == s.taken + AsSeq(data) && t.delivered == s.delivered && t.c == s.c && t.toSlave == []
            && (Answerable(s.slave, data) ==>
                  && |t.toMaster| == 1 && t.toMaster[0].acd == supply.accessDemand && !t.toMaster[0].dfc
                  && if data.Some? then t.toMaster[0].fc == RESP_USER_DATA && t.toMaster[0].data == data.value
                     else t.toMaster[0].fc == if s.slave.singleCharAck && !supply.accessDemand then ACK else RESP_NO_DATA)
  {
  }

  /** A poll of either class that repeats the last one takes nothing and gets the stored answer, with the demand as it is
      now. */
  lemma RepeatedPollAnswered(s: Session, supply: Supply, class1: bool)
    requires PollingRepeated(s) && s.toSlave == [PollRequest(class1, !s.c.nextFcb)]
    requires s.slave.stored != [] ==> Ft12.FitsVariable(s.slave.addressLength, s.slave.stored)
    ensures var t := Step(s, SlaveReceives(supply));
            && t.taken == s.taken && t.slave == s.slave && |t.toMaster| == 1
            && t.toMaster[0].acd == supply.accessDemand
            && if s.slave.stored != [] then t.toMaster[0].fc == RESP_USER_DATA && t.toMaster[0].data == s.slave.stored
               else t.toMaster[0].fc == if s.slave.singleCharAck && !supply.accessDemand then ACK else RESP_NO_DATA
  {
  }

  /** Ready for a poll and nothing else to do. */
  predicate ReadyToPoll(s: Session) {
    Settled(s) && !s.c.test && !s.c.hasMessage
  }

  /** The run begins a poll, of class 1 if that was asked for. */
  lemma PollBegins(s: Session, now: nat)
    requires ReadyToPoll(s) && (s.c.class1 || s.c.class2)
    ensures var t := Step(s, MasterRuns(now));
            && PollingNew(t) && t.toSlave == [PollRequest(s.c.class1, !t.c.nextFcb)] && t.slave == s.slave
            && t.received == s.received && t.taken == s.taken && t.sent == s.sent
            && !t.c.test && !t.c.hasMessage && !t.c.class1 && t.c.class2 == (s.c.class1 && s.c.class2)
            && t.c.parameters == s.c.parameters
  {
    hide DataRequests;
  }

  /** The answer is handed to the application; the next demand is the one it carries. */
  lemma AnswerEndsPoll(s: Session, now: nat)
    requires PollingRepeated(s) && |s.toMaster| == 1 && !s.c.test && !s.c.hasMessage && !s.c.class1
    requires s.slave.stored != [] || s.received == s.taken
    ensures var t, r := Step(s, MasterReceives(now)), s.toMaster[0];
            && ReadyToPoll(t) && t.slave == s.slave && t.taken == s.taken && t.sent == s.sent
            && t.received == s.received + (if r.fc == RESP_USER_DATA then [r.data] else [])
            && t.c.class1 == r.acd && t.c.class2 == (s.c.class2 && r.fc != RESP_USER_DATA)
            && t.c.parameters == s.c.parameters
  {
    hide RunConnection, HandleRequest;
  }

  /** One undisturbed poll: the master receives exactly the data of the class it asked for, and from then on class 1 is
      asked for exactly if the slave demands it. */
  lemma PollExchange(s: Session, now: nat, supply: Supply)
    requires ReadyToPoll(s) && (s.c.class1 || s.c.class2)
    requires Answerable(s.slave, Polled(supply, s.c.class1))
    ensures var t, data := Delivery(s, now, supply), Polled(supply, s.c.class1);
            && ReadyToPoll(t) && t.received == s.received + AsSeq(data) && t.taken == s.taken + AsSeq(data)
            && t.sent == s.sent && t.c.class1 == supply.accessDemand
            && t.c.class2 == (data.None? && s.c.class1 && s.c.class2)
            && t.slave.addressLength == s.slave.addressLength
  {
    hide RunConnection, HandleRequest, HandleResponse;
    var s1 := Step(s, MasterRuns(now));
    PollBegins(s, now);
    PollTakesItsClass(s1, supply, s.c.class1);
    PollStores(s1, supply, s.c.class1);
    hide Step, PollingNew, PollingRepeated;
    AnswerEndsPoll(Step(s1, SlaveReceives(supply)), now);
  }

  lemma PollStores(s: Session, supply: Supply, class1: bool)
    requires PollingNew(s) && s.toSlave == [PollRequest(class1, !s.c.nextFcb)]
    requires Answerable(s.slave, Polled(supply, class1))
    ensures var t := Step(s, SlaveReceives(supply));
            && PollingRepeated(t) && t.received == s.received && t.sent == s.sent
            && (t.slave.stored != [] <==> Polled(supply, class1).Some?)
            && t.slave.addressLength == s.slave.addressLength
  {
    hide RunConnection, HandleResponse;
    assert PollingRepeated(Step(s, SlaveReceives(supply)));
  }

  function Polls(s: Session, now: nat, supplies: seq<Supply>): Session {
    if supplies == [] then s else Delivery(Polls(s, now, supplies[..|supplies| - 1]), now, supplies[|supplies| - 1])
  }

  function Class1Data(supplies: seq<Supply>): seq<seq<byte>> {
    if supplies == [] then [] else Class1Data(supplies[..|supplies| - 1]) + AsSeq(supplies[|supplies| - 1].class1)
  }

  /** As long as the slave demands access the master fetches its class 1 data, all of it and in order; the demand ends with
      the first answer that carries none. */
  lemma {:induction false} DemandIsServed(s: Session, now: nat, supplies: seq<Supply>)
    requires ReadyToPoll(s) && s.c.class1
    requires forall i | 0 <= i < |supplies| :: Answerable(s.slave, supplies[i].class1)
    requires forall i | 0 <= i < |supplies| - 1 :: supplies[i].accessDemand
    ensures var t := Polls(s, now, supplies);
            && ReadyToPoll(t) && t.received == s.received + Class1Data(supplies) && t.slave.addressLength == s.slave.addressLength
            && t.c.class1 == (supplies == [] || supplies[|supplies| - 1].accessDemand)
  {
    hide ReadyToPoll, Delivery, Ft12.FitsVariable;
    if supplies == [] {
      assert s.received + [] == s.received;
    } else {
      var front := supplies[..|supplies| - 1];
      DemandIsServed(s, now, front);
      PollExchange(Polls(s, now, front), now, supplies[|supplies| - 1]);
    }
  }

  /** Whatever the state, an access demand makes the next run of an available connection poll class 1, unless a link test or
      a message goes first. */
  lemma DemandIsRemembered(c: Connection, r: Response, now: nat, later: nat)
    requires r.acd && !r.dfc
    ensures var d := HandleResponse(c, r, now).c;
            && d.class1
            && (d.state == Available && !d.test && !d.hasMessage ==>
                  RunConnection(d, later).1 == [PollRequest(true, d.nextFcb)])
  {
    hide HandleService;
  }

  // ---------------------------------------------------------------- repetition

  /** The service begins, its request or its reply is lost, and the master repeats it in time. */
  function BehindLoss(s: Session, sendTime: nat, repeatTime: nat, replyLost: bool, supply: Supply): Session {
    var begun := Step(s, MasterRuns(sendTime));
    var lost := if replyLost then Step(Step(begun, SlaveReceives(supply)), Lost) else Step(begun, Lost);
    Step(Step(Step(lost, MasterRuns(repeatTime)), SlaveReceives(supply)), MasterReceives(repeatTime))
  }

  predicate RepeatedInTime(c: Connection, sendTime: nat, repeatTime: nat) {
    sendTime + c.parameters.timeoutForAck < repeatTime <= sendTime + c.parameters.timeoutRepeat
  }

  lemma MessageBegins(s: Session, now: nat)
    requires Settled(s) && !s.c.test && s.c.hasMessage && s.c.message != []
    requires Ft12.FitsVariable(s.c.parameters.addressLength, s.c.message)
    ensures var t := Step(s, MasterRuns(now));
            && SendingNew(t) && t.toSlave == [Request(USER_DATA_CONFIRMED, !t.c.nextFcb, true, t.c.message)]
            && t.c == s.c.(nextFcb := !s.c.nextFcb, lastSend := now, originalSend := now, waiting := true, state := SendConfirm)
            && t.sent == s.sent + [s.c.message] && t.received == s.received && t.taken == s.taken && t.slave == s.slave
  {
    hide HandleRequest, HandleResponse;
  }

  lemma MessageRepeated(s: Session, now: nat)
    requires Sending(s) && NothingUnderWay(s) && !s.c.test && AckOverdue(s.c, now) && !RepeatOver(s.c, now)
    requires s.c.lastSend <= now && Ft12.FitsVariable(s.c.parameters.addressLength, s.c.message)
    ensures Step(s, MasterRuns(now))
            == s.(c := s.c.(lastSend := now), toSlave := [Request(USER_DATA_CONFIRMED, !s.c.nextFcb, true, s.c.message)])
  {
    hide HandleRequest, HandleResponse, RunAvailable;
  }

  lemma MessageArrives(s: Session, supply: Supply)
    requires Sending(s) && !s.c.test && s.c.message != [] && (SendingNew(s) || SendingRepeated(s))
    requires s.toSlave == [Request(USER_DATA_CONFIRMED, !s.c.nextFcb, true, s.c.message)]
    ensures var t := Step(s, SlaveReceives(supply));
            && SendingRepeated(t) && |t.toMaster| == 1 && t.c == s.c && t.sent == s.sent
  {
    hide RunConnection, HandleResponse, Poll;
    assert SendingRepeated(Step(s, SlaveReceives(supply)));
  }

  lemma MessageAcknowledged(s: Session, now: nat)
    requires SendingRepeated(s) && |s.toMaster| == 1 && !s.c.test
    ensures var t := Step(s, MasterReceives(now));
            Settled(t) && !t.c.hasMessage && t.delivered == t.sent == s.sent
  {
    hide RunConnection, HandleRequest;
    assert Settled(Step(s, MasterReceives(now)));
  }

  /** A message whose request or acknowledgement is lost once is repeated in time, delivered once and confirmed. */
  lemma LostMessageRepeated(s: Session, sendTime: nat, repeatTime: nat, replyLost: bool, supply: Supply)
    requires Settled(s) && !s.c.test && s.c.hasMessage && s.c.message != []
    requires Ft12.FitsVariable(s.c.parameters.addressLength, s.c.message) && RepeatedInTime(s.c, sendTime, repeatTime)
    ensures var t := BehindLoss(s, sendTime, repeatTime, replyLost, supply);
            && Settled(t) && !t.c.hasMessage
            && t.sent == s.sent + [s.c.message] && t.delivered == s.delivered + [s.c.message]
  {
    var begun := Step(s, MasterRuns(sendTime));
    MessageBegins(s, sendTime);
    if replyLost { MessageArrives(begun, supply); }
    var reached := if replyLost then Step(begun, SlaveReceives(supply)) else begun;
    LossEmpties(reached);
    var lost := Step(reached, Lost);
    assert s.delivered == s.sent;
    hide Step;
    MessageRepeated(lost, repeatTime);
    var again := Step(lost, MasterRuns(repeatTime));
    assert SendingNew(again) || SendingRepeated(again);
    MessageArrives(again, supply);
    MessageAcknowledged(Step(again, SlaveReceives(supply)), repeatTime);
  }

  lemma LossEmpties(s: Session)
    ensures Step(s, Lost) == s.(toSlave := [], toMaster := [])
  {
  }

  /** A poll repeated in time ends with the data received: the stored answer if only the answer was lost, and otherwise data
      of the class of the repetition, which is class 2. */
  lemma LostPollRepeated(s: Session, sendTime: nat, repeatTime: nat, replyLost: bool, supply: Supply)
    requires ReadyToPoll(s) && (s.c.class1 || s.c.class2) && RepeatedInTime(s.c, sendTime, repeatTime)
    requires Answerable(s.slave, supply.class1) && Answerable(s.slave, supply.class2)
    ensures var t := BehindLoss(s, sendTime, repeatTime, replyLost, supply);
            var data := Polled(supply, replyLost && s.c.class1);
            && ReadyToPoll(t) && t.received == s.received + AsSeq(data) && t.taken == s.taken + AsSeq(data)
  {
    var begun := Step(s, MasterRuns(sendTime));
    PollBegins(s, sendTime);
    PollTimes(s, sendTime);
    hide Step, Ft12.FitsVariable, ReadyToPoll, PollingNew, PollingRepeated;
    if replyLost {
      AnswerLost(begun, repeatTime, supply, s.c.class1);
    } else {
      PollLost(begun, repeatTime, supply);
    }
  }

  predicate Overdue(s: Session, now: nat) {
    !s.c.test && !s.c.hasMessage && !s.c.class1 && AckOverdue(s.c, now) && !RepeatOver(s.c, now) && s.c.lastSend <= now
  }

  lemma AnswerLost(s: Session, now: nat, supply: Supply, class1: bool)
    requires PollingNew(s) && s.toSlave == [PollRequest(class1, !s.c.nextFcb)] && Overdue(s, now)
    requires Answerable(s.slave, Polled(supply, class1))
    ensures var again := Step(Step(Step(s, SlaveReceives(supply)), Lost), MasterRuns(now));
            var t := Step(Step(again, SlaveReceives(supply)), MasterReceives(now));
            && ReadyToPoll(t) && t.received == s.received + AsSeq(Polled(supply, class1))
            && t.taken == s.taken + AsSeq(Polled(supply, class1))
  {
    PollTakesItsClass(s, supply, class1);
    PollStores(s, supply, class1);
    StoredFits(s, supply, class1);
    var reached := Step(s, SlaveReceives(supply));
    LossEmpties(reached);
    var lost := Step(reached, Lost);
    hide Step, Ft12.FitsVariable;
    PollAgain(lost, now);
    var again := Step(lost, MasterRuns(now));
    RepeatedPollAnswered(again, supply, false);
    StillRepeated(again, supply);
    AnswerEndsPoll(Step(again, SlaveReceives(supply)), now);
  }

  lemma PollLost(s: Session, now: nat, supply: Supply)
    requires PollingNew(s) && Overdue(s, now) && Answerable(s.slave, supply.class2)
    ensures var again := Step(Step(s, Lost), MasterRuns(now));
            var t := Step(Step(again, SlaveReceives(supply)), MasterReceives(now));
            && ReadyToPoll(t) && t.received == s.received + AsSeq(supply.class2)
            && t.taken == s.taken + AsSeq(supply.class2)
  {
    LossEmpties(s);
    var lost := Step(s, Lost);
    hide Step, Ft12.FitsVariable;
    PollAgain(lost, now);
    var again := Step(lost, MasterRuns(now));
    PollTakesItsClass(again, supply, false);
    PollStores(again, supply, false);
    AnswerEndsPoll(Step(again, SlaveReceives(supply)), now);
  }

  lemma PollTimes(s: Session, now: nat)
    requires ReadyToPoll(s) && (s.c.class1 || s.c.class2)
    ensures var c := Step(s, MasterRuns(now)).c; c.lastSend == now && c.originalSend == now
  {
    hide DataRequests;
  }

  lemma StoredFits(s: Session, supply: Supply, class1: bool)
    requires PollingNew(s) && s.toSlave == [PollRequest(class1, !s.c.nextFcb)]
    requires Answerable(s.slave, Polled(supply, class1))
    ensures var slave := Step(s, SlaveReceives(supply)).slave;
            && slave.stored == (if Polled(supply, class1).Some? then Polled(supply, class1).value else [])
            && (slave.stored != [] ==> Ft12.FitsVariable(slave.addressLength, slave.stored))
  {
    hide RunConnection, HandleResponse;
  }

  lemma PollAgain(s: Session, now: nat)
    requires Polling(s) && NothingUnderWay(s) && !s.c.test && !s.c.class1
    requires AckOverdue(s.c, now) && !RepeatOver(s.c, now) && s.c.lastSend <= now
    ensures Step(s, MasterRuns(now)) == s.(c := s.c.(lastSend := now), toSlave := [PollRequest(false, !s.c.nextFcb)])
  {
    hide HandleRequest, HandleResponse, RunAvailable;
  }

  lemma StillRepeated(s: Session, supply: Supply)
    requires PollingRepeated(s) && s.toSlave == [PollRequest(false, !s.c.nextFcb)]
    ensures var t := Step(s, SlaveReceives(supply));
            PollingRepeated(t) && t.c == s.c && t.received == s.received && t.sent == s.sent
  {
    hide RunConnection, HandleResponse;
    assert PollingRepeated(Step(s, SlaveReceives(supply)));
  }

  // ---------------------------------------------------------------- what else a slave answers

  /** The slave did nothing but answer. */
  predicate OnlyAnswers(s: Session, t: Session, responses: seq<Response>)
    requires s.toSlave != []
  {
    t == s.(toSlave := s.toSlave[1..], toMaster := s.toMaster + responses)
  }

  /** Either reset, without a frame count bit, is acknowledged and makes the slave expect true; with one it is ignored. */
  lemma ResetAnswered(s: Session, r: Request, supply: Supply)
    requires s.toSlave != [] && s.toSlave[0] == r && r.fc in {RESET_REMOTE_LINK, RESET_FCB}
    ensures var t := Step(s, SlaveReceives(supply));
            if r.fcv || r.fcb then OnlyAnswers(s, t, [])
            else OnlyAnswers(s.(slave := t.slave), t, [Plain(ACK)]) && t.slave == s.slave.(expectedFcb := true)
  {
    hide RunConnection, HandleResponse, Poll;
    NoData(s);
    assert s.toMaster + [] == s.toMaster;
  }

  /** The status of the link carries the access demand; link tests and unknown services are refused. */
  lemma OthersAnswered(s: Session, r: Request, supply: Supply)
    requires s.toSlave != [] && s.toSlave[0] == r
    requires r.fc !in {RESET_REMOTE_LINK, RESET_FCB, USER_DATA_CONFIRMED, USER_DATA_NO_REPLY, REQUEST_CLASS_1, REQUEST_CLASS_2}
    ensures OnlyAnswers(s, Step(s, SlaveReceives(supply)),
                        if r.fc != REQUEST_LINK_STATUS then [Plain(NOT_IMPLEMENTED)]
                        else if r.fcv then [] else [Response(STATUS_OF_LINK, supply.accessDemand, false, [])])
  {
    hide RunConnection, HandleResponse, Poll;
    NoData(s);
    assert s.toMaster + [] == s.toMaster;
  }

  /** User data without reply is delivered and never answered; it must not carry a frame count bit. */
  lemma NoReplyDelivered(s: Session, data: seq<byte>, fcb: bool, fcv: bool, supply: Supply)
    requires s.toSlave != [] && s.toSlave[0] == Request(USER_DATA_NO_REPLY, fcb, fcv, data) && data != []
    ensures Step(s, SlaveReceives(supply))
            == s.(toSlave := s.toSlave[1..], delivered := s.delivered + if fcv then [] else [data])
  {
    hide RunConnection, HandleResponse, Poll;
    NoData(s);
    assert s.toMaster + [] == s.toMaster;
  }

  /** Data and polls without a valid frame count bit are new every time and leave the expected bit alone. */
  lemma UncountedIsNew(slave: Slave, r: Request, supply: Supply)
    requires !r.fcv
    ensures var o := HandleRequest(slave, r, supply);
            && (r.fc == USER_DATA_CONFIRMED ==>
                  && o.slave == slave && o.taken == [] && o.delivered == (if r.data != [] then [r.data] else [])
                  && |o.responses| == 1 && o.responses[0].fc == ACK && o.responses[0].acd == supply.accessDemand)
            && (r.fc == REQUEST_CLASS_1 ==> o.taken == AsSeq(supply.class1) && o.slave.expectedFcb == slave.expectedFcb)
            && (r.fc == REQUEST_CLASS_2 ==> o.taken == AsSeq(supply.class2) && o.slave.expectedFcb == slave.expectedFcb)
  {
  }

  /** A broadcast: the octets the master writes reach the handler of every slave, whatever its address, and its application
      gets the data; no slave answers or changes its state. */
  lemma BroadcastDelivered(n: nat, own: nat, data: seq<byte>, buffer: seq<byte>, slave: Slave, supply: Supply)
    requires 1 <= n <= 2 && data != [] && Ft12.FitsVariable(n, data)
    requires var f := RequestFrame(Request(USER_DATA_NO_REPLY, false, false, data), Ft12.BroadcastAddress(n), false);
             Ft12.Encodable(n, f) && Ft12.Holds(buffer, Ft12.Encode(n, f))
    ensures var f := RequestFrame(Request(USER_DATA_NO_REPLY, false, false, data), Ft12.BroadcastAddress(n), false);
            var r := Ft12.ParseSecondary(n, own, buffer, |Ft12.Encode(n, f)|);
            && r.ToHandler? && r.isBroadcast && r.reading.length == |data|
            && 0 <= r.reading.start <= r.reading.start + |data| <= |buffer|
            && HandleRequest(slave, RequestOf(r.reading, buffer), supply) == SlaveOutcome(slave, [data], [], [])
  {
    var q := Request(USER_DATA_NO_REPLY, false, false, data);
    var f := RequestFrame(q, Ft12.BroadcastAddress(n), false);
    hide Ft12.Encodable, Ft12.Encode, Ft12.Holds, Ft12.ParseSecondary, Ft12.ControlOf;
    Ft12.SecondaryAccepts(n, own, f, buffer);
    hide HandleRequest;
    var reading := Ft12.ParseSecondary(n, own, buffer, |Ft12.Encode(n, f)|).reading;
    assert RequestOf(reading, buffer) == q;
    DataWithoutReply(slave, q, supply);
  }

  lemma DataWithoutReply(slave: Slave, r: Request, supply: Supply)
    requires r.fc == USER_DATA_NO_REPLY && !r.fcv && r.data != []
    ensures HandleRequest(slave, r, supply) == SlaveOutcome(slave, [r.data], [], [])
  {
  }

  // ---------------------------------------------------------------- what a response does to the connection

  /** What matters of a connection besides its times. */
  predicate Now(c: Connection, state: PrimaryState, waiting: bool, test: bool, hasMessage: bool, nextFcb: bool) {
    c.state == state && c.waiting == waiting && c.test == test && c.hasMessage == hasMessage && c.nextFcb == nextFcb
  }

  lemma AckFields(c: Connection)
    ensures var sending := c.state == SendConfirm;
            Now(Acknowledged(c), if c.state in {ResetRemote, SendConfirm, RequestRespond} then Available else c.state, false,
                c.test && !sending, c.hasMessage && (!sending || c.test), c.nextFcb)
  {
  }

  lemma AnswerFields(c: Connection, r: Response)
    ensures var o := Answered(c, r);
            && Now(o.c, if c.state == RequestRespond then Available else Idle, false, c.test, c.hasMessage, c.nextFcb)
            && o.received == (if c.state == RequestRespond && r.fc == RESP_USER_DATA then [r.data] else [])
            && o.requests == []
  {
  }

  lemma ByCode(c: Connection, r: Response, now: nat)
    ensures var o := HandleService(c, r, now);
            && (r.fc == ACK ==> o == ConnectionOutcome(Acknowledged(c), [], []))
            && (r.fc in {RESP_USER_DATA, RESP_NO_DATA} ==> o == Answered(c, r))
            && (r.fc !in {ACK, RESP_USER_DATA, RESP_NO_DATA} ==> o.received == [])
            && (r.fc == STATUS_OF_LINK ==>
                  Now(o.c, if c.state == RequestStatus then ResetRemote else Idle, c.waiting || c.state == RequestStatus,
                      c.test, c.hasMessage, c.nextFcb)
                  && o.requests == if c.state == RequestStatus then [Request(RESET_REMOTE_LINK, false, false, [])] else [])
            && (r.fc !in {ACK, RESP_USER_DATA, RESP_NO_DATA, STATUS_OF_LINK} ==>
                  Now(o.c, if c.state != SendConfirm then c.state else if r.fc == NACK then Busy
                           else if r.fc in {NOT_FUNCTIONING, NOT_IMPLEMENTED} then Available else SendConfirm,
                      false, c.test, c.hasMessage, c.nextFcb)
                  && o.requests == [])
  {
    hide Acknowledged, Answered;
  }

  /** The whole reaction of a connection to a response, by its function code. */
  lemma ResponseByCode(c: Connection, r: Response, now: nat)
    ensures var o := HandleResponse(c, r, now);
            var setUp, sending, polling := c.state == RequestStatus, c.state == SendConfirm, c.state == RequestRespond;
            && (r.dfc ==>
                  Now(o.c, if c.state == ResetRemote then RequestStatus else if sending then Busy else c.state,
                      c.waiting, c.test, c.hasMessage, c.nextFcb)
                  && o.received == [] && o.requests == [])
            && (!r.dfc && r.fc == ACK ==>
                  Now(o.c, if c.state in {ResetRemote, SendConfirm, RequestRespond} then Available else c.state, false,
                      c.test && !sending, c.hasMessage && (!sending || c.test), c.nextFcb)
                  && o.received == [] && o.requests == [])
            && (!r.dfc && r.fc in {RESP_USER_DATA, RESP_NO_DATA} ==>
                  Now(o.c, if polling then Available else Idle, false, c.test, c.hasMessage, c.nextFcb)
                  && o.received == (if polling && r.fc == RESP_USER_DATA then [r.data] else []) && o.requests == [])
            && (!r.dfc && r.fc == STATUS_OF_LINK ==>
                  Now(o.c, if setUp then ResetRemote else Idle, c.waiting || setUp, c.test, c.hasMessage, c.nextFcb)
                  && o.received == [] && o.requests == if setUp then [Request(RESET_REMOTE_LINK, false, false, [])] else [])
            && (!r.dfc && r.fc !in {ACK, RESP_USER_DATA, RESP_NO_DATA, STATUS_OF_LINK} ==>
                  Now(o.c, if !sending then c.state else if r.fc == NACK then Busy
                           else if r.fc in {NOT_FUNCTIONING, NOT_IMPLEMENTED} then Available else SendConfirm,
                      false, c.test, c.hasMessage, c.nextFcb)
                  && o.received == [] && o.requests == [])
  {
    var d := Demanded(c, r.acd);
    ByCode(d, r, now);
    AckFields(d);
    AnswerFields(d, r);
    hide HandleService, Acknowledged, Answered;
  }

  /** While a message awaits confirmation: only ACK confirms it; DFC and NACK make the connection BUSY, data and status
      responses end the session, and a refusal gives the message up for now. */
  lemma ResponseToMessage(c: Connection, r: Response, now: nat)
    requires c.state == SendConfirm
    ensures var o := HandleResponse(c, r, now);
            && (o.c.state == Available <==> !r.dfc && r.fc in {ACK, NOT_FUNCTIONING, NOT_IMPLEMENTED})
            && (o.c.state == Busy <==> r.dfc || r.fc == NACK)
            && (o.c.state == Idle <==> !r.dfc && r.fc in {RESP_USER_DATA, RESP_NO_DATA, STATUS_OF_LINK})
            && (o.c.hasMessage <==> c.hasMessage && (r.dfc || r.fc != ACK || c.test))
            && (o.c.test <==> c.test && (r.dfc || r.fc != ACK))
            && (o.c.waiting <==> c.waiting && (r.dfc || r.fc == STATUS_OF_LINK))
            && o.received == [] && o.requests == [] && o.c.nextFcb == c.nextFcb
  {
    ResponseByCode(c, r, now);
    hide HandleResponse;
  }

  /** While a poll awaits its answer: only user data is received; ACK and "no data" end the poll as well. */
  lemma ResponseToPoll(c: Connection, r: Response, now: nat)
    requires c.state == RequestRespond
    ensures var o := HandleResponse(c, r, now);
            && o.received == (if !r.dfc && r.fc == RESP_USER_DATA then [r.data] else [])
            && (o.c.state == Available <==> !r.dfc && r.fc in {ACK, RESP_USER_DATA, RESP_NO_DATA})
            && (o.c.state == Idle <==> !r.dfc && r.fc == STATUS_OF_LINK)
            && o.c.state in {Available, Idle, RequestRespond}
            && (o.c.waiting <==> c.waiting && (r.dfc || r.fc == STATUS_OF_LINK))
            && o.requests == [] && o.c.hasMessage == c.hasMessage && o.c.test == c.test && o.c.nextFcb == c.nextFcb
  {
    ResponseByCode(c, r, now);
    hide HandleResponse;
  }

  /** During the set-up: the status leads to the reset, its acknowledgement to an available link, DFC back to the status
      request, and data responses to a new beginning. */
  lemma ResponseToSetUp(c: Connection, r: Response, now: nat)
    requires c.state in {RequestStatus, ResetRemote}
    ensures var o := HandleResponse(c, r, now);
            && (o.c.state == ResetRemote <==>
                  if c.state == RequestStatus then !r.dfc && r.fc == STATUS_OF_LINK
                  else !r.dfc && r.fc !in {ACK, RESP_USER_DATA, RESP_NO_DATA, STATUS_OF_LINK})
            && (o.c.state == Available <==> c.state == ResetRemote && !r.dfc && r.fc == ACK)
            && (o.c.state == Idle <==>
                  && !r.dfc
                  && (r.fc in {RESP_USER_DATA, RESP_NO_DATA} || (c.state == ResetRemote && r.fc == STATUS_OF_LINK)))
            && o.c.state in {RequestStatus, ResetRemote, Available, Idle}
            && o.requests == (if c.state == RequestStatus && !r.dfc && r.fc == STATUS_OF_LINK
                              then [Request(RESET_REMOTE_LINK, false, false, [])] else [])
            && o.received == [] && o.c.nextFcb == c.nextFcb && o.c.hasMessage == c.hasMessage
  {
    ResponseByCode(c, r, now);
    hide HandleResponse;
  }

  /** Without a service under way nothing is received or confirmed, and only a response that cannot be an
      acknowledgement ends the session. */
  lemma ResponseOutOfTurn(c: Connection, r: Response, now: nat)
    requires c.state in {Available, Busy, Idle, TimedOut}
    ensures var o := HandleResponse(c, r, now);
            && o.c.state == (if !r.dfc && r.fc in {RESP_USER_DATA, RESP_NO_DATA, STATUS_OF_LINK} then Idle else c.state)
            && o.received == [] && o.requests == [] && o.c.hasMessage == c.hasMessage && o.c.nextFcb == c.nextFcb
  {
    ResponseByCode(c, r, now);
    hide HandleResponse;
  }

  // ---------------------------------------------------------------- no earlier than the timeouts

  /** Before its timeout a waiting connection writes nothing and stays as it is. */
  lemma WaitsForTimeout(c: Connection, now: nat)
    requires c.lastSend <= now
    requires if c.state == TimedOut then now <= c.lastSend + c.parameters.timeoutLinkState
             else c.waiting && c.state in {RequestStatus, ResetRemote, SendConfirm, RequestRespond} && !AckOverdue(c, now)
    ensures RunConnection(c, now) == (c, [])
  {
  }

  /** A clock that was set back restarts the timeout. */
  lemma ClockSetBack(c: Connection, now: nat)
    requires c.lastSend > now
    requires c.state == TimedOut || (c.waiting && c.state in {RequestStatus, ResetRemote, SendConfirm, RequestRespond})
    ensures RunConnection(c, now) == (c.(lastSend := now), [])
  {
  }

  /** A set-up that waits for nothing goes on by itself: with the reset, and then with a true frame count bit, or to the
      available link. A set-up begins with the status request, and forgets a link test. */
  lemma SetUpGoesOn(c: Connection, now: nat)
    requires c.state == Idle || (c.state in {RequestStatus, ResetRemote} && !c.waiting)
    ensures RunConnection(c, now)
            == match c.state
               case Idle => (c.(originalSend := 0, test := false, lastSend := now, waiting := true, state := RequestStatus),
                             [Request(REQUEST_LINK_STATUS, false, false, [])])
               case RequestStatus => (c.(lastSend := now, waiting := true, nextFcb := true, state := ResetRemote),
                                      [Request(RESET_REMOTE_LINK, false, false, [])])
               case _ => (c.(state := Available), [])
  {
  }

  /** Behind it the set-up is given up for a while, and a service is repeated until its repetitions are over. */
  lemma TimeoutActs(c: Connection, now: nat)
    requires c.waiting && c.lastSend <= now && AckOverdue(c, now)
    ensures var (d, out) := RunConnection(c, now);
            && (c.state in {RequestStatus, ResetRemote} ==>
                  d == c.(waiting := false, lastSend := now, state := TimedOut) && out == [])
            && (c.state == SendConfirm && RepeatOver(c, now) ==>
                  d == c.(waiting := false, lastSend := now, state := TimedOut) && out == [])
            && (c.state == SendConfirm && !RepeatOver(c, now) ==>
                  d == c.(lastSend := now)
                  && out == if c.test then [TestRequest(!c.nextFcb)]
                            else DataRequests(c.parameters.addressLength, !c.nextFcb, c.message))
            && (c.state == RequestRespond && RepeatOver(c, now) ==>
                  d == c.(class1 := false, class2 := false, state := Idle) && out == [])
            && (c.state == RequestRespond && !RepeatOver(c, now) ==>
                  d == c.(lastSend := now) && out == [PollRequest(c.class1, !c.nextFcb)])
  {
    hide DataRequests;
  }

  /** A link test is sent before anything else and refused by a slave of this library; the connection goes on waiting in its
      request state, with the test still asked for. */
  lemma LinkTestRefused(s: Session, now: nat, supply: Supply)
    requires s.c.state == Available && s.c.test && NothingUnderWay(s)
    ensures var t := Delivery(s, now, supply);
            && t.c == s.c.(nextFcb := !s.c.nextFcb, lastSend := now, originalSend := now, state := RequestRespond,
                           waiting := false)
            && t.slave == s.slave && NothingUnderWay(t) && t.received == s.received && t.delivered == s.delivered
  {
    var test := TestRequest(s.c.nextFcb);
    var s1 := Step(s, MasterRuns(now));
    assert s1.toSlave == [test];
    hide RunConnection;
    OthersAnswered(s1, test, supply);
    var s2 := Step(s1, SlaveReceives(supply));
    assert s2.toMaster == [Plain(NOT_IMPLEMENTED)];
    hide HandleRequest;
  }
}
