// The services of the balanced link layer (link_layer.c) from end to end: the set-up of the link, the first message, link
// tests, the repetition behind a loss, and what every request and response does.
module LinkBalancedService {
  import opened Bytes
  import Ft12
  import opened LinkBalanced
  import opened LinkFrames
  import opened Wrappers

  predicate NothingUnderWay(s: Session) { s.toSecondary == [] && s.toPrimary == [] }

  lemma NoData(s: Session)
    ensures s.delivered + [] == s.delivered && s.toPrimary + [] == s.toPrimary && s.toSecondary + [] == s.toSecondary
  {
  }

  // ---------------------------------------------------------------- setting up the link

  /** A run, and both ends read what is under way twice: status of the link and reset. */
  function SetUp(s: Session, now: nat, supply: Option<seq<byte>>, accepts: bool): Session {
    var asked := Step(s, PrimaryRuns(now, supply));
    var answered := Step(Step(asked, SecondaryReceives(accepts)), PrimaryReceives(now));
    Step(Step(answered, SecondaryReceives(accepts)), PrimaryReceives(now))
  }

  lemma StatusAsked(s: Session, now: nat, supply: Option<seq<byte>>, accepts: bool)
    requires s.primary.state == Idle && NothingUnderWay(s)
    ensures var p := s.primary.(state := RequestStatus, originalSend := 0, test := false, lastSend := now, waiting := true);
            Step(Step(s, PrimaryRuns(now, supply)), SecondaryReceives(accepts))
            == s.(primary := p, clock := now, toPrimary := [Plain(STATUS_OF_LINK)])
  {
    hide RunAvailable, RunSendConfirm, Receive;
    NoData(s);
    var p := s.primary.(state := RequestStatus, originalSend := 0, test := false, lastSend := now, waiting := true);
    var s1 := s.(primary := p, clock := now, toSecondary := [Request(REQUEST_LINK_STATUS, false, false, [])]);
    assert Step(s, PrimaryRuns(now, supply)) == s1;
  }

  lemma ResetAsked(s: Session, now: nat, accepts: bool)
    requires s.primary.state == RequestStatus && s.toPrimary == [Plain(STATUS_OF_LINK)] && s.toSecondary == []
    ensures var p := s.primary.(lastReceived := now, state := ResetRemote, lastSend := now, waiting := true);
            Step(Step(s, PrimaryReceives(now)), SecondaryReceives(accepts))
            == s.(primary := p, clock := now, expectedFcb := true, toPrimary := [Plain(ACK)])
  {
    hide Run;
    NoData(s);
    var p := s.primary.(lastReceived := now, state := ResetRemote, lastSend := now, waiting := true);
    var s1 := s.(primary := p, clock := now, toPrimary := [], toSecondary := [Request(RESET_REMOTE_LINK, false, false, [])]);
    assert Step(s, PrimaryReceives(now)) == s1;
  }

  /** From an idle primary with nothing under way, the set-up makes the link available; it makes the secondary's frame count
      bit true and leaves the primary's as it is, and nothing is delivered or confirmed. */
  lemma SetUpKeepsPrimarysBit(s: Session, now: nat, supply: Option<seq<byte>>, accepts: bool)
    requires s.primary.state == Idle && NothingUnderWay(s)
    ensures var t := SetUp(s, now, supply, accepts);
            && t.primary == s.primary.(state := Available, waiting := false, test := false, originalSend := 0,
                                       lastSend := now, lastReceived := now)
            && t == s.(primary := t.primary, expectedFcb := true, clock := now)
  {
    hide Step;
    StatusAsked(s, now, supply, accepts);
    var p := s.primary.(state := RequestStatus, originalSend := 0, test := false, lastSend := now, waiting := true);
    var s2 := s.(primary := p, clock := now, toPrimary := [Plain(STATUS_OF_LINK)]);
    ResetAsked(s2, now, accepts);
    var q := p.(lastReceived := now, state := ResetRemote);
    ResetConfirmed(s2.(primary := q, expectedFcb := true, toPrimary := [Plain(ACK)]), now);
  }

  lemma ResetConfirmed(s: Session, now: nat)
    requires s.primary.state == ResetRemote && s.toPrimary == [Plain(ACK)] && s.toSecondary == []
    ensures Step(s, PrimaryReceives(now))
            == s.(primary := s.primary.(lastReceived := now, state := Available, waiting := false), toPrimary := [], clock := now)
  {
    hide Run;
    NoData(s);
  }

  /** What happened on the link so far is set aside. */
  function Cleared(s: Session): Session { s.(sent := [], delivered := [], confirmed := 0) }

  /** So a session begins with agreeing bits exactly if the primary's bit is true, and with disagreeing ones otherwise. */
  lemma SessionBegins(s: Session, now: nat, supply: Option<seq<byte>>, accepts: bool)
    requires s.primary.state == Idle && NothingUnderWay(s)
    ensures var t := Cleared(SetUp(s, now, supply, accepts));
            && (Starts(t) <==> s.primary.nextFcb) && (StartsDisagreeing(t) <==> !s.primary.nextFcb)
  {
    hide SetUp;
    SetUpKeepsPrimarysBit(s, now, supply, accepts);
  }

  /** A primary as it is created, and any secondary. */
  function NewPrimary(parameters: Parameters, idleTimeout: nat): Primary {
    Primary(Idle, parameters, idleTimeout, false, 0, 0, 0, false, true, [])
  }

  function NewSession(parameters: Parameters, idleTimeout: nat, expectedFcb: bool): Session {
    Session(NewPrimary(parameters, idleTimeout), expectedFcb, [], [], 0, [], false, 0, [])
  }

  /** One message: taken from the application, received and acknowledged. */
  function Exchange(s: Session, now: nat, asdu: seq<byte>): Session {
    Step(Step(Step(s, PrimaryRuns(now, Some(asdu))), SecondaryReceives(true)), PrimaryReceives(now))
  }

  /** A new primary sets up its link, and its first message is delivered and confirmed, whatever bit the secondary had. */
  lemma FirstMessageArrives(parameters: Parameters, idleTimeout: nat, expectedFcb: bool, now: nat, asdu: seq<byte>)
    requires asdu != [] && Ft12.FitsVariable(parameters.addressLength, asdu)
    ensures var t := Exchange(SetUp(NewSession(parameters, idleTimeout, expectedFcb), now, None, true), now, asdu);
            && Settled(t) && NothingUnderWay(t) && t.delivered == [asdu] && t.confirmed == 1
  {
    hide SetUp, Step;
    var s := NewSession(parameters, idleTimeout, expectedFcb);
    SetUpKeepsPrimarysBit(s, now, None, true);
    LosslessExchange(SetUp(s, now, None, true), now, asdu);
  }

  /** Whatever is lost during the set-up, the primary gives it up after its timeout, not before, and begins again. */
  lemma SetUpIsRetried(p: Primary, now: nat, supply: Option<seq<byte>>)
    requires p.state in {RequestStatus, ResetRemote} && p.waiting && p.lastSend <= now
    ensures var (q, out) := Run(p, now, supply);
            && out == [] && q.nextFcb == p.nextFcb && q.asdu == p.asdu
            && if now <= p.lastSend + p.parameters.timeoutForAck then q == p
               else q.waiting == (p.state == RequestStatus) && q.state == Idle
                    && Run(q, now, supply).1 == [Request(REQUEST_LINK_STATUS, false, false, [])]
                    && Run(q, now, supply).0.state == RequestStatus && Run(q, now, supply).0.waiting
  {
    hide RunAvailable, RunSendConfirm;
  }

  /** A clock that was set back restarts the timeouts. */
  lemma ClockSetBack(p: Primary, now: nat, supply: Option<seq<byte>>)
    requires p.lastSend > now && (p.state == SendConfirm || (p.waiting && p.state in {RequestStatus, ResetRemote}))
    ensures Run(p, now, supply) == (p.(lastSend := now), [])
  {
    hide RunAvailable;
  }

  /** A set-up that waits for nothing goes on by itself: with the reset, or to the available link. */
  lemma SetUpGoesOn(p: Primary, now: nat, supply: Option<seq<byte>>)
    requires p.state in {RequestStatus, ResetRemote} && !p.waiting
    ensures Run(p, now, supply)
            == if p.state == RequestStatus then
                 (p.(lastSend := now, waiting := true, state := ResetRemote), [Request(RESET_REMOTE_LINK, false, false, [])])
               else (p.(state := Available), [])
  {
  }

  // ---------------------------------------------------------------- link tests

  /** An available link is tested exactly if the application asked for it or nothing was received for longer than the idle
      timeout; otherwise the next user data is taken, if there is any. */
  lemma WhatIsSentNext(p: Primary, now: nat, supply: Option<seq<byte>>)
    requires p.state == Available
    ensures var (q, out) := Run(p, now, supply);
            var tests := p.test || now > p.lastReceived + p.idleTimeout;
            && (q.state == SendConfirm <==> tests || supply.Some?)
            && (q.state == SendConfirm ==> q.nextFcb == !p.nextFcb && q.lastSend == now && q.originalSend == now)
            && (q.state != SendConfirm ==>
                  out == [] && q == p.(lastReceived := if p.lastReceived > now then now else p.lastReceived))
            && (tests ==> out == [Request(TEST_FUNCTION, p.nextFcb, true, [])] && q.test)
            && (!tests && supply.Some? ==>
                  && q.asdu == supply.value && !q.test && q.waiting
                  && out == if Ft12.FitsVariable(p.parameters.addressLength, supply.value)
                            then [Request(USER_DATA_CONFIRMED, p.nextFcb, true, supply.value)] else [])
  {
  }

  /** A test of an undisturbed link is answered, and ends with the link available, the bits agreeing and no test due. */
  lemma TestIsAnswered(s: Session, now: nat, supply: Option<seq<byte>>, accepts: bool)
    requires Settled(s) && NothingUnderWay(s)
    requires s.primary.test || now > s.primary.lastReceived + s.primary.idleTimeout
    ensures var t := Step(Step(Step(s, PrimaryRuns(now, supply)), SecondaryReceives(accepts)), PrimaryReceives(now));
            && Settled(t) && NothingUnderWay(t) && !t.primary.test && t.primary.lastReceived == now
            && t.sent == s.sent && t.confirmed == s.confirmed
  {
    hide DataRequests;
    NoData(s);
    var s1 := Step(s, PrimaryRuns(now, supply));
    assert s1.toSecondary == [TestRequest(s.expectedFcb)] && s1.primary.test && !s1.awaitsData;
    var s2 := Step(s1, SecondaryReceives(accepts));
    assert s2.toPrimary == [Plain(ACK)] && s2.toSecondary == [] && s2.delivered == s.delivered;
  }

  // ---------------------------------------------------------------- repetition

  predicate RepeatedInTime(p: Primary, sendTime: nat, repeatTime: nat) {
    sendTime + p.parameters.timeoutForAck < repeatTime <= sendTime + p.parameters.timeoutRepeat
  }

  /** The message or its acknowledgement is lost, and the primary repeats the message. */
  function BehindLoss(s: Session, asdu: seq<byte>, sendTime: nat, repeatTime: nat, ackLost: bool): Session {
    var begun := Step(s, PrimaryRuns(sendTime, Some(asdu)));
    var lost := if ackLost then Step(Step(begun, SecondaryReceives(true)), ResponseLost(0)) else Step(begun, RequestLost(0));
    Step(Step(lost, PrimaryRuns(repeatTime, None)), SecondaryReceives(true))
  }

  lemma MessageBegins(s: Session, now: nat, asdu: seq<byte>)
    requires Settled(s) && NothingUnderWay(s) && !s.primary.test && now <= s.primary.lastReceived + s.primary.idleTimeout
    requires Ft12.FitsVariable(s.primary.parameters.addressLength, asdu) && asdu != []
    ensures var t := Step(s, PrimaryRuns(now, Some(asdu)));
            && Unaccepted(t) && t.toSecondary == [Current(t)] && t.toPrimary == [] && t.awaitsData && !t.primary.test
            && t.sent == s.sent + [asdu] && t.expectedFcb == s.expectedFcb && t.primary.parameters == s.primary.parameters
            && t.primary.asdu == asdu && t.primary.lastSend == now && t.primary.originalSend == now
  {
  }

  lemma Repeats(s: Session, now: nat)
    requires s.primary.state == SendConfirm && s.awaitsData && !s.primary.test && NothingUnderWay(s)
    requires Ft12.FitsVariable(s.primary.parameters.addressLength, s.primary.asdu)
    requires s.primary.lastSend + s.primary.parameters.timeoutForAck < now
    requires now <= s.primary.originalSend + s.primary.parameters.timeoutRepeat
    ensures Step(s, PrimaryRuns(now, None))
            == s.(primary := s.primary.(lastSend := now), toSecondary := [Current(s)], clock := now)
  {
    hide RunAvailable;
  }

  /** A message lost once is delivered once by its repetition. If it was the acknowledgement that got lost, the secondary
      stays silent: it drops the repetition without acknowledging it again, so that the primary gives the message up
      although it was delivered. */
  lemma LostMessageRepeated(s: Session, asdu: seq<byte>, sendTime: nat, repeatTime: nat, ackLost: bool)
    requires Settled(s) && NothingUnderWay(s) && !s.primary.test
    requires sendTime <= s.primary.lastReceived + s.primary.idleTimeout && RepeatedInTime(s.primary, sendTime, repeatTime)
    requires Ft12.FitsVariable(s.primary.parameters.addressLength, asdu) && asdu != []
    ensures var t := BehindLoss(s, asdu, sendTime, repeatTime, ackLost);
            && t.delivered == s.delivered + [asdu] && t.toSecondary == [] && t.primary.state == SendConfirm
            && t.toPrimary == if ackLost then [] else [Plain(ACK)]
  {
    var begun := Step(s, PrimaryRuns(sendTime, Some(asdu)));
    MessageBegins(s, sendTime, asdu);
    DataArrives(begun);
    var lost := if ackLost then Step(Step(begun, SecondaryReceives(true)), ResponseLost(0)) else Step(begun, RequestLost(0));
    if ackLost {
      LossOfOne(Step(begun, SecondaryReceives(true)));
    } else {
      LossOfOne(begun);
    }
    hide Step, Unaccepted, Settled, Ft12.FitsVariable;
    Repeats(lost, repeatTime);
    var again := Step(lost, PrimaryRuns(repeatTime, None));
    if ackLost { RepetitionDropped(again); } else { DataArrives(again); }
  }

  lemma LossOfOne(s: Session)
    ensures |s.toSecondary| == 1 ==> Step(s, RequestLost(0)) == s.(toSecondary := [])
    ensures |s.toPrimary| == 1 ==> Step(s, ResponseLost(0)) == s.(toPrimary := [])
  {
    hide Run, Receive, HandleRequest;
  }

  lemma DataArrives(s: Session)
    requires s.awaitsData && s.toSecondary == [Current(s)] && s.toPrimary == [] && s.primary.nextFcb != s.expectedFcb
    requires s.primary.asdu != []
    ensures Step(s, SecondaryReceives(true))
            == s.(expectedFcb := !s.expectedFcb, toSecondary := [], toPrimary := [Plain(ACK)],
                  delivered := s.delivered + [s.primary.asdu])
  {
    hide Run, Receive;
  }

  lemma RepetitionDropped(s: Session)
    requires s.awaitsData && s.toSecondary == [Current(s)] && s.primary.nextFcb == s.expectedFcb
    ensures Step(s, SecondaryReceives(true)) == s.(toSecondary := [])
  {
    hide Run, Receive;
    NoData(s);
  }

  /** Before the timeout nothing is repeated; behind it the primary repeats until the repetitions are over, and then ends the
      session. */
  lemma RepeatsUntilOver(p: Primary, now: nat, supply: Option<seq<byte>>)
    requires p.state == SendConfirm && p.lastSend <= now
    ensures var (q, out) := Run(p, now, supply);
            if now <= p.lastSend + p.parameters.timeoutForAck then q == p && out == []
            else if now > p.originalSend + p.parameters.timeoutRepeat then q == p.(state := Idle) && out == []
            else
              && q == p.(lastSend := now)
              && out == if p.test then [Request(TEST_FUNCTION, !p.nextFcb, true, [])]
                        else if Ft12.FitsVariable(p.parameters.addressLength, p.asdu)
                        then [Request(USER_DATA_CONFIRMED, !p.nextFcb, true, p.asdu)] else []
  {
  }

  // ---------------------------------------------------------------- what the secondary does with a request

  predicate Repetition(s: Session, r: Request) { r.fcv && r.fcb != s.expectedFcb }

  /** The next request is read and answered so, with this data delivered. */
  predicate ReadAs(s: Session, t: Session, delivered: seq<seq<byte>>, responses: seq<Response>)
    requires s.toSecondary != []
  {
    && t == s.(expectedFcb := t.expectedFcb, toSecondary := s.toSecondary[1..], toPrimary := s.toPrimary + responses,
               delivered := s.delivered + delivered)
  }

  /** Data is delivered once; it is acknowledged exactly if the application accepts it. */
  lemma DataAnswered(s: Session, r: Request, accepts: bool)
    requires s.toSecondary != [] && s.toSecondary[0] == r && r.fc == USER_DATA_CONFIRMED && r.data != []
    ensures var t := Step(s, SecondaryReceives(accepts));
            if Repetition(s, r) then ReadAs(s, t, [], []) && t.expectedFcb == s.expectedFcb
            else ReadAs(s, t, [r.data], if accepts then [Plain(ACK)] else [])
                 && t.expectedFcb == (if r.fcv then !s.expectedFcb else s.expectedFcb)
  {
    hide Run, Receive;
    NoData(s);
  }

  /** User data without reply is delivered, and never answered. */
  lemma NoReplyDelivered(s: Session, r: Request, accepts: bool)
    requires s.toSecondary != [] && s.toSecondary[0] == r && r.fc == USER_DATA_NO_REPLY && r.data != [] && !r.fcv
    ensures var t := Step(s, SecondaryReceives(accepts));
            ReadAs(s, t, [r.data], []) && t.expectedFcb == s.expectedFcb
  {
    hide Run, Receive;
    NoData(s);
  }

  /** Everything else delivers nothing. A reset makes the expected bit true, tests are acknowledged, the status is reported,
      unknown services are refused, and empty data is not answered. */
  lemma OthersAnswered(s: Session, r: Request, accepts: bool)
    requires s.toSecondary != [] && s.toSecondary[0] == r && !Repetition(s, r)
    requires r.data == [] || r.fc !in {USER_DATA_CONFIRMED, USER_DATA_NO_REPLY}
    ensures var t := Step(s, SecondaryReceives(accepts));
            && ReadAs(s, t, [], if r.fc in {USER_DATA_CONFIRMED, USER_DATA_NO_REPLY} then []
                                else [Plain(if r.fc in {RESET_REMOTE_LINK, TEST_FUNCTION} then ACK
                                            else if r.fc == REQUEST_LINK_STATUS then STATUS_OF_LINK else NOT_IMPLEMENTED)])
            && t.expectedFcb == (r.fc == RESET_REMOTE_LINK || (if r.fcv then !s.expectedFcb else s.expectedFcb))
  {
    hide Run, Receive;
    NoData(s);
  }

  // ---------------------------------------------------------------- what a response does to the primary

  /** While a service awaits confirmation: ACK and refusals end it, and only ACK clears the test; DFC and NACK make the
      primary BUSY, data and status responses end the session. */
  lemma ResponseToService(p: Primary, fc: nat, dfc: bool, now: nat)
    requires p.state == SendConfirm
    ensures var (q, out) := Receive(p, fc, dfc, now);
            && (q.state == Available <==> !dfc && fc in {ACK, NOT_FUNCTIONING, NOT_IMPLEMENTED})
            && (q.state == Busy <==> dfc || fc == NACK)
            && (q.state == Idle <==> !dfc && fc in {RESP_USER_DATA, RESP_NO_DATA, STATUS_OF_LINK})
            && (q.test <==> p.test && (dfc || fc !in {ACK, NOT_FUNCTIONING, NOT_IMPLEMENTED}))
            && (q.waiting <==> p.waiting && (dfc || fc != ACK))
            && out == [] && q.lastReceived == now && q.nextFcb == p.nextFcb && q.asdu == p.asdu
  {
  }

  /** During the set-up: the status is followed by the reset, and its acknowledgement makes the link available; DFC leads
      back to the status request. */
  lemma ResponseToSetUp(p: Primary, fc: nat, dfc: bool, now: nat)
    requires p.state in {RequestStatus, ResetRemote}
    ensures var (q, out) := Receive(p, fc, dfc, now);
            && (q.state == Available <==> p.state == ResetRemote && !dfc && fc == ACK)
            && (q.state == ResetRemote <==>
                  if p.state == RequestStatus then !dfc && fc == STATUS_OF_LINK
                  else !dfc && fc !in {ACK, RESP_USER_DATA, RESP_NO_DATA, STATUS_OF_LINK})
            && (q.state == Idle <==>
                  && !dfc && (fc in {RESP_USER_DATA, RESP_NO_DATA} || (p.state == ResetRemote && fc == STATUS_OF_LINK)))
            && q.state in {RequestStatus, ResetRemote, Available, Idle}
            && out == (if p.state == RequestStatus && !dfc && fc == STATUS_OF_LINK
                       then [Request(RESET_REMOTE_LINK, false, false, [])] else [])
            && (q.waiting <==> (p.waiting && q.state != Available) || out != [])
            && q.lastReceived == now && q.nextFcb == p.nextFcb
  {
  }

  /** Otherwise only a response that cannot be an acknowledgement changes the state, and ends the session. */
  lemma ResponseOutOfTurn(p: Primary, fc: nat, dfc: bool, now: nat)
    requires p.state in {Available, Busy, Idle}
    ensures var (q, out) := Receive(p, fc, dfc, now);
            && q.state == (if !dfc && fc in {RESP_USER_DATA, RESP_NO_DATA, STATUS_OF_LINK} then Idle else p.state)
            && (q.waiting <==> p.waiting && (dfc || fc != ACK))
            && out == [] && q.lastReceived == now && q.nextFcb == p.nextFcb
  {
  }
}
