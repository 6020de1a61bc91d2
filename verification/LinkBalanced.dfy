// The balanced link layer (link_layer.c): the secondary's and the primary's handling of one direction, and the
// alternating-bit guarantees over channels that lose and delay frames.
module LinkBalanced {
  import opened Bytes
  import opened LinkFrames
  import opened Wrappers

  // ---------------------------------------------------------------- secondary

  datatype SecondaryOutcome = SecondaryOutcome(expectedFcb: bool, delivered: seq<seq<byte>>, responses: seq<Response>)

  /** LinkLayerSecondaryBalanced_handleMessage; `accepts` is what the application's data handler returns. */
  function HandleRequest(expectedFcb: bool, r: Request, accepts: bool): SecondaryOutcome {
    if r.fcv && r.fcb != expectedFcb then SecondaryOutcome(expectedFcb, [], [])
    else
      var expected := if r.fcv then !expectedFcb else expectedFcb;
      if r.fc == RESET_REMOTE_LINK then SecondaryOutcome(true, [], [Plain(ACK)])
      else if r.fc == TEST_FUNCTION then SecondaryOutcome(expected, [], [Plain(ACK)])
      else if r.fc == USER_DATA_CONFIRMED then
        if r.data == [] then SecondaryOutcome(expected, [], [])
        else SecondaryOutcome(expected, [r.data], if accepts then [Plain(ACK)] else [])
      else if r.fc == USER_DATA_NO_REPLY then
        SecondaryOutcome(expected, if r.data == [] then [] else [r.data], [])
      else if r.fc == REQUEST_LINK_STATUS then SecondaryOutcome(expected, [], [Plain(STATUS_OF_LINK)])
      else SecondaryOutcome(expected, [], [Plain(NOT_IMPLEMENTED)])
  }

  // ---------------------------------------------------------------- primary

  /** `asdu` is the shared buffer holding the last user data. */
  datatype Primary = Primary(state: PrimaryState, parameters: Parameters, idleTimeout: nat, waiting: bool,
                             lastSend: nat, originalSend: nat, lastReceived: nat, test: bool, nextFcb: bool,
                             asdu: seq<byte>)

  type Outcome = (Primary, seq<Request>)

  /** LinkLayerPrimaryBalanced_handleMessage. */
  function Receive(p0: Primary, fc: nat, dfc: bool, now: nat): Outcome {
    var p := p0.(lastReceived := now);
    if dfc then
      (match p.state
       case RequestStatus => p
       case ResetRemote => p.(state := RequestStatus)
       case SendConfirm => p.(state := Busy)
       case _ => p, [])
    else if fc == ACK then
      (match p.state
       case ResetRemote => p.(state := Available, waiting := false)
       case SendConfirm => p.(state := Available, waiting := false, test := false)
       case RequestStatus => p
       case _ => p.(waiting := false), [])
    else if fc == NACK then (if p.state == SendConfirm then p.(state := Busy) else p, [])
    else if fc == RESP_USER_DATA || fc == RESP_NO_DATA then (p.(state := Idle), [])
    else if fc == STATUS_OF_LINK then
      if p.state == RequestStatus then
        (p.(state := ResetRemote, lastSend := now, waiting := true), [Request(RESET_REMOTE_LINK, false, false, [])])
      else (p.(state := Idle), [])
    else if fc == NOT_FUNCTIONING || fc == NOT_IMPLEMENTED then
      (p.(test := false, state := if p.state == SendConfirm then Available else p.state), [])
    else (p, [])
  }

  function RunAvailable(p0: Primary, now: nat, supply: Option<seq<byte>>): Outcome {
    var received := Plausible(p0.lastReceived, now);
    var p := p0.(lastReceived := received, test := p0.test || now - received > p0.idleTimeout);
    if p.test then
      (p.(nextFcb := !p.nextFcb, lastSend := now, originalSend := now, state := SendConfirm), [TestRequest(p.nextFcb)])
    else match supply
      case None => (p, [])
      case Some(asdu) =>
        (p.(nextFcb := !p.nextFcb, lastSend := now, originalSend := now, state := SendConfirm, waiting := true,
            asdu := asdu),
         DataRequests(p.parameters.addressLength, p.nextFcb, asdu))
  }

  function RunSendConfirm(p0: Primary, now: nat): Outcome {
    var p := p0.(lastSend := Plausible(p0.lastSend, now));
    if now <= p.lastSend + p.parameters.timeoutForAck then (p, [])
    else if now > p.originalSend + p.parameters.timeoutRepeat then (p.(state := Idle), [])
    else
      (p.(lastSend := now),
       if p.test then [TestRequest(!p.nextFcb)] else DataRequests(p.parameters.addressLength, !p.nextFcb, p.asdu))
  }

  /** LinkLayerPrimaryBalanced_runStateMachine; `supply` is what the application would give for GetUserData. */
  function Run(p: Primary, now: nat, supply: Option<seq<byte>>): Outcome {
    match p.state
    case Idle =>
      (p.(originalSend := 0, test := false, lastSend := now, waiting := true, state := RequestStatus),
       [Request(REQUEST_LINK_STATUS, false, false, [])])
    case RequestStatus =>
      if p.waiting then
        var q := p.(lastSend := Plausible(p.lastSend, now));
        (if now > q.lastSend + q.parameters.timeoutForAck then q.(state := Idle) else q, [])
      else
        (p.(lastSend := now, waiting := true, state := ResetRemote), [Request(RESET_REMOTE_LINK, false, false, [])])
    case ResetRemote =>
      if p.waiting then
        var q := p.(lastSend := Plausible(p.lastSend, now));
        (if now > q.lastSend + q.parameters.timeoutForAck then q.(waiting := false, state := Idle) else q, [])
      else (p.(state := Available), [])
    case Available => RunAvailable(p, now, supply)
    case SendConfirm => RunSendConfirm(p, now)
    case _ => (p, [])
  }

  // ---------------------------------------------------------------- one session

  /** Both ends, the frames under way in each direction, the time the primary read last, and what happened: the user data
      taken from the primary's application, whether the service begun last was user data, how much user data the primary
      treats as confirmed, and the data handed to the secondary's application. */
  datatype Session = Session(primary: Primary, expectedFcb: bool, toSecondary: seq<Request>, toPrimary: seq<Response>,
                             clock: nat, sent: seq<seq<byte>>, awaitsData: bool, confirmed: nat,
                             delivered: seq<seq<byte>>)

  datatype Event =
    | PrimaryRuns(now: nat, supply: Option<seq<byte>>)
    | PrimaryReceives(now: nat)
    | SecondaryReceives(accepts: bool)
    | RequestLost(i: nat)
    | ResponseLost(i: nat)
    | TestRequested   // LinkLayerBalanced_sendLinkLayerTestFunction

  predicate Open(s: Session) { s.primary.state in {Available, SendConfirm} }

  function Without<T>(xs: seq<T>, i: nat): seq<T>
    requires i < |xs|
  {
    xs[..i] + xs[i + 1..]
  }

  /** Any event of either station or channel; those that cannot happen now change nothing. */
  function Step(s: Session, e: Event): Session {
    match e
    case PrimaryRuns(now, supply) =>
      var (p, out) := Run(s.primary, now, supply);
      var begins := s.primary.state == Available && p.state == SendConfirm;
      s.(primary := p, toSecondary := s.toSecondary + out, clock := now,
         sent := if begins && !p.test then s.sent + [p.asdu] else s.sent,
         awaitsData := if begins then !p.test else s.awaitsData)
    case PrimaryReceives(now) =>
      if s.toPrimary == [] then s
      else
        var (p, out) := Receive(s.primary, s.toPrimary[0].fc, s.toPrimary[0].dfc, now);
        var confirms := s.primary.state == SendConfirm && s.awaitsData && p.state == Available;
        s.(primary := p, toPrimary := s.toPrimary[1..], toSecondary := s.toSecondary + out, clock := now,
           confirmed := if confirms then s.confirmed + 1 else s.confirmed)
    case SecondaryReceives(accepts) =>
      if s.toSecondary == [] then s
      else
        var o := HandleRequest(s.expectedFcb, s.toSecondary[0], accepts);
        s.(expectedFcb := o.expectedFcb, toSecondary := s.toSecondary[1..], toPrimary := s.toPrimary + o.responses,
           delivered := s.delivered + o.delivered)
    case RequestLost(i) => if i < |s.toSecondary| then s.(toSecondary := Without(s.toSecondary, i)) else s
    case ResponseLost(i) => if i < |s.toPrimary| then s.(toPrimary := Without(s.toPrimary, i)) else s
    case TestRequested => s.(primary := s.primary.(test := true))
  }

  /** The repetitions are not over, and the next one may still be due before they are. */
  predicate CanRepeat(s: Session) {
    var p := s.primary;
    && s.clock <= p.originalSend + p.parameters.timeoutRepeat
    && Plausible(p.lastSend, s.clock) + p.parameters.timeoutForAck < p.originalSend + p.parameters.timeoutRepeat
  }

  /** User data awaits confirmation that the secondary has not accepted, and may still be repeated. */
  predicate TestMayLoseData(s: Session) {
    s.primary.state == SendConfirm && s.awaitsData && s.primary.nextFcb != s.expectedFcb && CanRepeat(s)
  }

  /** A link test was asked for while user data awaits confirmation. */
  predicate LateTest(s: Session) { s.primary.state == SendConfirm && s.awaitsData && s.primary.test }

  /** The application supplies no empty ASDU, and asks for no link test that might take the place of user data; the clock
      does not run backwards while a late link test waits. */
  predicate Allowed(s: Session, e: Event) {
    && (e.PrimaryRuns? ==> e.supply != Some([]))
    && (e.TestRequested? ==> !TestMayLoseData(s))
    && ((e.PrimaryRuns? || e.PrimaryReceives?) && LateTest(s) ==> s.clock <= e.now)
  }

  predicate Starts(s: Session) {
    && s.primary.state == Available && s.primary.nextFcb == s.expectedFcb && s.toSecondary == [] && s.toPrimary == []
    && s.sent == [] && s.delivered == [] && s.confirmed == 0
  }

  // ---------------------------------------------------------------- the invariant

  /** The frame awaiting confirmation. */
  function Current(s: Session): Request {
    var p := s.primary;
    if s.awaitsData then Request(USER_DATA_CONFIRMED, !p.nextFcb, true, p.asdu) else TestRequest(!p.nextFcb)
  }

  predicate AllWithFcb(requests: seq<Request>, fcb: bool) {
    forall i | 0 <= i < |requests| :: requests[i].fcv && requests[i].fcb == fcb
  }

  /** Frames of earlier services, then copies of the current one. */
  predicate OldThenCurrent(requests: seq<Request>, previousFcb: bool, current: Request) {
    && (forall i | 0 <= i < |requests| :: requests[i] == current || (requests[i].fcv && requests[i].fcb == previousFcb))
    && (forall i, j | 0 <= i < j < |requests| :: requests[i] == current ==> requests[j] == current)
  }

  predicate Acks(responses: seq<Response>, limit: nat) {
    |responses| <= limit && forall i | 0 <= i < |responses| :: responses[i] == Plain(ACK)
  }

  /** Nothing awaits confirmation. */
  predicate Settled(s: Session) {
    && s.primary.state == Available && s.primary.nextFcb == s.expectedFcb
    && AllWithFcb(s.toSecondary, !s.expectedFcb) && s.toPrimary == []
    && s.delivered == s.sent && s.confirmed == |s.sent|
  }

  /** The secondary has not accepted the current frame, and a link test does not take its place. */
  predicate Unaccepted(s: Session) {
    var p := s.primary;
    && p.state == SendConfirm && p.nextFcb != s.expectedFcb
    && OldThenCurrent(s.toSecondary, p.nextFcb, Current(s)) && s.toPrimary == []
    && if s.awaitsData then
         && (p.test ==> !CanRepeat(s))
         && |s.sent| > 0 && p.asdu == s.sent[|s.sent| - 1] && p.asdu != [] && s.delivered == s.sent[..|s.sent| - 1]
         && s.confirmed == |s.sent| - 1
       else p.test && s.delivered == s.sent && s.confirmed == |s.sent|
  }

  /** The secondary has accepted the current frame; at most one acknowledgement is under way. */
  predicate Accepted(s: Session) {
    var p := s.primary;
    && p.state == SendConfirm && p.nextFcb == s.expectedFcb
    && AllWithFcb(s.toSecondary, !s.expectedFcb) && Acks(s.toPrimary, 1)
    && s.delivered == s.sent && s.confirmed == |s.sent| - (if s.awaitsData then 1 else 0)
  }

  predicate Inv(s: Session) { Settled(s) || Unaccepted(s) || Accepted(s) }

  /** What a session guarantees: data arrives in order and at most once, at most the last message is missing, and what
      the primary treats as confirmed has arrived. */
  predicate Safe(s: Session) {
    && s.delivered <= s.sent && |s.sent| <= |s.delivered| + 1
    && s.confirmed <= |s.delivered| && |s.sent| <= s.confirmed + 1
  }

  lemma InvIsSafe(s: Session)
    requires Inv(s)
    ensures Safe(s)
  {
  }

  lemma SettledRuns(s: Session, now: nat, supply: Option<seq<byte>>)
    requires Settled(s) && supply != Some([])
    ensures var t := Step(s, PrimaryRuns(now, supply));
            Settled(t) || Unaccepted(t)
  {
  }

  lemma UnacceptedRuns(s: Session, now: nat, supply: Option<seq<byte>>)
    requires Unaccepted(s) && (LateTest(s) ==> s.clock <= now)
    ensures var t := Step(s, PrimaryRuns(now, supply));
            Safe(t) && (Open(t) ==> Unaccepted(t))
  {
    var t := Step(s, PrimaryRuns(now, supply));
    if Open(t) {
      assert OldThenCurrent(t.toSecondary, t.primary.nextFcb, Current(t));
    }
  }

  lemma AcceptedRuns(s: Session, now: nat, supply: Option<seq<byte>>)
    requires Accepted(s)
    ensures var t := Step(s, PrimaryRuns(now, supply));
            Safe(t) && (Open(t) ==> Accepted(t))
  {
  }

  lemma RunKeepsInv(s: Session, now: nat, supply: Option<seq<byte>>)
    requires Inv(s) && Allowed(s, PrimaryRuns(now, supply))
    ensures var t := Step(s, PrimaryRuns(now, supply));
            Safe(t) && (Open(t) ==> Inv(t))
  {
    hide Step, Settled, Unaccepted, Accepted, Safe;
    if Settled(s) {
      SettledRuns(s, now, supply);
      InvIsSafe(Step(s, PrimaryRuns(now, supply)));
    } else if Unaccepted(s) {
      UnacceptedRuns(s, now, supply);
    } else {
      AcceptedRuns(s, now, supply);
    }
  }

  lemma PrimaryReceivesKeepsInv(s: Session, now: nat)
    requires Inv(s)
    ensures Inv(Step(s, PrimaryReceives(now)))
  {
  }

  /** The secondary drops repeated frames and accepts the current one once. */
  lemma SecondaryReceivesKeepsInv(s: Session, accepts: bool)
    requires Inv(s)
    ensures Inv(Step(s, SecondaryReceives(accepts)))
  {
    hide Step;
    if s.toSecondary == [] {
      NothingToReceive(s, accepts);
    } else if Unaccepted(s) && s.toSecondary[0] == Current(s) {
      CurrentAccepted(s, accepts);
    } else {
      OldDropped(s, accepts);
    }
  }

  lemma NothingToReceive(s: Session, accepts: bool)
    requires s.toSecondary == []
    ensures Step(s, SecondaryReceives(accepts)) == s
  {
  }

  lemma CurrentAccepted(s: Session, accepts: bool)
    requires Unaccepted(s) && s.toSecondary != [] && s.toSecondary[0] == Current(s)
    ensures Accepted(Step(s, SecondaryReceives(accepts)))
  {
    assert AllWithFcb(s.toSecondary[1..], s.expectedFcb);
  }

  lemma OldDropped(s: Session, accepts: bool)
    requires Inv(s) && s.toSecondary != [] && (Unaccepted(s) ==> s.toSecondary[0] != Current(s))
    ensures Inv(Step(s, SecondaryReceives(accepts)))
  {
    var r := s.toSecondary[0];
    assert r.fcv && r.fcb != s.expectedFcb;
    assert HandleRequest(s.expectedFcb, r, accepts) == SecondaryOutcome(s.expectedFcb, [], []);
    var t := s.(toSecondary := s.toSecondary[1..]);
    assert Step(s, SecondaryReceives(accepts)) == t by {
      assert s.toPrimary + [] == s.toPrimary && s.delivered + [] == s.delivered;
    }
    hide Step, HandleRequest;
    if Unaccepted(s) {
      assert OldThenCurrent(t.toSecondary, s.primary.nextFcb, Current(t));
    }
  }

  lemma ResponseLossKeepsInv(s: Session, i: nat)
    requires Inv(s)
    ensures Inv(Step(s, ResponseLost(i)))
  {
    hide Run, Receive, HandleRequest;
  }

  lemma RequestLossKeepsInv(s: Session, i: nat)
    requires Inv(s)
    ensures Inv(Step(s, RequestLost(i)))
  {
    hide Run, Receive, HandleRequest;
    if i < |s.toSecondary| {
      var t := Without(s.toSecondary, i);
      forall j | 0 <= j < |t| ensures t[j] == s.toSecondary[if j < i then j else j + 1] {}
    }
  }

  lemma TestKeepsInv(s: Session)
    requires Inv(s) && !TestMayLoseData(s)
    ensures Inv(Step(s, TestRequested))
  {
  }

  lemma StepKeepsInv(s: Session, e: Event)
    requires Inv(s) && Allowed(s, e)
    ensures Safe(Step(s, e)) && (Open(Step(s, e)) ==> Inv(Step(s, e)))
  {
    match e
    case PrimaryRuns(now, supply) => RunKeepsInv(s, now, supply);
    case PrimaryReceives(now) => PrimaryReceivesKeepsInv(s, now); InvIsSafe(Step(s, e));
    case SecondaryReceives(accepts) => SecondaryReceivesKeepsInv(s, accepts); InvIsSafe(Step(s, e));
    case RequestLost(i) => RequestLossKeepsInv(s, i); InvIsSafe(Step(s, e));
    case ResponseLost(i) => ResponseLossKeepsInv(s, i); InvIsSafe(Step(s, e));
    case TestRequested => TestKeepsInv(s); InvIsSafe(Step(s, e));
  }

  function After(s: Session, events: seq<Event>): Session {
    if events == [] then s else Step(After(s, events[..|events| - 1]), events[|events| - 1])
  }

  /** The session stays open up to the last event. */
  predicate SessionOf(s: Session, events: seq<Event>) {
    Starts(s)
    && forall i | 0 <= i < |events| :: Open(After(s, events[..i])) && Allowed(After(s, events[..i]), events[i])
  }

  /** Every schedule of runs, timeouts, repetitions, losses and delays is safe, up to and including the event that ends
      the session. */
  lemma {:induction false} EverySessionSafe(s: Session, events: seq<Event>)
    requires SessionOf(s, events)
    ensures var t := After(s, events);
            Safe(t) && (Open(t) ==> Inv(t))
  {
    hide Inv, Safe, Step, Allowed, Open;
    if events == [] {
      SettledAtStart(s);
    } else {
      var front := events[..|events| - 1];
      assert forall i | 0 <= i < |front| :: front[..i] == events[..i] && front[i] == events[i];
      EverySessionSafe(s, front);
      assert Open(After(s, front)) && Allowed(After(s, front), events[|events| - 1]);
      StepKeepsInv(After(s, front), events[|events| - 1]);
    }
  }

  lemma SettledAtStart(s: Session)
    requires Starts(s)
    ensures Inv(s) && Safe(s)
  {
  }

  // ---------------------------------------------------------------- sessions that begin with disagreeing bits

  /** A reset makes the secondary's bit true and leaves the primary's, so that a session may begin like this. */
  predicate StartsDisagreeing(s: Session) {
    && s.primary.state == Available && s.primary.nextFcb != s.expectedFcb && s.toSecondary == [] && s.toPrimary == []
    && s.sent == [] && s.delivered == [] && s.confirmed == 0
  }

  /** At most one service has begun, and every frame of it passes for a repetition. */
  predicate Deaf(s: Session) {
    && AllWithFcb(s.toSecondary, !s.expectedFcb) && s.toPrimary == [] && s.delivered == [] && s.confirmed == 0
    && if s.primary.state == Available then s.primary.nextFcb != s.expectedFcb && s.sent == []
       else s.primary.state == SendConfirm && s.primary.nextFcb == s.expectedFcb && |s.sent| <= 1
  }

  lemma StepKeepsDeaf(s: Session, e: Event)
    requires Deaf(s)
    ensures var t := Step(s, e);
            && t.delivered == [] && t.confirmed == 0 && |t.sent| <= 1
            && if Open(t) then Deaf(t) else t.primary.nextFcb == t.expectedFcb
  {
    hide DataRequests, Receive;
    match e
    case PrimaryRuns(now, supply) => DeafRuns(s, now, supply);
    case RequestLost(i) =>
      if i < |s.toSecondary| {
        var t := Without(s.toSecondary, i);
        forall j | 0 <= j < |t| ensures t[j] == s.toSecondary[if j < i then j else j + 1] {}
      }
    case _ =>
  }

  lemma DeafRuns(s: Session, now: nat, supply: Option<seq<byte>>)
    requires Deaf(s)
    ensures var t := Step(s, PrimaryRuns(now, supply));
            && t.delivered == [] && t.confirmed == 0 && |t.sent| <= 1
            && if Open(t) then Deaf(t) else t.primary.nextFcb == t.expectedFcb
  {
  }

  /** A session that begins with disagreeing bits delivers nothing and confirms nothing, whatever happens; its one service
      is given up, and the bits agree from then on. */
  lemma {:induction false} DisagreeingSessionIsDeaf(s: Session, events: seq<Event>)
    requires StartsDisagreeing(s)
    requires forall i | 0 <= i < |events| :: Open(After(s, events[..i]))
    ensures var t := After(s, events);
            && t.delivered == [] && t.confirmed == 0 && |t.sent| <= 1
            && if Open(t) then Deaf(t) else t.primary.nextFcb == t.expectedFcb
  {
    hide Step;
    if events == [] {
      assert Deaf(s);
    } else {
      hide Open;
      var front := events[..|events| - 1];
      assert forall i | 0 <= i < |front| :: front[..i] == events[..i];
      DisagreeingSessionIsDeaf(s, front);
      assert Open(After(s, front));
      hide Deaf;
      StepKeepsDeaf(After(s, front), events[|events| - 1]);
    }
  }

  // ---------------------------------------------------------------- one exchange, and late link tests

  /** Without losses one exchange delivers and confirms the data. */
  lemma LosslessExchange(s: Session, now: nat, asdu: seq<byte>)
    requires Settled(s) && s.toSecondary == [] && !s.primary.test && asdu != []
    requires Ft12.FitsVariable(s.primary.parameters.addressLength, asdu)
    requires now <= s.primary.lastReceived + s.primary.idleTimeout
    ensures var t := Step(Step(Step(s, PrimaryRuns(now, Some(asdu))), SecondaryReceives(true)), PrimaryReceives(now));
            && Settled(t) && t.toSecondary == [] && t.delivered == s.delivered + [asdu]
            && t.confirmed == s.confirmed + 1
  {
    var s1 := Step(s, PrimaryRuns(now, Some(asdu)));
    assert s1.toSecondary == [Request(USER_DATA_CONFIRMED, s.expectedFcb, true, asdu)];
    var s2 := Step(s1, SecondaryReceives(true));
    assert s2.toPrimary == [Plain(ACK)] && s2.toSecondary == [] && s2.delivered == s.delivered + [asdu];
  }

  /** An open session allows the event, on a clock that does not run backwards. */
  predicate Possible(s: Session, e: Event) {
    Open(s) && Allowed(s, e) && (e.PrimaryRuns? || e.PrimaryReceives? ==> s.clock <= e.now)
  }

  predicate Continues(s: Session, events: seq<Event>) {
    forall i | 0 <= i < |events| :: Possible(After(s, events[..i]), events[i])
  }

  lemma OneMore(s: Session, events: seq<Event>, e: Event)
    requires Continues(s, events) && Possible(After(s, events), e)
    ensures Continues(s, events + [e]) && After(s, events + [e]) == Step(After(s, events), e)
  {
    hide Possible, Step;
    var more := events + [e];
    assert more[..|events|] == events;
    assert forall i | 0 <= i < |events| :: more[..i] == events[..i] && more[i] == events[i];
  }

  /** Everything under way to the secondary may be lost. */
  lemma {:induction false} LoseRequests(s: Session, n: nat) returns (events: seq<Event>)
    requires Open(s) && n <= |s.toSecondary|
    ensures Continues(s, events) && After(s, events) == s.(toSecondary := s.toSecondary[n..])
  {
    if n == 0 {
      events := [];
    } else {
      var front := LoseRequests(s, n - 1);
      events := front + [RequestLost(0)];
      OneMore(s, front, RequestLost(0));
      assert Without(s.toSecondary[n - 1..], 0) == s.toSecondary[n..];
    }
  }

  /** A link test is harmful exactly there: asked for in such a state it has a continuation, on a clock that does not run
      backwards, in which the repetition is the test instead, its acknowledgement settles the link, and the primary treats
      data as confirmed that never arrived. */
  lemma LateTestRequestLosesData(s: Session) returns (events: seq<Event>)
    requires Inv(s) && TestMayLoseData(s)
    ensures var t := Step(s, TestRequested);
            && Continues(t, events) && After(t, events).primary.state == Available
            && !Safe(After(t, events))
  {
    var t := Step(s, TestRequested);
    assert t.toPrimary == [] && t.confirmed == |t.delivered|;
    var lost := LoseRequests(t, |t.toSecondary|);
    var t1 := t.(toSecondary := []);
    assert t.toSecondary[|t.toSecondary|..] == [];
    var settled := SendTimeSettles(t, lost);
    var sendTime := Plausible(t.primary.lastSend, t.clock);
    var t2 := t1.(primary := t.primary.(lastSend := sendTime));
    var due := if t.clock > sendTime + t.primary.parameters.timeoutForAck then t.clock
               else sendTime + t.primary.parameters.timeoutForAck + 1;
    TestTakesOver(t2, due);
    hide Step, Possible, Inv, TestMayLoseData, Safe, CanRepeat;
    OneMore(t, settled, PrimaryRuns(due, None));
    var sent := settled + [PrimaryRuns(due, None)];
    OneMore(t, sent, SecondaryReceives(true));
    var answered := sent + [SecondaryReceives(true)];
    OneMore(t, answered, PrimaryReceives(due));
    events := answered + [PrimaryReceives(due)];
  }

  /** A run replaces a send time that lies in the future. */
  lemma SendTimeSettles(t: Session, events: seq<Event>) returns (more: seq<Event>)
    requires Continues(t, events) && After(t, events) == t.(toSecondary := [])
    requires t.primary.state == SendConfirm
    ensures Continues(t, more)
    ensures After(t, more)
            == t.(toSecondary := [], primary := t.primary.(lastSend := Plausible(t.primary.lastSend, t.clock)))
  {
    if t.primary.lastSend <= t.clock {
      more := events;
    } else {
      var run := PrimaryRuns(t.clock, None);
      more := events + [run];
      OneMore(t, events, run);
    }
  }

  /** With nothing under way and a link test asked for, the primary repeats the test in place of the data, and its
      acknowledgement confirms data the secondary does not have. */
  lemma TestTakesOver(t: Session, due: nat)
    requires LateTest(t) && t.primary.nextFcb != t.expectedFcb && t.toSecondary == [] && t.toPrimary == []
    requires t.primary.lastSend + t.primary.parameters.timeoutForAck < due && t.clock <= due
    requires due <= t.primary.originalSend + t.primary.parameters.timeoutRepeat
    requires t.confirmed == |t.delivered|
    ensures var t1 := Step(t, PrimaryRuns(due, None));
            var t2 := Step(t1, SecondaryReceives(true));
            var t3 := Step(t2, PrimaryReceives(due));
            && Possible(t, PrimaryRuns(due, None)) && Possible(t1, SecondaryReceives(true))
            && Possible(t2, PrimaryReceives(due)) && t3.primary.state == Available && !Safe(t3)
  {
    var p := t.primary;
    var t1 := t.(primary := p.(lastSend := due), toSecondary := [TestRequest(!p.nextFcb)], clock := due);
    var t2 := t1.(expectedFcb := p.nextFcb, toSecondary := [], toPrimary := [Plain(ACK)]);
    assert Step(t, PrimaryRuns(due, None)) == t1;
    assert Step(t1, SecondaryReceives(true)) == t2;
    assert Step(t2, PrimaryReceives(due)).confirmed == t.confirmed + 1;
  }

  /** The guard a caller can check: nothing awaits confirmation. */
  lemma AvailableMayTest(s: Session)
    requires s.primary.state == Available
    ensures Allowed(s, TestRequested)
  {
  }
}
