// Two CS104 stations that exchange frames over two reliable FIFO channels, in any interleaving of sends, receives,
// confirmations, timeouts, start/stop requests and closing. Nothing is assumed about how often the 15-bit counters
// wrap.
module Cs104System {
  import opened Bytes
  import opened Asdu
  import opened Cs104Frame
  import opened Cs104Station
  import opened Wrappers

  /** A station with the history an observer keeps: ASDUs accepted for sending, ASDUs handed to the application, and
      every frame written. */
  datatype Peer = Peer(station: Station, sent: seq<seq<byte>>, delivered: seq<seq<byte>>, log: seq<Apdu>,
                       open: bool, fault: bool)

  /** The frames under way from a to b and from b to a. */
  datatype System = System(a: Peer, b: Peer, ab: seq<Apdu>, ba: seq<Apdu>)

  datatype Action =
    | SendAsdu(asdu: seq<byte>, wallClock: nat)
    | Receive(now: nat)          // receiveMessage and checkMessage
    | ConfirmPending(now: nat)   // the w-step of the connection loop
    | Timeouts(now: nat)
    | RequestStart(now: nat)
    | RequestStop(now: nat)
    | Close                      // by the user, or for any reason outside the protocol

  /** An ASDU object that fits a frame and that a receiver with the same parameters can parse. */
  predicate WellFormedAsdu(al: AppLayerParameters, asdu: seq<byte>) {
    |asdu| <= 249 && Accepts(al, asdu)
  }

  // ---------------------------------------------------------------- steps

  /** A peer, what it wrote, and what is left of its input. */
  datatype Acted = Acted(peer: Peer, out: seq<Apdu>, input: seq<Apdu>)

  function Commit(p: Peer, e: Effect, input: seq<Apdu>): Acted {
    Acted(p.(station := e.station, delivered := p.delivered + e.delivered, log := p.log + e.out), e.out, input)
  }

  function Act(p: Peer, input: seq<Apdu>, action: Action): Acted
    requires p.station.al.Valid()
  {
    if !p.open then Acted(p, [], input)
    else
      match action
      case SendAsdu(asdu, wallClock) =>
        var e := Send(p.station, asdu, wallClock);
        if WellFormedAsdu(p.station.al, asdu) && e.ok then Commit(p.(sent := p.sent + [asdu]), e, input)
        else Acted(p, [], input)
      case Receive(now) =>
        if input == [] then Acted(p, [], input)
        else
          var e := CheckMessage(p.station, input[0], now);
          Commit(if e.ok then p else p.(open := false, fault := true), e, input[1..])
      case ConfirmPending(now) => Commit(p, ConfirmStep(p.station, now), input)
      case Timeouts(now) =>
        var e := HandleTimeouts(p.station, now);
        Commit(p.(open := e.ok), e, input)
      case RequestStart(now) => Commit(p, SendStartDt(p.station, now), input)
      case RequestStop(now) => Commit(p, SendStopDt(p.station, now), input)
      case Close => Acted(p.(open := false), [], input)
  }

  function Swap(s: System): System { System(s.b, s.a, s.ba, s.ab) }

  function StepA(s: System, action: Action): System
    requires s.a.station.al.Valid()
  {
    var r := Act(s.a, s.ba, action);
    System(r.peer, s.b, s.ab + r.out, r.input)
  }

  datatype Step = Step(byA: bool, action: Action)

  function Next(s: System, step: Step): System
    requires s.a.station.al.Valid() && s.b.station.al.Valid()
  {
    if step.byA then StepA(s, step.action) else Swap(StepA(Swap(s), step.action))
  }

  function Initial(par: Parameters, parB: Parameters, al: AppLayerParameters, now: nat): System {
    System(Peer(Start(par, al, now), [], [], [], true, false), Peer(Start(parB, al, now), [], [], [], true, false), [], [])
  }

  // ---------------------------------------------------------------- the invariant

  /** The information frames in a channel carry the ASDUs sent[r..], consecutively numbered modulo 32768. */
  ghost predicate Frames(channel: seq<Apdu>, r: nat, sent: seq<seq<byte>>) {
    if channel == [] then r == |sent|
    else if channel[0].I? then
      && r < |sent| && channel[0].ns == r % MODULUS && channel[0].asdu == sent[r]
      && Frames(channel[1..], r + 1, sent)
    else Frames(channel[1..], r, sent)
  }

  function NumberOf(f: Apdu): Option<nat> {
    match f
    case I(_, nr, _) => Some(nr)
    case S(nr) => Some(nr)
    case _ => None
  }

  /** Read after a already confirmed frames, the N(R)s in a channel confirm more and more, up to l. */
  ghost predicate Acks(channel: seq<Apdu>, a: nat, l: nat) {
    if channel == [] then a == l
    else
      match NumberOf(channel[0])
      case None => Acks(channel[1..], a, l)
      case Some(nr) =>
        var next := a + Distance(a % MODULUS, nr);
        nr < MODULUS && next <= l && Acks(channel[1..], next, l)
  }

  /** Frames of x that x still holds, and received ones y has not confirmed. */
  ghost predicate Direction(x: Peer, y: Peer, xy: seq<Apdu>, yx: seq<Apdu>) {
    var confirmed, acked := |x.sent| - |x.station.pending|, |y.delivered| - y.station.unconfirmed;
    && x.station.WindowOk() && x.station.par.k < MODULUS
    && 0 <= confirmed <= acked <= |y.delivered| <= |x.sent|
    && x.station.sendCount == |x.sent| % MODULUS && y.station.receiveCount == |y.delivered| % MODULUS
    && y.delivered == x.sent[..|y.delivered|]
    && Frames(xy, |y.delivered|, x.sent)
    && Acks(yx, confirmed, acked)
  }

  ghost predicate AllSendable(channel: seq<Apdu>) {
    forall i | 0 <= i < |channel| :: Sendable(channel[i])
  }

  ghost predicate AllWellFormed(al: AppLayerParameters, asdus: seq<seq<byte>>) {
    forall i | 0 <= i < |asdus| :: WellFormedAsdu(al, asdus[i])
  }

  /** The N(R) a station transmitted last, in either format. */
  function LastNumber(log: seq<Apdu>): nat {
    if log == [] then 0
    else
      match NumberOf(log[|log| - 1])
      case Some(nr) => nr
      case None => LastNumber(log[..|log| - 1])
  }

  ghost predicate PeerOk(p: Peer, al: AppLayerParameters) {
    && !p.fault && p.station.al == al && AllWellFormed(al, p.sent)
    && Distance(LastNumber(p.log), p.station.receiveCount) == p.station.unconfirmed
  }

  ghost predicate Inv(s: System, al: AppLayerParameters) {
    && al.Valid() && PeerOk(s.a, al) && PeerOk(s.b, al)
    && AllSendable(s.ab) && AllSendable(s.ba)
    && Direction(s.a, s.b, s.ab, s.ba) && Direction(s.b, s.a, s.ba, s.ab)
  }

  // ---------------------------------------------------------------- channel lemmas

  lemma {:induction false} FramesAppendOther(channel: seq<Apdu>, r: nat, sent: seq<seq<byte>>, f: Apdu)
    requires Frames(channel, r, sent) && !f.I?
    ensures Frames(channel + [f], r, sent)
  {
    if channel != [] {
      assert (channel + [f])[1..] == channel[1..] + [f];
      FramesAppendOther(channel[1..], if channel[0].I? then r + 1 else r, sent, f);
    } else {
      assert ([] + [f])[1..] == [];
    }
  }

  lemma {:induction false} FramesAppendI(channel: seq<Apdu>, r: nat, sent: seq<seq<byte>>, nr: nat, asdu: seq<byte>)
    requires Frames(channel, r, sent)
    ensures Frames(channel + [I(|sent| % MODULUS, nr, asdu)], r, sent + [asdu])
  {
    var f := I(|sent| % MODULUS, nr, asdu);
    if channel != [] {
      assert (channel + [f])[1..] == channel[1..] + [f];
      FramesAppendI(channel[1..], if channel[0].I? then r + 1 else r, sent, nr, asdu);
    } else {
      assert ([] + [f])[1..] == [] && Frames([], r + 1, sent + [asdu]);
    }
  }

  lemma {:induction false} AcksAppend(channel: seq<Apdu>, a: nat, l: nat, m: nat, f: Apdu)
    requires Acks(channel, a, l) && l <= m < l + MODULUS
    requires if NumberOf(f).Some? then NumberOf(f).value == m % MODULUS else m == l
    ensures Acks(channel + [f], a, m)
  {
    if channel != [] {
      assert (channel + [f])[1..] == channel[1..] + [f];
      match NumberOf(channel[0])
      case None => AcksAppend(channel[1..], a, l, m, f);
      case Some(nr) => AcksAppend(channel[1..], a + Distance(a % MODULUS, nr), l, m, f);
    } else {
      assert ([] + [f])[1..] == [];
      Unwrap(a, m);
    }
  }

  /** A 15-bit number less than one turn ahead determines the full number. */
  lemma Unwrap(a: nat, m: nat)
    requires a <= m < a + MODULUS
    ensures a + Distance(a % MODULUS, m % MODULUS) == m
  {
  }

  // ---------------------------------------------------------------- what station a writes

  /** t differs from s at most in timers, test-frame counter and connection state. */
  predicate SameWindow(s: Station, t: Station) {
    && t.par == s.par && t.al == s.al && t.pending == s.pending && t.sendCount == s.sendCount
    && t.receiveCount == s.receiveCount && t.unconfirmed == s.unconfirmed
  }

  function Write(s: System, t: Station, f: Apdu): System {
    s.(a := s.a.(station := t, log := s.a.log + [f]), ab := s.ab + [f])
  }

  lemma LastNumberAppend(log: seq<Apdu>, f: Apdu)
    ensures LastNumber(log + [f]) == if NumberOf(f).Some? then NumberOf(f).value else LastNumber(log)
  {
    assert (log + [f])[..|log|] == log;
  }

  lemma Retime(s: System, al: AppLayerParameters, t: Station)
    requires Inv(s, al) && SameWindow(s.a.station, t)
    ensures Inv(s.(a := s.a.(station := t)), al)
  {
    hide Consecutive, Frames, Acks, LastNumber;
  }

  lemma WriteOther(s: System, al: AppLayerParameters, t: Station, f: Apdu)
    requires Inv(s, al) && SameWindow(s.a.station, t) && Sendable(f) && NumberOf(f).None?
    ensures Inv(Write(s, t, f), al)
  {
    hide Consecutive, Frames, Acks, LastNumber;
    FramesAppendOther(s.ab, |s.b.delivered|, s.a.sent, f);
    var acked := |s.a.delivered| - s.a.station.unconfirmed;
    AcksAppend(s.ab, |s.b.sent| - |s.b.station.pending|, acked, acked, f);
    LastNumberAppend(s.a.log, f);
  }

  /** Writing an S frame confirms everything received so far. */
  lemma WriteAck(s: System, al: AppLayerParameters, t: Station)
    requires Inv(s, al) && SameWindow(s.a.station.(unconfirmed := 0), t)
    ensures Inv(Write(s, t, S(t.receiveCount)), al)
  {
    hide Consecutive, Frames, Acks, LastNumber;
    var f, received := S(t.receiveCount), |s.a.delivered|;
    FramesAppendOther(s.ab, |s.b.delivered|, s.a.sent, f);
    AcksAppend(s.ab, |s.b.sent| - |s.b.station.pending|, received - s.a.station.unconfirmed, received, f);
    LastNumberAppend(s.a.log, f);
  }

  lemma NextCount(n: nat)
    ensures (n % MODULUS + 1) % MODULUS == (n + 1) % MODULUS
  {
  }

  lemma WriteData(s: System, al: AppLayerParameters, asdu: seq<byte>, wallClock: nat)
    requires Inv(s, al) && WellFormedAsdu(al, asdu) && Send(s.a.station, asdu, wallClock).ok
    ensures Inv(StepA(s.(a := s.a.(open := true)), SendAsdu(asdu, wallClock)), al)
  {
    hide Consecutive, Frames, Acks, LastNumber, Accepts;
    var e, received := Send(s.a.station, asdu, wallClock), |s.a.delivered|;
    var f := e.out[0];
    SendKeepsWindow(s.a.station, asdu, wallClock);
    NextCount(|s.a.sent|);
    FramesAppendI(s.ab, |s.b.delivered|, s.a.sent, s.a.station.receiveCount, asdu);
    AcksAppend(s.ab, |s.b.sent| - |s.b.station.pending|, received - s.a.station.unconfirmed, received, f);
    LastNumberAppend(s.a.log, f);
    AcceptedHasHeader(al, asdu);
  }

  lemma AcceptedHasHeader(al: AppLayerParameters, asdu: seq<byte>)
    requires Accepts(al, asdu)
    ensures |asdu| >= 2
  {
  }

  // ---------------------------------------------------------------- what station a reads

  /** A number that is under way is always accepted, and confirms what it confirmed when it was written. */
  lemma NumberIsAccepted(x: Peer, y: Peer, yx: seq<Apdu>, xy: seq<Apdu>, t: Station)
    requires Direction(x, y, xy, yx) && yx != [] && NumberOf(yx[0]).Some?
    requires t.pending == x.station.pending && t.sendCount == x.station.sendCount && t.par == x.station.par && t.al == x.station.al
    requires t.receiveCount < MODULUS
    ensures var nr, confirmed := NumberOf(yx[0]).value, |x.sent| - |x.station.pending|;
            && nr < MODULUS && Acknowledge(t, nr).Some?
            && var u := Acknowledge(t, nr).value;
               && u == t.(pending := u.pending) && u.WindowOk()
               && confirmed <= |x.sent| - |u.pending| <= |y.delivered| - y.station.unconfirmed
               && Acks(yx[1..], |x.sent| - |u.pending|, |y.delivered| - y.station.unconfirmed)
  {
    hide Frames, Consecutive;
    var confirmed, n := |x.sent| - |x.station.pending|, |x.station.pending|;
    var nr := NumberOf(yx[0]).value;
    ModShift(|x.sent|, -n);
    assert t.WindowBase() == confirmed % MODULUS;
    assert confirmed + Distance(confirmed % MODULUS, nr) <= |x.sent|;
    AcknowledgeKeepsWindow(t, nr);
  }

  lemma ReadOther(s: System, al: AppLayerParameters, t: Station)
    requires Inv(s, al) && SameWindow(s.a.station, t) && s.ba != [] && NumberOf(s.ba[0]).None?
    ensures Inv(s.(a := s.a.(station := t), ba := s.ba[1..]), al)
  {
    hide Consecutive, LastNumber;
  }

  lemma ReadS(s: System, al: AppLayerParameters, now: nat)
    requires Inv(s, al) && s.ba != [] && s.ba[0].S? && s.a.open
    ensures Inv(StepA(s, Receive(now)), al)
  {
    hide Consecutive, LastNumber, Acknowledge, Accepts;
    NumberIsAccepted(s.a, s.b, s.ba, s.ab, s.a.station);
    var r := StepA(s, Receive(now));
    assert r.ab == s.ab && r.a.log == s.a.log && r.a.delivered == s.a.delivered && r.a.sent == s.a.sent;
  }

  /** Reading an information frame, as the receiving end of b's direction sees it. */
  lemma ReadIReceives(s: System, al: AppLayerParameters, p: Peer)
    requires Inv(s, al) && s.ba != [] && s.ba[0].I?
    requires p.delivered == s.a.delivered + [s.ba[0].asdu] && p.station.unconfirmed == s.a.station.unconfirmed + 1
    requires p.station.receiveCount == (s.a.station.receiveCount + 1) % MODULUS
    ensures Direction(s.b, p, s.ba[1..], s.ab)
    ensures s.ba[0].ns == s.a.station.receiveCount && WellFormedAsdu(al, s.ba[0].asdu)
  {
    hide Consecutive, Acks, Accepts;
    NextCount(|s.a.delivered|);
    assert WellFormedAsdu(al, s.b.sent[|s.a.delivered|]);
    assert p.delivered == s.b.sent[..|s.a.delivered| + 1];
  }

  lemma ReadI(s: System, al: AppLayerParameters, now: nat)
    requires Inv(s, al) && s.ba != [] && s.ba[0].I? && s.a.open
    ensures Inv(StepA(s, Receive(now)), al)
  {
    hide Consecutive, LastNumber, Acknowledge, Accepts, Frames;
    var t := StartT2(s.a.station, now);
    NumberIsAccepted(s.a, s.b, s.ba, s.ab, t);
    var accepted := Acknowledge(t, s.ba[0].nr).value;
    var p := s.a.(station := accepted.(receiveCount := (t.receiveCount + 1) % MODULUS, unconfirmed := t.unconfirmed + 1).ResetT3(now),
                  delivered := s.a.delivered + [s.ba[0].asdu]);
    ReadIReceives(s, al, p);
    var r := StepA(s, Receive(now));
    assert r.ab == s.ab && r.a == p by { assert s.ab + [] == s.ab && s.a.log + [] == s.a.log; }
    LastNumberCounts(s.a, r.a);
  }

  /** One more received frame, nothing written: the distance from the last N(R) grows by one. */
  lemma LastNumberCounts(p: Peer, q: Peer)
    requires Distance(LastNumber(p.log), p.station.receiveCount) == p.station.unconfirmed < MODULUS - 1
    requires q.log == p.log && q.station.receiveCount == (p.station.receiveCount + 1) % MODULUS
    ensures Distance(LastNumber(q.log), q.station.receiveCount) == p.station.unconfirmed + 1
  {
  }

  // ---------------------------------------------------------------- every step keeps the invariant

  lemma ConfirmKeepsInv(s: System, al: AppLayerParameters, now: nat)
    requires Inv(s, al)
    ensures Inv(Write(s, Confirm(s.a.station, now).station, S(s.a.station.receiveCount)), al)
  {
    hide Inv;
    WriteAck(s, al, Confirm(s.a.station, now).station);
  }

  lemma SetOpen(s: System, al: AppLayerParameters, open: bool)
    requires Inv(s, al)
    ensures Inv(s.(a := s.a.(open := open)), al)
  {
    hide Consecutive, Frames, Acks, LastNumber;
  }

  /** The state after a local event of a that writes `out` and delivers nothing. */
  function WriteAll(s: System, t: Station, out: seq<Apdu>): System {
    s.(a := s.a.(station := t, log := s.a.log + out), ab := s.ab + out)
  }

  /** Written frames may be seen one after the other. */
  lemma WriteAllByOne(s: System, t: Station, u: Station, f: Apdu, g: Apdu)
    ensures WriteAll(s, t, []) == s.(a := s.a.(station := t))
    ensures WriteAll(s, t, [f]) == Write(s, t, f)
    ensures WriteAll(s, t, [f, g]) == Write(Write(s, u, f), t, g)
  {
    assert s.ab + [f] + [g] == s.ab + [f, g] && s.a.log + [f] + [g] == s.a.log + [f, g];
    assert s.ab + [] == s.ab && s.a.log + [] == s.a.log;
  }

  lemma LocalEvent(s: System, action: Action, e: Effect)
    requires s.a.station.al.Valid() && s.a.open && e.delivered == []
    requires match action
             case ConfirmPending(now) => e == ConfirmStep(s.a.station, now)
             case Timeouts(now) => e == HandleTimeouts(s.a.station, now)
             case RequestStart(now) => e == SendStartDt(s.a.station, now)
             case RequestStop(now) => e == SendStopDt(s.a.station, now)
             case _ => false
    ensures var w := WriteAll(s, e.station, e.out);
            StepA(s, action) == w.(a := w.a.(open := if action.Timeouts? then e.ok else w.a.open))
  {
    assert s.a.delivered + [] == s.a.delivered;
  }

  lemma TimeoutsKeepInv(s: System, al: AppLayerParameters, now: nat)
    requires Inv(s, al) && s.a.open
    ensures Inv(StepA(s, Timeouts(now)), al)
  {
    hide Direction, LastNumber, AllSendable, AllWellFormed;
    var t3 := HandleT3(s.a.station, now);
    var e := HandleTimeouts(s.a.station, now);
    var middle := WriteAll(s, t3.station, t3.out);
    var ack := S(s.a.station.receiveCount);
    WriteAllByOne(s, t3.station, t3.station, U(TESTFR_ACT), ack);
    WriteAllByOne(s, e.station, t3.station, U(TESTFR_ACT), ack);
    WriteAllByOne(s, e.station, t3.station, ack, ack);
    if t3.out == [] { Retime(s, al, t3.station); } else { WriteOther(s, al, t3.station, U(TESTFR_ACT)); }
    if t3.ok && t3.station.unconfirmed > 0 && ConfirmTimeout(t3.station, now) {
      ConfirmKeepsInv(middle, al, now);
      assert e.out == if t3.out == [] then [ack] else [U(TESTFR_ACT), ack];
    } else {
      assert e.out == t3.out;
    }
    assert Inv(WriteAll(s, e.station, e.out), al);
    SetOpen(WriteAll(s, e.station, e.out), al, e.ok);
    LocalEvent(s, Timeouts(now), e);
  }

  lemma RequestStopKeepsInv(s: System, al: AppLayerParameters, now: nat)
    requires Inv(s, al) && s.a.open
    ensures Inv(StepA(s, RequestStop(now)), al)
  {
    hide Direction, LastNumber, AllSendable, AllWellFormed;
    var e := SendStopDt(s.a.station, now);
    var ack := S(s.a.station.receiveCount);
    var c := Confirm(s.a.station, now).station;
    if s.a.station.unconfirmed > 0 {
      ConfirmKeepsInv(s, al, now);
      WriteOther(Write(s, c, ack), al, e.station, U(STOPDT_ACT));
      assert e.out == [ack, U(STOPDT_ACT)];
    } else {
      WriteOther(s, al, e.station, U(STOPDT_ACT));
      assert e.out == [U(STOPDT_ACT)];
    }
    WriteAllByOne(s, e.station, c, ack, U(STOPDT_ACT));
    WriteAllByOne(s, e.station, c, U(STOPDT_ACT), ack);
    LocalEvent(s, RequestStop(now), e);
  }

  lemma ReceiveKeepsInv(s: System, al: AppLayerParameters, now: nat)
    requires Inv(s, al) && s.a.open && s.ba != []
    ensures Inv(StepA(s, Receive(now)), al)
  {
    hide Direction, LastNumber, AllWellFormed;
    match s.ba[0]
    case I(_, _, _) => ReadI(s, al, now);
    case S(_) => ReadS(s, al, now);
    case U(code) =>
      var e := CheckMessage(s.a.station, U(code), now);
      ReadOther(s, al, e.station);
      var rest := s.(a := s.a.(station := e.station), ba := s.ba[1..]);
      if e.out != [] {
        WriteOther(rest, al, e.station, e.out[0]);
        assert e.out == [e.out[0]];
      }
      assert s.a.delivered + [] == s.a.delivered && s.ab + [] == s.ab && s.a.log + [] == s.a.log;
    case _ => assert false;
  }

  lemma StepAKeepsInv(s: System, al: AppLayerParameters, action: Action)
    requires Inv(s, al)
    ensures Inv(StepA(s, action), al)
  {
    hide Direction, LastNumber, AllSendable, AllWellFormed, CheckMessage, HandleTimeouts;
    var station := s.a.station;
    assert s.ab + [] == s.ab;
    if s.a.open {
      match action
      case SendAsdu(asdu, wallClock) =>
        if WellFormedAsdu(al, asdu) && Send(station, asdu, wallClock).ok {
          assert s.(a := s.a.(open := true)) == s;
          WriteData(s, al, asdu, wallClock);
        }
      case Receive(now) =>
        if s.ba != [] { ReceiveKeepsInv(s, al, now); }
      case ConfirmPending(now) =>
        var e := ConfirmStep(station, now);
        WriteAllByOne(s, e.station, e.station, S(station.receiveCount), Ignored);
        if e.out != [] { ConfirmKeepsInv(s, al, now); }
        LocalEvent(s, action, e);
      case Timeouts(now) => TimeoutsKeepInv(s, al, now);
      case RequestStart(now) =>
        var e := SendStartDt(station, now);
        WriteOther(s, al, e.station, U(STARTDT_ACT));
        WriteAllByOne(s, e.station, e.station, U(STARTDT_ACT), Ignored);
        LocalEvent(s, action, e);
      case RequestStop(now) => RequestStopKeepsInv(s, al, now);
      case Close => SetOpen(s, al, false);
    }
  }

  // ---------------------------------------------------------------- every run

  predicate Configured(s: System) { s.a.station.al.Valid() && s.b.station.al.Valid() }

  lemma ActKeepsParameters(p: Peer, input: seq<Apdu>, action: Action)
    requires p.station.al.Valid()
    ensures Act(p, input, action).peer.station.al == p.station.al && Act(p, input, action).peer.station.par == p.station.par
  {
    hide Accepts, Distance;
  }

  function Run(s: System, steps: seq<Step>): (r: System)
    requires Configured(s)
    ensures Configured(r)
  {
    if steps == [] then s
    else
      var before, step := Run(s, steps[..|steps| - 1]), steps[|steps| - 1];
      ActKeepsParameters(before.a, before.ba, step.action);
      ActKeepsParameters(before.b, before.ab, step.action);
      Next(before, step)
  }

  lemma NextKeepsInv(s: System, al: AppLayerParameters, step: Step)
    requires Inv(s, al)
    ensures Inv(Next(s, step), al)
  {
    hide Direction, PeerOk;
    if step.byA { StepAKeepsInv(s, al, step.action); } else { StepAKeepsInv(Swap(s), al, step.action); }
  }

  predicate Windows(par: Parameters) { 1 <= par.k <= 32767 }

  lemma {:induction false} Reachable(parA: Parameters, parB: Parameters, al: AppLayerParameters, now: nat, steps: seq<Step>)
    requires Windows(parA) && Windows(parB) && al.Valid()
    ensures var r := Run(Initial(parA, parB, al, now), steps);
            Inv(r, al) && r.a.station.par == parA && r.b.station.par == parB
  {
    if steps != [] {
      hide Inv, Next;
      Reachable(parA, parB, al, now, steps[..|steps| - 1]);
      var before, step := Run(Initial(parA, parB, al, now), steps[..|steps| - 1]), steps[|steps| - 1];
      NextKeepsInv(before, al, step);
      NextKeepsParameters(before, step);
    }
  }

  lemma NextKeepsParameters(s: System, step: Step)
    requires Configured(s)
    ensures var t := Next(s, step); t.a.station.par == s.a.station.par && t.b.station.par == s.b.station.par
  {
    hide Act;
    ActKeepsParameters(s.a, s.ba, step.action);
    ActKeepsParameters(s.b, s.ab, step.action);
  }

  /** In no run does a station meet a sequence error, a rejected N(R) or an ASDU it cannot parse, and what each
      application has received is always a prefix of what the other one sent. */
  lemma NoRunFails(parA: Parameters, parB: Parameters, al: AppLayerParameters, now: nat, steps: seq<Step>)
    requires Windows(parA) && Windows(parB) && al.Valid()
    ensures var r := Run(Initial(parA, parB, al, now), steps);
            && !r.a.fault && !r.b.fault
            && r.b.delivered <= r.a.sent && r.a.delivered <= r.b.sent
  {
    Reachable(parA, parB, al, now, steps);
  }

  /** The window of p holds its last sent frames, at most k of them, numbered up to sendCount. */
  ghost predicate HoldsLastSent(p: Peer, k: nat) {
    var unheld := |p.sent| - |p.station.pending|;
    && 0 <= unheld && |p.station.pending| <= k
    && (forall i | 0 <= i < |p.station.pending| :: p.station.pending[i].seqNo == (unheld + i + 1) % MODULUS)
  }

  /** It does in every reachable state, at both stations. */
  lemma WindowHoldsLastSent(parA: Parameters, parB: Parameters, al: AppLayerParameters, now: nat, steps: seq<Step>)
    requires Windows(parA) && Windows(parB) && al.Valid()
    ensures var r := Run(Initial(parA, parB, al, now), steps);
            HoldsLastSent(r.a, parA.k) && HoldsLastSent(r.b, parB.k)
  {
    hide Run;
    Reachable(parA, parB, al, now, steps);
    var r := Run(Initial(parA, parB, al, now), steps);
    WindowOfDirection(r.a, r.b, r.ab, r.ba);
    WindowOfDirection(r.b, r.a, r.ba, r.ab);
  }

  lemma WindowOfDirection(x: Peer, y: Peer, xy: seq<Apdu>, yx: seq<Apdu>)
    requires Direction(x, y, xy, yx)
    ensures HoldsLastSent(x, x.station.par.k)
  {
    hide Frames, Acks;
    forall i | 0 <= i < |x.station.pending|
      ensures x.station.pending[i].seqNo == (|x.sent| - |x.station.pending| + i + 1) % MODULUS
    {
      ModShift(|x.sent|, -|x.station.pending|);
      ModShift(|x.sent| - |x.station.pending|, 1 + i);
    }
  }

  /** y's unconfirmed count is the number of frames received since the last N(R) it transmitted, in either format; and
      frames of x are either confirmed, pending at x, or both pending and received. */
  predicate Accounted(x: Peer, y: Peer) {
    && y.station.unconfirmed == Distance(LastNumber(y.log), y.station.receiveCount)
    && y.station.receiveCount == |y.delivered| % MODULUS && x.station.sendCount == |x.sent| % MODULUS
    && |x.sent| - |x.station.pending| <= |y.delivered| - y.station.unconfirmed <= |y.delivered| <= |x.sent|
  }

  lemma Accounting(parA: Parameters, parB: Parameters, al: AppLayerParameters, now: nat, steps: seq<Step>)
    requires Windows(parA) && Windows(parB) && al.Valid()
    ensures var r := Run(Initial(parA, parB, al, now), steps);
            Accounted(r.a, r.b) && Accounted(r.b, r.a)
  {
    hide Run, LastNumber, Frames, Acks;
    Reachable(parA, parB, al, now, steps);
  }

  // ---------------------------------------------------------------- progress

  /** The confirm step behind a received message leaves fewer than w frames unconfirmed. */
  lemma LoopConfirms(s: Station, now: nat)
    requires s.par.w > 0
    ensures ConfirmStep(s, now).station.unconfirmed < s.par.w
  {
  }

  /** Whether a station has read a message and not yet come to the confirm step of its connection loop. */
  function Awaits(awaiting: bool, action: Action): bool {
    if action.Receive? then true else if action.ConfirmPending? then false else awaiting
  }

  /** Between reading a message and the confirm step the connection loop does nothing else; the application may send
      and start or stop. */
  predicate InLoop(awaiting: bool, action: Action) {
    awaiting ==> action.ConfirmPending? || action.SendAsdu? || action.RequestStart? || action.RequestStop?
  }

  function Awaiting(steps: seq<Step>, byA: bool): bool {
    if steps == [] then false
    else
      var before, step := Awaiting(steps[..|steps| - 1], byA), steps[|steps| - 1];
      if step.byA == byA then Awaits(before, step.action) else before
  }

  /** One of the two stations runs the connection loop. */
  predicate Looped(steps: seq<Step>, byA: bool) {
    steps == []
    || (&& Looped(steps[..|steps| - 1], byA)
        && var step := steps[|steps| - 1];
           step.byA == byA ==> InLoop(Awaiting(steps[..|steps| - 1], byA), step.action))
  }

  /** Fewer than w frames are unconfirmed, but for one that is about to be confirmed. */
  predicate LoopBound(p: Peer, awaiting: bool) {
    if awaiting then
      p.station.unconfirmed <= p.station.par.w && (p.station.unconfirmed == p.station.par.w ==> p.open)
    else p.station.unconfirmed < p.station.par.w
  }

  lemma ActKeepsLoopBound(p: Peer, input: seq<Apdu>, action: Action, awaiting: bool)
    requires p.station.al.Valid() && p.station.par.w > 0 && LoopBound(p, awaiting) && InLoop(awaiting, action)
    requires !Act(p, input, action).peer.fault
    ensures LoopBound(Act(p, input, action).peer, Awaits(awaiting, action))
  {
    hide Accepts, Distance, T1Expired, ConfirmTimeout;
    if p.open {
      match action
      case Receive(now) =>
        if input != [] { MessageCounts(p.station, input[0], now); }
      case _ =>
    }
  }

  /** A message raises the unconfirmed count by at most one. */
  lemma MessageCounts(s: Station, f: Apdu, now: nat)
    requires s.al.Valid()
    ensures CheckMessage(s, f, now).station.unconfirmed <= s.unconfirmed + 1
  {
    hide Accepts, Distance;
  }

  /** In every run in which a station keeps to its connection loop, it has fewer than w frames unconfirmed after each
      iteration. */
  lemma {:induction false} LoopKeepsBound(parA: Parameters, parB: Parameters, al: AppLayerParameters, now: nat,
                                          steps: seq<Step>, byA: bool)
    requires Windows(parA) && Windows(parB) && al.Valid() && Looped(steps, byA)
    requires (if byA then parA else parB).w > 0
    ensures var r := Run(Initial(parA, parB, al, now), steps);
            LoopBound(if byA then r.a else r.b, Awaiting(steps, byA))
  {
    var s0 := Initial(parA, parB, al, now);
    if steps == [] {
    } else {
      var front, step := steps[..|steps| - 1], steps[|steps| - 1];
      hide Inv, Act, LoopBound;
      LoopKeepsBound(parA, parB, al, now, front, byA);
      Reachable(parA, parB, al, now, front);
      NoRunFails(parA, parB, al, now, steps);
      var before := Run(s0, front);
      if step.byA == byA {
        if byA {
          ActKeepsLoopBound(before.a, before.ba, step.action, Awaiting(front, byA));
        } else {
          ActKeepsLoopBound(before.b, before.ab, step.action, Awaiting(front, byA));
        }
      }
    }
  }

  /** Everything x sent has been delivered, and x waits for exactly the frames y has not confirmed. */
  predicate Settled(x: Peer, y: Peer) {
    y.delivered == x.sent && |x.station.pending| == y.station.unconfirmed
  }

  /** Once both channels have drained, everything sent has been delivered in both directions, and each sender waits for
      exactly the frames its peer has not confirmed. */
  lemma DrainedChannelsSettle(parA: Parameters, parB: Parameters, al: AppLayerParameters, now: nat, steps: seq<Step>)
    requires Windows(parA) && Windows(parB) && al.Valid()
    requires var r := Run(Initial(parA, parB, al, now), steps); r.ab == [] && r.ba == []
    ensures var r := Run(Initial(parA, parB, al, now), steps);
            Settled(r.a, r.b) && Settled(r.b, r.a)
  {
    Reachable(parA, parB, al, now, steps);
  }

  /** With 0 < w <= k no sender is ever stuck: once both channels have drained and the peer is through its connection
      loop, the window has room. */
  lemma DrainedChannelsLeaveRoom(parA: Parameters, parB: Parameters, al: AppLayerParameters, now: nat, steps: seq<Step>,
                                 asdu: seq<byte>, wallClock: nat)
    requires Windows(parA) && Windows(parB) && al.Valid()
    requires var r := Run(Initial(parA, parB, al, now), steps); r.ab == [] && r.ba == []
    ensures var r := Run(Initial(parA, parB, al, now), steps);
            && (0 < parB.w <= parA.k && Looped(steps, false) && !Awaiting(steps, false) ==>
                  Send(r.a.station, asdu, wallClock).ok)
            && (0 < parA.w <= parB.k && Looped(steps, true) && !Awaiting(steps, true) ==>
                  Send(r.b.station, asdu, wallClock).ok)
  {
    hide Run, Looped, Awaiting;
    DrainedChannelsSettle(parA, parB, al, now, steps);
    Reachable(parA, parB, al, now, steps);
    if 0 < parB.w && Looped(steps, false) {
      LoopKeepsBound(parA, parB, al, now, steps, false);
    }
    if 0 < parA.w && Looped(steps, true) {
      LoopKeepsBound(parA, parB, al, now, steps, true);
    }
  }

  /** On the wire a channel's frames are octets; whatever the receive buffer held before, they decode to themselves. */
  lemma OctetsCarryFrames(parA: Parameters, parB: Parameters, al: AppLayerParameters, now: nat, steps: seq<Step>,
                          f: Apdu, leftover: seq<byte>)
    requires Windows(parA) && Windows(parB) && al.Valid()
    requires var r := Run(Initial(parA, parB, al, now), steps); f in r.ab || f in r.ba
    ensures Sendable(f) && Decode(Encode(f) + leftover, |Encode(f)|) == f
  {
    Reachable(parA, parB, al, now, steps);
    DecodeEncode(f, leftover);
  }
}
