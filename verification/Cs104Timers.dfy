// Timer guarantees of one connection under any interleaving of received frames, sent ASDUs, loop steps and start/stop
// requests, when handleTimeouts runs at least every d milliseconds: T2 bounds how long a received frame stays
// unacknowledged, T3 and the limit of three test frames bound how long a silent peer goes unnoticed.
module Cs104Timers {
  import opened Bytes
  import opened Asdu
  import opened Cs104Frame
  import opened Cs104Station

  datatype Event =
    | Arrive(frame: Apdu)
    | Poll                                       // handleTimeouts
    | Transmit(asdu: seq<byte>, wallClock: nat)
    | LoopStep                                   // the w-step behind a received message
    | StartRequest
    | StopRequest

  datatype Timed = Timed(now: nat, event: Event)

  /** A connection with what an observer remembers: arrival times of the frames not yet acknowledged, the last poll,
      the present, and the TESTFR_ACT frames written since the last TESTFR_CON came in. */
  datatype Watched = Watched(station: Station, arrivals: seq<nat>, lastPoll: nat, clock: nat, tests: nat, up: bool)

  function Respond(s: Station, t: Timed): Effect
    requires s.al.Valid()
  {
    match t.event
    case Arrive(frame) => CheckMessage(s, frame, t.now)
    case Poll => HandleTimeouts(s, t.now)
    case Transmit(asdu, wallClock) => Send(s, asdu, wallClock).(ok := true)
    case LoopStep => ConfirmStep(s, t.now)
    case StartRequest => SendStartDt(s, t.now)
    case StopRequest => SendStopDt(s, t.now)
  }

  function CountTests(out: seq<Apdu>): nat {
    if out == [] then 0 else CountTests(out[1..]) + if out[0] == U(TESTFR_ACT) then 1 else 0
  }

  /** An acknowledgement, in either format, covers everything received; otherwise a new frame queues up behind. */
  function Arrivals(arrivals: seq<nat>, e: Effect, now: nat): seq<nat> {
    if (exists f <- e.out :: f.I? || f.S?) then [] else if e.delivered != [] then arrivals + [now] else arrivals
  }

  function Tick(w: Watched, t: Timed): Watched
    requires w.station.al.Valid()
  {
    if !w.up then w
    else
      var e := Respond(w.station, t);
      Watched(e.station, Arrivals(w.arrivals, e, t.now), if t.event.Poll? then t.now else w.lastPoll, t.now,
              (if t.event == Arrive(U(TESTFR_CON)) then 0 else w.tests) + CountTests(e.out), e.ok)
  }

  function Run(w: Watched, events: seq<Timed>): (r: Watched)
    requires w.station.al.Valid()
    ensures r.station.al == w.station.al && r.station.par == w.station.par
  {
    if events == [] then w
    else
      var before := Run(w, events[..|events| - 1]);
      TickKeepsParameters(before, events[|events| - 1]);
      Tick(before, events[|events| - 1])
  }

  lemma TickKeepsParameters(w: Watched, t: Timed)
    requires w.station.al.Valid()
    ensures Tick(w, t).station.al == w.station.al && Tick(w, t).station.par == w.station.par
  {
    hide Accepts, Arrivals, CountTests;
  }

  /** Time does not run backwards, and no event happens more than d after the last poll. */
  predicate Scheduled(w: Watched, events: seq<Timed>, d: nat)
    requires w.station.al.Valid()
  {
    events == []
    || (&& Scheduled(w, events[..|events| - 1], d)
        && var before := Run(w, events[..|events| - 1]);
           before.clock <= events[|events| - 1].now <= before.lastPoll + d)
  }

  function Begin(par: Parameters, al: AppLayerParameters, now: nat): Watched {
    Watched(Start(par, al, now), [], now, now, 0, true)
  }

  // ---------------------------------------------------------------- T2

  ghost predicate T2Inv(w: Watched) {
    var s := w.station;
    && w.lastPoll <= w.clock && s.al.Valid()
    && (w.up ==>
          && |w.arrivals| == s.unconfirmed && (s.t2Trigger <==> s.unconfirmed > 0)
          && (forall i | 0 <= i < |w.arrivals| :: w.arrivals[0] <= w.arrivals[i] <= w.clock)
          && (s.unconfirmed > 0 ==>
                s.lastConfirmation == w.arrivals[0] && w.lastPoll <= w.arrivals[0] + s.par.t2 * 1000))
  }

  lemma TickKeepsT2(w: Watched, t: Timed)
    requires T2Inv(w) && w.clock <= t.now
    ensures T2Inv(Tick(w, t))
  {
    hide Respond, CountTests, Arrivals;
    if w.up {
      T2Effects(w.station, t);
      ArrivalsAfter(w.arrivals, Respond(w.station, t), t.now);
    }
  }

  predicate Acknowledges(out: seq<Apdu>) { exists f <- out :: f.I? || f.S? }

  lemma ArrivalsAfter(arrivals: seq<nat>, e: Effect, now: nat)
    ensures Arrivals(arrivals, e, now)
         == if Acknowledges(e.out) then [] else if e.delivered != [] then arrivals + [now] else arrivals
  {
  }

  /** What one event does to the unconfirmed count and T2: an N(R) written resets both, a delivered frame counts and
      starts T2 if it was not running, anything else leaves them; and a poll behind T2 always writes one. */
  ghost predicate T2Effect(s: Station, t: Timed, e: Effect) {
    var u := e.station;
    && u.par == s.par && u.al == s.al
    && (e.ok ==>
          if Acknowledges(e.out) then u.unconfirmed == 0 && !u.t2Trigger
          else if e.delivered != [] then
            && t.event.Arrive? && u.unconfirmed == s.unconfirmed + 1 && u.t2Trigger
            && u.lastConfirmation == if s.t2Trigger then s.lastConfirmation else t.now
          else
            && u.unconfirmed == s.unconfirmed && u.t2Trigger == s.t2Trigger && u.lastConfirmation == s.lastConfirmation
            && (t.event.Poll? && u.unconfirmed > 0 ==> !ConfirmTimeout(s, t.now)))
  }

  lemma T2EffectOfArrival(s: Station, now: nat, frame: Apdu)
    requires s.al.Valid() && (s.t2Trigger <==> s.unconfirmed > 0)
    ensures T2Effect(s, Timed(now, Arrive(frame)), CheckMessage(s, frame, now))
  {
    hide Accepts, Distance;
  }

  lemma T2EffectOfPoll(s: Station, now: nat)
    requires s.al.Valid() && (s.t2Trigger <==> s.unconfirmed > 0)
    ensures T2Effect(s, Timed(now, Poll), HandleTimeouts(s, now))
  {
    hide T1Expired;
    var e, ack := HandleTimeouts(s, now), S(s.receiveCount);
    var t3 := HandleT3(s, now);
    var confirms := t3.ok && s.unconfirmed > 0 && ConfirmTimeout(s, now);
    assert e.out == t3.out + if confirms then [ack] else [];
    assert confirms ==> ack in e.out;
  }

  lemma T2Effects(s: Station, t: Timed)
    requires s.al.Valid() && (s.t2Trigger <==> s.unconfirmed > 0)
    ensures T2Effect(s, t, Respond(s, t))
  {
    hide CheckMessage, HandleTimeouts;
    var e, ack := Respond(s, t), S(s.receiveCount);
    match t.event
    case Arrive(frame) =>
      T2EffectOfArrival(s, t.now, frame);
    case Poll =>
      T2EffectOfPoll(s, t.now);
    case StopRequest =>
      assert s.unconfirmed > 0 ==> ack in e.out;
    case LoopStep =>
      assert e.out != [] ==> ack in e.out;
    case Transmit(_, _) =>
      assert e.out != [] ==> e.out[0] in e.out;
    case StartRequest =>
  }

  lemma {:induction false} RunKeepsT2(w: Watched, events: seq<Timed>, d: nat)
    requires T2Inv(w) && Scheduled(w, events, d)
    ensures T2Inv(Run(w, events))
  {
    if events != [] {
      hide T2Inv, Tick;
      assert w.station.al.Valid();
      RunKeepsT2(w, events[..|events| - 1], d);
      TickKeepsT2(Run(w, events[..|events| - 1]), events[|events| - 1]);
    }
  }

  /** The T2 timer runs since the arrival of the oldest unacknowledged frame, and no frame is ever left unacknowledged
      for longer than T2 + d. */
  lemma AcknowledgedInTime(par: Parameters, al: AppLayerParameters, start: nat, events: seq<Timed>, d: nat, i: nat)
    requires al.Valid() && Scheduled(Begin(par, al, start), events, d)
    ensures var w := Run(Begin(par, al, start), events);
            w.up && i < |w.arrivals| ==>
              && w.station.lastConfirmation == w.arrivals[0] <= w.arrivals[i]
              && |w.arrivals| == w.station.unconfirmed
              && w.clock <= w.arrivals[i] + par.t2 * 1000 + d
  {
    RunKeepsT2(Begin(par, al, start), events, d);
    ClockNearPoll(Begin(par, al, start), events, d);
  }

  lemma {:induction false} ClockNearPoll(w: Watched, events: seq<Timed>, d: nat)
    requires w.station.al.Valid() && Scheduled(w, events, d) && w.clock <= w.lastPoll + d && w.lastPoll <= w.clock
    ensures var r := Run(w, events); r.up ==> r.lastPoll <= r.clock <= r.lastPoll + d
  {
    if events != [] {
      hide Respond, Arrivals, CountTests;
      ClockNearPoll(w, events[..|events| - 1], d);
    }
  }

  // ---------------------------------------------------------------- T3

  ghost predicate T3Inv(w: Watched) {
    var s := w.station;
    && s.al.Valid() && w.lastPoll <= w.clock && w.tests <= 3
    && (w.up ==>
          && w.tests == s.outstandingTestFr <= 3
          && w.lastPoll <= s.nextT3 <= w.clock + s.par.t3 * 1000)
  }

  lemma CountTestsOf(f: Apdu, g: Apdu)
    ensures CountTests([]) == 0
    ensures CountTests([f]) == if f == U(TESTFR_ACT) then 1 else 0
    ensures CountTests([f, g]) == (if f == U(TESTFR_ACT) then 1 else 0) + if g == U(TESTFR_ACT) then 1 else 0
  {
    assert [f][1..] == [] && [g][1..] == [] && [f, g][1..] == [g];
    assert CountTests([g]) == if g == U(TESTFR_ACT) then 1 else 0;
  }

  lemma TestsWrittenByPoll(s: Station, now: nat)
    requires s.al.Valid()
    ensures CountTests(HandleTimeouts(s, now).out) == if now > s.nextT3 && s.outstandingTestFr <= 2 then 1 else 0
  {
    hide CountTests, T1Expired;
    var e, ack := HandleTimeouts(s, now), S(s.receiveCount);
    CountTestsOf(U(TESTFR_ACT), ack);
    CountTestsOf(ack, ack);
    var tests := now > s.nextT3 && s.outstandingTestFr <= 2;
    var confirms := HandleT3(s, now).ok && s.unconfirmed > 0 && ConfirmTimeout(s, now);
    assert e.out == if tests then (if confirms then [U(TESTFR_ACT), ack] else [U(TESTFR_ACT)]) else if confirms then [ack] else [];
  }

  /** Test frames are written by a poll behind T3 only. */
  lemma TestsWritten(s: Station, t: Timed)
    requires s.al.Valid()
    ensures var e := Respond(s, t);
            CountTests(e.out) == if t.event.Poll? && t.now > s.nextT3 && s.outstandingTestFr <= 2 then 1 else 0
  {
    hide Accepts, Distance, CountTests, HandleTimeouts;
    var e, ack := Respond(s, t), S(s.receiveCount);
    match t.event
    case Poll =>
      TestsWrittenByPoll(s, t.now);
    case StopRequest =>
      CountTestsOf(ack, U(STOPDT_ACT));
      CountTestsOf(U(STOPDT_ACT), ack);
      assert e.out == if s.unconfirmed > 0 then [ack, U(STOPDT_ACT)] else [U(STOPDT_ACT)];
      assert CountTests(e.out) == 0;
    case _ =>
      CountTestsOf(if e.out != [] then e.out[0] else ack, ack);
      assert e.out == if e.out != [] then [e.out[0]] else [];
      assert CountTests(e.out) == 0;
  }

  /** What one event does to T3 and the test-frame counter. */
  ghost predicate T3Effect(s: Station, t: Timed, e: Effect) {
    var u := e.station;
    && u.par == s.par && u.al == s.al
    && (e.ok ==>
          if t.event.Arrive? then
            && u.nextT3 == t.now + s.par.t3 * 1000
            && u.outstandingTestFr == if t.event.frame == U(TESTFR_CON) then 0 else s.outstandingTestFr
          else if t.event.Poll? && t.now > s.nextT3 then
            s.outstandingTestFr <= 2 && u.nextT3 == t.now + s.par.t3 * 1000 && u.outstandingTestFr == s.outstandingTestFr + 1
          else u.nextT3 == s.nextT3 && u.outstandingTestFr == s.outstandingTestFr)
  }

  lemma T3EffectOfArrival(s: Station, now: nat, frame: Apdu)
    requires s.al.Valid()
    ensures T3Effect(s, Timed(now, Arrive(frame)), CheckMessage(s, frame, now))
  {
    hide Accepts, Distance;
  }

  lemma T3EffectOfPoll(s: Station, now: nat)
    requires s.al.Valid()
    ensures T3Effect(s, Timed(now, Poll), HandleTimeouts(s, now))
  {
    hide T1Expired, ConfirmTimeout;
  }

  lemma T3Effects(s: Station, t: Timed)
    requires s.al.Valid()
    ensures T3Effect(s, t, Respond(s, t))
  {
    hide CheckMessage, HandleTimeouts;
    match t.event
    case Arrive(frame) => T3EffectOfArrival(s, t.now, frame);
    case Poll => T3EffectOfPoll(s, t.now);
    case _ =>
  }

  lemma TickKeepsT3(w: Watched, t: Timed)
    requires T3Inv(w) && w.clock <= t.now
    ensures T3Inv(Tick(w, t))
    ensures Tick(w, t).up && !t.event.Arrive? ==>
              var s, u := w.station, Tick(w, t).station;
              || (u.nextT3 == s.nextT3 && u.outstandingTestFr == s.outstandingTestFr)
              || (t.event.Poll? && t.now > s.nextT3 && u.nextT3 == t.now + s.par.t3 * 1000
                  && u.outstandingTestFr == s.outstandingTestFr + 1)
  {
    hide Respond, Arrivals, CountTests;
    TestsWritten(w.station, t);
    T3Effects(w.station, t);
  }

  lemma {:induction false} RunKeepsT3(w: Watched, events: seq<Timed>, d: nat)
    requires T3Inv(w) && Scheduled(w, events, d)
    ensures T3Inv(Run(w, events))
  {
    if events != [] {
      hide T3Inv, Tick;
      assert w.station.al.Valid();
      RunKeepsT3(w, events[..|events| - 1], d);
      TickKeepsT3(Run(w, events[..|events| - 1]), events[|events| - 1]);
    }
  }

  predicate Silent(events: seq<Timed>) {
    forall i | 0 <= i < |events| :: !events[i].event.Arrive?
  }

  /** The bound that silence keeps: n further test frames were written and T3 has moved by at most n * (T3 + d). */
  ghost predicate Advanced(w: Watched, r: Watched, d: nat) {
    && r.station.outstandingTestFr >= w.station.outstandingTestFr
    && r.station.nextT3 <= w.station.nextT3
         + (r.station.outstandingTestFr - w.station.outstandingTestFr) * (w.station.par.t3 * 1000 + d)
  }

  lemma OneMoreTest(w: Watched, before: Watched, after: Watched, d: nat)
    requires Advanced(w, before, d)
    requires after.station.outstandingTestFr == before.station.outstandingTestFr + 1
    requires after.station.nextT3 <= before.station.nextT3 + w.station.par.t3 * 1000 + d
    ensures Advanced(w, after, d)
  {
    var n, c := before.station.outstandingTestFr - w.station.outstandingTestFr, w.station.par.t3 * 1000 + d;
    assert (n + 1) * c == n * c + c;
  }

  /** While nothing arrives, each further test frame buys at most T3 + d. */
  lemma {:induction false} SilenceAdvancesT3(w: Watched, events: seq<Timed>, d: nat)
    requires T3Inv(w) && w.up && Scheduled(w, events, d) && Silent(events)
    ensures var r := Run(w, events); r.up ==> Advanced(w, r, d)
  {
    assert w.station.al.Valid();
    hide T3Inv, Tick;
    if events != [] {
      hide Advanced;
      var front, t := events[..|events| - 1], events[|events| - 1];
      assert Silent(front);
      SilenceAdvancesT3(w, front, d);
      RunKeepsT3(w, front, d);
      var before := Run(w, front);
      TickKeepsT3(before, t);
      DownStaysDown(before, t);
      LastPollBound(before);
      var after := Tick(before, t);
      if after.up {
        if after.station.outstandingTestFr == before.station.outstandingTestFr {
          AdvancedSame(w, before, after, d);
        } else {
          OneMoreTest(w, before, after, d);
        }
      }
    }
  }

  lemma AdvancedSame(w: Watched, before: Watched, after: Watched, d: nat)
    requires Advanced(w, before, d) && after.station.nextT3 == before.station.nextT3
    requires after.station.outstandingTestFr == before.station.outstandingTestFr
    ensures Advanced(w, after, d)
  {
  }

  lemma DownStaysDown(w: Watched, t: Timed)
    requires w.station.al.Valid()
    ensures !w.up ==> !Tick(w, t).up
  {
  }

  lemma LastPollBound(w: Watched)
    requires T3Inv(w)
    ensures w.up ==> w.lastPoll <= w.station.nextT3
  {
  }

  /** From any reachable state: if no frame arrives any more, the connection is given up within 4 * (T3 + d). */
  lemma DeadPeerIsDetected(par: Parameters, al: AppLayerParameters, start: nat, before: seq<Timed>, silence: seq<Timed>, d: nat)
    requires al.Valid() && Scheduled(Begin(par, al, start), before, d)
    requires var w := Run(Begin(par, al, start), before); Scheduled(w, silence, d) && Silent(silence)
    ensures var w := Run(Begin(par, al, start), before);
            var r := Run(w, silence);
            w.up && r.up ==> r.clock <= w.clock + 4 * (par.t3 * 1000 + d)
  {
    hide Tick, Scheduled;
    var b := Begin(par, al, start);
    RunKeepsT3(b, before, d);
    ClockNearPoll(b, before, d);
    var w := Run(b, before);
    if w.up {
      RunKeepsT3(w, silence, d);
      SilenceAdvancesT3(w, silence, d);
      ClockNearPoll(w, silence, d);
      var r := Run(w, silence);
      if r.up {
        assert 0 <= r.station.outstandingTestFr - w.station.outstandingTestFr <= 3;
        FourSteps(r.station.outstandingTestFr - w.station.outstandingTestFr, par.t3 * 1000 + d);
      }
    }
  }

  lemma FourSteps(n: nat, c: nat)
    requires n <= 3
    ensures n * c <= 3 * c
  {
  }

  // ---------------------------------------------------------------- T1 of a test frame

  /** Nothing arrives, and the application starts or stops no data transfer: that would restart T1. */
  predicate Quiet(events: seq<Timed>) {
    forall i | 0 <= i < |events| :: !(events[i].event.Arrive? || events[i].event.StartRequest? || events[i].event.StopRequest?)
  }

  /** A poll behind T3 starts T1 anew, nothing else in a quiet time does, and a poll behind T1 ends the connection. */
  lemma T1OfUnnumbered(s: Station, t: Timed)
    requires s.al.Valid() && Quiet([t])
    ensures var e := Respond(s, t);
            e.ok ==>
              && e.station.uMessageTimeout
                 == (if t.event.Poll? && t.now > s.nextT3 then t.now + s.par.t1 * 1000 else s.uMessageTimeout)
              && (t.event.Poll? ==> e.station.uMessageTimeout == 0 || t.now <= e.station.uMessageTimeout)
  {
    hide ConfirmTimeout, CheckMessage;
    assert Quiet([t]) ==> ![t][0].event.Arrive? && ![t][0].event.StartRequest? && ![t][0].event.StopRequest?;
  }

  /** While it is quiet behind w, the first test frame is still to come, or T1 of the test frame is running and ends
      before the next one is due. */
  predicate AwaitsTest(w: Watched, r: Watched, d: nat) {
    var s, t1, t3 := r.station, w.station.par.t1 * 1000, w.station.par.t3 * 1000;
    || (s.nextT3 == w.station.nextT3 && r.lastPoll <= s.nextT3)
    || (&& s.uMessageTimeout != 0 && s.uMessageTimeout + t3 == s.nextT3 + t1
        && s.nextT3 <= w.station.nextT3 + d + t3 && r.lastPoll <= s.uMessageTimeout)
  }

  lemma TickAwaitsTest(w: Watched, before: Watched, t: Timed, d: nat)
    requires before.station.al.Valid() && before.station.par == w.station.par && Quiet([t])
    requires AwaitsTest(w, before, d) && before.up && t.now <= before.lastPoll + d
    requires w.station.par.t1 * 1000 + d <= w.station.par.t3 * 1000
    ensures Tick(before, t).up ==> AwaitsTest(w, Tick(before, t), d)
  {
    assert ![t][0].event.Arrive?;
    T1OfUnnumbered(before.station, t);
    T3Effects(before.station, t);
    hide Respond, Arrivals, CountTests, Quiet;
  }

  lemma {:induction false} QuietAwaitsTest(w: Watched, events: seq<Timed>, d: nat)
    requires w.station.al.Valid() && w.up && w.lastPoll <= w.station.nextT3
    requires Scheduled(w, events, d) && Quiet(events)
    requires w.station.par.t1 * 1000 + d <= w.station.par.t3 * 1000
    ensures var r := Run(w, events); r.up ==> AwaitsTest(w, r, d)
  {
    if events != [] {
      hide AwaitsTest, Tick;
      var front, t := events[..|events| - 1], events[|events| - 1];
      assert Quiet(front) && Quiet([t]);
      QuietAwaitsTest(w, front, d);
      var before := Run(w, front);
      DownStaysDown(before, t);
      if before.up {
        TickAwaitsTest(w, before, t, d);
      }
    } else {
      assert Run(w, events) == w;
    }
  }

  /** T1 supervises the test frame: if it ends before the next test frame is due, then from any reachable state a silent
      peer is given up within T3 + T1 + 2 d. */
  lemma DeadPeerIsDetectedByT1(par: Parameters, al: AppLayerParameters, start: nat, before: seq<Timed>, silence: seq<Timed>,
                               d: nat)
    requires al.Valid() && Scheduled(Begin(par, al, start), before, d) && par.t1 * 1000 + d <= par.t3 * 1000
    requires var w := Run(Begin(par, al, start), before); Scheduled(w, silence, d) && Quiet(silence)
    ensures var w := Run(Begin(par, al, start), before);
            var r := Run(w, silence);
            w.up && r.up ==> r.clock <= w.clock + par.t3 * 1000 + par.t1 * 1000 + 2 * d
  {
    hide Tick, Scheduled, Quiet;
    var b := Begin(par, al, start);
    RunKeepsT3(b, before, d);
    ClockNearPoll(b, before, d);
    var w := Run(b, before);
    if w.up {
      QuietAwaitsTest(w, silence, d);
      ClockNearPoll(w, silence, d);
    }
  }

  /** At most three TESTFR_ACT go out between two TESTFR_CON, the event that takes the connection down included. */
  lemma AtMostThreeTests(par: Parameters, al: AppLayerParameters, start: nat, events: seq<Timed>, d: nat)
    requires al.Valid() && Scheduled(Begin(par, al, start), events, d)
    ensures var w := Run(Begin(par, al, start), events);
            w.tests <= 3 && (w.up ==> w.tests == w.station.outstandingTestFr)
  {
    RunKeepsT3(Begin(par, al, start), events, d);
  }
}
