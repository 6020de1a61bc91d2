// When exactly one CS104 connection acknowledges, tests the link and gives up (handleTimeouts in cs104_connection.c), in
// terms of what happened on it: the other half of the bounds of Cs104Timers.dfy.
module Cs104Deadlines {
  import opened Bytes
  import opened Asdu
  import opened Cs104Frame
  import opened Cs104Station
  import opened Cs104Timers
  import opened Wrappers

  /** What an observer notes: when the peer was last heard or tested, when the last activation was written to which no
      unnumbered frame has come in since, and when each ASDU was sent. */
  datatype Diary = Diary(quietSince: nat, asked: Option<nat>, sentTimes: seq<nat>)

  function Note(diary: Diary, t: Timed, e: Effect): Diary {
    var tested := U(TESTFR_ACT) in e.out;
    Diary(if t.event.Arrive? || tested then t.now else diary.quietSince,
          if t.event.Arrive? && t.event.frame.U? then None
          else if tested || t.event.StartRequest? || t.event.StopRequest? then Some(t.now)
          else diary.asked,
          if t.event.Transmit? && e.out != [] then diary.sentTimes + [t.event.wallClock] else diary.sentTimes)
  }

  function DiaryOf(b: Watched, start: nat, events: seq<Timed>): Diary
    requires b.station.al.Valid()
  {
    if events == [] then Diary(start, None, [])
    else
      var front, t := events[..|events| - 1], events[|events| - 1];
      var w := Run(b, front);
      if w.up then Note(DiaryOf(b, start, front), t, Respond(w.station, t)) else DiaryOf(b, start, front)
  }

  /** The window holds the last ASDUs sent, with their send times. */
  predicate Held(pending: seq<SentAsdu>, sentTimes: seq<nat>) {
    && |pending| <= |sentTimes|
    && forall i | 0 <= i < |pending| :: pending[i].sentTime == sentTimes[|sentTimes| - |pending| + i]
  }

  predicate TimersKept(w: Watched, diary: Diary) {
    var s := w.station;
    && w.tests == s.outstandingTestFr <= 3
    && s.nextT3 == diary.quietSince + s.par.t3 * 1000
    && s.uMessageTimeout == match diary.asked case None => 0 case Some(at) => at + s.par.t1 * 1000
  }

  /** The timers hold what the diary says. */
  predicate Kept(w: Watched, diary: Diary) {
    w.station.al.Valid() && (w.up ==> TimersKept(w, diary) && Held(w.station.pending, diary.sentTimes))
  }

  /** What one event does to the timer of unnumbered frames. */
  lemma Rearmed(s: Station, t: Timed)
    requires s.al.Valid()
    ensures var e := Respond(s, t);
            e.ok ==>
              e.station.uMessageTimeout
              == if t.event.Arrive? && t.event.frame.U? then 0
                 else if (t.event.Poll? && t.now > s.nextT3) || t.event.StartRequest? || t.event.StopRequest?
                 then t.now + s.par.t1 * 1000
                 else s.uMessageTimeout
  {
    hide Accepts, Distance, ConfirmTimeout, T1Expired;
  }

  /** An ASDU joins the window with its send time, and acknowledged ones leave it at the other end. */
  lemma WindowMoves(s: Station, t: Timed)
    requires s.al.Valid()
    ensures var e := Respond(s, t);
            e.ok ==>
              if t.event.Transmit? && e.out != [] then
                |e.station.pending| == |s.pending| + 1 && e.station.pending[..|s.pending|] == s.pending
                && e.station.pending[|s.pending|].sentTime == t.event.wallClock
              else |e.station.pending| <= |s.pending| && e.station.pending == s.pending[|s.pending| - |e.station.pending|..]
  {
    hide Accepts, ConfirmTimeout, T1Expired, Distance;
    match t.event
    case Arrive(frame) => ArrivalMovesWindow(s, frame, t.now);
    case _ =>
  }

  lemma ArrivalMovesWindow(s: Station, frame: Apdu, now: nat)
    requires s.al.Valid()
    ensures var e := CheckMessage(s, frame, now);
            e.ok ==> |e.station.pending| <= |s.pending|
                     && e.station.pending == s.pending[|s.pending| - |e.station.pending|..]
  {
    hide Accepts, Distance;
  }

  /** Test frames are written exactly by a poll behind T3 while fewer than three are unanswered. */
  lemma TestedByPoll(s: Station, t: Timed)
    requires s.al.Valid()
    ensures U(TESTFR_ACT) in Respond(s, t).out <==> t.event.Poll? && t.now > s.nextT3 && s.outstandingTestFr <= 2
  {
    hide Accepts, Distance, ConfirmTimeout, T1Expired;
  }

  lemma TickKeepsTimers(w: Watched, diary: Diary, t: Timed)
    requires w.station.al.Valid() && TimersKept(w, diary) && Respond(w.station, t).ok && w.up
    ensures TimersKept(Tick(w, t), Note(diary, t, Respond(w.station, t)))
  {
    Rearmed(w.station, t);
    TestedByPoll(w.station, t);
    TestsWritten(w.station, t);
    T3Effects(w.station, t);
    hide Respond, Arrivals, CountTests;
  }

  lemma HeldGrows(before: seq<SentAsdu>, after: seq<SentAsdu>, times: seq<nat>, time: nat)
    requires Held(before, times) && |after| == |before| + 1 && after[..|before|] == before
    requires after[|before|].sentTime == time
    ensures Held(after, times + [time])
  {
    forall i | 0 <= i < |before| ensures after[i] == before[i] {
      assert after[..|before|][i] == before[i];
    }
  }

  lemma HeldDrops(before: seq<SentAsdu>, after: seq<SentAsdu>, times: seq<nat>)
    requires Held(before, times) && |after| <= |before| && after == before[|before| - |after|..]
    ensures Held(after, times)
  {
  }

  lemma TickHolds(s: Station, diary: Diary, t: Timed)
    requires s.al.Valid() && Held(s.pending, diary.sentTimes) && Respond(s, t).ok
    ensures Held(Respond(s, t).station.pending, Note(diary, t, Respond(s, t)).sentTimes)
  {
    hide Respond, Held;
    WindowMoves(s, t);
    var e := Respond(s, t);
    if t.event.Transmit? && e.out != [] {
      HeldGrows(s.pending, e.station.pending, diary.sentTimes, t.event.wallClock);
    } else {
      HeldDrops(s.pending, e.station.pending, diary.sentTimes);
    }
  }

  lemma TickKeeps(w: Watched, diary: Diary, t: Timed)
    requires Kept(w, diary) && w.up
    ensures Kept(Tick(w, t), Note(diary, t, Respond(w.station, t)))
  {
    TickKeepsParameters(w, t);
    if Respond(w.station, t).ok {
      TickKeepsTimers(w, diary, t);
      TickHolds(w.station, diary, t);
    }
    hide Respond, Arrivals, CountTests, TimersKept, Held, Note;
  }

  lemma {:induction false} RunKeeps(par: Parameters, al: AppLayerParameters, start: nat, events: seq<Timed>)
    requires al.Valid()
    ensures Kept(Run(Begin(par, al, start), events), DiaryOf(Begin(par, al, start), start, events))
  {
    var b := Begin(par, al, start);
    if events == [] {
    } else {
      var front, t := events[..|events| - 1], events[|events| - 1];
      RunKeeps(par, al, start, front);
      hide Kept, Tick, Respond, Note;
      var w := Run(b, front);
      if w.up {
        TickKeeps(w, DiaryOf(b, start, front), t);
      } else {
        StaysKept(w, DiaryOf(b, start, front), t);
      }
    }
  }

  lemma StaysKept(w: Watched, diary: Diary, t: Timed)
    requires Kept(w, diary) && !w.up
    ensures Kept(Tick(w, t), diary)
  {
  }

  // ---------------------------------------------------------------- what a poll decides

  /** T3 has passed since the peer was last heard or tested. */
  predicate TestDue(par: Parameters, diary: Diary, now: nat) { now > diary.quietSince + par.t3 * 1000 }

  /** T1 has passed since an activation was written, and no unnumbered frame has come in. */
  predicate Unanswered(par: Parameters, diary: Diary, now: nat) {
    diary.asked.Some? && 0 < diary.asked.value + par.t1 * 1000 < now
  }

  /** T1 has passed since the oldest frame that the peer has not acknowledged was sent. */
  predicate Unacknowledged(w: Watched, diary: Diary, now: nat)
    requires |w.station.pending| <= |diary.sentTimes|
  {
    w.station.pending != []
    && var sentTime := diary.sentTimes[|diary.sentTimes| - |w.station.pending|];
       now > sentTime && now - sentTime >= w.station.par.t1 * 1000
  }

  /** T2 has passed since the oldest frame that was not acknowledged arrived. */
  predicate AckDue(w: Watched, now: nat) {
    w.arrivals != [] && now > w.arrivals[0] && now - w.arrivals[0] >= w.station.par.t2 * 1000
  }

  /** In any run a poll closes the connection exactly if a fourth test would be due, or a request or test frame has gone
      unanswered for T1, or an ASDU unacknowledged for T1; so a poll before all of these never does. And it writes a test
      frame exactly if one is due, and an acknowledgement exactly if one is due. */
  lemma PollDecides(par: Parameters, al: AppLayerParameters, start: nat, events: seq<Timed>, d: nat, now: nat)
    requires al.Valid() && Scheduled(Begin(par, al, start), events, d)
    requires Run(Begin(par, al, start), events).up
    ensures var w, diary := Run(Begin(par, al, start), events), DiaryOf(Begin(par, al, start), start, events);
            var e := HandleTimeouts(w.station, now);
            var due := TestDue(par, diary, now);
            && |w.station.pending| <= |diary.sentTimes|
            && (!e.ok <==> (due && w.tests == 3) || (!due && Unanswered(par, diary, now)) || Unacknowledged(w, diary, now))
            && e.out == if due && w.tests == 3 then []
                        else (if due then [U(TESTFR_ACT)] else [])
                             + if AckDue(w, now) then [S(w.station.receiveCount)] else []
  {
    var b := Begin(par, al, start);
    RunKeeps(par, al, start, events);
    RunKeepsT2(b, events, d);
    hide Run, DiaryOf, Scheduled;
    PollOutcome(Run(b, events), DiaryOf(b, start, events), now);
  }

  /** The diary's conditions are the timers'. */
  lemma DiaryDecides(w: Watched, diary: Diary, now: nat)
    requires Kept(w, diary) && T2Inv(w) && w.up
    ensures var s := w.station;
            && |s.pending| <= |diary.sentTimes| && w.tests == s.outstandingTestFr <= 3
            && (TestDue(s.par, diary, now) <==> now > s.nextT3)
            && (Unanswered(s.par, diary, now) <==> s.uMessageTimeout != 0 && now > s.uMessageTimeout)
            && (Unacknowledged(w, diary, now) <==>
                  s.pending != [] && now > s.pending[0].sentTime && now - s.pending[0].sentTime >= s.par.t1 * 1000)
            && (AckDue(w, now) <==> s.unconfirmed > 0 && ConfirmTimeout(s, now))
  {
  }

  lemma PollOutcome(w: Watched, diary: Diary, now: nat)
    requires Kept(w, diary) && T2Inv(w) && w.up
    ensures var e := HandleTimeouts(w.station, now);
            var due := TestDue(w.station.par, diary, now);
            && |w.station.pending| <= |diary.sentTimes|
            && (!e.ok <==> (due && w.tests == 3) || (!due && Unanswered(w.station.par, diary, now))
                           || Unacknowledged(w, diary, now))
            && e.out == if due && w.tests == 3 then []
                        else (if due then [U(TESTFR_ACT)] else [])
                             + if AckDue(w, now) then [S(w.station.receiveCount)] else []
  {
    DiaryDecides(w, diary, now);
    hide Kept, T2Inv, TestDue, Unanswered, Unacknowledged, AckDue, ConfirmTimeout;
  }

  /** Besides polls, a supervisory frame is written exactly behind a message when w frames, or any while the connection is
      being stopped, are not acknowledged, and on a request to stop when any is not; nothing else ever writes one, and only
      polls and received frames close the connection. */
  lemma AcknowledgesWhenDue(par: Parameters, al: AppLayerParameters, start: nat, events: seq<Timed>, d: nat, t: Timed)
    requires al.Valid() && Scheduled(Begin(par, al, start), events, d) && !t.event.Poll?
    requires Run(Begin(par, al, start), events).up
    ensures var w := Run(Begin(par, al, start), events);
            var out := Respond(w.station, t).out;
            && ((exists i :: 0 <= i < |out| && out[i].S?) <==>
                  || (t.event.LoopStep?
                      && |w.arrivals| >= if w.station.conState == WaitingForStopDtCon && par.w > 0 then 1 else par.w)
                  || (t.event.StopRequest? && w.arrivals != []))
            && (forall i | 0 <= i < |out| && out[i].S? ::
                  out[i] == S(w.station.receiveCount) && Respond(w.station, t).station.lastConfirmation == t.now)
            && (!t.event.Arrive? ==> Respond(w.station, t).ok)
  {
    var b := Begin(par, al, start);
    RunKeepsT2(b, events, d);
    hide Run, Scheduled;
    AckOutcome(Run(b, events), t);
  }

  lemma AckOutcome(w: Watched, t: Timed)
    requires T2Inv(w) && w.up && !t.event.Poll?
    ensures var out := Respond(w.station, t).out;
            && ((exists i :: 0 <= i < |out| && out[i].S?) <==>
                  || (t.event.LoopStep?
                      && |w.arrivals| >= if w.station.conState == WaitingForStopDtCon && w.station.par.w > 0 then 1
                                         else w.station.par.w)
                  || (t.event.StopRequest? && w.arrivals != []))
            && (forall i | 0 <= i < |out| && out[i].S? ::
                  out[i] == S(w.station.receiveCount) && Respond(w.station, t).station.lastConfirmation == t.now)
            && (!t.event.Arrive? ==> Respond(w.station, t).ok)
  {
    hide Accepts, Distance, HandleTimeouts;
    var s, out := w.station, Respond(w.station, t).out;
    if out != [] { assert out[0].S? || !out[0].S?; }
  }
}
