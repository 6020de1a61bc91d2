// Starting, stopping and testing a CS104 connection (checkMessage, sendStartDT and sendStopDT in cs104_connection.c): how
// the two ends answer each other's unnumbered frames, and what every run of two stations writes because of them.
module Cs104Control {
  import opened Bytes
  import opened Asdu
  import opened Cs104Frame
  import opened Cs104Station
  import opened Cs104System

  // ---------------------------------------------------------------- one exchange

  /** The octets of the six unnumbered frames (section 5.1 of IEC 60870-5-104): activation and confirmation bits of
      STARTDT, STOPDT and TESTFR above the two format bits. */
  function Unnumbered(startdt: bool, stopdt: bool, testfr: bool, confirmation: bool): seq<byte> {
    var weight := if confirmation then 2 else 1;
    [0x68, 4, 3 + weight * ((if startdt then 4 else 0) + (if stopdt then 16 else 0) + (if testfr then 64 else 0)), 0, 0, 0]
  }

  predicate Silent(e: Effect) { e.ok && e.out == [] && e.delivered == [] }

  /** What a station writes is one frame with these octets; nothing is delivered. */
  predicate Writes(e: Effect, octets: seq<byte>) {
    e.ok && |e.out| == 1 && Sendable(e.out[0]) && Encode(e.out[0]) == octets && e.delivered == []
  }

  /** The start of data transfer: the activation makes the other end active and is confirmed, and the confirmation makes
      the requester active, whatever the two stations were doing. */
  lemma StartHandshake(x: Station, y: Station, asked: nat, answered: nat, done: nat)
    requires x.al.Valid() && y.al.Valid()
    ensures var request := SendStartDt(x, asked);
            && Writes(request, Unnumbered(true, false, false, false))
            && request.station.conState == WaitingForStartDtCon
            && var answer := CheckMessage(y, request.out[0], answered);
               && Writes(answer, Unnumbered(true, false, false, true)) && answer.station.conState == Active
               && var end := CheckMessage(request.station, answer.out[0], done);
                  Silent(end) && end.station.conState == Active && end.station.uMessageTimeout == 0
  {
  }

  /** A request to stop acknowledges what is outstanding and then asks; the confirmation makes the requester inactive. */
  lemma StopHandshake(x: Station, asked: nat, done: nat)
    requires x.al.Valid()
    ensures var request := SendStopDt(x, asked);
            && request.ok && request.delivered == [] && request.station.unconfirmed == 0
            && request.station.conState == WaitingForStopDtCon
            && request.out == (if x.unconfirmed > 0 then [S(x.receiveCount)] else []) + [U(STOPDT_ACT)]
            && Encode(U(STOPDT_ACT)) == Unnumbered(false, true, false, false)
            && Encode(U(STOPDT_CON)) == Unnumbered(false, true, false, true)
            && var end := CheckMessage(request.station, U(STOPDT_CON), done);
               Silent(end) && end.station.conState == Inactive && end.station.uMessageTimeout == 0
  {
  }

  /** A test frame is confirmed, and the confirmation settles all tests that are unanswered. */
  lemma TestHandshake(x: Station, y: Station, asked: nat, answered: nat, done: nat)
    requires x.al.Valid() && y.al.Valid() && asked > x.nextT3 && x.outstandingTestFr <= 2
    ensures var request := HandleT3(x, asked);
            && Writes(request, Unnumbered(false, false, true, false))
            && request.station.outstandingTestFr == x.outstandingTestFr + 1
            && var answer := CheckMessage(y, request.out[0], answered);
               && Writes(answer, Unnumbered(false, false, true, true)) && answer.station.conState == y.conState
               && var end := CheckMessage(request.station, answer.out[0], done);
                  && Silent(end) && end.station.outstandingTestFr == 0 && end.station.uMessageTimeout == 0
                  && end.station.conState == x.conState
  {
  }

  // ---------------------------------------------------------------- which frames close the connection

  /** An N(R) the window allows: the base or the number of a pending frame. */
  predicate Expected(s: Station, nr: nat) {
    nr == s.WindowBase() || exists i :: 0 <= i < |s.pending| && s.pending[i].seqNo == nr
  }

  /** A received frame closes the connection exactly if it is an information frame out of sequence, without an ASDU or with
      one that cannot be parsed, or if its N(R) confirms what is not pending. Every other frame, an unknown one as well,
      restarts T3; and only an information frame delivers, its own ASDU. */
  lemma WhichFramesClose(s: Station, f: Apdu, now: nat)
    requires s.WindowOk()
    requires (f.I? ==> f.nr < MODULUS) && (f.S? ==> f.ackNr < MODULUS)
    ensures var e := CheckMessage(s, f, now);
            && (e.ok <==> match f
                          case I(ns, nr, asdu) => ns == s.receiveCount && Expected(s, nr) && Accepts(s.al, asdu)
                          case S(nr) => Expected(s, nr)
                          case U(_) => true
                          case TooShort => false
                          case Ignored => true)
            && (e.ok ==> e.station.nextT3 == now + s.par.t3 * 1000 && e.delivered == if f.I? then [f.asdu] else [])
            && (e.ok && f.Ignored? ==> e.station == s.ResetT3(now) && e.out == [])
            && (!e.ok ==> e.out == [] && e.delivered == [])
  {
    hide Accepts, Acknowledge, Distance;
    match f
    case I(_, nr, _) => AcceptedNumbers(StartT2(s, now), nr);
    case S(nr) => AcceptedNumbers(s, nr);
    case _ =>
  }

  // ---------------------------------------------------------------- every run

  /** What happened to a station's control side: its user's requests and the frames it read. */
  datatype Note = AskedToStart | AskedToStop | Heard(f: Apdu)

  function NotesOf(p: Peer, input: seq<Apdu>, action: Action): seq<Note> {
    if !p.open then []
    else match action
      case RequestStart(_) => [AskedToStart]
      case RequestStop(_) => [AskedToStop]
      case Receive(_) => if input == [] then [] else [Heard(input[0])]
      case _ => []
  }

  /** The unnumbered frames among some frames, test frames aside. */
  function Commands(frames: seq<Apdu>): seq<Apdu> {
    if frames == [] then []
    else
      var last := frames[|frames| - 1];
      Commands(frames[..|frames| - 1]) + if last.U? && last.code != TESTFR_ACT then [last] else []
  }

  /** One frame for each request, one confirmation for each activation read, and nothing else. */
  function Prescribed(notes: seq<Note>): seq<Apdu> {
    if notes == [] then []
    else
      Prescribed(notes[..|notes| - 1])
      + match notes[|notes| - 1]
        case AskedToStart => [U(STARTDT_ACT)]
        case AskedToStop => [U(STOPDT_ACT)]
        case Heard(f) =>
          if f == U(STARTDT_ACT) then [U(STARTDT_CON)] else if f == U(TESTFR_ACT) then [U(TESTFR_CON)] else []
  }

  /** The state that the last of these left, none other having any say. */
  function StateAfter(notes: seq<Note>): ConState {
    if notes == [] then Inactive
    else
      match notes[|notes| - 1]
      case AskedToStart => WaitingForStartDtCon
      case AskedToStop => WaitingForStopDtCon
      case Heard(f) =>
        if f == U(STARTDT_ACT) || f == U(STARTDT_CON) then Active
        else if f == U(STOPDT_CON) then Inactive
        else StateAfter(notes[..|notes| - 1])
  }

  lemma {:induction false} CommandsAppend(a: seq<Apdu>, b: seq<Apdu>)
    ensures Commands(a + b) == Commands(a) + Commands(b)
  {
    if b == [] {
      assert a + [] == a;
    } else {
      assert (a + b)[..|a + b| - 1] == a + b[..|b| - 1];
      CommandsAppend(a, b[..|b| - 1]);
    }
  }

  lemma CommandsOfOne(f: Apdu)
    ensures Commands([f]) == if f.U? && f.code != TESTFR_ACT then [f] else []
  {
    assert [f][..0] == [];
  }

  predicate Answered(p: Peer, notes: seq<Note>) {
    Commands(p.log) == Prescribed(notes) && p.station.conState == StateAfter(notes)
  }

  lemma PrescribedAppend(notes: seq<Note>, more: seq<Note>)
    requires |more| <= 1
    ensures Prescribed(notes + more) == Prescribed(notes) + Prescribed(more)
    ensures more != [] ==> StateAfter(notes + more)
                           == match more[0]
                              case AskedToStart => WaitingForStartDtCon
                              case AskedToStop => WaitingForStopDtCon
                              case Heard(f) =>
                                if f == U(STARTDT_ACT) || f == U(STARTDT_CON) then Active
                                else if f == U(STOPDT_CON) then Inactive else StateAfter(notes)
  {
    if more == [] {
      assert notes + more == notes;
    } else {
      assert (notes + more)[..|notes|] == notes && more[..0] == [];
    }
  }

  lemma {:induction false} NoCommands(frames: seq<Apdu>)
    requires forall i | 0 <= i < |frames| :: !frames[i].U? || frames[i].code == TESTFR_ACT
    ensures Commands(frames) == []
  {
    if frames != [] { NoCommands(frames[..|frames| - 1]); }
  }

  /** The frames one action writes are those its note prescribes, besides I, S and test frames. */
  lemma ActWrites(p: Peer, input: seq<Apdu>, action: Action)
    requires p.station.al.Valid()
    ensures var r := Act(p, input, action);
            r.peer.log == p.log + r.out && Commands(r.out) == Prescribed(NotesOf(p, input, action))
  {
    hide CheckMessage, HandleTimeouts, SendStopDt, WellFormedAsdu;
    var r := Act(p, input, action);
    if p.open {
      match action
      case Receive(now) => if input != [] { MessageAnswer(p.station, input[0], now); }
      case RequestStart(now) =>
        CommandsOfOne(U(STARTDT_ACT));
        assert [AskedToStart][..0] == [];
      case RequestStop(now) => StopWrites(p.station, now);
      case Timeouts(now) => TimeoutsWrite(p.station, now);
      case _ => NoCommands(r.out);
    }
  }

  lemma StopWrites(s: Station, now: nat)
    ensures Commands(SendStopDt(s, now).out) == Prescribed([AskedToStop])
  {
    CommandsOfOne(U(STOPDT_ACT));
    CommandsOfOne(S(s.receiveCount));
    CommandsAppend([S(s.receiveCount)], [U(STOPDT_ACT)]);
    assert [AskedToStop][..0] == [];
    assert SendStopDt(s, now).out == if s.unconfirmed > 0 then [S(s.receiveCount)] + [U(STOPDT_ACT)] else [U(STOPDT_ACT)];
  }

  lemma TimeoutsWrite(s: Station, now: nat)
    ensures Commands(HandleTimeouts(s, now).out) == []
  {
    hide T1Expired, ConfirmTimeout;
    NoCommands(HandleTimeouts(s, now).out);
  }

  lemma MessageAnswer(s: Station, f: Apdu, now: nat)
    requires s.al.Valid()
    ensures Commands(CheckMessage(s, f, now).out) == Prescribed([Heard(f)])
  {
    hide Accepts, Distance;
    assert [Heard(f)][..0] == [];
    CommandsOfOne(U(STARTDT_CON));
    CommandsOfOne(U(TESTFR_CON));
  }

  lemma ActMovesState(p: Peer, input: seq<Apdu>, action: Action)
    requires p.station.al.Valid()
    ensures var notes, t := NotesOf(p, input, action), Act(p, input, action).peer.station.conState;
            if notes == [] then t == p.station.conState
            else t == match notes[0]
                      case AskedToStart => WaitingForStartDtCon
                      case AskedToStop => WaitingForStopDtCon
                      case Heard(f) =>
                        if f == U(STARTDT_ACT) || f == U(STARTDT_CON) then Active
                        else if f == U(STOPDT_CON) then Inactive else p.station.conState
  {
    hide Accepts, Distance, T1Expired, ConfirmTimeout;
  }

  lemma ActAnswers(p: Peer, input: seq<Apdu>, action: Action, notes: seq<Note>)
    requires p.station.al.Valid() && Answered(p, notes)
    ensures Answered(Act(p, input, action).peer, notes + NotesOf(p, input, action))
  {
    hide Act, Commands, Prescribed, StateAfter;
    var more := NotesOf(p, input, action);
    ActWrites(p, input, action);
    ActMovesState(p, input, action);
    CommandsAppend(p.log, Act(p, input, action).out);
    PrescribedAppend(notes, more);
    assert more == [] ==> notes + more == notes;
  }

  /** The notes of one of the two stations over a run. */
  function Notes(s: System, steps: seq<Step>, byA: bool): seq<Note>
    requires Configured(s)
  {
    if steps == [] then []
    else
      var before, step := Run(s, steps[..|steps| - 1]), steps[|steps| - 1];
      Notes(s, steps[..|steps| - 1], byA)
      + if step.byA != byA then []
        else if byA then NotesOf(before.a, before.ba, step.action)
        else NotesOf(before.b, before.ab, step.action)
  }

  /** In every run, whatever the windows: each STARTDT activation a station reads is confirmed once, each test frame is
      confirmed once, in this order and among its own requests, and it writes no other control frame; and it is in the
      state that its user's last request or the last of these frames read put it in. */
  lemma {:induction false} EveryRunAnswers(parA: Parameters, parB: Parameters, al: AppLayerParameters, now: nat,
                                           steps: seq<Step>)
    requires al.Valid()
    ensures var s := Initial(parA, parB, al, now);
            Answered(Run(s, steps).a, Notes(s, steps, true)) && Answered(Run(s, steps).b, Notes(s, steps, false))
  {
    hide Act, NotesOf;
    var s := Initial(parA, parB, al, now);
    if steps == [] {
    } else {
      var front, step := steps[..|steps| - 1], steps[|steps| - 1];
      EveryRunAnswers(parA, parB, al, now, front);
      hide Answered;
      var before := Run(s, front);
      assert Notes(s, front, true) + [] == Notes(s, front, true) && Notes(s, front, false) + [] == Notes(s, front, false);
      if step.byA {
        ActAnswers(before.a, before.ba, step.action, Notes(s, front, true));
      } else {
        ActAnswers(before.b, before.ab, step.action, Notes(s, front, false));
      }
    }
  }
}
