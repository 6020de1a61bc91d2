// What one CS104 connection does, as functions on its protocol state: the k-window as the list of sequence numbers
// that are still unconfirmed, the w/T2 acknowledgement policy, T1/T3 supervision (cs104_connection.c). The class in
// Cs104Connection.dfy does the same on a ring buffer and octets.
module Cs104Station {
  import opened Bytes
  import opened Asdu
  import opened Cs104Frame
  import opened Wrappers

  /** Connection states while the socket is open. */
  datatype ConState = Inactive | Active | WaitingForStartDtCon | WaitingForStopDtCon

  /** Window sizes in frames, timeouts in seconds. */
  datatype Parameters = Parameters(k: nat, w: nat, t1: nat, t2: nat, t3: nat)

  datatype SentAsdu = SentAsdu(sentTime: nat, seqNo: nat)

  predicate Consecutive(pending: seq<SentAsdu>, sendCount: nat) {
    forall i | 0 <= i < |pending| :: pending[i].seqNo == ((sendCount - |pending|) % MODULUS + 1 + i) % MODULUS
  }

  datatype Station = Station(
    par: Parameters,
    al: AppLayerParameters,
    pending: seq<SentAsdu>,       // oldest first
    sendCount: nat,
    receiveCount: nat,
    unconfirmed: nat,             // unconfirmedReceivedIMessages
    t2Trigger: bool,
    lastConfirmation: nat,
    nextT3: nat,
    outstandingTestFr: nat,
    uMessageTimeout: nat,
    conState: ConState)
  {
    /** Both counters are 15 bits wide and the window holds consecutive numbers ending at sendCount. */
    ghost predicate WindowOk() {
      && 1 <= par.k <= MODULUS && al.Valid()
      && sendCount < MODULUS && receiveCount < MODULUS
      && |pending| <= par.k
      && Consecutive(pending, sendCount)
    }

    /** The N(R) that confirms nothing new. */
    function WindowBase(): nat { (sendCount - |pending|) % MODULUS }

    function ResetT3(now: nat): Station { this.(nextT3 := now + par.t3 * 1000) }
  }

  /** Fresh after resetConnection, with the socket open. */
  function Start(par: Parameters, al: AppLayerParameters, now: nat): (s: Station) {
    Station(par, al, [], 0, 0, 0, false, 0xffff_ffff_ffff_ffff, now + par.t3 * 1000, 0, 0, Inactive)
  }

  /** New state, frames written, ASDUs handed to the application, and whether the connection stays up. */
  datatype Effect = Effect(station: Station, out: seq<Apdu>, delivered: seq<seq<byte>>, ok: bool)

  function Distance(from: nat, to: nat): (d: nat) { (to - from) % MODULUS }

  /** checkSequenceNumber: N(R) may confirm any number of pending frames, and drops exactly those. */
  function Acknowledge(s: Station, nr: nat): Option<Station> {
    var d := Distance(s.WindowBase(), nr);
    if d <= |s.pending| then Some(s.(pending := s.pending[d..])) else None
  }

  function Send(s: Station, asdu: seq<byte>, wallClock: nat): Effect {
    if |s.pending| == s.par.k then Effect(s, [], [], false)
    else
      var next := (s.sendCount + 1) % MODULUS;
      Effect(s.(pending := s.pending + [SentAsdu(wallClock, next)], sendCount := next, unconfirmed := 0, t2Trigger := false),
             [I(s.sendCount, s.receiveCount, asdu)], [], true)
  }

  /** confirmOutstandingMessages */
  function Confirm(s: Station, now: nat): Effect {
    Effect(s.(lastConfirmation := now, unconfirmed := 0, t2Trigger := false), [S(s.receiveCount)], [], true)
  }

  /** The confirmation step behind every received message. */
  function ConfirmStep(s: Station, now: nat): Effect {
    if s.unconfirmed >= s.par.w || (s.conState == WaitingForStopDtCon && s.unconfirmed > 0) then Confirm(s, now)
    else Effect(s, [], [], true)
  }

  function StartT2(s: Station, now: nat): Station {
    if s.t2Trigger then s else s.(t2Trigger := true, lastConfirmation := now)
  }

  function HandleU(s: Station, code: byte): (Station, seq<Apdu>) {
    var s1 := s.(uMessageTimeout := 0);
    if code == TESTFR_ACT then (s1, [U(TESTFR_CON)])
    else if code == TESTFR_CON then (s1.(outstandingTestFr := 0), [])
    else if code == STARTDT_ACT then (s1.(conState := Active), [U(STARTDT_CON)])
    else if code == STARTDT_CON then (s1.(conState := Active), [])
    else if code == STOPDT_CON then (s1.(conState := Inactive), [])
    else (s1, [])
  }

  /** An information frame, once T2 is running: sequence check, acknowledgement, delivery. */
  function ReceiveI(s: Station, ns: nat, nr: nat, asdu: seq<byte>, now: nat): Effect
    requires s.al.Valid()
  {
    if ns != s.receiveCount then Effect(s, [], [], false)
    else
      match Acknowledge(s, nr)
      case None => Effect(s, [], [], false)
      case Some(s1) =>
        var s2 := s1.(receiveCount := (s1.receiveCount + 1) % MODULUS, unconfirmed := s1.unconfirmed + 1);
        if Accepts(s.al, asdu) then Effect(s2.ResetT3(now), [], [asdu], true) else Effect(s2, [], [], false)
  }

  function CheckMessage(s: Station, a: Apdu, now: nat): Effect
    requires s.al.Valid()
  {
    match a
    case TooShort => Effect(StartT2(s, now), [], [], false)
    case I(ns, nr, asdu) => ReceiveI(StartT2(s, now), ns, nr, asdu, now)
    case U(code) =>
      var (s1, out) := HandleU(s, code);
      Effect(s1.ResetT3(now), out, [], true)
    case S(nr) =>
      (match Acknowledge(s, nr)
       case None => Effect(s, [], [], false)
       case Some(s1) => Effect(s1.ResetT3(now), [], [], true))
    case Ignored => Effect(s.ResetT3(now), [], [], true)
  }

  /** T3 supervision: a test frame, or giving up when three are unanswered. */
  function HandleT3(s: Station, now: nat): Effect {
    if now <= s.nextT3 then Effect(s, [], [], true)
    else if s.outstandingTestFr > 2 then Effect(s, [], [], false)
    else
      Effect(s.(uMessageTimeout := now + s.par.t1 * 1000, outstandingTestFr := s.outstandingTestFr + 1).ResetT3(now),
             [U(TESTFR_ACT)], [], true)
  }

  predicate ConfirmTimeout(s: Station, now: nat) {
    now > s.lastConfirmation && now - s.lastConfirmation >= s.par.t2 * 1000
  }

  /** T1 supervision of unnumbered frames and of the oldest pending frame. */
  predicate T1Expired(s: Station, now: nat) {
    || (s.uMessageTimeout != 0 && now > s.uMessageTimeout)
    || (s.pending != [] && now > s.pending[0].sentTime && now - s.pending[0].sentTime >= s.par.t1 * 1000)
  }

  function HandleTimeouts(s: Station, now: nat): Effect {
    var t3 := HandleT3(s, now);
    if !t3.ok then t3
    else
      var c := if t3.station.unconfirmed > 0 && ConfirmTimeout(t3.station, now) then Confirm(t3.station, now)
               else Effect(t3.station, [], [], true);
      Effect(c.station, t3.out + c.out, [], !T1Expired(c.station, now))
  }

  function SendStartDt(s: Station, now: nat): Effect {
    Effect(s.(conState := WaitingForStartDtCon, uMessageTimeout := now + s.par.t1 * 1000), [U(STARTDT_ACT)], [], true)
  }

  function SendStopDt(s: Station, now: nat): Effect {
    var c := if s.unconfirmed > 0 then Confirm(s, now) else Effect(s, [], [], true);
    Effect(c.station.(conState := WaitingForStopDtCon, uMessageTimeout := now + s.par.t1 * 1000),
           c.out + [U(STOPDT_ACT)], [], true)
  }

  // ---------------------------------------------------------------- the window

  lemma ModShift(a: int, b: int)
    ensures (a % MODULUS + b) % MODULUS == (a + b) % MODULUS
  {
  }

  /** Dropping the oldest d frames moves the base by d and keeps the rest consecutive. */
  lemma DropKeepsWindow(s: Station, d: nat)
    requires s.WindowOk() && d <= |s.pending|
    ensures var t := s.(pending := s.pending[d..]);
            t.WindowOk() && t.WindowBase() == (s.WindowBase() + d) % MODULUS
  {
    var t := s.(pending := s.pending[d..]);
    ModShift(s.sendCount - |s.pending|, d);
    forall i | 0 <= i < |t.pending| ensures t.pending[i].seqNo == (t.WindowBase() + 1 + i) % MODULUS {
      assert t.pending[i] == s.pending[d + i];
      ModShift(s.WindowBase() + d, 1 + i);
    }
  }

  /** An accepted N(R) leaves exactly the unconfirmed suffix, and becomes the new base; only the window changes. */
  lemma AcknowledgeKeepsWindow(s: Station, nr: nat)
    requires s.WindowOk() && nr < MODULUS && Acknowledge(s, nr).Some?
    ensures var t := Acknowledge(s, nr).value;
            t.WindowOk() && t.WindowBase() == nr && t == s.(pending := t.pending)
  {
    var d := Distance(s.WindowBase(), nr);
    DropKeepsWindow(s, d);
    ModShift(nr - s.WindowBase(), s.WindowBase());
  }

  /** The accepted values are oldest - 1 up to newest: the base, which drops nothing, or the number of a pending frame,
      which drops that frame and all older ones. */
  lemma AcceptedNumbers(s: Station, nr: nat)
    requires s.WindowOk() && nr < MODULUS
    ensures Acknowledge(s, nr).Some? <==> nr == s.WindowBase() || exists i :: 0 <= i < |s.pending| && s.pending[i].seqNo == nr
    ensures nr == s.WindowBase() ==> Acknowledge(s, nr) == Some(s)
    ensures forall i | 0 <= i < |s.pending| && s.pending[i].seqNo == nr && nr != s.WindowBase() ::
              Acknowledge(s, nr) == Some(s.(pending := s.pending[i + 1..]))
  {
    var base := s.WindowBase();
    var d := Distance(base, nr);
    ModShift(nr - base, base);
    if 1 <= d <= |s.pending| {
      assert s.pending[d - 1].seqNo == nr;
    }
    forall i | 0 <= i < |s.pending| && s.pending[i].seqNo == nr && nr != base
      ensures d == i + 1
    {
      ModShift(base + 1 + i, -base);
    }
  }

  lemma SendKeepsWindow(s: Station, asdu: seq<byte>, wallClock: nat)
    requires s.WindowOk()
    ensures var e := Send(s, asdu, wallClock);
            e.station.WindowOk() && e.station.WindowBase() == s.WindowBase() && (e.ok <==> |s.pending| < s.par.k)
  {
    var t, n := Send(s, asdu, wallClock).station, |s.pending|;
    if n < s.par.k {
      ModShift(s.sendCount + 1, -(n + 1));
      ModShift(s.sendCount - n, 1 + n);
      forall i | 0 <= i < |t.pending| ensures t.pending[i].seqNo == (t.WindowBase() + 1 + i) % MODULUS {
        assert i < n ==> t.pending[i] == s.pending[i];
      }
    }
  }

  /** Confirming everything empties the window if and only if it holds fewer than 32768 frames: with k = 32768 a full
      window cannot be told apart from an untouched one. */
  lemma FullAcknowledgement(s: Station)
    requires s.WindowOk()
    ensures Acknowledge(s, s.sendCount).Some?
    ensures Acknowledge(s, s.sendCount).value.pending == [] <==> |s.pending| < MODULUS
  {
  }
}
