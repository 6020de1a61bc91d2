// A whole download from the file server (file_server.c): what the server announces, what a master that follows the
// announcements receives, and how a transfer is refused, ended or abandoned.
module FileServerDownload {
  import opened Bytes
  import opened FileServer
  import opened Wrappers

  // ---------------------------------------------------------------- single replies

  /** An announcement names the section the server stands at: SECTION READY with its length, and LAST SECTION only if
      there is none, or an empty one. */
  lemma AnnouncementsAreTrue(s: Server, request: Request, now: nat)
    requires s.Valid()
    ensures var (t, out) := HandleAsdu(s, request, now);
            && |out| <= 1
            && forall i | 0 <= i < |out| ::
                 match out[i]
                 case SectionReady(nos, size) =>
                   t.file.Some? && nos == t.sectionNumber && size == SectionSize(t.file.value, nos - 1)
                   && (size > 0 || request.CallFile? || t.state == TransmitSection)
                 case LastSection(nos, chs) =>
                   t.file.Some? && nos == t.sectionNumber && SectionSize(t.file.value, nos - 1) <= 0
                   && t.state == WaitingForFileAck
                 case FileReady(_, positive) => positive <==> t.state == WaitingForFileCall
                 case Rejected(_, _) => t.state == CheckTimeout(s, now).state
                 case _ => false
  {
  }

  /** Only the connection that selected the file is sent its segments, and only while a section is transmitted. */
  lemma OthersGetNothing(s: Server, own: bool, now: nat)
    requires s.Valid()
    ensures RunTask(s, own, now).1 != [] <==> own && s.state == TransmitSection
    ensures RunTask(s, own, now).1 == [] ==> RunTask(s, own, now).0 == CheckTimeout(s, now)
  {
  }

  /** A request for another file than the selected one is returned with the reason and changes nothing. */
  lemma WrongFileRefused(s: Server, ca: int, ioa: int, nos: byte, negative: bool, now: nat)
    requires s.Valid() && !s.Expired(now) && (ca != s.ca || ioa != s.ioa)
    ensures var reason := Rejected(if ca != s.ca then UNKNOWN_CA else UNKNOWN_IOA, true);
            && (s.state == WaitingForFileCall ==> HandleAsdu(s, CallFile(ca, ioa), now) == (s, [reason]))
            && (s.state == WaitingForSectionCall ==>
                  HandleAsdu(s, CallSection(ca, ioa, nos, negative), now) == (s, [reason]))
  {
  }

  /** Selecting a file: found, not ready, or unknown for one of two reasons; only a found one is selected. */
  lemma SelectionOutcome(s: Server, ca: int, ioa: int, lookup: Lookup, now: nat)
    requires s.Valid() && s.state == Idle
    ensures var (t, out) := HandleAsdu(s, SelectFile(ca, ioa, lookup), now);
            && (lookup.Found? ==> out == [FileReady(lookup.length, true)] && t.state == WaitingForFileCall
                                  && t.file == Some(lookup.file) && t.ca == ca && t.ioa == ioa && t.lastSendTime == now)
            && (lookup.NotReady? ==> out == [FileReady(0, false)])
            && (lookup.UnknownCa? ==> out == [Rejected(UNKNOWN_CA, true)])
            && (lookup.UnknownIoa? ==> out == [Rejected(UNKNOWN_IOA, true)])
            && (!lookup.Found? ==> t.state == Idle && t.file == s.file)
  {
  }

  /** A call for a section that is absent or empty is returned marked negative; the server goes on waiting for a call. */
  lemma AbsentSectionRefused(s: Server, nos: byte, now: nat)
    requires s.Valid() && s.state == WaitingForSectionCall && !s.Expired(now) && SectionSize(s.file.value, nos - 1) <= 0
    ensures var (t, out) := HandleAsdu(s, CallSection(s.ca, s.ioa, nos, false), now);
            && out == [Rejected(FILE_TRANSFER, true)] && t.state == WaitingForSectionCall
            && t == s.(size := t.size, lastSendTime := now)
  {
  }

  /** An idle server knows no transfer: it returns acknowledgements and ignores calls, and a deselection forgets the file. */
  lemma IdleOutcome(s: Server, request: Request, now: nat)
    requires s.Valid() && s.state == Idle && !request.SelectFile?
    ensures HandleAsdu(s, request, now)
            == (if request.DeactivateFile? then s.(file := None) else s,
                if request.Ack? then [Rejected(UNKNOWN_CA, false)] else [])
  {
  }

  /** During a transfer a selection, a deselection, a call out of turn and an acknowledgement of no known kind are ignored. */
  lemma OutOfTurnIgnored(s: Server, request: Request, now: nat)
    requires s.Valid() && s.state != Idle && !s.Expired(now)
    requires match request
             case SelectFile(_, _, _) => true
             case DeactivateFile => true
             case CallFile(_, _) => s.state != WaitingForFileCall
             case CallSection(_, _, _, _) => s.state != WaitingForSectionCall
             case Ack(afq) => afq != 1 && afq % 16 !in {2, 3, 4}
    ensures HandleAsdu(s, request, now) == (s, [])
  {
  }

  // ---------------------------------------------------------------- the end of a transfer

  /** Either file acknowledgement ends a complete transfer. */
  lemma FileAckEnds(s: Server, afq: byte, now: nat)
    requires s.Valid() && s.state == WaitingForFileAck && !s.Expired(now) && (afq == 1 || afq % 16 == 2)
    ensures HandleAsdu(s, Ack(afq), now) == (s.(file := None, state := Idle), [])
  {
  }

  /** An acknowledgement that does not fit the phase abandons the transfer. */
  lemma UnexpectedAckAbandons(s: Server, afq: byte, now: nat)
    requires s.Valid() && s.state != Idle && !s.Expired(now)
    requires if afq == 1 || afq % 16 == 2 then s.state != WaitingForFileAck
             else afq % 16 in {3, 4} && s.state != WaitingForSectionAck
    ensures HandleAsdu(s, Ack(afq), now) == (s.(state := SendAbort), [])
  {
  }

  function Moment(e: Event): nat { e.now }

  /** An abandoned transfer answers nothing, whatever comes, until its timeout has made the server idle. */
  lemma {:induction false} AbandonedIsSilent(s: Server, events: seq<Event>)
    requires s.Valid() && s.state == SendAbort
    requires forall i | 0 <= i < |events| :: !s.Expired(Moment(events[i]))
    ensures Replies(s, events) == (s, [])
  {
    if events != [] {
      hide Step, Server.Expired;
      AbandonedIsSilent(s, events[..|events| - 1]);
      AbandonedStep(s, events[|events| - 1]);
      assert Replies(s, events).1 == [] + [];
    }
  }

  function Replies(s: Server, events: seq<Event>): (r: Outcome)
    requires s.Valid()
    ensures r.0.Valid()
  {
    if events == [] then (s, [])
    else
      var (t, out) := Replies(s, events[..|events| - 1]);
      var (u, more) := Step(t, events[|events| - 1]);
      (u, out + more)
  }

  lemma AbandonedStep(s: Server, e: Event)
    requires s.Valid() && s.state == SendAbort && !s.Expired(Moment(e))
    ensures Step(s, e) == (s, [])
  {
  }

  /** After the timeout the server is idle, unless the selecting connection is being sent segments. */
  lemma TimeoutEnds(s: Server, own: bool, now: nat)
    requires s.Valid() && s.Expired(now) && !(own && s.state == TransmitSection)
    ensures RunTask(s, own, now) == (s.(state := Idle), [])
  {
  }

  // ---------------------------------------------------------------- the download

  /** The master lets the server transmit and answers at some time. */
  datatype Try = Try(runs: seq<nat>, answered: nat)

  /** What the master does with an announced section: decline it, or call it, reject it any number of times and accept it
      in the end. */
  datatype Turn = Decline(now: nat) | Take(called: nat, rejected: seq<Try>, accepted: Try)

  /** The server, its last announcement, all announcements so far, and the sections the master has accepted. */
  datatype Progress = Progress(server: Server, announced: Message, heard: seq<Message>, received: seq<seq<byte>>)

  /** A section is there to be announced as number i + 1. Numbers have 8 bits: there is no section after number 255. */
  predicate Ready(file: File, i: nat) { i < 255 && i < |file| && file[i] != [] }

  predicate LongEnough(s: Server, try: Try)
    requires s.Valid()
  {
    s.state == TransmitSection && |try.runs| > s.size - s.offset
  }

  /** One transmission and its acknowledgement, in time. */
  predicate InTime(s: Server, try: Try)
    requires s.Valid()
  {
    LongEnough(s, try) && !Transmit(s, try.runs).0.Expired(try.answered)
  }

  function Answered(s: Server, try: Try, afq: byte): (r: Outcome)
    requires s.Valid() && LongEnough(s, try)
    ensures r.0.Valid()
  {
    TransmitKeepsValid(s, try.runs);
    HandleAsdu(Transmit(s, try.runs).0, Ack(afq), try.answered)
  }

  lemma TransmitKeepsValid(s: Server, times: seq<nat>)
    requires s.Valid() && s.state == TransmitSection && |times| > s.size - s.offset
    ensures Transmit(s, times).0.Valid()
    decreases |times|
  {
    hide Sum;
    if RunTask(s, true, times[0]).0.state == TransmitSection {
      TransmitKeepsValid(RunTask(s, true, times[0]).0, times[1..]);
    }
  }

  /** The server behind any number of rejected transmissions. */
  function Retried(s: Server, tries: seq<Try>): Option<Server>
    requires s.Valid()
    ensures Retried(s, tries).Some? ==> Retried(s, tries).value.Valid()
  {
    if tries == [] then Some(s)
    else
      match Retried(s, tries[..|tries| - 1])
      case None => None
      case Some(t) =>
        if InTime(t, tries[|tries| - 1]) then Some(Answered(t, tries[|tries| - 1], 4).0) else None
  }

  function CallOf(d: Progress, negative: bool): Request
    requires d.announced.SectionReady?
  {
    CallSection(d.server.ca, d.server.ioa, d.announced.nos, negative)
  }

  /** The reply of the server is its next announcement. */
  function Heard(d: Progress, out: Outcome, section: seq<seq<byte>>): Progress {
    Progress(out.0, if out.1 == [] then d.announced else out.1[0], d.heard + out.1, d.received + section)
  }

  /** One turn, if everything in it happens before the server's timeout. */
  function AfterTurn(d: Progress, turn: Turn): (r: Option<Progress>)
    requires d.server.Valid()
    ensures r.Some? ==> r.value.server.Valid()
  {
    if !d.announced.SectionReady? then None
    else match turn
      case Decline(now) =>
        if d.server.Expired(now) then None
        else Some(Heard(d, HandleAsdu(d.server, CallOf(d, true), now), []))
      case Take(called, rejected, accepted) =>
        if d.server.Expired(called) then None
        else
          match Retried(HandleAsdu(d.server, CallOf(d, false), called).0, rejected)
          case None => None
          case Some(s) =>
            if !InTime(s, accepted) then None
            else Some(Heard(d, Answered(s, accepted, 3), [Payload(Transmit(s, accepted.runs).1)]))
  }

  function AfterTurns(d: Progress, turns: seq<Turn>): (r: Option<Progress>)
    requires d.server.Valid()
    ensures r.Some? ==> r.value.server.Valid()
  {
    if turns == [] then Some(d)
    else
      match AfterTurns(d, turns[..|turns| - 1])
      case None => None
      case Some(before) => AfterTurn(before, turns[|turns| - 1])
  }

  /** A file selected and called. */
  function Opened(idle: Server, ca: int, ioa: int, file: File, length: nat, selected: nat, called: nat): (d: Progress)
    requires idle.Valid()
    ensures d.server.Valid()
  {
    var s := HandleAsdu(idle, SelectFile(ca, ioa, Found(file, length)), selected).0;
    var (t, out) := HandleAsdu(s, CallFile(ca, ioa), called);
    Progress(t, if out == [] then Rejected(0, false) else out[0], out, [])
  }

  /** The server has announced section i + 1, or the end. */
  predicate Standing(d: Progress, file: File, i: nat) {
    var s := d.server;
    && i <= 255 && s.Valid() && s.file == Some(file) && s.sectionNumber as int == (i + 1) % 256 && s.offset == 0
    && if Ready(file, i) then
         s.state == WaitingForSectionCall && d.announced == SectionReady(s.sectionNumber, |file[i]|)
       else s.state == WaitingForFileAck && d.announced.LastSection? && d.announced.nos == s.sectionNumber
  }

  /** The sections of the file that the master takes. */
  function Chosen(file: File, turns: seq<Turn>): seq<seq<byte>>
    requires |turns| <= |file|
  {
    if turns == [] then []
    else
      Chosen(file, turns[..|turns| - 1])
      + if turns[|turns| - 1].Take? then [file[|turns| - 1]] else []
  }

  predicate AnnouncedAs(m: Message, file: File, i: nat) {
    if Ready(file, i) then m == SectionReady(i + 1, |file[i]|) else m.LastSection? && m.nos as int == (i + 1) % 256
  }

  /** Moving on from section i + 1. */
  lemma MovesOn(s: Server, file: File, i: nat, now: nat)
    requires s.Valid() && s.file == Some(file) && Ready(file, i) && s.sectionNumber as int == i + 1
    ensures var (t, out) := NextSection(s.(sectionNumber := s.NextNumber(), offset := 0), now);
            && |out| == 1 && AnnouncedAs(out[0], file, i + 1)
            && t.sectionNumber as int == (i + 2) % 256 && t.file == Some(file) && t.lastSendTime == now && t.offset == 0
            && t.state == if Ready(file, i + 1) then WaitingForSectionCall else WaitingForFileAck
  {
  }

  lemma DeclinedTurn(d: Progress, file: File, i: nat, now: nat)
    requires Standing(d, file, i) && Ready(file, i) && !d.server.Expired(now)
    ensures var r := AfterTurn(d, Decline(now));
            r.Some? && Standing(r.value, file, i + 1) && r.value.received == d.received
            && |r.value.heard| == |d.heard| + 1 && r.value.heard[..|d.heard|] == d.heard
            && r.value.heard[|d.heard|] == r.value.announced
  {
    MovesOn(d.server, file, i, now);
    hide NextSection;
    assert d.received + [] == d.received;
  }

  /** A called section is transmitted from its beginning. */
  predicate Transmitting(s: Server, file: File, i: nat) {
    && s.Valid() && s.file == Some(file) && Ready(file, i) && s.sectionNumber as int == i + 1
    && s.state == TransmitSection && s.offset == 0 && s.size == |file[i]|
  }

  lemma CalledSection(d: Progress, file: File, i: nat, now: nat)
    requires Standing(d, file, i) && Ready(file, i) && !d.server.Expired(now)
    ensures Transmitting(HandleAsdu(d.server, CallOf(d, false), now).0, file, i)
    ensures HandleAsdu(d.server, CallOf(d, false), now).1 == []
  {
  }

  lemma TransmittedWhole(s: Server, file: File, i: nat, try: Try)
    requires Transmitting(s, file, i) && InTime(s, try)
    ensures var (t, out) := Transmit(s, try.runs);
            && Payload(out) == file[i] && t.Valid() && t.state == WaitingForSectionAck && t.file == Some(file)
            && t.sectionNumber as int == i + 1 && !t.Expired(try.answered)
  {
    hide Transmit, Payload, SegmentsThenLast;
    TransmitKeepsValid(s, try.runs);
    TransmissionCompletes(s, try.runs);
    assert s.Section()[0..] == file[i];
  }

  lemma {:induction false} RetriedTransmits(s: Server, file: File, i: nat, tries: seq<Try>)
    requires Transmitting(s, file, i)
    ensures Retried(s, tries).Some? ==> Transmitting(Retried(s, tries).value, file, i)
  {
    if tries != [] {
      hide Transmit, Payload, Transmitting, InTime, HandleAsdu;
      var front, try := tries[..|tries| - 1], tries[|tries| - 1];
      RetriedTransmits(s, file, i, front);
      if Retried(s, front).Some? && InTime(Retried(s, front).value, try) {
        RejectedOnce(Retried(s, front).value, file, i, try);
      }
    }
  }

  lemma RejectedOnce(s: Server, file: File, i: nat, try: Try)
    requires Transmitting(s, file, i) && InTime(s, try)
    ensures Transmitting(Answered(s, try, 4).0, file, i)
    ensures Answered(s, try, 4).1 == [SectionReady(i + 1, |file[i]|)]
    ensures Answered(s, try, 4).0.lastSendTime == try.answered
  {
    hide Transmit, Payload;
    TransmittedWhole(s, file, i, try);
  }

  lemma AcceptedSection(s: Server, file: File, i: nat, try: Try)
    requires Transmitting(s, file, i) && InTime(s, try)
    ensures var (t, out) := Answered(s, try, 3);
            && |out| == 1 && AnnouncedAs(out[0], file, i + 1)
            && t.Valid() && t.sectionNumber as int == (i + 2) % 256 && t.file == Some(file) && t.offset == 0
            && t.state == if Ready(file, i + 1) then WaitingForSectionCall else WaitingForFileAck
  {
    TransmittedWhole(s, file, i, try);
    hide Transmit, Payload, HandleAsdu, AnnouncedAs;
    AckMovesOn(Transmit(s, try.runs).0, file, i, try.answered);
  }

  lemma AckMovesOn(s: Server, file: File, i: nat, now: nat)
    requires s.Valid() && s.file == Some(file) && Ready(file, i) && s.sectionNumber as int == i + 1
    requires s.state == WaitingForSectionAck && !s.Expired(now)
    ensures var (t, out) := HandleAsdu(s, Ack(3), now);
            && |out| == 1 && AnnouncedAs(out[0], file, i + 1)
            && t.sectionNumber as int == (i + 2) % 256 && t.file == Some(file) && t.offset == 0
            && t.state == if Ready(file, i + 1) then WaitingForSectionCall else WaitingForFileAck
  {
    MovesOn(s, file, i, now);
    hide NextSection, AnnouncedAs;
  }

  lemma TakenParts(d: Progress, turn: Turn) returns (s: Server, u: Server)
    requires d.server.Valid() && turn.Take? && AfterTurn(d, turn).Some?
    ensures d.announced.SectionReady? && s == HandleAsdu(d.server, CallOf(d, false), turn.called).0
    ensures !d.server.Expired(turn.called) && s.Valid() && Retried(s, turn.rejected) == Some(u) && u.Valid()
    ensures InTime(u, turn.accepted)
    ensures AfterTurn(d, turn).value
            == Heard(d, Answered(u, turn.accepted, 3), [Payload(Transmit(u, turn.accepted.runs).1)])
  {
    hide Transmit, Payload, HandleAsdu, Server.Expired;
    s := HandleAsdu(d.server, CallOf(d, false), turn.called).0;
    u := Retried(s, turn.rejected).value;
  }

  lemma TakenTurn(d: Progress, file: File, i: nat, turn: Turn)
    requires Standing(d, file, i) && Ready(file, i) && turn.Take? && AfterTurn(d, turn).Some?
    ensures var r := AfterTurn(d, turn).value;
            Standing(r, file, i + 1) && r.received == d.received + [file[i]]
            && |r.heard| == |d.heard| + 1 && r.heard[..|d.heard|] == d.heard && r.heard[|d.heard|] == r.announced
  {
    hide Transmit, Payload, HandleAsdu, Transmitting, InTime, Retried, Answered, CallOf, AfterTurn;
    var s, u := TakenParts(d, turn);
    CalledSection(d, file, i, turn.called);
    RetriedTransmits(s, file, i, turn.rejected);
    TransmittedWhole(u, file, i, turn.accepted);
    AcceptedSection(u, file, i, turn.accepted);
  }

  lemma OpenedStands(idle: Server, ca: int, ioa: int, file: File, length: nat, selected: nat, called: nat)
    requires idle.Valid() && idle.state == Idle && called <= selected + TIMEOUT && Ready(file, 0)
    ensures var d := Opened(idle, ca, ioa, file, length, selected, called);
            Standing(d, file, 0) && d.heard == [SectionReady(1, |file[0]|)] && d.received == []
  {
  }

  /** All announcements so far, in the order of the file. */
  predicate InOrder(heard: seq<Message>, file: File) {
    forall j | 0 <= j < |heard| :: AnnouncedAs(heard[j], file, j)
  }

  lemma OneMoreHeard(before: seq<Message>, after: seq<Message>, file: File, d: Progress)
    requires InOrder(before, file) && |after| == |before| + 1 && after[..|before|] == before
    requires after[|before|] == d.announced && Standing(d, file, |before|)
    ensures InOrder(after, file)
  {
    forall j | 0 <= j < |before| ensures after[j] == before[j] {
      assert after[..|before|][j] == before[j];
    }
  }

  /** From any idle server, whatever an earlier transfer left behind: as long as the master's turns are in time, the
      server announces sections 1, 2, 3, ... of the file in order, with their lengths; the master receives exactly the
      sections it takes, whole and in order, however often it rejects one; and LAST SECTION comes as soon as the next
      section is absent, empty, or number 256. */
  lemma {:induction false} DownloadFollowsFile(idle: Server, ca: int, ioa: int, file: File, length: nat, selected: nat,
                                               called: nat, turns: seq<Turn>)
    requires idle.Valid() && idle.state == Idle && called <= selected + TIMEOUT && Ready(file, 0)
    requires AfterTurns(Opened(idle, ca, ioa, file, length, selected, called), turns).Some?
    ensures var d := AfterTurns(Opened(idle, ca, ioa, file, length, selected, called), turns).value;
            && |turns| <= |file| && Standing(d, file, |turns|)
            && |d.heard| == |turns| + 1 && InOrder(d.heard, file)
            && d.received == Chosen(file, turns)
            && (forall j | 0 <= j < |turns| :: Ready(file, j))
  {
    hide Opened, AfterTurn;
    var start := Opened(idle, ca, ioa, file, length, selected, called);
    OpenedStands(idle, ca, ioa, file, length, selected, called);
    if turns != [] {
      var front, turn := turns[..|turns| - 1], turns[|turns| - 1];
      DownloadFollowsFile(idle, ca, ioa, file, length, selected, called, front);
      hide InOrder;
      var before := AfterTurns(start, front).value;
      TurnMovesOn(before, file, |front|, turn);
      OneMoreHeard(before.heard, AfterTurn(before, turn).value.heard, file, AfterTurn(before, turn).value);
    }
  }

  /** A turn is possible only while a section is announced. */
  lemma TurnMovesOn(d: Progress, file: File, i: nat, turn: Turn)
    requires Standing(d, file, i) && AfterTurn(d, turn).Some?
    ensures var r := AfterTurn(d, turn).value;
            && Ready(file, i) && Standing(r, file, i + 1)
            && r.received == d.received + (if turn.Take? then [file[i]] else [])
            && |r.heard| == |d.heard| + 1 && r.heard[..|d.heard|] == d.heard && r.heard[|d.heard|] == r.announced
  {
    assert AfterTurn(d, turn).Some? ==> d.announced.SectionReady? && (turn.Decline? ==> !d.server.Expired(turn.now));
    hide AfterTurn;
    if turn.Decline? {
      DeclinedTurn(d, file, i, turn.now);
      assert d.received + [] == d.received;
    } else {
      TakenTurn(d, file, i, turn);
    }
  }

  /** The sections a server ever announces of a file: the leading non-empty ones, at most 255. */
  function Leading(file: File): (m: nat)
    ensures m <= |file| && m <= 255 && !Ready(file, m) && forall i | 0 <= i < m :: Ready(file, i)
  {
    LeadingFrom(file, 0)
  }

  function LeadingFrom(file: File, i: nat): (m: nat)
    requires i <= |file| && i <= 255 && forall j | 0 <= j < i :: Ready(file, j)
    ensures m <= |file| && m <= 255 && !Ready(file, m) && forall j | 0 <= j < m :: Ready(file, j)
    decreases |file| - i
  {
    if Ready(file, i) then LeadingFrom(file, i + 1) else i
  }

  lemma {:induction false} AllChosen(file: File, turns: seq<Turn>)
    requires |turns| <= |file| && forall i | 0 <= i < |turns| :: turns[i].Take?
    ensures Chosen(file, turns) == file[..|turns|]
  {
    if turns != [] { AllChosen(file, turns[..|turns| - 1]); }
  }

  /** A master that takes every section announced until LAST SECTION has the leading sections, up to number 255; it has the
      whole file if and only if the file has at most 255 sections and none of them is empty. Its acknowledgement of the
      file then makes the server idle. */
  lemma DownloadCompletes(idle: Server, ca: int, ioa: int, file: File, length: nat, selected: nat, called: nat,
                          turns: seq<Turn>, end: nat)
    requires idle.Valid() && idle.state == Idle && called <= selected + TIMEOUT && Ready(file, 0)
    requires AfterTurns(Opened(idle, ca, ioa, file, length, selected, called), turns).Some?
    requires forall i | 0 <= i < |turns| :: turns[i].Take?
    requires AfterTurns(Opened(idle, ca, ioa, file, length, selected, called), turns).value.announced.LastSection?
    ensures var d := AfterTurns(Opened(idle, ca, ioa, file, length, selected, called), turns).value;
            && |turns| == Leading(file) && d.received == file[..Leading(file)]
            && d.announced.nos as int == (Leading(file) + 1) % 256
            && (d.received == file <==> |file| <= 255 && forall i | 0 <= i < |file| :: file[i] != [])
            && (!d.server.Expired(end) ==> HandleAsdu(d.server, Ack(1), end) == (d.server.(file := None, state := Idle), []))
  {
    hide AfterTurns, Opened;
    var d := AfterTurns(Opened(idle, ca, ioa, file, length, selected, called), turns).value;
    DownloadFollowsFile(idle, ca, ioa, file, length, selected, called, turns);
    AllChosen(file, turns);
    LeadingIs(file, |turns|);
    if !d.server.Expired(end) {
      FileAckEnds(d.server, 1, end);
    }
    hide HandleAsdu;
    var m := Leading(file);
    if m < |file| {
      assert |file[..m]| != |file|;
      assert !Ready(file, m);
    } else {
      assert file[..m] == file;
      forall i | 0 <= i < |file| ensures file[i] != [] { assert Ready(file, i); }
    }
  }

  lemma LeadingIs(file: File, i: nat)
    requires !Ready(file, i) && forall j | 0 <= j < i :: Ready(file, j)
    ensures i == Leading(file)
  {
  }
}
