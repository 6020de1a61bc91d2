// The download side of the file service (file_server.c): SELECT FILE, CALL FILE, CALL SECTION, the section in segments,
// LAST SEGMENT and LAST SECTION with their checksums, acknowledgements and timeouts.
module FileServer {
  import opened Bytes
  import opened Wrappers

  const TIMEOUT := 3000

  /** A file as the provider serves it: its sections. */
  type File = seq<seq<byte>>

  datatype State =
    | Idle | WaitingForFileCall | WaitingForSectionCall | TransmitSection | WaitingForSectionAck | WaitingForFileAck
    | SendAbort

  const FILE_TRANSFER := 13
  const UNKNOWN_CA := 46
  const UNKNOWN_IOA := 47

  /** What the server sends. Rejected is the master's own ASDU returned with this cause, and whether the server marked it
      negative. */
  datatype Message =
    | FileReady(length: nat, positive: bool)
    | SectionReady(nos: byte, size: int)
    | Segment(nos: byte, data: seq<byte>)
    | LastSegment(nos: byte, chs: byte)
    | LastSection(nos: byte, chs: byte)
    | Rejected(cause: nat, negative: bool)

  datatype Lookup = Found(file: File, length: nat) | UnknownCa | UnknownIoa | NotReady

  datatype Request =
    | SelectFile(ca: int, ioa: int, lookup: Lookup)
    | DeactivateFile
    | CallFile(ca: int, ioa: int)
    | CallSection(ca: int, ioa: int, nos: byte, negative: bool)
    | Ack(afq: byte)

  function SectionSize(file: File, index: int): int {
    if 0 <= index < |file| then |file[index]| else 0
  }

  datatype Server = Server(state: State, file: Option<File>, ca: int, ioa: int, sectionNumber: byte, offset: int,
                           size: int, sectionChecksum: byte, fileChecksum: byte, lastSendTime: nat, maxSegmentSize: nat)
  {
    predicate Valid() {
      && maxSegmentSize >= 1
      && (state !in {Idle, SendAbort} ==> file.Some?)
      && (state == TransmitSection ==>
            1 <= sectionNumber as int <= |file.value| && size == |file.value[sectionNumber - 1]| && 0 <= offset <= size)
      && (state == WaitingForSectionAck ==>
            1 <= sectionNumber as int <= |file.value| && size == |file.value[sectionNumber - 1]|)
    }

    /** The section being transmitted. */
    function Section(): seq<byte>
      requires Valid() && state in {TransmitSection, WaitingForSectionAck}
    {
      file.value[sectionNumber - 1]
    }

    predicate Expired(now: nat) { now > lastSendTime + TIMEOUT }

    function NextNumber(): byte { (sectionNumber + 1) % 256 }
  }

  /** The state after creation. */
  function Created(maxSegmentSize: nat): Server {
    Server(Idle, None, 0, 0, 0, 0, 0, 0, 0, 0, maxSegmentSize)
  }

  type Outcome = (Server, seq<Message>)

  function CheckTimeout(s: Server, now: nat): Server {
    if s.state != Idle && s.Expired(now) then s.(state := Idle) else s
  }

  function SendSegment(s: Server, now: nat): Outcome
    requires s.Valid() && s.state == TransmitSection && s.offset < s.size
  {
    var length := if s.size - s.offset > s.maxSegmentSize then s.maxSegmentSize else s.size - s.offset;
    var data := s.Section()[s.offset..s.offset + length];
    (s.(offset := s.offset + length, lastSendTime := now, sectionChecksum := (s.sectionChecksum + Sum(data)) % 256),
     [Message.Segment(s.sectionNumber, data)])
  }

  function SendLastSegment(s: Server, now: nat): Outcome {
    (s.(fileChecksum := (s.fileChecksum + s.sectionChecksum) % 256, sectionChecksum := 0, lastSendTime := now,
        state := WaitingForSectionAck),
     [LastSegment(s.sectionNumber, s.sectionChecksum)])
  }

  /** One call of the periodic task for the connection that selected the file (`own`) or another one. */
  function RunTask(s: Server, own: bool, now: nat): (r: Outcome)
    requires s.Valid()
    ensures r.0.Valid()
  {
    if s.state == Idle then (s, [])
    else if s.state == TransmitSection && own then
      var (t, out) := if s.offset < s.size then SendSegment(s, now) else SendLastSegment(s, now);
      (CheckTimeout(t, now), out)
    else (CheckTimeout(s, now), [])
  }

  function NextSection(s: Server, now: nat): Outcome
    requires s.file.Some?
  {
    var size := SectionSize(s.file.value, s.sectionNumber - 1);
    if size <= 0 then
      (s.(lastSendTime := now, state := WaitingForFileAck), [LastSection(s.sectionNumber, s.fileChecksum)])
    else
      (s.(size := size, lastSendTime := now, state := WaitingForSectionCall), [SectionReady(s.sectionNumber, size)])
  }

  function HandleAck(s: Server, afq: byte, now: nat): Outcome
    requires s.Valid()
  {
    if s.state == Idle then (s, [Rejected(UNKNOWN_CA, false)])
    else if afq == 1 || afq % 16 == 2 then
      (if s.state == WaitingForFileAck then s.(file := None, state := Idle) else s.(state := SendAbort), [])
    else if afq % 16 == 4 then
      if s.state != WaitingForSectionAck then (s.(state := SendAbort), [])
      else (s.(offset := 0, sectionChecksum := 0, lastSendTime := now, state := TransmitSection),
            [SectionReady(s.sectionNumber, s.size)])
    else if afq % 16 == 3 then
      if s.state != WaitingForSectionAck then (s.(state := SendAbort), [])
      else
        var (t, out) := NextSection(s.(sectionNumber := s.NextNumber(), offset := 0), now);
        (t.(sectionChecksum := 0), out)
    else (s, [])
  }

  function HandleCallSection(s: Server, nos: byte, negative: bool, now: nat): Outcome
    requires s.Valid() && s.state == WaitingForSectionCall
  {
    if negative then
      var t := s.(sectionNumber := s.NextNumber(), offset := 0);
      var (u, out) := NextSection(t, now);
      (u.(size := SectionSize(t.file.value, t.sectionNumber - 1)), out)
    else
      var t := s.(size := SectionSize(s.file.value, nos - 1));
      if t.size > 0 then (t.(sectionNumber := nos, offset := 0, state := TransmitSection), [])
      else (t.(lastSendTime := now), [Rejected(FILE_TRANSFER, true)])
  }

  function HandleSelect(s: Server, ca: int, ioa: int, lookup: Lookup, now: nat): Outcome {
    if s.state != Idle then (s, [])
    else match lookup
      case Found(file, length) =>
        (s.(file := Some(file), ca := ca, ioa := ioa, lastSendTime := now, state := WaitingForFileCall),
         [FileReady(length, true)])
      case NotReady => (s.(ca := ca, ioa := ioa), [FileReady(0, false)])
      case UnknownCa => (s, [Rejected(UNKNOWN_CA, true)])
      case UnknownIoa => (s, [Rejected(UNKNOWN_IOA, true)])
  }

  /** A call for a file that is not the selected one. */
  function WrongFile(s: Server, ca: int): Message { Rejected(if ca != s.ca then UNKNOWN_CA else UNKNOWN_IOA, true) }

  function HandleCallFile(s: Server, ca: int, ioa: int, now: nat): Outcome
    requires s.Valid()
  {
    if s.state != WaitingForFileCall then (s, [])
    else if ioa != s.ioa || ca != s.ca then (s, [WrongFile(s, ca)])
    else
      var size := SectionSize(s.file.value, 0);
      (s.(sectionNumber := 1, offset := 0, fileChecksum := 0, size := size, lastSendTime := now,
          state := WaitingForSectionCall),
       [SectionReady(1, size)])
  }

  /** CS101_FileServer_handleAsdu. */
  function HandleAsdu(s0: Server, request: Request, now: nat): (r: Outcome)
    requires s0.Valid()
    ensures r.0.Valid()
  {
    var s := CheckTimeout(s0, now);
    match request
    case SelectFile(ca, ioa, lookup) => HandleSelect(s, ca, ioa, lookup, now)
    case DeactivateFile => (if s.state == Idle then s.(file := None) else s, [])
    case CallFile(ca, ioa) => HandleCallFile(s, ca, ioa, now)
    case CallSection(ca, ioa, nos, negative) =>
      if s.state != WaitingForSectionCall then (s, [])
      else if ioa != s.ioa || ca != s.ca then (s, [WrongFile(s, ca)])
      else HandleCallSection(s, nos, negative, now)
    case Ack(afq) => HandleAck(s, afq, now)
  }

  // ---------------------------------------------------------------- any run

  datatype Event = Received(request: Request, now: nat) | Task(own: bool, now: nat)

  function Step(s: Server, e: Event): (r: Outcome)
    requires s.Valid()
    ensures r.0.Valid()
  {
    match e
    case Received(request, now) => HandleAsdu(s, request, now)
    case Task(own, now) => RunTask(s, own, now)
  }

  /** What has gone out since CALL FILE: the sections the master accepted (their numbers and octets), the octets of
      the transmission it has not answered yet, those of all transmissions it rejected, the segments of the present
      transmission, how many LAST SEGMENTs were sent, and the section checksum found at CALL FILE. */
  datatype Log = Log(numbers: seq<byte>, accepted: seq<byte>, pending: seq<byte>, rejected: seq<byte>,
                     current: seq<byte>, closed: nat, stale: byte)

  function Closed(log: Log): Log {
    log.(pending := log.current, current := [], closed := log.closed + 1)
  }

  function Accepted(log: Log, nos: byte): Log {
    log.(numbers := log.numbers + [nos], accepted := log.accepted + log.pending, pending := [])
  }

  function Repeated(log: Log): Log {
    log.(rejected := log.rejected + log.pending, pending := [])
  }

  predicate Refused(out: seq<Message>) { out != [] && out[0].Rejected? }

  function Note(log: Log, before: Server, e: Event, out: seq<Message>): Log {
    match e
    case Task(_, _) =>
      if |out| == 1 && out[0].Segment? then log.(current := log.current + out[0].data)
      else if |out| == 1 && out[0].LastSegment? then Closed(log)
      else log
    case Received(request, now) =>
      var s := CheckTimeout(before, now);
      if request.CallFile? && s.state == WaitingForFileCall && !Refused(out) then
        Log([], [], [], [], [], 0, s.sectionChecksum)
      else if s.state == WaitingForSectionCall then log.(current := [])
      else if s.state == WaitingForSectionAck && request.Ack? && request.afq % 16 == 3 then
        Accepted(log, s.sectionNumber)
      else if s.state == WaitingForSectionAck && request.Ack? && request.afq % 16 == 4 then Repeated(log)
      else log
  }

  function SectionsOf(file: File, numbers: seq<byte>): seq<byte>
    requires forall i | 0 <= i < |numbers| :: 1 <= numbers[i] as int <= |file|
  {
    if numbers == [] then []
    else SectionsOf(file, numbers[..|numbers| - 1]) + file[numbers[|numbers| - 1] - 1]
  }

  predicate Downloading(s: Server) {
    s.state in {WaitingForSectionCall, TransmitSection, WaitingForSectionAck, WaitingForFileAck}
  }

  /** The section checksum a transmission starts with: only the first one inherits what an abandoned one left. */
  function Carry(log: Log): byte { if log.closed == 0 then log.stale else 0 }

  /** The running file checksum counts every closed transmission, accepted or not, and the inherited one. */
  predicate FileChecksumCounts(fileChecksum: byte, log: Log) {
    && fileChecksum == (if log.closed == 0 then 0
                        else (log.stale + Total(log.accepted) + Total(log.pending) + Total(log.rejected)) % 256)
    && (log.closed == 0 ==> log.numbers == [] && log.pending == [] && log.rejected == [])
  }

  predicate AcceptedSections(file: File, numbers: seq<byte>, accepted: seq<byte>) {
    && (forall i | 0 <= i < |numbers| :: 1 <= numbers[i] as int <= |file|)
    && accepted == SectionsOf(file, numbers)
  }

  predicate InPhase(s: Server, log: Log)
    requires s.Valid()
  {
    match s.state
    case WaitingForSectionCall => log.pending == [] && s.sectionChecksum == Carry(log)
    case TransmitSection =>
      && log.pending == [] && log.current == s.Section()[..s.offset]
      && s.sectionChecksum == (Carry(log) + Total(log.current)) % 256
    case WaitingForSectionAck =>
      log.closed > 0 && log.pending == s.Section() && s.sectionChecksum == 0 && log.current == []
    case WaitingForFileAck => log.pending == []
    case _ => true
  }

  ghost predicate Accounts(s: Server, log: Log) {
    && s.Valid()
    && (Downloading(s) ==>
          && FileChecksumCounts(s.fileChecksum, log)
          && AcceptedSections(s.file.value, log.numbers, log.accepted)
          && InPhase(s, log))
  }

  lemma SegmentSum(carry: byte, current: seq<byte>, data: seq<byte>)
    ensures ((carry + Total(current)) % 256 + Sum(data)) % 256 == (carry + Total(current + data)) % 256
  {
    hide Total;
    TotalAppend(current, data);
  }

  lemma SegmentKeepsAccounts(s: Server, log: Log, now: nat)
    requires Accounts(s, log) && s.state == TransmitSection && s.offset < s.size
    ensures var (t, out) := SendSegment(s, now);
            Accounts(t, Note(log, s, Task(true, now), out))
  {
    hide SectionsOf, Total, Sum, AcceptedSections, FileChecksumCounts;
    var (t, out) := SendSegment(s, now);
    var data := out[0].data;
    SegmentsUncounted(s.fileChecksum, log, log.current + data);
    SegmentSum(Carry(log), log.current, data);
    assert log.current + data == s.Section()[..t.offset];
  }

  lemma SegmentsUncounted(fileChecksum: byte, log: Log, current: seq<byte>)
    requires FileChecksumCounts(fileChecksum, log)
    ensures FileChecksumCounts(fileChecksum, log.(current := current))
  {
  }

  lemma ClosingCounts(fileChecksum: byte, log: Log, chs: byte)
    requires FileChecksumCounts(fileChecksum, log) && log.pending == []
    requires log.closed == 0 ==> log.accepted == []
    requires chs == (Carry(log) + Total(log.current)) % 256
    ensures FileChecksumCounts((fileChecksum + chs) % 256, Closed(log))
  {
    assert Total([]) == 0;
    hide Total;
    var a, r, c := Total(log.accepted), Total(log.rejected), Total(log.current);
    if log.closed > 0 {
      AddMod(log.stale + a + r, c);
    } else {
      assert a == 0 && r == 0 && (fileChecksum + chs) % 256 == (log.stale + c) % 256;
    }
  }

  lemma LastSegmentKeepsAccounts(s: Server, log: Log, now: nat)
    requires Accounts(s, log) && s.state == TransmitSection && s.offset == s.size
    ensures var (t, out) := SendLastSegment(s, now);
            Accounts(t, Note(log, s, Task(true, now), out))
  {
    assert log.closed == 0 ==> log.accepted == [];
    hide SectionsOf, Total, AcceptedSections, FileChecksumCounts;
    ClosingCounts(s.fileChecksum, log, s.sectionChecksum);
    assert s.Section()[..s.offset] == s.Section();
  }

  lemma TaskKeepsAccounts(s: Server, log: Log, own: bool, now: nat)
    requires Accounts(s, log)
    ensures var (t, out) := RunTask(s, own, now);
            Accounts(t, Note(log, s, Task(own, now), out))
  {
    if s.state == TransmitSection && own {
      if s.offset < s.size {
        SegmentKeepsAccounts(s, log, now);
      } else {
        LastSegmentKeepsAccounts(s, log, now);
      }
    }
    hide SectionsOf, Total, AcceptedSections, FileChecksumCounts;
  }

  /** An acknowledgement of either kind moves octets without changing their sum. */
  lemma AnswersKeepSum(fileChecksum: byte, log: Log, nos: byte)
    requires FileChecksumCounts(fileChecksum, log) && log.closed > 0
    ensures FileChecksumCounts(fileChecksum, Accepted(log, nos)) && FileChecksumCounts(fileChecksum, Repeated(log))
  {
    assert Total([]) == 0;
    hide Total;
    TotalAppend(log.accepted, log.pending);
    TotalAppend(log.rejected, log.pending);
  }

  lemma AcceptKeepsAccounts(s: Server, log: Log, now: nat)
    requires Accounts(s, log) && s.state == WaitingForSectionAck
    ensures Accounts(HandleAck(s, 3, now).0, Accepted(log, s.sectionNumber))
  {
    var numbers := log.numbers + [s.sectionNumber];
    assert numbers[..|numbers| - 1] == log.numbers;
    assert AcceptedSections(s.file.value, numbers, log.accepted + log.pending);
    AnswersKeepSum(s.fileChecksum, log, s.sectionNumber);
    hide SectionsOf, Total, FileChecksumCounts, AcceptedSections;
  }

  lemma RejectKeepsAccounts(s: Server, log: Log, now: nat)
    requires Accounts(s, log) && s.state == WaitingForSectionAck
    ensures Accounts(HandleAck(s, 4, now).0, Repeated(log))
  {
    assert Total([]) == 0;
    AnswersKeepSum(s.fileChecksum, log, s.sectionNumber);
    hide SectionsOf, Total, AcceptedSections, FileChecksumCounts;
    assert s.Section()[..0] == [];
  }

  lemma AckKeepsAccounts(s: Server, log: Log, afq: byte, now: nat)
    requires Accounts(s, log)
    ensures var (t, out) := HandleAck(s, afq, now);
            Accounts(t, if s.state != WaitingForSectionAck then log
                        else if afq % 16 == 3 then Accepted(log, s.sectionNumber)
                        else if afq % 16 == 4 then Repeated(log)
                        else log)
  {
    if s.state == WaitingForSectionAck && afq % 16 == 3 {
      AcceptKeepsAccounts(s, log, now);
    } else if s.state == WaitingForSectionAck && afq % 16 == 4 {
      RejectKeepsAccounts(s, log, now);
    }
    hide SectionsOf, Total, AcceptedSections, FileChecksumCounts;
  }

  lemma CallSectionKeepsAccounts(s: Server, log: Log, nos: byte, negative: bool, now: nat)
    requires Accounts(s, log) && s.state == WaitingForSectionCall
    ensures var (t, out) := HandleCallSection(s, nos, negative, now);
            Accounts(t, log.(current := []))
  {
    assert Total([]) == 0;
    hide SectionsOf, Total, AcceptedSections;
    if !negative && SectionSize(s.file.value, nos - 1) > 0 {
      assert s.file.value[nos - 1][..0] == [];
    }
  }

  lemma CallFileKeepsAccounts(s: Server, log: Log, ca: int, ioa: int, now: nat)
    requires Accounts(s, log)
    ensures var (t, out) := HandleCallFile(s, ca, ioa, now);
            Accounts(t, if s.state == WaitingForFileCall && !Refused(out)
                        then Log([], [], [], [], [], 0, s.sectionChecksum) else log)
  {
    hide Total;
  }

  lemma RequestKeepsAccounts(s: Server, log: Log, request: Request, now: nat)
    requires Accounts(s, log)
    ensures var (t, out) := HandleAsdu(s, request, now);
            Accounts(t, Note(log, s, Received(request, now), out))
  {
    hide SectionsOf, Total, AcceptedSections, FileChecksumCounts;
    var u := CheckTimeout(s, now);
    match request
    case SelectFile(ca, ioa, lookup) =>
      Unlogged(u, log);
    case DeactivateFile =>
      Unlogged(u, log);
    case CallFile(ca, ioa) =>
      CallFileKeepsAccounts(u, log, ca, ioa, now);
      Unlogged(u, log);
    case CallSection(ca, ioa, nos, negative) =>
      if u.state == WaitingForSectionCall {
        CallSectionKeepsAccounts(u, log, nos, negative, now);
      }
      Unlogged(u, log);
    case Ack(afq) =>
      AckKeepsAccounts(u, log, afq, now);
      Unlogged(u, log);
  }

  /** Before a transmission the log of segments may be cleared. */
  lemma Unlogged(s: Server, log: Log)
    requires Accounts(s, log)
    ensures s.state in {WaitingForSectionCall, SendAbort} ==> Accounts(s, log.(current := []))
  {
    hide SectionsOf, Total, AcceptedSections;
  }

  function Run(events: seq<Event>, maxSegmentSize: nat): (r: (Server, Log))
    requires maxSegmentSize >= 1
    ensures r.0.Valid()
  {
    if events == [] then (Created(maxSegmentSize), Log([], [], [], [], [], 0, 0))
    else
      var (s, log) := Run(events[..|events| - 1], maxSegmentSize);
      var e := events[|events| - 1];
      var (t, out) := Step(s, e);
      (t, Note(log, s, e, out))
  }

  lemma {:induction false} EveryRunAccounts(events: seq<Event>, maxSegmentSize: nat)
    requires maxSegmentSize >= 1
    ensures Accounts(Run(events, maxSegmentSize).0, Run(events, maxSegmentSize).1)
  {
    if events == [] {
    } else {
      var front := events[..|events| - 1];
      EveryRunAccounts(front, maxSegmentSize);
      hide Accounts, Note, HandleAsdu, RunTask;
      var (s, log) := Run(front, maxSegmentSize);
      match events[|events| - 1]
      case Received(request, now) => RequestKeepsAccounts(s, log, request, now);
      case Task(own, now) => TaskKeepsAccounts(s, log, own, now);
    }
  }

  /** The segments sent before a LAST SEGMENT are the section, each of 1 to maxSegmentSize octets. Its checksum is that
      of the section exactly if this is not the first transmission since CALL FILE or no abandoned transfer left a
      section checksum behind. */
  predicate SectionSpelled(s: Server, log: Log, out: seq<Message>)
    requires s.Valid()
  {
    out != [] ==>
      && |out| == 1 && s.state == TransmitSection
      && match out[0]
         case Segment(nos, data) =>
           nos == s.sectionNumber && 1 <= |data| <= s.maxSegmentSize && log.current + data <= s.Section()
         case LastSegment(nos, chs) =>
           && nos == s.sectionNumber && log.current == s.Section()
           && (chs == Sum(s.Section()) <==> log.closed > 0 || log.stale == 0)
         case _ => false
  }

  lemma TaskSpellsSection(s: Server, log: Log, own: bool, now: nat)
    requires Accounts(s, log)
    ensures SectionSpelled(s, log, RunTask(s, own, now).1)
  {
    hide Total, FileChecksumCounts, AcceptedSections;
    if s.state == TransmitSection && own {
      var section := s.Section();
      if s.offset < s.size {
        hide Sum;
        var data := SendSegment(s, now).1[0].data;
        assert log.current + data == section[..s.offset + |data|];
      } else {
        assert section[..s.offset] == section;
        CarryShows(Carry(log), Total(section));
      }
    }
  }

  lemma CarryShows(carry: byte, total: nat)
    ensures (carry + total) % 256 == total % 256 <==> carry == 0
  {
  }

  /** It holds in any run. */
  lemma EverySectionSpelled(events: seq<Event>, maxSegmentSize: nat, own: bool, now: nat)
    requires maxSegmentSize >= 1
    ensures var (s, log) := Run(events, maxSegmentSize);
            SectionSpelled(s, log, RunTask(s, own, now).1)
  {
    hide Run, Accounts, SectionSpelled, RunTask;
    EveryRunAccounts(events, maxSegmentSize);
    TaskSpellsSection(Run(events, maxSegmentSize).0, Run(events, maxSegmentSize).1, own, now);
  }

  /** The checksum of LAST SECTION covers the sections the master accepted exactly if what an abandoned transfer left
      behind and the transmissions the master rejected add up to 0. */
  predicate SectionsCovered(t: Server, after: Log, out: seq<Message>) {
    out != [] && out[0].LastSection? ==>
      && t.file.Some? && AcceptedSections(t.file.value, after.numbers, after.accepted)
      && if after.closed == 0 then out[0].chs == 0 && after.numbers == []
         else out[0].chs == Sum(after.accepted) <==> (after.stale + Total(after.rejected)) % 256 == 0
  }

  lemma EveryLastSectionCovers(events: seq<Event>, maxSegmentSize: nat, request: Request, now: nat)
    requires maxSegmentSize >= 1
    ensures var (s, log) := Run(events, maxSegmentSize);
            var (t, out) := HandleAsdu(s, request, now);
            SectionsCovered(t, Note(log, s, Received(request, now), out), out)
  {
    hide Run, Note, HandleAsdu, SectionsOf, Total, Sum, AcceptedSections, FileChecksumCounts;
    var (s, log) := Run(events, maxSegmentSize);
    EveryRunAccounts(events, maxSegmentSize);
    RequestKeepsAccounts(s, log, request, now);
    var (t, out) := HandleAsdu(s, request, now);
    LastSectionSent(s, request, now);
    var after := Note(log, s, Received(request, now), out);
    if out != [] && out[0].LastSection? {
      if after.closed > 0 {
        CoversAccepted(t.fileChecksum, after);
      } else {
        NothingClosed(t.fileChecksum, after);
      }
    }
  }

  lemma NothingClosed(chs: byte, log: Log)
    requires FileChecksumCounts(chs, log) && log.closed == 0
    ensures chs == 0 && log.numbers == []
  {
  }

  lemma LastSectionSent(s: Server, request: Request, now: nat)
    requires s.Valid()
    ensures var (t, out) := HandleAsdu(s, request, now);
            out != [] && out[0].LastSection? ==> t.state == WaitingForFileAck && out[0].chs == t.fileChecksum
  {
  }

  lemma CoversAccepted(chs: byte, log: Log)
    requires FileChecksumCounts(chs, log) && log.closed > 0 && log.pending == []
    ensures chs == Sum(log.accepted) <==> (log.stale + Total(log.rejected)) % 256 == 0
  {
    assert Total([]) == 0;
    hide Total;
  }

  /** A master that accepts sections 1 to n in order has the whole file. */
  lemma {:induction false} AllSections(file: File, n: nat, numbers: seq<byte>)
    requires n <= |file| && |numbers| == n <= 255 && forall i | 0 <= i < n :: numbers[i] as int == i + 1
    ensures SectionsOf(file, numbers) == Octets(file[..n])
  {
    if n == 0 {
    } else {
      AllSections(file, n - 1, numbers[..n - 1]);
      assert file[..n][..n - 1] == file[..n - 1];
    }
  }

  function Octets(file: File): seq<byte> {
    if file == [] then [] else Octets(file[..|file| - 1]) + file[|file| - 1]
  }

  // ---------------------------------------------------------------- progress of one section

  /** Runs of the task while the section lasts. */
  function Transmit(s: Server, times: seq<nat>): Outcome
    requires s.Valid() && s.state == TransmitSection && |times| > s.size - s.offset
    decreases |times|
  {
    var (t, out) := RunTask(s, true, times[0]);
    if t.state == TransmitSection then
      var (u, more) := Transmit(t, times[1..]);
      (u, out + more)
    else (t, out)
  }

  function Payload(out: seq<Message>): seq<byte> {
    if out == [] then []
    else (if out[0].Segment? then out[0].data else []) + Payload(out[1..])
  }

  /** Full-size segments, then a shorter or full one, then LAST SEGMENT. */
  predicate SegmentsThenLast(out: seq<Message>, maxSegmentSize: nat, last: Message) {
    && |out| > 0 && out[|out| - 1] == last
    && (forall i | 0 <= i < |out| - 1 :: out[i].Segment? && 1 <= |out[i].data| <= maxSegmentSize)
    && (forall i | 0 <= i < |out| - 2 :: out[i].Segment? && |out[i].data| == maxSegmentSize)
  }

  /** However much time passes between the runs, an undisturbed section is sent completely in full-size segments and
      closed by one LAST SEGMENT. */
  lemma {:induction false} TransmissionCompletes(s: Server, times: seq<nat>)
    requires s.Valid() && s.state == TransmitSection && |times| > s.size - s.offset
    ensures var (t, out) := Transmit(s, times);
            var rest := s.Section()[s.offset..];
            && t.state == WaitingForSectionAck && t.file == s.file && t.sectionNumber == s.sectionNumber
            && Payload(out) == rest
            && SegmentsThenLast(out, s.maxSegmentSize,
                                LastSegment(s.sectionNumber, (s.sectionChecksum + Total(rest)) % 256))
    decreases |times|
  {
    hide Total, Sum, Payload, RunTask, SegmentsThenLast, Transmit;
    var section := s.Section();
    if s.offset < s.size {
      RunsSegment(s, times[0]);
      var (t, out) := RunTask(s, true, times[0]);
      TransmitStep(s, times);
      TransmissionCompletes(t, times[1..]);
      var data := out[0].data;
      var more := Transmit(t, times[1..]).1;
      assert section[s.offset..] == data + section[t.offset..];
      SegmentRest(s.sectionChecksum, data, section[t.offset..]);
      PayloadStep(out[0], more);
      if |data| < s.maxSegmentSize {
        TransmitEnd(t, times[1..]);
      }
      SegmentFirst(out[0], more, s.maxSegmentSize,
                   LastSegment(s.sectionNumber, (s.sectionChecksum + Total(section[s.offset..])) % 256));
    } else {
      assert section[s.offset..] == [];
      TransmitEnd(s, times);
      EndOnly(s);
    }
  }

  lemma TransmitStep(s: Server, times: seq<nat>)
    requires s.Valid() && s.state == TransmitSection && |times| > s.size - s.offset && s.offset < s.size
    ensures var (t, out) := RunTask(s, true, times[0]);
            && t.state == TransmitSection && |times[1..]| > t.size - t.offset && |out| == 1
            && Transmit(s, times) == (Transmit(t, times[1..]).0, [out[0]] + Transmit(t, times[1..]).1)
  {
    RunsSegment(s, times[0]);
    hide RunTask, Sum;
    var (t, out) := RunTask(s, true, times[0]);
    assert out == [out[0]];
  }

  /** Behind the end of the section only the LAST SEGMENT is left. */
  lemma TransmitEnd(s: Server, times: seq<nat>)
    requires s.Valid() && s.state == TransmitSection && |times| > 0 && s.offset == s.size
    ensures Transmit(s, times) == SendLastSegment(s, times[0])
  {
  }

  lemma EndOnly(s: Server)
    ensures SegmentsThenLast([LastSegment(s.sectionNumber, s.sectionChecksum)], s.maxSegmentSize,
                             LastSegment(s.sectionNumber, (s.sectionChecksum + Total([])) % 256))
    ensures Payload([LastSegment(s.sectionNumber, s.sectionChecksum)]) == []
  {
    assert Total([]) == 0;
  }

  lemma RunsSegment(s: Server, now: nat)
    requires s.Valid() && s.state == TransmitSection && s.offset < s.size
    ensures var (t, out) := RunTask(s, true, now);
            && t.Valid() && t.state == TransmitSection && s.offset < t.offset <= s.size
            && t.maxSegmentSize == s.maxSegmentSize && t.file == s.file && t.sectionNumber == s.sectionNumber
            && t.size == s.size && t.Section() == s.Section()
            && |out| == 1 && out[0].Segment? && out[0].data == s.Section()[s.offset..t.offset]
            && t.offset - s.offset <= s.maxSegmentSize
            && (t.offset - s.offset < s.maxSegmentSize ==> t.offset == s.size)
            && t.sectionChecksum == (s.sectionChecksum + Sum(out[0].data)) % 256
  {
    hide Sum;
  }

  lemma PayloadStep(head: Message, more: seq<Message>)
    requires head.Segment?
    ensures Payload([head] + more) == head.data + Payload(more)
  {
    assert ([head] + more)[1..] == more;
  }

  lemma SegmentFirst(head: Message, more: seq<Message>, maxSegmentSize: nat, last: Message)
    requires SegmentsThenLast(more, maxSegmentSize, last)
    requires head.Segment? && 1 <= |head.data| <= maxSegmentSize && (|head.data| < maxSegmentSize ==> |more| == 1)
    ensures SegmentsThenLast([head] + more, maxSegmentSize, last)
  {
  }

  lemma SegmentRest(checksum: byte, data: seq<byte>, rest: seq<byte>)
    ensures ((checksum + Sum(data)) % 256 + Total(rest)) % 256 == (checksum + Total(data + rest)) % 256
  {
    hide Total;
    TotalAppend(data, rest);
  }

  // ---------------------------------------------------------------- where the checksums fail

  /** A file selected on an idle server and its first section called. */
  function Begun(idle: Server, file: File, now: nat): Server
    requires idle.Valid()
  {
    var s1 := HandleAsdu(idle, SelectFile(1, 1, Found(file, 1)), now).0;
    var s2 := HandleAsdu(s1, CallFile(1, 1), now).0;
    HandleAsdu(s2, CallSection(1, 1, 1, false), now).0
  }

  lemma BegunState(idle: Server, section: seq<byte>, now: nat)
    requires idle.Valid() && idle.state == Idle && section != []
    ensures Begun(idle, [section], now)
            == Server(TransmitSection, Some([section]), 1, 1, 1, 0, |section|, idle.sectionChecksum, 0, now,
                      idle.maxSegmentSize)
  {
  }

  function Sent(s: Server, now: nat): (t: Server)
    requires s.Valid()
    ensures t.Valid()
  {
    RunTask(s, true, now).0
  }

  lemma OneSegment(s: Server, octet: byte, now: nat)
    requires s.Valid() && s.state == TransmitSection && s.maxSegmentSize == 1
    requires s.offset < s.size && s.Section()[s.offset] == octet
    ensures Sent(s, now) == s.(offset := s.offset + 1, sectionChecksum := (s.sectionChecksum + octet) % 256,
                               lastSendTime := now)
  {
    assert s.Section()[s.offset..s.offset + 1] == [octet] && Sum([octet]) == octet by { assert Total([octet][..0]) == 0; }
    hide Sum;
  }

  lemma SectionClosed(s: Server, now: nat)
    requires s.Valid() && s.state == TransmitSection && s.offset == s.size
    ensures RunTask(s, true, now).1 == [LastSegment(s.sectionNumber, s.sectionChecksum)]
    ensures Sent(s, now) == s.(fileChecksum := (s.fileChecksum + s.sectionChecksum) % 256, sectionChecksum := 0,
                               lastSendTime := now, state := WaitingForSectionAck)
  {
  }

  /** A section of one octet that the master accepts after rejecting it once: LAST SECTION carries twice the octet. */
  lemma RepeatedSectionCountsTwice(octet: byte)
    ensures var rejected := HandleAsdu(Sent(Sent(Begun(Created(1), [[octet]], 0), 0), 0), Ack(4), 0).0;
            HandleAsdu(Sent(Sent(rejected, 0), 0), Ack(3), 0).1 == [LastSection(2, 2 * octet as int % 256)]
  {
    BegunState(Created(1), [octet], 0);
    var s3 := Begun(Created(1), [[octet]], 0);
    hide Begun, HandleAsdu, RunTask, Sent;
    OneOctetSection(s3, octet);
    AckAgain(Sent(Sent(s3, 0), 0));
    var s6 := s3.(fileChecksum := octet);
    OneOctetSection(s6, octet);
    LastOfOne(Sent(Sent(s6, 0), 0));
  }

  lemma OneOctetSection(s: Server, octet: byte)
    requires s.Valid() && s.state == TransmitSection && s.maxSegmentSize == 1 && s.size == 1 && s.offset == 0
    requires s.Section()[0] == octet && s.sectionChecksum == 0
    ensures Sent(Sent(s, 0), 0) == s.(offset := 1, fileChecksum := (s.fileChecksum + octet) % 256, lastSendTime := 0,
                                      state := WaitingForSectionAck)
  {
    hide RunTask, Sent;
    OneSegment(s, octet, 0);
    SectionClosed(Sent(s, 0), 0);
  }

  lemma AckAgain(s: Server)
    requires s.Valid() && s.state == WaitingForSectionAck && s.lastSendTime == 0
    ensures HandleAsdu(s, Ack(4), 0).0 == s.(offset := 0, sectionChecksum := 0, state := TransmitSection)
  {
  }

  lemma LastOfOne(s: Server)
    requires s.Valid() && s.state == WaitingForSectionAck && s.lastSendTime == 0
    requires |s.file.value| == 1
    ensures HandleAsdu(s, Ack(3), 0).1 == [LastSection(2, s.fileChecksum)]
  {
  }

  /** A transfer of the octets 1 and 2 abandoned after the first segment leaves 1 behind; repeated from SELECT FILE on,
      the same section is closed with the checksum 4. */
  lemma AbandonedTransferSpoilsNext()
    ensures var abandoned := RunTask(Sent(Begun(Created(1), [[1, 2]], 0), 0), false, 3001).0;
            && abandoned.state == Idle
            && RunTask(Sent(Sent(Begun(abandoned, [[1, 2]], 3001), 3001), 3001), true, 3001).1 == [LastSegment(1, 4)]
  {
    BegunState(Created(1), [1, 2], 0);
    var first := Begun(Created(1), [[1, 2]], 0);
    OneSegment(first, 1, 0);
    var abandoned := RunTask(Sent(first, 0), false, 3001).0;
    assert abandoned.state == Idle && abandoned.sectionChecksum == 1 && abandoned.maxSegmentSize == 1;
    hide Begun, HandleAsdu, RunTask, Sent;
    BegunState(abandoned, [1, 2], 3001);
    TwoOctetSection(Begun(abandoned, [[1, 2]], 3001), 1, 2, 3001);
  }

  lemma TwoOctetSection(s: Server, a: byte, b: byte, now: nat)
    requires s.Valid() && s.state == TransmitSection && s.maxSegmentSize == 1 && s.Section() == [a, b] && s.offset == 0
    ensures RunTask(Sent(Sent(s, now), now), true, now).1
            == [LastSegment(s.sectionNumber, (s.sectionChecksum + a + b) % 256)]
  {
    hide RunTask, Sent;
    OneSegment(s, a, now);
    var s1 := s.(offset := 1, sectionChecksum := (s.sectionChecksum + a) % 256, lastSendTime := now);
    assert Sent(s, now) == s1 && s1.Section() == [a, b];
    OneSegment(s1, b, now);
    var s2 := s1.(offset := 2, sectionChecksum := (s1.sectionChecksum + b) % 256);
    assert Sent(s1, now) == s2;
    SectionClosed(s2, now);
  }
}
