// The object of file_server.c, updated in place; every method is one of the functions of FileServer.dfy.
module FileServerPlugin {
  import opened Asdu
  import AsduBuilder
  import opened Bytes
  import opened FileServer
  import opened Wrappers

  method CalculateChecksum(data: seq<byte>) returns (checksum: byte)
    ensures checksum == Sum(data)
  {
    checksum := 0;
    for i := 0 to |data|
      invariant checksum == Sum(data[..i])
    {
      SumStep(data, i);
      checksum := (checksum + data[i]) % 256;
    }
    assert data[..|data|] == data;
  }

  /** The segment data that fits an ASDU besides its header, one object address and the four octets of file name,
      section and length. */
  function MaxDataSize(parameters: AppLayerParameters): (size: int)
    ensures parameters.HeaderLength() + parameters.sizeOfIOA + 4 + size == parameters.maxSizeOfASDU
  {
    parameters.maxSizeOfASDU - 1 - 1 - parameters.sizeOfCA - parameters.sizeOfCOT - parameters.sizeOfIOA - 4
  }

  /** FileSegment_encode behind its size check. */
  function EncodeSegment(p: AppLayerParameters, ioa: nat, nof: nat, nos: byte, data: seq<byte>): Option<seq<byte>>
    requires p.Valid() && nof < 0x1_0000
  {
    if |data| > MaxDataSize(p) then None
    else Some(AsduBuilder.Address(p, ioa) + [nof % 256, nof / 256, nos, |data|] + data)
  }

  /** A segment is encoded exactly if its ASDU keeps the maximum size, and a receiver then finds address, file name,
      section and data. */
  lemma SegmentRoundTrip(p: AppLayerParameters, header: seq<byte>, ioa: nat, nof: nat, nos: byte, data: seq<byte>)
    requires p.Valid() && nof < 0x1_0000 && ioa < p.AddressLimit()
    requires |header| == p.HeaderLength() && header[0] == 125 && header[1] == 1
    ensures var e := EncodeSegment(p, ioa, nof, nos, data);
            var at := p.HeaderLength() + p.sizeOfIOA;
            && (e.Some? <==> at + 4 + |data| <= p.maxSizeOfASDU)
            && (e.Some? ==>
                  var d := header + e.value;
                  && FindsElement(p, d, 0) && |d| == at + 4 + |data|
                  && AsduBuilder.ParseAddress(p, d[p.HeaderLength()..], 0) == ioa
                  && Word(d[at], d[at + 1]) == nof && d[at + 2] == nos && d[at + 3] as int == |data| && d[at + 4..] == data)
  {
    hide AsduBuilder.Address, AsduBuilder.ParseAddress;
    var e := EncodeSegment(p, ioa, nof, nos, data);
    if e.Some? {
      var d, a := header + e.value, AsduBuilder.Address(p, ioa);
      var rest := [nof % 256, nof / 256, nos, |data|] + data;
      assert d[p.HeaderLength()..] == a + rest by { assert e.value == a + rest; }
      AsduBuilder.AddressRoundTrip(p, ioa, rest);
      assert d == header + a + rest;
      assert d[p.HeaderLength() + p.sizeOfIOA..] == rest;
    }
  }

  class Plugin {
    var state: State
    var selectedFile: Option<File>
    var ca: int
    var ioa: int
    var currentSectionNumber: byte
    var currentSectionOffset: int
    var currentSectionSize: int
    var sectionChecksum: byte
    var fileChecksum: byte
    var lastSendTime: nat
    const maxSegmentSize: nat
    var sent: seq<Message>   // the ASDUs handed to the connection

    ghost function View(): Server reads this {
      Server(state, selectedFile, ca, ioa, currentSectionNumber, currentSectionOffset, currentSectionSize,
             sectionChecksum, fileChecksum, lastSendTime, maxSegmentSize)
    }

    constructor (parameters: AppLayerParameters)
      requires MaxDataSize(parameters) >= 1
      ensures View() == Created(MaxDataSize(parameters)) && View().Valid() && sent == []
    {
      state, selectedFile, ca, ioa := Idle, None, 0, 0;
      currentSectionNumber, currentSectionOffset, currentSectionSize := 0, 0, 0;
      sectionChecksum, fileChecksum, lastSendTime := 0, 0, 0;
      maxSegmentSize := MaxDataSize(parameters);
      sent := [];
    }

    method SendAsdu(m: Message)
      modifies this`sent
      ensures sent == old(sent) + [m]
    {
      sent := sent + [m];
    }

    method CheckForTimeout(now: nat)
      modifies this`state
      ensures View() == CheckTimeout(old(View()), now)
    {
      if state != Idle {
        if now > lastSendTime + TIMEOUT {
          state := Idle;
        }
      }
    }

    method SendSegment(now: nat) returns (more: bool)
      requires View().Valid() && state == TransmitSection
      modifies this
      ensures more <==> old(currentSectionOffset < currentSectionSize)
      ensures if more then View() == FileServer.SendSegment(old(View()), now).0
                           && sent == old(sent) + FileServer.SendSegment(old(View()), now).1
              else View() == old(View()) && sent == old(sent)
    {
      hide Sum;
      var currentSegmentSize := currentSectionSize - currentSectionOffset;
      if currentSegmentSize > 0 {
        if currentSegmentSize > maxSegmentSize {
          currentSegmentSize := maxSegmentSize;
        }
        var segmentData := selectedFile.value[currentSectionNumber - 1]
          [currentSectionOffset..currentSectionOffset + currentSegmentSize];
        SendAsdu(Message.Segment(currentSectionNumber, segmentData));
        currentSectionOffset := currentSectionOffset + currentSegmentSize;
        lastSendTime := now;
        var checksum := CalculateChecksum(segmentData);
        sectionChecksum := (sectionChecksum + checksum) % 256;
        more := true;
      } else {
        more := false;
      }
    }

    method SendLastSegment()
      modifies this`sent, this`fileChecksum, this`sectionChecksum
      ensures sent == old(sent) + [LastSegment(currentSectionNumber, old(sectionChecksum))]
      ensures fileChecksum == (old(fileChecksum) + old(sectionChecksum)) % 256 && sectionChecksum == 0
    {
      SendAsdu(LastSegment(currentSectionNumber, sectionChecksum));
      fileChecksum := (fileChecksum + sectionChecksum) % 256;
      sectionChecksum := 0;
    }

    method RunTask(own: bool, now: nat)
      requires View().Valid()
      modifies this
      ensures View() == FileServer.RunTask(old(View()), own, now).0
      ensures sent == old(sent) + FileServer.RunTask(old(View()), own, now).1
    {
      hide Sum;
      if state != Idle {
        if state == TransmitSection {
          if own {
            if selectedFile.Some? {
              var more := SendSegment(now);
              if !more {
                SendLastSegment();
                // The section checksum is 0 already: this counts nothing twice.
                fileChecksum := (fileChecksum + sectionChecksum) % 256;
                sectionChecksum := 0;
                lastSendTime := now;
                state := WaitingForSectionAck;
              }
            }
          }
        }
        CheckForTimeout(now);
      }
    }

    method HandleAck(afq: byte, now: nat)
      requires View().Valid()
      modifies this
      ensures View() == FileServer.HandleAck(old(View()), afq, now).0
      ensures sent == old(sent) + FileServer.HandleAck(old(View()), afq, now).1
    {
      if state == Idle {
        SendAsdu(Rejected(UNKNOWN_CA, false));
      } else if afq == 1 {
        if state == WaitingForFileAck {
          selectedFile := None;
          state := Idle;
        } else {
          state := SendAbort;
        }
      } else if afq % 16 == 2 {
        if state == WaitingForFileAck {
          selectedFile := None;
          state := Idle;
        } else {
          state := SendAbort;
        }
      } else if afq % 16 == 4 {
        if state == WaitingForSectionAck {
          currentSectionOffset := 0;
          sectionChecksum := 0;
          SendAsdu(SectionReady(currentSectionNumber, currentSectionSize));
          lastSendTime := now;
          state := TransmitSection;
        } else {
          state := SendAbort;
        }
      } else if afq % 16 == 3 {
        if state == WaitingForSectionAck {
          currentSectionNumber := (currentSectionNumber + 1) % 256;
          var nextSectionSize := SectionSize(selectedFile.value, currentSectionNumber - 1);
          currentSectionOffset := 0;
          if nextSectionSize <= 0 {
            SendAsdu(LastSection(currentSectionNumber, fileChecksum));
            lastSendTime := now;
            state := WaitingForFileAck;
          } else {
            currentSectionSize := nextSectionSize;
            SendAsdu(SectionReady(currentSectionNumber, currentSectionSize));
            lastSendTime := now;
            state := WaitingForSectionCall;
          }
          sectionChecksum := 0;
        } else {
          state := SendAbort;
        }
      }
    }

    method HandleCallSection(nos: byte, negative: bool, now: nat)
      requires View().Valid() && state == WaitingForSectionCall
      modifies this
      ensures View() == FileServer.HandleCallSection(old(View()), nos, negative, now).0
      ensures sent == old(sent) + FileServer.HandleCallSection(old(View()), nos, negative, now).1
    {
      if negative {
        currentSectionNumber := (currentSectionNumber + 1) % 256;
        currentSectionOffset := 0;
        currentSectionSize := SectionSize(selectedFile.value, currentSectionNumber - 1);
        if currentSectionSize > 0 {
          SendAsdu(SectionReady(currentSectionNumber, currentSectionSize));
          lastSendTime := now;
          state := WaitingForSectionCall;
        } else {
          SendAsdu(LastSection(currentSectionNumber, fileChecksum));
          lastSendTime := now;
          state := WaitingForFileAck;
        }
      } else {
        currentSectionSize := SectionSize(selectedFile.value, nos - 1);
        if currentSectionSize > 0 {
          currentSectionNumber := nos;
          currentSectionOffset := 0;
          state := TransmitSection;
        } else {
          SendAsdu(Rejected(FILE_TRANSFER, true));
          lastSendTime := now;
        }
      }
    }

    method HandleSelect(requestCa: int, requestIoa: int, lookup: Lookup, now: nat)
      modifies this
      ensures View() == FileServer.HandleSelect(old(View()), requestCa, requestIoa, lookup, now).0
      ensures sent == old(sent) + FileServer.HandleSelect(old(View()), requestCa, requestIoa, lookup, now).1
    {
      if state == Idle {
        match lookup {
          case Found(file, length) =>
            selectedFile := Some(file);
            ioa := requestIoa;
            ca := requestCa;
            SendAsdu(FileReady(length, true));
            lastSendTime := now;
            state := WaitingForFileCall;
          case UnknownCa =>
            SendAsdu(Rejected(FileServer.UNKNOWN_CA, true));
          case UnknownIoa =>
            SendAsdu(Rejected(FileServer.UNKNOWN_IOA, true));
          case NotReady =>
            ca := requestCa;
            ioa := requestIoa;
            SendAsdu(FileReady(0, false));
        }
      }
    }

    method HandleCallFile(requestCa: int, requestIoa: int, now: nat)
      requires View().Valid()
      modifies this
      ensures View() == FileServer.HandleCallFile(old(View()), requestCa, requestIoa, now).0
      ensures sent == old(sent) + FileServer.HandleCallFile(old(View()), requestCa, requestIoa, now).1
    {
      if state == WaitingForFileCall {
        if requestIoa != ioa || requestCa != ca {
          SendAsdu(Rejected(if requestCa != ca then UNKNOWN_CA else UNKNOWN_IOA, true));
        } else {
          currentSectionNumber := 1;
          currentSectionOffset := 0;
          fileChecksum := 0;
          currentSectionSize := SectionSize(selectedFile.value, 0);
          SendAsdu(SectionReady(currentSectionNumber, currentSectionSize));
          lastSendTime := now;
          state := WaitingForSectionCall;
        }
      }
    }

    method HandleAsdu(request: Request, now: nat)
      requires View().Valid()
      modifies this
      ensures View() == FileServer.HandleAsdu(old(View()), request, now).0
      ensures sent == old(sent) + FileServer.HandleAsdu(old(View()), request, now).1
    {
      CheckForTimeout(now);
      hide FileServer.HandleSelect, FileServer.HandleCallFile, FileServer.HandleCallSection, FileServer.HandleAck;
      match request {
        case SelectFile(a, i, lookup) => HandleSelect(a, i, lookup, now);
        case DeactivateFile =>
          if state == Idle {
            selectedFile := None;
          }
        case CallFile(a, i) => HandleCallFile(a, i, now);
        case CallSection(a, i, nos, negative) =>
          if state == WaitingForSectionCall {
            if i != ioa || a != ca {
              SendAsdu(Rejected(if a != ca then UNKNOWN_CA else UNKNOWN_IOA, true));
            } else {
              HandleCallSection(nos, negative, now);
            }
          }
        case Ack(afq) => HandleAck(afq, now);
      }
    }
  }
}
