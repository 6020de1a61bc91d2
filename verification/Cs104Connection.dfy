// The connection object of cs104_connection.c: a ring buffer of sent frames, counters and timers updated in place,
// and octets written to the socket. Every method is shown to be one of the functions of Cs104Station.dfy.
module Cs104Connection {
  import opened Bytes
  import opened Asdu
  import opened Cs104Frame
  import opened Cs104Station
  import opened Rings
  import opened Wrappers

  // ---------------------------------------------------------------- the two-case acceptance test

  /** The comparison of checkSequenceNumber against the oldest and newest pending numbers, with and without counter
      overflow and with the special case oldest - 1, accepts exactly the distances 0 to n. */
  lemma AcceptanceTest(base: nat, n: nat, nr: nat)
    requires base < MODULUS && nr < MODULUS && 1 <= n <= MODULUS
    ensures var oldest, newest := (base + 1) % MODULUS, (base + n) % MODULUS;
            && base == (if oldest == 0 then MODULUS - 1 else oldest - 1)
            && (nr == base || (if oldest <= newest then oldest <= nr <= newest else nr >= oldest || nr <= newest)
                <==> Distance(base, nr) <= n)
  {
  }

  /** During removal: entry j is the confirmed one exactly at j = d - 1, and without overflow the test for "seqNo below
      the oldest" fires only if nothing is confirmed. */
  lemma RemovalTest(base: nat, n: nat, nr: nat, j: nat)
    requires base < MODULUS && nr < MODULUS && j < n <= MODULUS && Distance(base, nr) <= n
    requires j == 0 || j < Distance(base, nr)
    ensures var entry := (base + 1 + j) % MODULUS;
            && (entry == nr <==> j + 1 == Distance(base, nr))
            && (nr == base <==> Distance(base, nr) == 0)
            && ((base + 1) % MODULUS <= (base + n) % MODULUS && nr < entry ==> Distance(base, nr) == 0)
  {
  }

  predicate CounterOverflow(s: Station) {
    (s.WindowBase() + 1) % MODULUS > (s.WindowBase() + |s.pending|) % MODULUS
  }

  /** AcceptanceTest for the numbers a window really holds. */
  lemma AcceptsPending(s: Station, seqNo: nat)
    requires s.WindowOk() && seqNo < MODULUS && s.pending != []
    ensures var oldest, newest := s.pending[0].seqNo, s.pending[|s.pending| - 1].seqNo;
            && (oldest > newest <==> CounterOverflow(s))
            && s.WindowBase() == (if oldest == 0 then 32767 else oldest - 1)
            && (Acknowledge(s, seqNo).Some?
                <==> seqNo == s.WindowBase()
                     || (if oldest <= newest then oldest <= seqNo <= newest else seqNo >= oldest || seqNo <= newest))
  {
    AcceptanceTest(s.WindowBase(), |s.pending|, seqNo);
  }

  lemma AcceptsWhenEmpty(s: Station, seqNo: nat)
    requires s.WindowOk() && seqNo < MODULUS && s.pending == []
    ensures Acknowledge(s, seqNo).Some? <==> seqNo == s.sendCount
  {
  }

  lemma RemovesPending(s: Station, seqNo: nat, j: nat)
    requires s.WindowOk() && seqNo < MODULUS && Acknowledge(s, seqNo).Some?
    requires j < |s.pending| && (j == 0 || j < Distance(s.WindowBase(), seqNo))
    ensures var d := Distance(s.WindowBase(), seqNo);
            && (s.pending[j].seqNo == seqNo <==> j + 1 == d)
            && (seqNo == s.WindowBase() <==> d == 0)
            && (!CounterOverflow(s) && seqNo < s.pending[j].seqNo ==> d == 0)
            && d <= |s.pending|
  {
    RemovalTest(s.WindowBase(), |s.pending|, seqNo, j);
  }

  // ---------------------------------------------------------------- the connection

  /** The octet strings `after` are `before` followed by the encodings of `out`. */
  ghost predicate Wrote(before: seq<seq<byte>>, after: seq<seq<byte>>, out: seq<Apdu>) {
    && |after| == |before| + |out| && after[..|before|] == before
    && forall i | 0 <= i < |out| :: Sendable(out[i]) && after[|before| + i] == Encode(out[i])
  }

  lemma WroteNothing(w: seq<seq<byte>>)
    ensures Wrote(w, w, [])
  {
  }

  lemma WroteBoth(before: seq<seq<byte>>, middle: seq<seq<byte>>, after: seq<seq<byte>>, a: seq<Apdu>, b: seq<Apdu>)
    requires Wrote(before, middle, a) && Wrote(middle, after, b)
    ensures Wrote(before, after, a + b)
  {
    assert after[..|before|] == after[..|middle|][..|before|];
    forall i | 0 <= i < |a + b| ensures Sendable((a + b)[i]) && after[|before| + i] == Encode((a + b)[i]) {
      if i < |a| {
        assert after[..|middle|][|before| + i] == middle[|before| + i];
      }
    }
  }

  class Connection {
    const parameters: Parameters
    const alParameters: AppLayerParameters
    const sMessage: array<byte>
    const sentASDUs: array<SentAsdu>
    var oldestSentASDU: int
    var newestSentASDU: int
    var receiveCount: nat
    var sendCount: nat
    var unconfirmedReceivedIMessages: nat
    var timeoutT2Trigger: bool
    var lastConfirmationTime: nat
    var nextT3Timeout: nat
    var outstandingTestFRConMessages: nat
    var uMessageTimeout: nat
    var conState: ConState
    var written: seq<seq<byte>>    // what went to the socket
    var delivered: seq<seq<byte>>  // what the received-ASDU handler was called with

    ghost predicate Valid() reads this, sentASDUs, sMessage {
      && sentASDUs.Length == parameters.k && parameters.k > 0
      && sMessage.Length == 6 && sMessage[..4] == [0x68, 4, 1, 0]
      && (oldestSentASDU == -1 || (0 <= oldestSentASDU < sentASDUs.Length && 0 <= newestSentASDU < sentASDUs.Length))
      && State().WindowOk()
    }

    /** The protocol state this object stands for. */
    ghost function State(): Station
      reads this, sentASDUs
      requires oldestSentASDU == -1 || (0 <= oldestSentASDU < sentASDUs.Length && 0 <= newestSentASDU < sentASDUs.Length)
    {
      Station(parameters, alParameters, Ring(sentASDUs[..], oldestSentASDU, newestSentASDU), sendCount, receiveCount,
              unconfirmedReceivedIMessages, timeoutT2Trigger, lastConfirmationTime, nextT3Timeout,
              outstandingTestFRConMessages, uMessageTimeout, conState)
    }

    /** createConnection and resetConnection, then the socket opens. */
    constructor (par: Parameters, al: AppLayerParameters, now: nat)
      requires 1 <= par.k <= MODULUS && al.Valid()
      ensures Valid() && State() == Start(par, al, now) && written == [] && delivered == []
      ensures fresh(sMessage) && fresh(sentASDUs)
    {
      parameters, alParameters := par, al;
      sMessage := new byte[6](i => if i == 0 then 0x68 else if i == 1 then 4 else if i == 2 then 1 else 0);
      sentASDUs := new SentAsdu[par.k](_ => SentAsdu(0, 0));
      oldestSentASDU, newestSentASDU := -1, -1;
      receiveCount, sendCount, unconfirmedReceivedIMessages := 0, 0, 0;
      timeoutT2Trigger, lastConfirmationTime := false, 0xffff_ffff_ffff_ffff;
      nextT3Timeout := now + par.t3 * 1000;
      outstandingTestFRConMessages, uMessageTimeout, conState := 0, 0, Inactive;
      written, delivered := [], [];
    }

    method WriteToSocket(msg: seq<byte>)
      modifies this`written
      ensures written == old(written) + [msg]
    {
      written := written + [msg];
    }

    /** One of the constant unnumbered messages. */
    method SendU(code: byte)
      requires code % 4 == 3
      modifies this`written
      ensures Wrote(old(written), written, [U(code)])
    {
      WriteToSocket([0x68, 0x04, code, 0x00, 0x00, 0x00]);
    }

    method SendSMessage()
      requires Valid()
      modifies this`written, sMessage
      ensures Valid() && State() == old(State()) && Wrote(old(written), written, [S(receiveCount)])
    {
      sMessage[4] := receiveCount % 128 * 2;
      sMessage[5] := receiveCount / 128;
      WriteToSocket(sMessage[..]);
      assert sMessage[..] == Encode(S(receiveCount));
    }

    method IsSentBufferFull() returns (full: bool)
      requires Valid()
      ensures full <==> |State().pending| == parameters.k
    {
      if oldestSentASDU == -1 {
        return false;
      }
      RingAppend(sentASDUs[..], oldestSentASDU, newestSentASDU, SentAsdu(0, 0));
      var newIndex := Following(newestSentASDU, parameters.k);
      return newIndex == oldestSentASDU;
    }

    /** sendIMessage: fills in the frame, writes it and counts it; the ring is left to the caller. */
    method SendIMessage(frame: T104Frame) returns (count: nat)
      requires sendCount < MODULUS && receiveCount < MODULUS
      requires frame.Started() && 7 <= frame.msgSize <= 255
      modifies this`written, this`sendCount, this`unconfirmedReceivedIMessages, this`timeoutT2Trigger, frame.buffer
      ensures frame.Started() && frame.Asdu() == old(frame.Asdu())
      ensures Wrote(old(written), written, [I(old(sendCount), receiveCount, old(frame.Asdu()))])
      ensures count == sendCount == (old(sendCount) + 1) % MODULUS
      ensures unconfirmedReceivedIMessages == 0 && !timeoutT2Trigger
    {
      frame.PrepareToSend(sendCount, receiveCount);
      WriteToSocket(frame.buffer[..frame.msgSize]);
      sendCount := (sendCount + 1) % 32768;
      unconfirmedReceivedIMessages := 0;
      timeoutT2Trigger := false;
      count := sendCount;
    }

    method SendIMessageAndUpdateSentASDUs(frame: T104Frame, wallClock: nat)
      requires Valid() && |State().pending| < parameters.k
      requires frame.Started() && 7 <= frame.msgSize <= 255
      modifies this, sentASDUs, frame.buffer
      ensures Valid() && delivered == old(delivered)
      ensures State() == Send(old(State()), old(frame.Asdu()), wallClock).station
      ensures Wrote(old(written), written, Send(old(State()), old(frame.Asdu()), wallClock).out)
    {
      hide Consecutive, Wrote, Encode;
      ghost var s, a := State(), sentASDUs[..];
      SendKeepsWindow(s, frame.Asdu(), wallClock);
      ghost var entry := SentAsdu(wallClock, (sendCount + 1) % MODULUS);
      var currentIndex := 0;
      if oldestSentASDU == -1 {
        oldestSentASDU := 0;
        newestSentASDU := 0;
      } else {
        RingAppend(a, oldestSentASDU, newestSentASDU, entry);
        currentIndex := Following(newestSentASDU, parameters.k);
      }
      var seqNo := SendIMessage(frame);
      sentASDUs[currentIndex] := SentAsdu(wallClock, seqNo);
      newestSentASDU := currentIndex;
      assert sentASDUs[..] == a[currentIndex := entry];
      assert Ring(sentASDUs[..], oldestSentASDU, newestSentASDU) == s.pending + [entry];
      assert State() == Send(s, old(frame.Asdu()), wallClock).station;
    }

    method SendASDU(frame: T104Frame, wallClock: nat) returns (ok: bool)
      requires Valid() && frame.Started() && 7 <= frame.msgSize <= 255
      modifies this, sentASDUs, frame.buffer
      ensures Valid() && delivered == old(delivered)
      ensures var e := Send(old(State()), old(frame.Asdu()), wallClock);
              ok == e.ok && State() == e.station && Wrote(old(written), written, e.out)
    {
      ok := false;
      var full := IsSentBufferFull();
      if full == false {
        SendIMessageAndUpdateSentASDUs(frame, wallClock);
        ok := true;
      }
    }

    /** First half of checkSequenceNumber: the validity of seqNo, and what the removal loop needs to know. */
    method IsSequenceNumberValid(seqNo: nat)
      returns (seqNoIsValid: bool, counterOverflowDetected: bool, oldestValidSeqNo: int)
      requires Valid() && seqNo < MODULUS
      ensures seqNoIsValid <==> Acknowledge(State(), seqNo).Some?
      ensures State().pending != [] ==>
                oldestValidSeqNo == State().WindowBase() && (counterOverflowDetected <==> CounterOverflow(State()))
    {
      hide Station.WindowOk, CounterOverflow;
      seqNoIsValid := false;
      counterOverflowDetected := false;
      oldestValidSeqNo := -1;
      if oldestSentASDU == -1 {
        AcceptsWhenEmpty(State(), seqNo);
        if seqNo == sendCount {
          seqNoIsValid := true;
        }
      } else {
        ghost var s := State();
        AcceptsPending(s, seqNo);
        assert sentASDUs[oldestSentASDU] == s.pending[0] && sentASDUs[newestSentASDU] == s.pending[|s.pending| - 1];
        var oldest, newest := sentASDUs[oldestSentASDU].seqNo, sentASDUs[newestSentASDU].seqNo;
        if oldest <= newest {
          if seqNo >= oldest && seqNo <= newest {
            seqNoIsValid := true;
          }
        } else {
          if seqNo >= oldest || seqNo <= newest {
            seqNoIsValid := true;
          }
          counterOverflowDetected := true;
        }
        if oldest == 0 {
          oldestValidSeqNo := 32767;
        } else {
          oldestValidSeqNo := (oldest - 1) % 32768;
        }
        if oldestValidSeqNo == seqNo {
          seqNoIsValid := true;
        }
      }
    }

    /** Second half: the loop that moves oldestSentASDU over the confirmed entries of a non-empty ring. */
    method RemoveConfirmed(seqNo: nat, counterOverflowDetected: bool, oldestValidSeqNo: int)
      requires Valid() && seqNo < MODULUS && oldestSentASDU != -1 && Acknowledge(State(), seqNo).Some?
      requires oldestValidSeqNo == State().WindowBase() && (counterOverflowDetected <==> CounterOverflow(State()))
      modifies this`oldestSentASDU
      ensures oldestSentASDU == -1 || 0 <= oldestSentASDU < sentASDUs.Length
      ensures Ring(sentASDUs[..], oldestSentASDU, newestSentASDU)
           == old(State()).pending[Distance(old(State()).WindowBase(), seqNo)..]
    {
      ghost var s, a := State(), sentASDUs[..];
      ghost var d := Distance(s.WindowBase(), seqNo);
      assert s.pending == Ring(a, oldestSentASDU, newestSentASDU) && s.pending != [];
      hide Following, Ring, Distance, Consecutive, Station.WindowOk, Station.WindowBase, CounterOverflow, Acknowledge, Wrote;
      RemovesPending(s, seqNo, 0);
      ghost var j := 0;
      while true
        invariant 0 <= oldestSentASDU < sentASDUs.Length
        invariant j < |s.pending| && (j == 0 || j < d)
        invariant Ring(a, oldestSentASDU, newestSentASDU) == s.pending[j..]
        decreases |s.pending| - j
      {
        RingAdvance(a, oldestSentASDU, newestSentASDU);
        RemovesPending(s, seqNo, j);
        assert sentASDUs[oldestSentASDU] == s.pending[j];
        assert s.pending[j..][1..] == s.pending[j + 1..];
        if counterOverflowDetected == false {
          if seqNo < sentASDUs[oldestSentASDU].seqNo {
            break;
          }
        }
        if seqNo == oldestValidSeqNo {
          break;
        }
        if sentASDUs[oldestSentASDU].seqNo == seqNo {
          if oldestSentASDU == newestSentASDU {
            oldestSentASDU := -1;
          } else {
            oldestSentASDU := Following(oldestSentASDU, parameters.k);
          }
          break;
        }
        oldestSentASDU := Following(oldestSentASDU, parameters.k);
        var checkIndex := Following(newestSentASDU, parameters.k);
        if oldestSentASDU == checkIndex {
          // The source gives up here with an emptied ring; a valid number is always met before that.
          assert false;
        }
        j := j + 1;
      }
    }

    method CheckSequenceNumber(seqNo: nat) returns (seqNoIsValid: bool)
      requires Valid() && seqNo < MODULUS
      modifies this`oldestSentASDU
      ensures Valid()
      ensures match Acknowledge(old(State()), seqNo)
              case None => !seqNoIsValid && State() == old(State())
              case Some(s) => seqNoIsValid && State() == s
    {
      var counterOverflowDetected, oldestValidSeqNo;
      seqNoIsValid, counterOverflowDetected, oldestValidSeqNo := IsSequenceNumberValid(seqNo);
      if seqNoIsValid {
        AcknowledgeKeepsWindow(State(), seqNo);
        if oldestSentASDU != -1 {
          RemoveConfirmed(seqNo, counterOverflowDetected, oldestValidSeqNo);
        }
      }
    }

    method ResetT3Timeout(now: nat)
      modifies this`nextT3Timeout
      ensures nextT3Timeout == now + parameters.t3 * 1000
    {
      nextT3Timeout := now + parameters.t3 * 1000;
    }

    method ConfirmOutstandingMessages(now: nat)
      requires Valid()
      modifies this`lastConfirmationTime, this`unconfirmedReceivedIMessages, this`timeoutT2Trigger, this`written, sMessage
      ensures Valid() && State() == Confirm(old(State()), now).station
      ensures Wrote(old(written), written, Confirm(old(State()), now).out)
    {
      hide Consecutive, Wrote;
      lastConfirmationTime := now;
      unconfirmedReceivedIMessages := 0;
      timeoutT2Trigger := false;
      SendSMessage();
    }

    /** The step of the connection loop behind each received message. */
    method ConfirmIfNecessary(now: nat)
      requires Valid()
      modifies this`lastConfirmationTime, this`unconfirmedReceivedIMessages, this`timeoutT2Trigger, this`written, sMessage
      ensures Valid() && State() == ConfirmStep(old(State()), now).station
      ensures Wrote(old(written), written, ConfirmStep(old(State()), now).out)
    {
      hide Consecutive, Wrote;
      WroteNothing(written);
      if unconfirmedReceivedIMessages >= parameters.w
         || (conState == WaitingForStopDtCon && unconfirmedReceivedIMessages > 0) {
        ConfirmOutstandingMessages(now);
      }
    }

    /** The sequence check, acknowledgement and delivery of one information frame. */
    method ReceiveIFrame(frameSendSequenceNumber: nat, frameRecvSequenceNumber: nat, asdu: seq<byte>, now: nat)
      returns (retVal: bool)
      requires Valid() && frameRecvSequenceNumber < MODULUS
      modifies this`oldestSentASDU, this`receiveCount, this`unconfirmedReceivedIMessages, this`delivered, this`nextT3Timeout
      ensures Valid()
      ensures var e := ReceiveI(old(State()), frameSendSequenceNumber, frameRecvSequenceNumber, asdu, now);
              retVal == e.ok && State() == e.station && delivered == old(delivered) + e.delivered
    {
      hide Consecutive, Acknowledge, Accepts, Ring;
      if frameSendSequenceNumber != receiveCount {
        return false;
      }
      var valid := CheckSequenceNumber(frameRecvSequenceNumber);
      if valid == false {
        return false;
      }
      receiveCount := (receiveCount + 1) % 32768;
      unconfirmedReceivedIMessages := unconfirmedReceivedIMessages + 1;
      if Accepts(alParameters, asdu) {
        delivered := delivered + [asdu];
      } else {
        return false;
      }
      ResetT3Timeout(now);
      return true;
    }

    method CheckIMessage(buffer: seq<byte>, msgSize: nat, now: nat) returns (retVal: bool)
      requires Valid() && 6 <= |buffer| && msgSize <= |buffer| && buffer[2] % 2 == 0
      modifies this
      ensures Valid() && written == old(written)
      ensures var e := Cs104Station.CheckMessage(old(State()), Decode(buffer, msgSize), now);
              retVal == e.ok && State() == e.station && delivered == old(delivered) + e.delivered
    {
      hide Consecutive, Number, ReceiveI, Ring;
      if timeoutT2Trigger == false {
        timeoutT2Trigger := true;
        lastConfirmationTime := now;
      }
      if msgSize < 7 {
        return false;
      }
      retVal := ReceiveIFrame(Number(buffer[2], buffer[3]), Number(buffer[4], buffer[5]), buffer[6..msgSize], now);
    }

    method CheckUMessage(code: byte, now: nat)
      requires Valid() && code % 4 == 3
      modifies this
      ensures Valid() && delivered == old(delivered)
      ensures var e := Cs104Station.CheckMessage(old(State()), U(code), now);
              State() == e.station && Wrote(old(written), written, e.out)
    {
      hide Consecutive, Wrote;
      WroteNothing(written);
      uMessageTimeout := 0;
      if code == 0x43 {
        SendU(TESTFR_CON);
      } else if code == 0x83 {
        outstandingTestFRConMessages := 0;
      } else if code == 0x07 {
        SendU(STARTDT_CON);
        conState := Active;
      } else if code == 0x0b {
        conState := Active;
      } else if code == 0x23 {
        conState := Inactive;
      }
      ResetT3Timeout(now);
    }

    /** Handles one complete message in the receive buffer; false closes the connection. */
    method CheckMessage(buffer: seq<byte>, msgSize: nat, now: nat) returns (retVal: bool)
      requires Valid() && 6 <= |buffer| && msgSize <= |buffer|
      modifies this
      ensures Valid()
      ensures var e := Cs104Station.CheckMessage(old(State()), Decode(buffer, msgSize), now);
              && retVal == e.ok && State() == e.station
              && delivered == old(delivered) + e.delivered && Wrote(old(written), written, e.out)
    {
      hide Consecutive, Acknowledge, Accepts, Wrote, Number;
      WroteNothing(written);
      retVal := true;
      if buffer[2] % 2 == 0 {
        retVal := CheckIMessage(buffer, msgSize, now);
      } else if buffer[2] % 4 == 3 {
        CheckUMessage(buffer[2], now);
      } else if buffer[2] == 0x01 {
        var seqNo := Word(buffer[4], buffer[5]) / 2;
        var valid := CheckSequenceNumber(seqNo);
        if valid == false {
          return false;
        }
        ResetT3Timeout(now);
      } else {
        ResetT3Timeout(now);
      }
    }

    method HandleT3Timeout(now: nat) returns (retVal: bool)
      requires Valid()
      modifies this`written, this`uMessageTimeout, this`outstandingTestFRConMessages, this`nextT3Timeout
      ensures Valid()
      ensures var e := HandleT3(old(State()), now);
              retVal == e.ok && State() == e.station && Wrote(old(written), written, e.out)
    {
      hide Consecutive, Wrote;
      WroteNothing(written);
      if now > nextT3Timeout {
        if outstandingTestFRConMessages > 2 {
          return false;
        } else {
          SendU(TESTFR_ACT);
          uMessageTimeout := now + parameters.t1 * 1000;
          outstandingTestFRConMessages := outstandingTestFRConMessages + 1;
          ResetT3Timeout(now);
        }
      }
      return true;
    }

    method HandleTimeouts(now: nat) returns (retVal: bool)
      requires Valid()
      modifies this`written, this`uMessageTimeout, this`outstandingTestFRConMessages, this`nextT3Timeout,
               this`lastConfirmationTime, this`unconfirmedReceivedIMessages, this`timeoutT2Trigger, sMessage
      ensures Valid()
      ensures var e := Cs104Station.HandleTimeouts(old(State()), now);
              retVal == e.ok && State() == e.station && Wrote(old(written), written, e.out)
    {
      hide Consecutive, Wrote, HandleT3;
      ghost var before, s := written, State();
      retVal := HandleT3Timeout(now);
      if retVal == false {
        return;
      }
      ghost var middle := written;
      WroteNothing(middle);
      if unconfirmedReceivedIMessages > 0 {
        if now > lastConfirmationTime && now - lastConfirmationTime >= parameters.t2 * 1000 {
          ConfirmOutstandingMessages(now);
          WroteBoth(before, middle, written, HandleT3(s, now).out, [S(receiveCount)]);
        }
      }
      assert HandleT3(s, now).out + [] == HandleT3(s, now).out;
      if uMessageTimeout != 0 {
        if now > uMessageTimeout {
          return false;
        }
      }
      if oldestSentASDU != -1 {
        assert sentASDUs[oldestSentASDU] == State().pending[0];
        if now > sentASDUs[oldestSentASDU].sentTime {
          if now - sentASDUs[oldestSentASDU].sentTime >= parameters.t1 * 1000 {
            retVal := false;
          }
        }
      }
    }

    method SendStartDT(now: nat)
      requires Valid()
      modifies this`conState, this`uMessageTimeout, this`written
      ensures Valid() && State() == SendStartDt(old(State()), now).station
      ensures Wrote(old(written), written, SendStartDt(old(State()), now).out)
    {
      hide Consecutive, Wrote;
      conState := WaitingForStartDtCon;
      uMessageTimeout := now + parameters.t1 * 1000;
      SendU(STARTDT_ACT);
    }

    method SendStopDT(now: nat)
      requires Valid()
      modifies this`conState, this`uMessageTimeout, this`written, this`lastConfirmationTime,
               this`unconfirmedReceivedIMessages, this`timeoutT2Trigger, sMessage
      ensures Valid() && State() == SendStopDt(old(State()), now).station
      ensures Wrote(old(written), written, SendStopDt(old(State()), now).out)
    {
      hide Consecutive, Wrote;
      ghost var before, s := written, State();
      WroteNothing(before);
      if unconfirmedReceivedIMessages > 0 {
        ConfirmOutstandingMessages(now);
      }
      ghost var middle := written;
      conState := WaitingForStopDtCon;
      uMessageTimeout := now + parameters.t1 * 1000;
      SendU(STOPDT_ACT);
      WroteBoth(before, middle, written, if s.unconfirmed > 0 then [S(receiveCount)] else [], [U(STOPDT_ACT)]);
    }
  }
}
