// The octet level of the CS 101 link layer: the serial port, the reading of the next message into the link layer's
// buffer (serial_transceiver_ft_1_2.c), and the loops that fill and check that buffer (link_layer.c).
module Ft12Transceiver {
  import opened Bytes
  import opened Ft12
  import opened Wrappers

  /** A serial line. A read gives the next octet, or -1 when none arrives in time. */
  class SerialPort {
    var unread: seq<byte>
    var written: seq<seq<byte>>
    ghost var timeouts: nat   // reads that timed out although octets were on their way

    constructor (stream: seq<byte>)
      ensures unread == stream && written == [] && timeouts == 0
    {
      unread, written, timeouts := stream, [], 0;
    }

    method ReadByte() returns (octet: int)
      modifies this`unread, this`timeouts
      ensures octet == -1 || (old(unread) != [] && octet == old(unread)[0] as int)
      ensures if octet == -1
              then unread == old(unread) && timeouts == old(timeouts) + (if old(unread) == [] then 0 else 1)
              else unread == old(unread)[1..] && timeouts == old(timeouts)
    {
      if unread == [] {
        return -1;
      }
      if * {
        timeouts := timeouts + 1;
        return -1;
      }
      octet := unread[0];
      unread := unread[1..];
    }

    method DiscardInBuffer()
      modifies this`unread
      ensures unread == []
    {
      unread := [];
    }

    method Write(message: seq<byte>)
      modifies this`written
      ensures written == old(written) + [message]
    {
      written := written + [message];
    }
  }

  class LinkLayer {
    const buffer: array<byte>
    const address: nat
    const addressLength: nat

    ghost predicate Valid() reads this { buffer.Length == BUFFER_SIZE && addressLength <= 2 }

    constructor (address: nat, addressLength: nat)
      requires addressLength <= 2
      ensures Valid() && this.address == address && this.addressLength == addressLength && fresh(buffer)
    {
      buffer := new byte[BUFFER_SIZE](_ => 0);
      this.address, this.addressLength := address, addressLength;
    }

    /** Stops at the first timeout or after `count` octets; reads one octet even when none is wanted, which no caller
        asks for. */
    method ReadBytesWithTimeout(port: SerialPort, start: nat, count: nat) returns (readBytes: nat)
      requires Valid() && 1 <= count && start + count <= BUFFER_SIZE
      modifies buffer, port`unread, port`timeouts
      ensures readBytes <= count && readBytes <= |old(port.unread)|
      ensures port.unread == old(port.unread)[readBytes..]
      ensures buffer[..start + readBytes] == old(buffer[..start]) + old(port.unread)[..readBytes]
      ensures readBytes < count ==> port.timeouts > old(port.timeouts) || |old(port.unread)| == readBytes
      ensures readBytes == count ==> port.timeouts == old(port.timeouts)
      ensures port.timeouts >= old(port.timeouts)
    {
      ghost var stream, before := port.unread, buffer[..start];
      readBytes := 0;
      while readBytes < count
        invariant readBytes <= count && readBytes <= |stream| && port.unread == stream[readBytes..]
        invariant buffer[..start + readBytes] == before + stream[..readBytes]
        invariant port.timeouts == old(port.timeouts)
        decreases count - readBytes
      {
        var readByte := port.ReadByte();
        if readByte == -1 {
          break;
        }
        buffer[start + readBytes] := readByte;
        assert stream[..readBytes + 1] == stream[..readBytes] + [stream[readBytes]];
        readBytes := readBytes + 1;
      }
    }

    /** SerialTransceiverFT12_readNextMessage; 0 stands for no message. What is handed over is the complete message at
        the head of the stream; without timeouts on the way every complete message is handed over, and an octet that starts
        none discards everything received. */
    method ReadNextMessage(port: SerialPort) returns (msgSize: nat)
      requires Valid()
      modifies buffer, port`unread, port`timeouts
      ensures msgSize > 0 ==>
                && NextSize(addressLength, old(port.unread)) == Some(msgSize)
                && Holds(buffer[..], old(port.unread)[..msgSize]) && port.unread == old(port.unread)[msgSize..]
      ensures port.timeouts == old(port.timeouts) && NextSize(addressLength, old(port.unread)).Some? ==> msgSize > 0
      ensures port.timeouts == old(port.timeouts) && old(port.unread) != [] && old(port.unread)[0] !in {0x68, 0x10, SINGLE_CHAR} ==>
                msgSize == 0 && port.unread == []
    {
      ghost var stream := port.unread;
      msgSize := 0;
      var read := port.ReadByte();
      if read != -1 {
        if read == 0x68 {
          msgSize := ReadVariable(port, stream);
        } else if read == 0x10 {
          msgSize := ReadFixed(port, stream);
        } else if read == 0xe5 {
          buffer[0] := read;
          msgSize := 1;
        } else {
          port.DiscardInBuffer();
        }
      }
      assert msgSize == 1 ==> buffer[..][..1] == stream[..1];
    }

    /** The part of readNextMessage behind the first octet 0x68. */
    method ReadVariable(port: SerialPort, ghost stream: seq<byte>) returns (msgSize: nat)
      requires Valid() && stream != [] && stream[0] == 0x68 && port.unread == stream[1..]
      modifies buffer, port`unread, port`timeouts
      ensures msgSize > 0 ==>
                && NextSize(addressLength, stream) == Some(msgSize)
                && Holds(buffer[..], stream[..msgSize]) && port.unread == stream[msgSize..] && msgSize != 1
      ensures port.timeouts == old(port.timeouts) && NextSize(addressLength, stream).Some? ==> msgSize > 0
      ensures port.timeouts >= old(port.timeouts)
    {
      var length := port.ReadByte();
      if length == -1 {
        port.DiscardInBuffer();
        return 0;
      }
      buffer[0] := 0x68;
      buffer[1] := length;
      assert port.unread == stream[2..] && buffer[..2] == stream[..2];
      var readBytes := ReadBytesWithTimeout(port, 2, length + 4);
      assert stream[2..][..readBytes] == stream[2..2 + readBytes] && stream[..2] + stream[2..2 + readBytes] == stream[..2 + readBytes];
      if readBytes == length + 4 {
        msgSize := length + 6;
        assert buffer[..][..msgSize] == buffer[..msgSize] == stream[..msgSize];
        assert stream[2..][readBytes..] == stream[msgSize..];
      } else {
        msgSize := 0;
      }
    }

    /** The part of readNextMessage behind the first octet 0x10. */
    method ReadFixed(port: SerialPort, ghost stream: seq<byte>) returns (msgSize: nat)
      requires Valid() && stream != [] && stream[0] == 0x10 && port.unread == stream[1..]
      modifies buffer, port`unread, port`timeouts
      ensures msgSize > 0 ==>
                && NextSize(addressLength, stream) == Some(msgSize)
                && Holds(buffer[..], stream[..msgSize]) && port.unread == stream[msgSize..] && msgSize != 1
      ensures port.timeouts == old(port.timeouts) && NextSize(addressLength, stream).Some? ==> msgSize > 0
      ensures port.timeouts >= old(port.timeouts)
    {
      buffer[0] := 0x10;
      assert buffer[..1] == stream[..1];
      var readBytes := ReadBytesWithTimeout(port, 1, 3 + addressLength);
      assert stream[1..][..readBytes] == stream[1..1 + readBytes] && stream[..1] + stream[1..1 + readBytes] == stream[..1 + readBytes];
      if readBytes == 3 + addressLength {
        msgSize := 4 + addressLength;
        assert buffer[..][..msgSize] == buffer[..msgSize] == stream[..msgSize];
        assert stream[1..][readBytes..] == stream[msgSize..];
      } else {
        msgSize := 0;
      }
    }

    /** The 8-bit sum of a range of the buffer. */
    method Checksum(csStart: nat, csIndex: nat) returns (checksum: byte)
      requires Valid() && csStart <= csIndex <= BUFFER_SIZE
      ensures checksum == Sum(buffer[csStart..csIndex])
    {
      checksum := 0;
      for i := csStart to csIndex
        invariant checksum == Sum(buffer[csStart..i])
      {
        assert buffer[csStart..i + 1][..i - csStart] == buffer[csStart..i];
        SumStep(buffer[csStart..i + 1], i - csStart);
        assert buffer[csStart..i + 1][..i + 1 - csStart] == buffer[csStart..i + 1];
        checksum := (checksum + buffer[i]) % 256;
      }
    }

    method PutAddress(at: nat, linkAddress: nat) returns (bufPos: nat)
      requires Valid() && at + addressLength <= BUFFER_SIZE
      modifies buffer
      ensures bufPos == at + addressLength
      ensures buffer[..bufPos] == old(buffer[..at]) + AddressOctets(linkAddress, addressLength)
    {
      bufPos := at;
      if addressLength > 0 {
        buffer[bufPos] := linkAddress % 0x100;
        bufPos := bufPos + 1;
        if addressLength > 1 {
          buffer[bufPos] := linkAddress / 0x100 % 0x100;
          bufPos := bufPos + 1;
        }
      }
    }

    method ControlField(fc: nat, prm: bool, dir: bool, acd: bool, dfc: bool) returns (c: byte)
      ensures c == ControlOctet(Control(fc, prm, dir, acd, dfc))
    {
      c := fc % 16;
      if prm { c := c + 0x40; }
      if dir { c := c + 0x80; }
      if acd { c := c + 0x20; }
      if dfc { c := c + 0x10; }
    }

    method SendFixedFrame(port: SerialPort, fc: nat, linkAddress: nat, prm: bool, dir: bool, acd: bool, dfc: bool)
      requires Valid()
      modifies buffer, port`written
      ensures port.written == old(port.written)
                              + [Fixed(Control(fc, prm, dir, acd, dfc), linkAddress, addressLength)]
    {
      hide Sum, ControlOctet, AddressOctets;
      buffer[0] := 0x10;
      var c := ControlField(fc, prm, dir, acd, dfc);
      buffer[1] := c;
      var bufPos := PutAddress(2, linkAddress);
      ghost var body := [c] + AddressOctets(linkAddress, addressLength);
      assert buffer[..bufPos] == [0x10] + body;
      assert buffer[1..bufPos] == body;
      var checksum := Checksum(1, bufPos);
      buffer[bufPos] := checksum;
      buffer[bufPos + 1] := 0x16;
      assert buffer[..bufPos + 2] == [0x10] + (body + [checksum, 0x16]);
      port.Write(buffer[..bufPos + 2]);
    }

    /** A frame that would not fit the length octet is silently not sent. */
    method SendVariableLengthFrame(port: SerialPort, fc: nat, linkAddress: nat, prm: bool, dir: bool, acd: bool, dfc: bool,
                                   userData: seq<byte>)
      requires Valid()
      modifies buffer, port`written
      ensures port.written == old(port.written) + if FitsVariable(addressLength, userData)
                then [Variable(Control(fc, prm, dir, acd, dfc), linkAddress, addressLength, userData)] else []
    {
      hide Sum, ControlOctet, AddressOctets;
      buffer[0] := 0x68;
      buffer[3] := 0x68;
      var c := ControlField(fc, prm, dir, acd, dfc);
      buffer[4] := c;
      var bufPos := PutAddress(5, linkAddress);
      var l := 1 + addressLength + |userData|;
      if l > 255 {
        return;
      }
      buffer[1] := l;
      buffer[2] := l;
      ghost var head := [c] + AddressOctets(linkAddress, addressLength);
      assert buffer[..bufPos] == [0x68, l, l, 0x68] + head;
      bufPos := PutUserData(bufPos, userData);
      ghost var body := head + userData;
      assert buffer[..bufPos] == [0x68, l, l, 0x68] + body;
      assert buffer[4..bufPos] == body;
      var checksum := Checksum(4, bufPos);
      buffer[bufPos] := checksum;
      buffer[bufPos + 1] := 0x16;
      assert buffer[..bufPos + 2] == [0x68, l, l, 0x68] + (body + [checksum, 0x16]);
      port.Write(buffer[..bufPos + 2]);
    }

    method PutUserData(at: nat, userData: seq<byte>) returns (bufPos: nat)
      requires Valid() && at + |userData| <= BUFFER_SIZE
      modifies buffer
      ensures bufPos == at + |userData| && buffer[..bufPos] == old(buffer[..at]) + userData
    {
      bufPos := at;
      for i := 0 to |userData|
        invariant bufPos == at + i && buffer[..bufPos] == old(buffer[..at]) + userData[..i]
      {
        buffer[bufPos] := userData[i];
        bufPos := bufPos + 1;
      }
    }

    method SendSingleCharCharacter(port: SerialPort)
      modifies port`written
      ensures port.written == old(port.written) + [[SINGLE_CHAR]]
    {
      port.Write([SINGLE_CHAR]);
    }

    /** HandleMessageBalancedAndPrimaryUnbalanced up to the call of a link layer handler. */
    method HandleMessage(msgSize: nat) returns (r: Reception)
      requires Valid()
      ensures r == ParsePrimary(addressLength, buffer[..], msgSize)
    {
      hide Sum;
      var userDataLength, userDataStart := 0, 0;
      var c: byte := 0;
      var csStart, csIndex, frameAddress := 0, 0, 0;
      var isSingleCharAck := false;
      if buffer[0] == 0x68 {
        if buffer[1] != buffer[2] {
          return Discarded;
        }
        userDataLength := buffer[1] as int - addressLength - 1;
        userDataStart := 5 + addressLength;
        csStart := 4;
        csIndex := userDataStart + userDataLength;
        if msgSize != userDataStart + userDataLength + 2 {
          return Discarded;
        }
        c := buffer[4];
        if addressLength > 0 { frameAddress := frameAddress + buffer[5]; }
        if addressLength > 1 { frameAddress := frameAddress + buffer[6] as int * 0x100; }
      } else if buffer[0] == 0x10 {
        c := buffer[1];
        csStart := 1;
        csIndex := 2 + addressLength;
        if addressLength > 0 { frameAddress := frameAddress + buffer[2]; }
        if addressLength > 1 { frameAddress := frameAddress + buffer[3] as int * 0x100; }
      } else if buffer[0] == 0xe5 {
        isSingleCharAck := true;
      } else {
        return Discarded;
      }
      if !isSingleCharAck {
        var checksum := Checksum(csStart, csIndex);
        assert buffer[..][csStart..csIndex] == buffer[csStart..csIndex];
        if checksum != buffer[csIndex] {
          return Discarded;
        }
        return Handled(Reading(c, frameAddress, userDataStart, userDataLength));
      } else {
        return SingleAck;
      }
    }

    /** ParserHeaderSecondaryUnbalanced up to the call of the handler. */
    method HandleMessageSecondary(msgSize: nat) returns (r: SecondaryReception)
      requires Valid()
      ensures r == ParseSecondary(addressLength, address, buffer[..], msgSize)
    {
      hide Sum;
      var userDataLength, userDataStart := 0, 0;
      var c: byte := 0;
      var csStart, csIndex, frameAddress := 0, 0, 0;
      if buffer[0] == 0x68 {
        if buffer[1] != buffer[2] {
          return Error;
        }
        userDataLength := buffer[1] as int - addressLength - 1;
        userDataStart := 5 + addressLength;
        csStart := 4;
        csIndex := userDataStart + userDataLength;
        if msgSize != userDataStart + userDataLength + 2 {
          return Error;
        }
        c := buffer[4];
      } else if buffer[0] == 0x10 {
        c := buffer[1];
        csStart := 1;
        csIndex := 2 + addressLength;
      } else {
        return Error;
      }
      var isBroadcast := false;
      if addressLength > 0 {
        frameAddress := buffer[csStart + 1];
        if addressLength > 1 {
          frameAddress := frameAddress + buffer[csStart + 2] as int * 0x100;
          if frameAddress == 65535 { isBroadcast := true; }
        } else {
          if frameAddress == 255 { isBroadcast := true; }
        }
      }
      var control := ControlOf(c);
      hide ControlOf;
      if isBroadcast {
        if control.fc != USER_DATA_NO_REPLY {
          return Error;
        }
      } else {
        if frameAddress != address {
          return NotAddressed;
        }
      }
      var checksum := Checksum(csStart, csIndex);
      assert buffer[..][csStart..csIndex] == buffer[csStart..csIndex];
      if checksum != buffer[csIndex] {
        return Error;
      }
      if !control.prm {
        return Error;
      }
      return ToHandler(Reading(c, frameAddress, userDataStart, userDataLength), isBroadcast);
    }
  }
}
