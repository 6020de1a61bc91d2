// The APCI octets: T104Frame (cs104_frame.c), the control frames and the decoding done by checkMessage
// (cs104_connection.c).
module Cs104Frame {
  import opened Bytes

  const MODULUS := 32768

  /** A frame as checkMessage distinguishes it. */
  datatype Apdu =
    | I(ns: nat, nr: nat, asdu: seq<byte>)
    | S(ackNr: nat)
    | U(code: byte)
    | TooShort   // information format without an ASDU
    | Ignored    // any other first control octet

  const STARTDT_ACT: byte := 0x07
  const STARTDT_CON: byte := 0x0b
  const STOPDT_ACT: byte := 0x13
  const STOPDT_CON: byte := 0x23
  const TESTFR_ACT: byte := 0x43
  const TESTFR_CON: byte := 0x83

  /** What the sending side may put on the wire. */
  predicate Sendable(a: Apdu) {
    match a
    case I(ns, nr, asdu) => ns < MODULUS && nr < MODULUS && 1 <= |asdu| <= 249
    case S(nr) => nr < MODULUS
    case U(code) => code % 4 == 3
    case _ => false
  }

  function Encode(a: Apdu): (r: seq<byte>)
    requires Sendable(a)
    ensures |r| >= 6
  {
    match a
    case I(ns, nr, asdu) =>
      [0x68, |asdu| + 4, ns % 128 * 2, ns / 128, nr % 128 * 2, nr / 128] + asdu
    case S(nr) => [0x68, 4, 1, 0, nr % 128 * 2, nr / 128]
    case U(code) => [0x68, 4, code, 0, 0, 0]
  }

  /** The 15-bit number whose low seven bits sit above bit 0 of the first octet. */
  function Number(low: byte, high: byte): (r: nat)
    ensures r < MODULUS
  {
    Word(low - low % 2, high) / 2
  }

  /** checkMessage's view of the receive buffer; octets behind msgSize may be left over from earlier frames. */
  function Decode(buffer: seq<byte>, msgSize: nat): Apdu
    requires 6 <= |buffer| && msgSize <= |buffer|
  {
    var c := buffer[2];
    if c % 2 == 0 then
      if msgSize < 7 then TooShort
      else I(Number(c, buffer[3]), Number(buffer[4], buffer[5]), buffer[6..msgSize])
    else if c % 4 == 3 then U(c)
    else if c == 1 then S(Word(buffer[4], buffer[5]) / 2)
    else Ignored
  }

  /** Decoding any buffer that starts with an encoded frame gives the frame back. */
  lemma DecodeEncode(a: Apdu, rest: seq<byte>)
    requires Sendable(a)
    ensures Decode(Encode(a) + rest, |Encode(a)|) == a
  {
    var e := Encode(a);
    var buffer := e + rest;
    assert buffer[..6] == e[..6];
    match a
    case I(ns, nr, asdu) =>
      assert buffer[6..|e|] == asdu;
      NumberRoundTrip(ns);
      NumberRoundTrip(nr);
    case S(nr) =>
      assert Word(nr % 128 * 2, nr / 128) / 2 == nr;
    case U(_) =>
  }

  /** The first control octet alone decides the format: even for information, 1 exactly for supervisory, both low bits set
      for unnumbered; the other odd ones are ignored. Only an information frame needs a seventh octet. */
  lemma FormatOfControlOctet(buffer: seq<byte>, msgSize: nat)
    requires 6 <= msgSize <= |buffer|
    ensures var a, c := Decode(buffer, msgSize), buffer[2];
            && (a.I? <==> c % 2 == 0 && msgSize >= 7) && (a.TooShort? <==> c % 2 == 0 && msgSize == 6)
            && (a.S? <==> c == 1) && (a.U? <==> c % 4 == 3) && (a.Ignored? <==> c % 4 == 1 && c != 1)
            && (a.I? ==> |a.asdu| == msgSize - 6) && (a.U? ==> a.code == c)
  {
  }

  lemma NumberRoundTrip(n: nat)
    requires n < MODULUS
    ensures Number(n % 128 * 2, n / 128) == n
  {
  }

  /** Distinct frames never share their octets. */
  lemma EncodeInjective(a: Apdu, b: Apdu)
    requires Sendable(a) && Sendable(b) && Encode(a) == Encode(b)
    ensures a == b
  {
    DecodeEncode(a, []);
    DecodeEncode(b, []);
    assert Encode(a) + [] == Encode(b) + [];
  }

  /** A frame under construction: the ASDU goes behind six octets that prepareToSend fills in. */
  class T104Frame {
    const buffer: array<byte>
    var msgSize: nat

    ghost predicate Valid() reads this {
      buffer.Length == 256 && 6 <= msgSize <= 256
    }

    ghost predicate Started() reads this, buffer {
      Valid() && buffer[0] == 0x68
    }

    /** The ASDU octets appended so far. */
    ghost function Asdu(): (r: seq<byte>)
      requires Valid()
      reads this, buffer
      ensures |r| == msgSize - 6
    {
      buffer[6..msgSize]
    }

    constructor ()
      ensures Started() && Asdu() == [] && fresh(buffer)
    {
      buffer := new byte[256](i => 0);
      msgSize := 6;
      new;
      buffer[0] := 0x68;
    }

    method SetNextByte(b: byte)
      requires Started() && msgSize < 256
      modifies this`msgSize, buffer
      ensures Started() && Asdu() == old(Asdu()) + [b]
    {
      buffer[msgSize] := b;
      msgSize := msgSize + 1;
    }

    method AppendBytes(bytes: seq<byte>)
      requires Started() && msgSize + |bytes| <= 256
      modifies this`msgSize, buffer
      ensures Started() && Asdu() == old(Asdu()) + bytes
    {
      var target := msgSize;
      ghost var before := Asdu();
      for i := 0 to |bytes|
        invariant Started() && msgSize == old(msgSize)
        invariant buffer[6..target] == before
        invariant buffer[target..target + i] == bytes[..i]
      {
        buffer[target + i] := bytes[i];
      }
      msgSize := msgSize + |bytes|;
      assert buffer[6..msgSize] == buffer[6..target] + buffer[target..msgSize];
    }

    /** Afterwards the buffer holds the complete information frame. */
    method PrepareToSend(sendCounter: nat, receiveCounter: nat)
      requires Started() && sendCounter < MODULUS && receiveCounter < MODULUS && 7 <= msgSize <= 255
      modifies buffer
      ensures Started() && Asdu() == old(Asdu())
      ensures buffer[..msgSize] == Encode(I(sendCounter, receiveCounter, Asdu()))
    {
      buffer[1] := msgSize - 2;
      buffer[2] := sendCounter % 128 * 2;
      buffer[3] := sendCounter / 128;
      buffer[4] := receiveCounter % 128 * 2;
      buffer[5] := receiveCounter / 128;
    }
  }
}
