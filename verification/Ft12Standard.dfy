// The frame formats of FT 1.2 as the standard lays them out (section 6.2.4.2 of IEC 60870-5-1), every octet of them: what
// the link layer writes is exactly the set of these messages, and each stands for one frame.
module Ft12Standard {
  import opened Bytes
  import opened Ft12
  import opened Wrappers

  /** Start 10, control, address, checksum, end 16. */
  predicate IsFixed(n: nat, m: seq<byte>) {
    |m| == 4 + n && m[0] == 0x10 && m[2 + n] == Sum(m[1..2 + n]) && m[3 + n] == 0x16
  }

  /** Start 68, the length twice, start again, control, address and user data, checksum, end 16. */
  predicate IsVariable(n: nat, m: seq<byte>) {
    && |m| >= 7 + n && m[0] == 0x68 && m[3] == 0x68 && m[1] == m[2] && |m| == m[1] as int + 6
    && m[|m| - 2] == Sum(m[4..|m| - 2]) && m[|m| - 1] == 0x16
  }

  predicate IsMessage(n: nat, m: seq<byte>) {
    IsFixed(n, m) || IsVariable(n, m) || m == [SINGLE_CHAR]
  }

  /** The frame a message stands for. */
  function FrameOf(n: nat, m: seq<byte>): Frame
    requires n <= 2 && IsMessage(n, m)
  {
    if m == [SINGLE_CHAR] then SingleCharFrame
    else if m[0] == 0x10 then FixedFrame(ControlOf(m[1]), AddressAt(m, 1, n))
    else VariableFrame(ControlOf(m[4]), AddressAt(m, 4, n), m[5 + n..|m| - 2])
  }

  /** Every frame is written as a message of the standard that stands for it. */
  lemma FramesAreMessages(n: nat, f: Frame)
    requires n <= 2 && Encodable(n, f)
    ensures IsMessage(n, Encode(n, f)) && FrameOf(n, Encode(n, f)) == f
  {
    hide Sum, ControlOctet, ControlOf, AddressOctets, AddressAt, Fixed, Variable, Body, AddressFits;
    match f
    case FixedFrame(c, address) => FixedIsMessage(n, c, address);
    case VariableFrame(c, address, data) => VariableIsMessage(n, c, address, data);
    case SingleCharFrame =>
  }

  lemma FixedIsMessage(n: nat, c: Control, address: nat)
    requires n <= 2 && c.fc < 16 && AddressFits(address, n)
    ensures var m := Fixed(c, address, n); IsFixed(n, m) && FrameOf(n, m) == FixedFrame(c, address)
  {
    FixedLayout(c, address, n);
    ControlRoundTrip(c);
    var m := Fixed(c, address, n);
    assert m[3 + n] == 0x16;
    hide Sum, ControlOctet, ControlOf, AddressOctets, AddressAt, Fixed;
    AddressRoundTrip(m, 1, n, address);
  }

  lemma VariableIsMessage(n: nat, c: Control, address: nat, data: seq<byte>)
    requires n <= 2 && c.fc < 16 && AddressFits(address, n) && FitsVariable(n, data)
    ensures var m := Variable(c, address, n, data); IsVariable(n, m) && FrameOf(n, m) == VariableFrame(c, address, data)
  {
    VariableLayout(c, address, n, data);
    ControlRoundTrip(c);
    var m := Variable(c, address, n, data);
    assert m[|m| - 1] == 0x16;
    hide Sum, ControlOctet, ControlOf, AddressOctets, AddressAt, Variable, Body;
    AddressRoundTrip(m, 4, n, address);
  }

  /** And every message of the standard is what the link layer writes for that frame. */
  lemma MessagesAreFrames(n: nat, m: seq<byte>)
    requires n <= 2 && IsMessage(n, m)
    ensures Encodable(n, FrameOf(n, m)) && Encode(n, FrameOf(n, m)) == m
  {
    hide Sum, ControlOctet, ControlOf, AddressOctets, AddressAt, AddressFits, Fixed, Variable;
    if m == [SINGLE_CHAR] {
    } else if m[0] == 0x10 {
      FixedFromMessage(n, m);
    } else {
      VariableFromMessage(n, m);
    }
  }

  lemma FixedFromMessage(n: nat, m: seq<byte>)
    requires n <= 2 && IsFixed(n, m)
    ensures ControlOf(m[1]).fc < 16 && AddressFits(AddressAt(m, 1, n), n)
    ensures Fixed(ControlOf(m[1]), AddressAt(m, 1, n), n) == m
  {
    OctetOfControl(m[1]);
    OctetsOfAddress(m, 1, n);
    hide Sum, ControlOctet, ControlOf, AddressOctets, AddressAt, AddressFits;
    assert [m[1]] + m[2..2 + n] == m[1..2 + n];
    assert m == [0x10] + (m[1..2 + n] + [m[2 + n], 0x16]);
  }

  lemma VariableFromMessage(n: nat, m: seq<byte>)
    requires n <= 2 && IsVariable(n, m)
    ensures ControlOf(m[4]).fc < 16 && AddressFits(AddressAt(m, 4, n), n) && FitsVariable(n, m[5 + n..|m| - 2])
    ensures Variable(ControlOf(m[4]), AddressAt(m, 4, n), n, m[5 + n..|m| - 2]) == m
  {
    OctetOfControl(m[4]);
    OctetsOfAddress(m, 4, n);
    hide Sum, ControlOctet, ControlOf, AddressOctets, AddressAt, AddressFits;
    var data, body := m[5 + n..|m| - 2], m[4..|m| - 2];
    assert Body(ControlOf(m[4]), AddressAt(m, 4, n), n, data) == body by {
      assert body == [m[4]] + m[5..5 + n] + data;
    }
    hide Body;
    assert |body| == m[1] as int;
    assert m == [0x68, m[1], m[1], 0x68] + (body + [m[|m| - 2], 0x16]);
  }

  lemma OctetOfControl(b: byte)
    ensures ControlOf(b).fc < 16 && ControlOctet(ControlOf(b)) == b
  {
    var x: int := b;
    var high := x / 0x10;
    Quarters(x);
    Binary(high);
    var c := ControlOf(b);
    assert Bit(c.dir, 0x80) == 0x80 * (high / 8) && Bit(c.prm, 0x40) == 0x40 * (high / 4 % 2);
    assert Bit(c.fcb, 0x20) == 0x20 * (high / 2 % 2) && Bit(c.fcv, 0x10) == 0x10 * (high % 2);
  }

  lemma Quarters(x: nat)
    requires x < 256
    ensures x / 0x20 == x / 0x10 / 2 && x / 0x40 == x / 0x10 / 4 && x / 0x80 == x / 0x10 / 8
    ensures x == x % 16 + 0x10 * (x / 0x10) && x / 0x10 < 16
  {
  }

  lemma Binary(high: nat)
    requires high < 16
    ensures high == high % 2 + 2 * (high / 2 % 2) + 4 * (high / 4 % 2) + 8 * (high / 8)
    ensures high / 8 <= 1
  {
    assert high == high % 2 + 2 * (high / 2) && high / 2 == high / 2 % 2 + 2 * (high / 4);
    assert high / 4 == high / 4 % 2 + 2 * (high / 8);
  }

  lemma OctetsOfAddress(m: seq<byte>, c: nat, n: nat)
    requires n <= 2 && c + n < |m|
    ensures AddressFits(AddressAt(m, c, n), n) && AddressOctets(AddressAt(m, c, n), n) == m[c + 1..c + 1 + n]
  {
    if n == 2 {
      var low, high: int := m[c + 1], m[c + 2];
      assert (low + 0x100 * high) % 0x100 == low && (low + 0x100 * high) / 0x100 == high;
    }
  }
}
