// FT 1.2 frames of the CS 101 link layer (link_layer.c): encoding, the two parsers, and the delimiting of frames on a
// serial octet stream (serial_transceiver_ft_1_2.c).
module Ft12 {
  import opened Bytes
  import opened Wrappers

  /** The largest frame. */
  const BUFFER_SIZE := 261

  const SINGLE_CHAR: byte := 0xe5

  // ---------------------------------------------------------------- fields

  /** The control field. Bit 0x20 is FCB or ACD, bit 0x10 FCV or DFC, depending on prm. */
  datatype Control = Control(fc: nat, prm: bool, dir: bool, fcb: bool, fcv: bool)

  function Bit(b: bool, weight: nat): nat { if b then weight else 0 }

  function ControlOctet(c: Control): byte {
    c.fc % 16 + Bit(c.prm, 0x40) + Bit(c.dir, 0x80) + Bit(c.fcb, 0x20) + Bit(c.fcv, 0x10)
  }

  function ControlOf(b: byte): Control {
    var x: int := b;
    Control(x % 16, x / 0x40 % 2 == 1, x / 0x80 == 1, x / 0x20 % 2 == 1, x / 0x10 % 2 == 1)
  }

  lemma ControlRoundTrip(c: Control)
    requires c.fc < 16
    ensures ControlOf(ControlOctet(c)) == c
  {
    var high := Bit(c.dir, 8) + Bit(c.prm, 4) + Bit(c.fcb, 2) + Bit(c.fcv, 1);
    assert ControlOctet(c) == c.fc + 16 * high;
    Nibbles(c.fc, high);
    HighBits(c, high);
  }

  lemma HighBits(c: Control, high: nat)
    requires high == Bit(c.dir, 8) + Bit(c.prm, 4) + Bit(c.fcb, 2) + Bit(c.fcv, 1)
    ensures c.dir == (high / 8 == 1) && c.prm == (high / 4 % 2 == 1)
    ensures c.fcb == (high / 2 % 2 == 1) && c.fcv == (high % 2 == 1)
  {
    var upper := Bit(c.dir, 4) + Bit(c.prm, 2) + Bit(c.fcb, 1);
    Halves(upper, Bit(c.fcv, 1));
    Halves(Bit(c.dir, 2) + Bit(c.prm, 1), Bit(c.fcb, 1));
    Halves(Bit(c.dir, 1), Bit(c.prm, 1));
    assert high / 4 == high / 2 / 2 && high / 8 == high / 4 / 2;
  }

  lemma Halves(q: nat, r: nat)
    requires r < 2
    ensures (2 * q + r) / 2 == q && (2 * q + r) % 2 == r
  {
  }

  lemma Nibbles(low: nat, high: nat)
    requires low < 16 && high < 16
    ensures var x := low + 16 * high;
            && x % 16 == low && x / 0x10 % 2 == high % 2 && x / 0x20 % 2 == high / 2 % 2
            && x / 0x40 % 2 == high / 4 % 2 && x / 0x80 == high / 8
  {
    var x := low + 16 * high;
    assert x / 0x10 == high;
    assert x / 0x20 == high / 2 && x / 0x40 == high / 4;
  }

  function AddressOctets(address: nat, n: nat): (octets: seq<byte>)
    requires n <= 2
    ensures |octets| == n
  {
    if n == 0 then [] else if n == 1 then [address % 0x100] else [address % 0x100, address / 0x100 % 0x100]
  }

  /** The address behind the control octet at position c of a buffer. */
  function AddressAt(buffer: seq<byte>, c: nat, n: nat): nat
    requires n <= 2 && c + n < |buffer|
  {
    if n == 0 then 0 else if n == 1 then buffer[c + 1] else Word(buffer[c + 1], buffer[c + 2])
  }

  // ---------------------------------------------------------------- frames

  function Checked(body: seq<byte>): seq<byte> { body + [Sum(body), 0x16] }

  function Fixed(c: Control, address: nat, n: nat): seq<byte>
    requires n <= 2
  {
    [0x10] + Checked([ControlOctet(c)] + AddressOctets(address, n))
  }

  predicate FitsVariable(n: nat, data: seq<byte>) { 1 + n + |data| <= 255 }

  function Body(c: Control, address: nat, n: nat, data: seq<byte>): seq<byte>
    requires n <= 2
  {
    [ControlOctet(c)] + AddressOctets(address, n) + data
  }

  function Variable(c: Control, address: nat, n: nat, data: seq<byte>): seq<byte>
    requires n <= 2 && FitsVariable(n, data)
  {
    var body := Body(c, address, n, data);
    [0x68, |body|, |body|, 0x68] + Checked(body)
  }

  // ---------------------------------------------------------------- parsers

  /** A frame as it reaches a link layer handler: its control octet, address and the place of its user data. */
  datatype Reading = Reading(c: byte, address: nat, start: int, length: int)

  datatype Reception = Discarded | SingleAck | Handled(reading: Reading)

  /** HandleMessageBalancedAndPrimaryUnbalanced. The buffer may hold older octets behind the message. */
  function ParsePrimary(n: nat, buffer: seq<byte>, msgSize: nat): Reception
    requires n <= 2 && |buffer| == BUFFER_SIZE
  {
    if buffer[0] == 0x68 then
      var l: int := buffer[1];
      if buffer[1] != buffer[2] || msgSize != l + 6 then Discarded
      else CheckedReading(n, buffer, 4, 4 + l, 5 + n, l - n - 1)
    else if buffer[0] == 0x10 then CheckedReading(n, buffer, 1, 2 + n, 0, 0)
    else if buffer[0] == SINGLE_CHAR then SingleAck
    else Discarded
  }

  function CheckedReading(n: nat, buffer: seq<byte>, csStart: nat, csIndex: nat, start: int, length: int): Reception
    requires n <= 2 && csStart <= csIndex < |buffer| && csStart + n < |buffer|
  {
    if Sum(buffer[csStart..csIndex]) != buffer[csIndex] then Discarded
    else Handled(Reading(buffer[csStart], AddressAt(buffer, csStart, n), start, length))
  }

  function BroadcastAddress(n: nat): nat { if n == 1 then 255 else if n == 2 then 65535 else 0 }

  /** The broadcast address is the largest one: all its octets are ff. */
  lemma BroadcastIsLargest(n: nat, address: nat)
    requires 1 <= n <= 2 && AddressFits(address, n)
    ensures address <= BroadcastAddress(n) && AddressFits(BroadcastAddress(n), n)
    ensures address == BroadcastAddress(n) <==> forall i | 0 <= i < n :: AddressOctets(address, n)[i] == 0xff
  {
    var octets := AddressOctets(address, n);
    if n == 2 {
      assert octets[0] as int == address % 0x100 && octets[1] as int == address / 0x100;
    } else {
      assert octets[0] as int == address;
    }
  }

  predicate IsBroadcast(n: nat, address: nat) { n > 0 && address == BroadcastAddress(n) }

  datatype SecondaryReception = Error | NotAddressed | ToHandler(reading: Reading, isBroadcast: bool)

  const USER_DATA_NO_REPLY := 4

  /** ParserHeaderSecondaryUnbalanced: also filters by address, broadcast function code and PRM. */
  function ParseSecondary(n: nat, own: nat, buffer: seq<byte>, msgSize: nat): SecondaryReception
    requires n <= 2 && |buffer| == BUFFER_SIZE
  {
    if buffer[0] == 0x68 then
      var l: int := buffer[1];
      if buffer[1] != buffer[2] || msgSize != l + 6 then Error
      else FilteredReading(n, own, buffer, 4, 4 + l, 5 + n, l - n - 1)
    else if buffer[0] == 0x10 then FilteredReading(n, own, buffer, 1, 2 + n, 0, 0)
    else Error
  }

  function FilteredReading(n: nat, own: nat, buffer: seq<byte>, csStart: nat, csIndex: nat, start: int, length: int)
    : SecondaryReception
    requires n <= 2 && csStart <= csIndex < |buffer| && csStart + n < |buffer|
  {
    var address := AddressAt(buffer, csStart, n);
    var control := ControlOf(buffer[csStart]);
    if IsBroadcast(n, address) && control.fc != USER_DATA_NO_REPLY then Error
    else if !IsBroadcast(n, address) && address != own then NotAddressed
    else match CheckedReading(n, buffer, csStart, csIndex, start, length)
      case Handled(reading) => if control.prm then ToHandler(reading, IsBroadcast(n, address)) else Error
      case _ => Error
  }

  // ---------------------------------------------------------------- round trip

  /** A message in the buffer, whatever older octets lie behind it. */
  predicate Holds(buffer: seq<byte>, message: seq<byte>) {
    |buffer| == BUFFER_SIZE && |message| <= BUFFER_SIZE && buffer[..|message|] == message
  }

  predicate AddressFits(address: nat, n: nat) {
    if n == 0 then address == 0 else if n == 1 then address < 0x100 else address < 0x1_0000
  }

  lemma AddressRoundTrip(buffer: seq<byte>, c: nat, n: nat, address: nat)
    requires n <= 2 && c + n < |buffer| && buffer[c + 1..c + 1 + n] == AddressOctets(address, n)
    requires AddressFits(address, n)
    ensures AddressAt(buffer, c, n) == address
  {
    var octets := buffer[c + 1..c + 1 + n];
    if n >= 1 { assert octets[0] == buffer[c + 1]; }
    if n == 2 { assert octets[1] == buffer[c + 2]; }
  }

  lemma FixedRoundTrip(c: Control, address: nat, n: nat, buffer: seq<byte>)
    requires n <= 2 && c.fc < 16 && AddressFits(address, n) && Holds(buffer, Fixed(c, address, n))
    ensures var r := ParsePrimary(n, buffer, |Fixed(c, address, n)|);
            && r == Handled(Reading(ControlOctet(c), address, 0, 0))
            && ControlOf(r.reading.c) == c
  {
    ControlRoundTrip(c);
    var message := Fixed(c, address, n);
    var body := [ControlOctet(c)] + AddressOctets(address, n);
    FixedLayout(c, address, n);
    hide Sum, ControlOctet, ControlOf, AddressAt, Fixed, AddressOctets;
    BufferSlice(buffer, message, 1, 2 + n);
    BufferSlice(buffer, message, 2, 2 + n);
    AddressRoundTrip(buffer, 1, n, address);
  }

  lemma VariableRoundTrip(c: Control, address: nat, n: nat, data: seq<byte>, buffer: seq<byte>)
    requires n <= 2 && c.fc < 16 && AddressFits(address, n) && FitsVariable(n, data)
    requires Holds(buffer, Variable(c, address, n, data))
    ensures var r := ParsePrimary(n, buffer, |Variable(c, address, n, data)|);
            && r == Handled(Reading(ControlOctet(c), address, 5 + n, |data|))
            && ControlOf(r.reading.c) == c && buffer[5 + n..5 + n + |data|] == data
  {
    ControlRoundTrip(c);
    VariableLayout(c, address, n, data);
    var message := Variable(c, address, n, data);
    var body := Body(c, address, n, data);
    hide Sum, ControlOctet, ControlOf, AddressAt, Variable, Body;
    BufferSlice(buffer, message, 4, 4 + |body|);
    BufferSlice(buffer, message, 5, 5 + n);
    BufferSlice(buffer, message, 5 + n, 5 + n + |data|);
    AddressRoundTrip(buffer, 4, n, address);
  }

  lemma BufferSlice(buffer: seq<byte>, message: seq<byte>, i: nat, j: nat)
    requires Holds(buffer, message) && i <= j <= |message|
    ensures buffer[i..j] == message[i..j]
    ensures forall k | 0 <= k < |message| :: buffer[k] == message[k]
  {
    assert forall k | 0 <= k < |message| :: buffer[k] == buffer[..|message|][k];
  }

  lemma FixedLayout(c: Control, address: nat, n: nat)
    requires n <= 2
    ensures var m := Fixed(c, address, n);
            var body := [ControlOctet(c)] + AddressOctets(address, n);
            && |m| == 4 + n && m[0] == 0x10 && m[1..2 + n] == body && m[1] == ControlOctet(c) && m[2 + n] == Sum(body)
            && m[2..2 + n] == AddressOctets(address, n)
  {
    hide Sum, ControlOctet, AddressOctets;
    var m, body := Fixed(c, address, n), [ControlOctet(c)] + AddressOctets(address, n);
    assert m == [0x10] + body + [Sum(body), 0x16];
    assert body[1..] == AddressOctets(address, n) && m[2..2 + n] == body[1..];
  }

  lemma VariableLayout(c: Control, address: nat, n: nat, data: seq<byte>)
    requires n <= 2 && FitsVariable(n, data)
    ensures var m := Variable(c, address, n, data);
            var body := Body(c, address, n, data);
            && |m| == |body| + 6 && |body| == 1 + n + |data|
            && m[0] == 0x68 == m[3] && m[1] as int == |body| && m[2] == m[1]
            && m[4..4 + |body|] == body && m[4] == ControlOctet(c) && m[4 + |body|] == Sum(body)
            && m[5..5 + n] == AddressOctets(address, n) && m[5 + n..5 + n + |data|] == data
  {
    hide Sum, ControlOctet, AddressOctets;
    var m, body := Variable(c, address, n, data), Body(c, address, n, data);
    assert m == [0x68, |body|, |body|, 0x68] + body + [Sum(body), 0x16];
    assert body[1..1 + n] == AddressOctets(address, n) && body[1 + n..] == data;
    assert m[5..5 + n] == body[1..1 + n] && m[5 + n..5 + n + |data|] == body[1 + n..];
  }

  // ---------------------------------------------------------------- one corrupted octet

  datatype Frame =
    | FixedFrame(c: Control, address: nat)
    | VariableFrame(c: Control, address: nat, data: seq<byte>)
    | SingleCharFrame

  predicate Encodable(n: nat, f: Frame) {
    match f
    case FixedFrame(c, address) => c.fc < 16 && AddressFits(address, n)
    case VariableFrame(c, address, data) => c.fc < 16 && AddressFits(address, n) && FitsVariable(n, data)
    case SingleCharFrame => true
  }

  function Encode(n: nat, f: Frame): (message: seq<byte>)
    requires n <= 2 && Encodable(n, f)
    ensures 1 <= |message| <= BUFFER_SIZE
  {
    match f
    case FixedFrame(c, address) => Fixed(c, address, n)
    case VariableFrame(c, address, data) => Variable(c, address, n, data)
    case SingleCharFrame => [SINGLE_CHAR]
  }

  /** The length, control, address, user data and checksum octets. */
  predicate Covered(n: nat, f: Frame, i: nat)
    requires n <= 2 && Encodable(n, f)
  {
    match f
    case FixedFrame(_, _) => 1 <= i <= 2 + n
    case VariableFrame(_, _, data) => 1 <= i <= 2 || 4 <= i <= 5 + n + |data|
    case SingleCharFrame => false
  }

  /** Replacing any octet of a checksummed range or the checksum itself makes them differ. */
  lemma ChecksumDetects(body: seq<byte>, buffer: seq<byte>, at: nat, i: nat, b: byte)
    requires at + |body| < |buffer| && i <= |body|
    requires b != (body + [Sum(body)])[i]
    requires buffer[at..at + |body| + 1] == (body + [Sum(body)])[i := b]
    ensures Sum(buffer[at..at + |body|]) != buffer[at + |body|]
  {
    hide Sum;
    var range := buffer[at..at + |body| + 1];
    assert buffer[at..at + |body|] == range[..|body|] && buffer[at + |body|] == range[|body|];
    if i < |body| {
      assert range[..|body|] == body[i := b];
      SumDetectsOneOctet(body, i, b);
    } else {
      assert range[..|body|] == body;
    }
  }

  lemma FixedCorrupted(n: nat, c: Control, address: nat, i: nat, b: byte, buffer: seq<byte>)
    requires n <= 2 && 1 <= i <= 2 + n && b != Fixed(c, address, n)[i]
    requires Holds(buffer, Fixed(c, address, n)[i := b])
    ensures buffer[0] == 0x10 && CheckedReading(n, buffer, 1, 2 + n, 0, 0) == Discarded
  {
    var message, body := Fixed(c, address, n), [ControlOctet(c)] + AddressOctets(address, n);
    hide Sum, ControlOctet, AddressOctets;
    var changed := message[i := b];
    BufferSlice(buffer, changed, 1, 3 + n);
    assert message[1..3 + n] == body + [Sum(body)];
    assert changed[1..3 + n] == (body + [Sum(body)])[i - 1 := b];
    ChecksumDetects(body, buffer, 1, i - 1, b);
  }

  lemma VariableCorrupted(n: nat, c: Control, address: nat, data: seq<byte>, i: nat, b: byte, buffer: seq<byte>)
    requires n <= 2 && FitsVariable(n, data) && (1 <= i <= 2 || 4 <= i <= 5 + n + |data|)
    requires b != Variable(c, address, n, data)[i] && Holds(buffer, Variable(c, address, n, data)[i := b])
    ensures buffer[0] == 0x68
    ensures i <= 2 ==> buffer[1] != buffer[2]
    ensures i > 2 ==> buffer[1] as int == 1 + n + |data| && buffer[2] == buffer[1]
                      && CheckedReading(n, buffer, 4, 4 + buffer[1] as int, 5 + n, |data|) == Discarded
  {
    var message, body := Variable(c, address, n, data), Body(c, address, n, data);
    VariableLayout(c, address, n, data);
    hide Sum, Variable, Body;
    var changed := message[i := b];
    BufferSlice(buffer, changed, 4, 5 + |body|);
    assert buffer[0] == changed[0] && buffer[1] == changed[1] && buffer[2] == changed[2];
    if i > 2 {
      assert message[4..5 + |body|] == body + [Sum(body)];
      assert changed[4..5 + |body|] == (body + [Sum(body)])[i - 4 := b];
      ChecksumDetects(body, buffer, 4, i - 4, b);
    }
  }

  /** No single wrong octet among the covered ones lets a frame through either parser. */
  lemma OneOctetDetected(n: nat, f: Frame, i: nat, b: byte, buffer: seq<byte>, own: nat)
    requires n <= 2 && Encodable(n, f) && Covered(n, f, i) && i < |Encode(n, f)| && b != Encode(n, f)[i]
    requires Holds(buffer, Encode(n, f)[i := b])
    ensures ParsePrimary(n, buffer, |Encode(n, f)|) == Discarded
    ensures !ParseSecondary(n, own, buffer, |Encode(n, f)|).ToHandler?
  {
    hide Sum, ControlOf, AddressAt, Fixed, Variable, IsBroadcast;
    match f
    case FixedFrame(c, address) => FixedCorrupted(n, c, address, i, b, buffer);
    case VariableFrame(c, address, data) =>
      VariableLayout(c, address, n, data);
      VariableCorrupted(n, c, address, data, i, b, buffer);
    case SingleCharFrame =>
  }

  lemma FixedEndUnchecked(n: nat, c: Control, address: nat, b: byte, buffer: seq<byte>, own: nat)
    requires n <= 2 && c.fc < 16 && AddressFits(address, n) && Holds(buffer, Fixed(c, address, n))
    ensures var size := 4 + n;
            var changed := buffer[size - 1 := b];
            && ParsePrimary(n, changed, size) == ParsePrimary(n, buffer, size)
            && ParsePrimary(n, buffer, size).Handled?
            && ParseSecondary(n, own, changed, size) == ParseSecondary(n, own, buffer, size)
  {
    var changed := buffer[3 + n := b];
    FixedRoundTrip(c, address, n, buffer);
    BufferSlice(buffer, Fixed(c, address, n), 0, 0);
    hide CheckedReading, FilteredReading, Fixed;
    assert changed[1..3 + n] == buffer[1..3 + n];
    SameReading(n, own, buffer, changed, 1, 2 + n, 0, 0);
  }

  lemma VariableEndsUnchecked(n: nat, c: Control, address: nat, data: seq<byte>, i: nat, b: byte, buffer: seq<byte>,
                              own: nat)
    requires n <= 2 && c.fc < 16 && AddressFits(address, n) && FitsVariable(n, data)
    requires Holds(buffer, Variable(c, address, n, data)) && (i == 3 || i == 6 + n + |data|)
    ensures var size := |Variable(c, address, n, data)|;
            var changed := buffer[i := b];
            && ParsePrimary(n, changed, size) == ParsePrimary(n, buffer, size)
            && ParsePrimary(n, buffer, size).Handled?
            && ParseSecondary(n, own, changed, size) == ParseSecondary(n, own, buffer, size)
  {
    var changed := buffer[i := b];
    VariableRoundTrip(c, address, n, data, buffer);
    VariableLayout(c, address, n, data);
    BufferSlice(buffer, Variable(c, address, n, data), 0, 0);
    hide CheckedReading, FilteredReading, Variable, Body, Sum, ControlOctet, AddressOctets, AddressFits;
    var l: int := buffer[1];
    assert changed[4..5 + l] == buffer[4..5 + l];
    SameReading(n, own, buffer, changed, 4, 4 + l, 5 + n, l - n - 1);
  }

  /** The end octet and the second start octet are never looked at. */
  lemma UncheckedOctets(n: nat, f: Frame, i: nat, b: byte, buffer: seq<byte>, own: nat)
    requires n <= 2 && Encodable(n, f) && f != SingleCharFrame && Holds(buffer, Encode(n, f))
    requires i == |Encode(n, f)| - 1 || (f.VariableFrame? && i == 3)
    ensures ParsePrimary(n, buffer[i := b], |Encode(n, f)|) == ParsePrimary(n, buffer, |Encode(n, f)|)
    ensures ParsePrimary(n, buffer, |Encode(n, f)|).Handled?
    ensures ParseSecondary(n, own, buffer[i := b], |Encode(n, f)|) == ParseSecondary(n, own, buffer, |Encode(n, f)|)
  {
    hide ParsePrimary, ParseSecondary, Variable, Body, AddressFits;
    match f
    case FixedFrame(c, address) => FixedEndUnchecked(n, c, address, b, buffer, own);
    case VariableFrame(c, address, data) =>
      VariableLayout(c, address, n, data);
      VariableEndsUnchecked(n, c, address, data, i, b, buffer, own);
  }

  lemma SameReading(n: nat, own: nat, v: seq<byte>, w: seq<byte>, csStart: nat, csIndex: nat, start: int, length: int)
    requires n <= 2 && csStart + n < csIndex < |v| == |w| && v[csStart..csIndex + 1] == w[csStart..csIndex + 1]
    ensures CheckedReading(n, v, csStart, csIndex, start, length) == CheckedReading(n, w, csStart, csIndex, start, length)
    ensures FilteredReading(n, own, v, csStart, csIndex, start, length)
            == FilteredReading(n, own, w, csStart, csIndex, start, length)
  {
    hide Sum, ControlOf;
    assert forall k | csStart <= k <= csIndex :: v[k] == v[csStart..csIndex + 1][k - csStart];
    assert forall k | csStart <= k <= csIndex :: w[k] == w[csStart..csIndex + 1][k - csStart];
    assert v[csStart..csIndex] == w[csStart..csIndex];
  }

  /** A wrong first octet: 0xe5 makes any frame a single character acknowledgement; a start octet of the other kind gets
      through to the handlers exactly in the cases named. */
  lemma FirstOctet(n: nat, f: Frame, b: byte, buffer: seq<byte>)
    requires n <= 2 && Encodable(n, f) && f != SingleCharFrame && b != Encode(n, f)[0]
    requires Holds(buffer, Encode(n, f)[0 := b])
    ensures var r := ParsePrimary(n, buffer, |Encode(n, f)|);
            && (r == SingleAck <==> b == SINGLE_CHAR)
            && (r.Handled? <==>
                  if f.FixedFrame? then b == 0x68 && n == 2 && ControlOctet(f.c) == 0 && f.address == 0
                  else b == 0x10 && Sum([buffer[1], buffer[1], 0x68][..1 + n])
                                    == [buffer[1], 0x68, ControlOctet(f.c)][n])
  {
    hide ParsePrimary, Fixed, Variable, Body, ControlOctet, Sum;
    match f
    case FixedFrame(c, address) => FixedFirstOctet(n, c, address, b, buffer);
    case VariableFrame(c, address, data) => VariableFirstOctet(n, c, address, data, b, buffer);
  }

  /** Address, broadcast and PRM filter of an unbalanced slave. */
  predicate ForSlave(n: nat, own: nat, reading: Reading) {
    && ControlOf(reading.c).prm
    && if IsBroadcast(n, reading.address) then ControlOf(reading.c).fc == USER_DATA_NO_REPLY else reading.address == own
  }

  /** Whatever is in the buffer, the slave's parser hands over exactly what the other one does and the filter lets
      through. */
  lemma SlaveFilters(n: nat, own: nat, buffer: seq<byte>, msgSize: nat)
    requires n <= 2 && |buffer| == BUFFER_SIZE
    ensures var r, s := ParsePrimary(n, buffer, msgSize), ParseSecondary(n, own, buffer, msgSize);
            && (s.ToHandler? <==> r.Handled? && ForSlave(n, own, r.reading))
            && (s.ToHandler? ==> s.reading == r.reading && s.isBroadcast == IsBroadcast(n, r.reading.address))
  {
    hide Sum, ControlOf, AddressAt, IsBroadcast;
  }

  /** A wrong first octet at an unbalanced slave: only a variable length frame taken for a fixed one can get through,
      with its length octet as the control octet. */
  lemma FirstOctetAtSlave(n: nat, f: Frame, b: byte, buffer: seq<byte>, own: nat)
    requires n <= 2 && Encodable(n, f) && f != SingleCharFrame && b != Encode(n, f)[0]
    requires Holds(buffer, Encode(n, f)[0 := b])
    ensures var size := |Encode(n, f)|;
            ParseSecondary(n, own, buffer, size).ToHandler? <==>
              && f.VariableFrame? && ParsePrimary(n, buffer, size).Handled?
              && ForSlave(n, own, Reading(buffer[1], AddressAt(buffer, 1, n), 0, 0))
  {
    SlaveFilters(n, own, buffer, |Encode(n, f)|);
    FirstOctet(n, f, b, buffer);
    if ParsePrimary(n, buffer, |Encode(n, f)|).Handled? {
      ReadFromFirstOctet(n, buffer, |Encode(n, f)|);
      hide ParsePrimary, ParseSecondary, Encode, Sum, ControlOctet, AddressAt, IsBroadcast;
      BufferSlice(buffer, Encode(n, f)[0 := b], 0, 0);
      assert buffer[0] == b;
      if f.FixedFrame? {
        FixedTakenForVariable(f, buffer);
      }
    }
  }

  lemma ReadFromFirstOctet(n: nat, buffer: seq<byte>, msgSize: nat)
    requires n <= 2 && |buffer| == BUFFER_SIZE && ParsePrimary(n, buffer, msgSize).Handled?
    ensures var reading := ParsePrimary(n, buffer, msgSize).reading;
            && (buffer[0] == 0x10 ==> reading == Reading(buffer[1], AddressAt(buffer, 1, n), 0, 0))
            && (buffer[0] == 0x68 ==> reading.c == buffer[4])
  {
    hide Sum, AddressAt;
  }

  lemma FixedTakenForVariable(f: Frame, buffer: seq<byte>)
    requires Encodable(2, f) && f.FixedFrame? && Holds(buffer, Encode(2, f)[0 := 0x68])
    requires ControlOctet(f.c) == 0 && f.address == 0
    ensures !ControlOf(buffer[4]).prm
  {
    hide ControlOctet;
    var body := [ControlOctet(f.c)] + AddressOctets(f.address, 2);
    ThreeSum(0, 0, 0);
    assert body == [0, 0, 0];
    assert Encode(2, f)[4] == Sum(body);
    BufferSlice(buffer, Encode(2, f)[0 := 0x68], 0, 0);
  }

  lemma FixedFirstOctet(n: nat, c: Control, address: nat, b: byte, buffer: seq<byte>)
    requires n <= 2 && AddressFits(address, n) && b != Fixed(c, address, n)[0]
    requires Holds(buffer, Fixed(c, address, n)[0 := b])
    ensures var r := ParsePrimary(n, buffer, |Fixed(c, address, n)|);
            && (r == SingleAck <==> b == SINGLE_CHAR)
            && (r.Handled? <==> b == 0x68 && n == 2 && ControlOctet(c) == 0 && address == 0)
  {
    var message := Fixed(c, address, n);
    assert |message| == 4 + n && message[0] == 0x10;
    hide ControlOctet, Sum, Fixed, AddressFits, AddressAt;
    BufferSlice(buffer, message[0 := b], 0, 0);
    if b == 0x68 && n == 2 {
      assert buffer[1..5] == message[1..5];
      FixedAsVariable(c, address, buffer);
    }
  }

  lemma VariableFirstOctet(n: nat, c: Control, address: nat, data: seq<byte>, b: byte, buffer: seq<byte>)
    requires n <= 2 && FitsVariable(n, data) && b != Variable(c, address, n, data)[0]
    requires Holds(buffer, Variable(c, address, n, data)[0 := b])
    ensures var r := ParsePrimary(n, buffer, |Variable(c, address, n, data)|);
            && (r == SingleAck <==> b == SINGLE_CHAR)
            && (r.Handled? <==> b == 0x10 && Sum([buffer[1], buffer[1], 0x68][..1 + n])
                                              == [buffer[1], 0x68, ControlOctet(c)][n])
  {
    var message := Variable(c, address, n, data);
    VariableLayout(c, address, n, data);
    hide Variable, Body, ControlOctet, Sum, AddressOctets, AddressAt;
    BufferSlice(buffer, message[0 := b], 0, 0);
    assert buffer[1] == message[1] && buffer[2] == message[2] && buffer[3] == message[3] && buffer[4] == message[4];
    assert buffer[1..2 + n] == [buffer[1], buffer[1], 0x68][..1 + n];
  }

  lemma FixedAsVariable(c: Control, address: nat, buffer: seq<byte>)
    requires AddressFits(address, 2) && |buffer| == BUFFER_SIZE
    requires buffer[1..5] == Fixed(c, address, 2)[1..5]
    ensures buffer[1] == 0 && buffer[2] == 0 && Sum(buffer[4..4]) == buffer[4]
            <==> ControlOctet(c) == 0 && address == 0
  {
    var low, high := address % 0x100, address / 0x100 % 0x100;
    var octet := ControlOctet(c);
    hide ControlOctet;
    var body := [octet, low, high];
    ThreeSum(octet, low, high);
    assert [ControlOctet(c)] + AddressOctets(address, 2) == body;
    assert Fixed(c, address, 2)[1..5] == [octet, low, high, Sum(body)];
    assert buffer[4..4] == [] && Sum([]) == 0;
    hide Sum, AddressOctets, Fixed;
    var four := buffer[1..5];
    assert buffer[1] == four[0] && buffer[2] == four[1] && buffer[4] == four[3];
    AddressZero(address);
  }

  lemma AddressZero(address: nat)
    requires address < 0x1_0000
    ensures address == 0 <==> address % 0x100 == 0 && address / 0x100 % 0x100 == 0
  {
  }

  lemma ThreeSum(a: byte, b: byte, c: byte)
    ensures Sum([a, b, c]) == (a + b + c) % 256
  {
    var s, t: seq<byte>, u: seq<byte> := [a, b, c], [a, b], [a];
    assert s[..2] == t && t[..1] == u && u[..0] == [];
    assert Total(u) == a;
    assert Total(t) == Total(u) + b;
    assert Total(s) == Total(t) + c;
  }

  // ---------------------------------------------------------------- streams

  /** The size of the message at the head of a stream that readNextMessage hands over, if all of it is there. */
  function NextSize(n: nat, stream: seq<byte>): Option<nat> {
    if stream == [] then None
    else if stream[0] == 0x68 then
      if |stream| >= 2 && |stream| >= stream[1] as int + 6 then Some(stream[1] as int + 6) else None
    else if stream[0] == 0x10 then (if |stream| >= 4 + n then Some(4 + n) else None)
    else if stream[0] == SINGLE_CHAR then Some(1)
    else None
  }

  /** Only the three start octets begin a message, of the size its kind has. */
  lemma OnlyStartsAreRead(n: nat, stream: seq<byte>)
    ensures var size := NextSize(n, stream);
            size.Some? ==>
              && stream != [] && size.value <= |stream| && stream[0] in {0x68, 0x10, SINGLE_CHAR}
              && (stream[0] == 0x10 ==> size.value == 4 + n) && (stream[0] == SINGLE_CHAR ==> size.value == 1)
              && (stream[0] == 0x68 ==> |stream| >= 2 && size.value == stream[1] as int + 6)
    ensures stream != [] && stream[0] in {0x68, 0x10, SINGLE_CHAR} && |stream| >= BUFFER_SIZE + n ==> NextSize(n, stream).Some?
  {
  }

  /** The messages read one after the other while complete ones follow. */
  function ReadAll(n: nat, stream: seq<byte>): seq<seq<byte>>
    decreases |stream|
  {
    match NextSize(n, stream)
    case None => []
    case Some(size) => [stream[..size]] + ReadAll(n, stream[size..])
  }

  function Octets(n: nat, frames: seq<Frame>): seq<byte>
    requires n <= 2 && forall i | 0 <= i < |frames| :: Encodable(n, frames[i])
  {
    if frames == [] then [] else Encode(n, frames[0]) + Octets(n, frames[1..])
  }

  lemma EncodedSize(n: nat, f: Frame, rest: seq<byte>)
    requires n <= 2 && Encodable(n, f)
    ensures NextSize(n, Encode(n, f) + rest) == Some(|Encode(n, f)|)
  {
    match f
    case FixedFrame(c, address) => hide Sum, ControlOctet, AddressOctets;
    case VariableFrame(c, address, data) =>
      VariableLayout(c, address, n, data);
      hide Variable, Body;
    case SingleCharFrame =>
  }

  /** Reading any concatenation of frames yields the frames one by one. */
  lemma {:induction false} StreamRoundTrip(n: nat, frames: seq<Frame>)
    requires n <= 2 && forall i | 0 <= i < |frames| :: Encodable(n, frames[i])
    ensures var messages := ReadAll(n, Octets(n, frames));
            |messages| == |frames| && forall i | 0 <= i < |frames| :: messages[i] == Encode(n, frames[i])
  {
    hide NextSize, Encode, Encodable;
    if frames == [] {
      assert NextSize(n, []) == None by { NoSize(n); }
    } else {
      var head, rest := Encode(n, frames[0]), Octets(n, frames[1..]);
      EncodedSize(n, frames[0], rest);
      StreamRoundTrip(n, frames[1..]);
      assert (head + rest)[..|head|] == head && (head + rest)[|head|..] == rest;
      ReadStep(n, head, rest);
    }
  }

  lemma NoSize(n: nat)
    ensures NextSize(n, []) == None
  {
  }

  lemma ReadStep(n: nat, head: seq<byte>, rest: seq<byte>)
    requires head != [] && NextSize(n, head + rest) == Some(|head|)
    ensures ReadAll(n, head + rest) == [head] + ReadAll(n, rest)
  {
    assert (head + rest)[..|head|] == head && (head + rest)[|head|..] == rest;
  }

  /** On a stream too: a changed length octet changes how much the reader hands over, but whatever it hands over reaches
      no handler. */
  lemma OneOctetDetectedOnStream(n: nat, f: Frame, i: nat, b: byte, rest: seq<byte>, size: nat, buffer: seq<byte>, own: nat)
    requires n <= 2 && Encodable(n, f) && Covered(n, f, i) && i < |Encode(n, f)| && b != Encode(n, f)[i]
    requires var stream := Encode(n, f)[i := b] + rest;
             NextSize(n, stream) == Some(size) && Holds(buffer, stream[..size])
    ensures ParsePrimary(n, buffer, size) == Discarded && !ParseSecondary(n, own, buffer, size).ToHandler?
  {
    hide Sum, Fixed, Variable, ControlOf, CheckedReading, FilteredReading;
    var changed := Encode(n, f)[i := b];
    var stream := changed + rest;
    FirstOctets(n, f);
    match f
    case FixedFrame(c, address) =>
      FixedLayout(c, address, n);
      assert stream[..size] == changed;
      OneOctetDetected(n, f, i, b, buffer, own);
    case VariableFrame(c, address, data) =>
      VariableLayout(c, address, n, data);
      if i == 1 {
        BufferSlice(buffer, stream[..size], 0, 0);
        assert buffer[0] == 0x68 && buffer[1] == b && buffer[2] == Encode(n, f)[2];
      } else {
        assert stream[..size] == changed;
        OneOctetDetected(n, f, i, b, buffer, own);
      }
    case SingleCharFrame =>
  }

  /** What a parser gets from a frame. */
  predicate ReadsAs(n: nat, f: Frame, r: Reception, buffer: seq<byte>) {
    match f
    case FixedFrame(c, address) =>
      r.Handled? && ControlOf(r.reading.c) == c && r.reading.address == address && r.reading.length == 0
    case VariableFrame(c, address, data) =>
      && r.Handled? && ControlOf(r.reading.c) == c && r.reading.address == address
      && 0 <= r.reading.start && r.reading.length == |data| && r.reading.start + |data| <= |buffer|
      && buffer[r.reading.start..r.reading.start + |data|] == data
    case SingleCharFrame => r == SingleAck
  }

  /** The parser recovers control bits, function code, address and user data of every frame. */
  lemma FrameRoundTrip(n: nat, f: Frame, buffer: seq<byte>)
    requires n <= 2 && Encodable(n, f) && Holds(buffer, Encode(n, f))
    ensures ReadsAs(n, f, ParsePrimary(n, buffer, |Encode(n, f)|), buffer)
  {
    hide ControlOf, CheckedReading, Fixed, Variable, AddressFits;
    match f
    case FixedFrame(c, address) => FixedRoundTrip(c, address, n, buffer);
    case VariableFrame(c, address, data) => VariableRoundTrip(c, address, n, data, buffer);
    case SingleCharFrame =>
      BufferSlice(buffer, [SINGLE_CHAR], 0, 0);
  }

  /** An unbalanced slave hands over exactly the frames of a primary that are addressed to it, and broadcasts only as
      user data without reply. */
  lemma SecondaryAccepts(n: nat, own: nat, f: Frame, buffer: seq<byte>)
    requires n <= 2 && Encodable(n, f) && Holds(buffer, Encode(n, f))
    ensures var r := ParseSecondary(n, own, buffer, |Encode(n, f)|);
            && (r.ToHandler? <==>
                  && f != SingleCharFrame && f.c.prm
                  && if IsBroadcast(n, f.address) then f.c.fc == USER_DATA_NO_REPLY else f.address == own)
            && (r.ToHandler? ==> ReadsAs(n, f, Handled(r.reading), buffer) && r.isBroadcast == IsBroadcast(n, f.address))
  {
    FrameRoundTrip(n, f, buffer);
    hide ControlOf, Fixed, Variable, AddressFits, IsBroadcast, Sum, AddressAt;
    BufferSlice(buffer, Encode(n, f), 0, 0);
    match f
    case FixedFrame(c, address) => FirstOctets(n, f);
    case VariableFrame(c, address, data) => FirstOctets(n, f);
    case SingleCharFrame =>
  }

  lemma FirstOctets(n: nat, f: Frame)
    requires n <= 2 && Encodable(n, f)
    ensures Encode(n, f)[0] == match f case FixedFrame(_, _) => 0x10 case VariableFrame(_, _, _) => 0x68
                               case SingleCharFrame => SINGLE_CHAR
  {
    hide Sum, ControlOctet, AddressOctets;
  }
}
