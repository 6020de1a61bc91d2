// Building an ASDU object by object and reading it back (cs101_asdu.c, cs101_information_objects.c) for four
// fixed-size monitoring types, in single-object and in sequence addressing.
module AsduBuilder {
  import opened Bytes
  import opened Asdu
  import opened Wrappers

  // ---------------------------------------------------------------- information objects

  datatype InformationObject =
    | SinglePoint(ioa: nat, on: bool, quality: byte)
    | StepPosition(ioa: nat, position: int, isTransient: bool, quality: byte)
    | BitString32(ioa: nat, bits: nat, quality: byte)
    | MeasuredValueScaled(ioa: nat, scaled: int, quality: byte)
  {
    function TypeId(): byte {
      match this
      case SinglePoint(_, _, _) => 1
      case StepPosition(_, _, _, _) => 5
      case BitString32(_, _, _) => 7
      case MeasuredValueScaled(_, _, _) => 11
    }

    /** What the create functions leave in an object. */
    predicate InRange() {
      match this
      case SinglePoint(_, _, q) => q % 16 == 0
      case StepPosition(_, v, _, _) => -64 <= v <= 63
      case BitString32(_, v, _) => v < 0x1_0000_0000
      case MeasuredValueScaled(_, v, _) => -32768 <= v <= 32767
    }

    /** An object in range whose address fits the configured size. */
    predicate WellFormed(p: AppLayerParameters) { InRange() && ioa < p.AddressLimit() }

    /** The element octets without the address. */
    function Element(): (r: seq<byte>)
      requires InRange()
      ensures |r| == GetElementDataSize(TypeId())
    {
      match this
      case SinglePoint(_, v, q) => [q - q % 16 + if v then 1 else 0]
      case StepPosition(_, v, t, q) => [(if v < 0 then v + 128 else v) + if t then 128 else 0, q]
      case BitString32(_, v, q) => [v % 0x100, v / 0x100 % 0x100, v / 0x10000 % 0x100, v / 0x100_0000, q]
      case MeasuredValueScaled(_, v, q) =>
        var u := if v < 0 then v + 65536 else v;
        [u % 256, u / 256, q]
    }
  }

  function Address(p: AppLayerParameters, ioa: nat): (r: seq<byte>)
    requires p.Valid()
    ensures |r| == p.sizeOfIOA
  {
    [ioa % 0x100]
    + (if p.sizeOfIOA > 1 then [ioa / 0x100 % 0x100] else [])
    + (if p.sizeOfIOA > 2 then [ioa / 0x10000 % 0x100] else [])
  }

  /** parseObjectAddress: out-of-range reads give 0. */
  function ParseAddress(p: AppLayerParameters, payload: seq<byte>, start: nat): nat
    requires p.Valid()
  {
    var remaining := |payload| - start;
    if remaining <= 0 || (p.sizeOfIOA > 1 && remaining <= 1) || (p.sizeOfIOA > 2 && remaining <= 2) then 0
    else
      Word(payload[start], if p.sizeOfIOA == 1 then 0
                           else Word(payload[start + 1], if p.sizeOfIOA == 2 then 0 else payload[start + 2]))
  }

  /** The getFromBuffer functions and value getters of the four types. */
  function ParseElement(t: byte, ioa: nat, e: seq<byte>): InformationObject
    requires t in {1, 5, 7, 11} && |e| == GetElementDataSize(t)
  {
    if t == 1 then SinglePoint(ioa, e[0] % 2 == 1, e[0] - e[0] % 16)
    else if t == 5 then
      var v: int := e[0] % 128;
      StepPosition(ioa, if v > 63 then v - 128 else v, e[0] >= 128, e[1])
    else if t == 7 then BitString32(ioa, Word(e[0], Word(e[1], Word(e[2], e[3]))), e[4])
    else
      var v := Word(e[0], e[1]);
      MeasuredValueScaled(ioa, if v > 32767 then v - 65536 else v, e[2])
  }

  lemma Bits32RoundTrip(v: nat)
    requires v < 0x1_0000_0000
    ensures Word(v % 0x100, Word(v / 0x100 % 0x100, Word(v / 0x10000 % 0x100, v / 0x100_0000))) == v
  {
    assert v == v % 0x100 + v / 0x100 * 0x100;
    assert v / 0x100 == v / 0x100 % 0x100 + v / 0x10000 * 0x100;
    assert v / 0x10000 == v / 0x10000 % 0x100 + v / 0x100_0000 * 0x100;
  }

  lemma ElementRoundTrip(p: AppLayerParameters, io: InformationObject)
    requires io.WellFormed(p)
    ensures ParseElement(io.TypeId(), io.ioa, io.Element()) == io
  {
    match io
    case BitString32(_, bits, _) =>
      hide Word;
      Bits32RoundTrip(bits);
    case StepPosition(_, position, isTransient, _) =>
      assert io.Element()[0] % 128 == if position < 0 then position + 128 else position;
    case _ =>
  }

  lemma AddressRoundTrip(p: AppLayerParameters, ioa: nat, rest: seq<byte>)
    requires p.Valid() && ioa < p.AddressLimit()
    ensures ParseAddress(p, Address(p, ioa) + rest, 0) == ioa
  {
    var s := Address(p, ioa) + rest;
    assert s[..p.sizeOfIOA] == Address(p, ioa);
  }

  lemma ParseAddressShift(p: AppLayerParameters, payload: seq<byte>, start: nat)
    requires p.Valid() && start <= |payload|
    ensures ParseAddress(p, payload, start) == ParseAddress(p, payload[start..], 0)
  {
  }

  // ---------------------------------------------------------------- building

  function Initialize(p: AppLayerParameters, isSequence: bool, cot: nat, oa: byte, ca: nat,
                      isTest: bool, isNegative: bool): (d: seq<byte>)
    requires p.Valid()
    ensures |d| == p.HeaderLength()
  {
    [0, if isSequence then 0x80 else 0, cot % 64 + (if isTest then 0x80 else 0) + (if isNegative then 0x40 else 0)]
    + (if p.sizeOfCOT > 1 then [oa] else [])
    + [ca % 0x100] + (if p.sizeOfCA > 1 then [ca / 0x100 % 0x100] else [])
  }

  /** The outcome of addInformationObject: accepted or not, and the octets afterwards. */
  datatype Added = Added(ok: bool, data: seq<byte>)

  /** InformationObject_encode behind its space check. */
  function Encode(p: AppLayerParameters, d: seq<byte>, io: InformationObject, inSequence: bool): (r: Added)
    requires p.Valid() && io.WellFormed(p)
    ensures |r.data| >= |d|
  {
    var piece := if inSequence then io.Element() else Address(p, io.ioa) + io.Element();
    if p.maxSizeOfASDU - |d| < |piece| then Added(false, d) else Added(true, d + piece)
  }

  /** In sequence form the next object's address is the first one's plus the count. */
  predicate FollowsOn(p: AppLayerParameters, d: seq<byte>, ioa: nat)
    requires p.Valid() && |d| >= p.HeaderLength()
  {
    ioa == ParseAddress(p, d[p.HeaderLength()..], 0) + NumberOfElements(d)
  }

  function Add(p: AppLayerParameters, d: seq<byte>, io: InformationObject): Added
    requires p.Valid() && io.WellFormed(p) && |d| >= p.HeaderLength()
  {
    var n := NumberOfElements(d);
    if n > 0 && IsSingleInformationObjectType(d[0]) then Added(false, d)
    else
      var r := if n == 0 then Encode(p, d[0 := io.TypeId()], io, false)
               else if n < 0x7f && d[0] == io.TypeId() then
                 if IsSequence(d) then
                   if FollowsOn(p, d, io.ioa) then Encode(p, d, io, true) else Added(false, d)
                 else Encode(p, d, io, false)
               else Added(false, d);
      if r.ok then Added(true, r.data[1 := (r.data[1] + 1) % 256]) else r
  }

  predicate AllWellFormed(p: AppLayerParameters, ios: seq<InformationObject>) {
    forall i | 0 <= i < |ios| :: ios[i].WellFormed(p)
  }

  /** Adding a list: the final octets and the objects that were accepted. */
  function AddAll(p: AppLayerParameters, d: seq<byte>, ios: seq<InformationObject>): (r: (seq<byte>, seq<InformationObject>))
    requires p.Valid() && |d| >= p.HeaderLength() && AllWellFormed(p, ios)
    ensures |r.0| >= p.HeaderLength()
  {
    if ios == [] then (d, [])
    else
      var last := ios[|ios| - 1];
      var (before, accepted) := AddAll(p, d, ios[..|ios| - 1]);
      var r := Add(p, before, last);
      (r.data, if r.ok then accepted + [last] else accepted)
  }

  // ---------------------------------------------------------------- reading back

  function GetElement(p: AppLayerParameters, d: seq<byte>, index: int): Option<InformationObject>
    requires p.Valid() && |d| >= p.HeaderLength()
  {
    if !FindsElement(p, d, index) || d[0] !in {1, 5, 7, 11} then None
    else
      var payload, size := d[p.HeaderLength()..], GetElementDataSize(d[0]);
      var start := ElementStart(p, IsSequence(d), index, size);
      if IsSequence(d) then
        Some(ParseElement(d[0], ParseAddress(p, payload, 0) + index, payload[start..start + size]))
      else
        Some(ParseElement(d[0], ParseAddress(p, payload, start - p.sizeOfIOA), payload[start..start + size]))
  }

  /** Offset of the element octets (behind the address, if it has one of its own). */
  function ElementStart(p: AppLayerParameters, isSequence: bool, index: nat, size: nat): (r: nat)
    ensures r >= p.sizeOfIOA
  {
    if isSequence then p.sizeOfIOA + index * size else index * (p.sizeOfIOA + size) + p.sizeOfIOA
  }

  // ---------------------------------------------------------------- the invariant of a list under construction

  ghost predicate Homogeneous(p: AppLayerParameters, isSequence: bool, t: byte, ios: seq<InformationObject>) {
    && AllWellFormed(p, ios)
    && (forall i | 0 <= i < |ios| :: ios[i].TypeId() == t)
    && (isSequence ==> forall i | 0 <= i < |ios| :: ios[i].ioa == ios[0].ioa + i)
  }

  /** Octets that one object contributes: its element, behind its address unless the list shares the first one. */
  ghost function Pieces(p: AppLayerParameters, isSequence: bool, ios: seq<InformationObject>): (r: seq<seq<byte>>)
    requires p.Valid() && AllWellFormed(p, ios)
  {
    seq(|ios|, i requires 0 <= i < |ios| =>
      if isSequence then ios[i].Element() else Address(p, ios[i].ioa) + ios[i].Element())
  }

  ghost function Flatten(ps: seq<seq<byte>>): seq<byte> {
    if ps == [] then [] else Flatten(ps[..|ps| - 1]) + ps[|ps| - 1]
  }

  ghost function Payload(p: AppLayerParameters, isSequence: bool, ios: seq<InformationObject>): seq<byte>
    requires p.Valid() && AllWellFormed(p, ios)
  {
    (if isSequence && ios != [] then Address(p, ios[0].ioa) else []) + Flatten(Pieces(p, isSequence, ios))
  }

  lemma {:induction false} FlattenAt(ps: seq<seq<byte>>, size: nat, i: nat)
    requires i < |ps| && forall j | 0 <= j < |ps| :: |ps[j]| == size
    ensures |Flatten(ps)| == |ps| * size
    ensures 0 <= i * size <= i * size + size <= |Flatten(ps)| && Flatten(ps)[i * size..i * size + size] == ps[i]
  {
    var front, n := ps[..|ps| - 1], |ps|;
    assert n * size == (n - 1) * size + size;
    if n > 1 {
      FlattenAt(front, size, if i < n - 1 then i else 0);
    } else {
      assert Flatten(front) == [] && (n - 1) * size == 0;
    }
    if i < n - 1 {
      assert Flatten(ps)[i * size..i * size + size] == Flatten(front)[i * size..i * size + size];
    } else {
      assert i * size == (n - 1) * size;
    }
  }

  /** The octets of an ASDU: type, qualifier, the rest of the header, payload. */
  function Octets(t: byte, vsq: byte, header: seq<byte>, payload: seq<byte>): seq<byte> {
    [t, vsq] + header + payload
  }

  ghost predicate Built(p: AppLayerParameters, isSequence: bool, header: seq<byte>, d: seq<byte>, ios: seq<InformationObject>)
    requires p.Valid()
  {
    && |d| >= p.HeaderLength() == |header| + 2
    && |ios| < 128
    && (ios != [] ==> |d| <= p.maxSizeOfASDU)
    && Homogeneous(p, isSequence, d[0], ios)
    && d == Octets(d[0], (if isSequence then 128 else 0) + |ios|, header, Payload(p, isSequence, ios))
  }

  /** What Pieces, Payload and d are after one more object. */
  lemma PayloadExtends(p: AppLayerParameters, isSequence: bool, ios: seq<InformationObject>, io: InformationObject)
    requires p.Valid() && AllWellFormed(p, ios) && io.WellFormed(p)
    ensures AllWellFormed(p, ios + [io])
    ensures Payload(p, isSequence, ios + [io]) == Payload(p, isSequence, ios)
              + if isSequence && ios != [] then io.Element() else Address(p, io.ioa) + io.Element()
  {
    hide InformationObject.Element, Address, GetElementDataSize;
    var more := ios + [io];
    assert Pieces(p, isSequence, more)[..|ios|] == Pieces(p, isSequence, ios);
    assert ios == [] ==> Flatten(Pieces(p, isSequence, ios)) == [];
  }

  lemma OctetsParts(t: byte, vsq: byte, header: seq<byte>, payload: seq<byte>)
    ensures var d := Octets(t, vsq, header, payload);
            |d| == 2 + |header| + |payload| && d[0] == t && d[1] == vsq && d[2 + |header|..] == payload
  {
  }

  /** Appending a piece, counting it in the qualifier and storing a type touches nothing else. */
  lemma OctetsStep(t: byte, vsq: byte, header: seq<byte>, payload: seq<byte>, piece: seq<byte>, u: byte, v: byte)
    ensures Octets(t, vsq, header, payload)[0 := u] == Octets(u, vsq, header, payload)
    ensures (Octets(u, vsq, header, payload) + piece)[1 := v] == Octets(u, v, header, payload + piece)
  {
  }

  lemma HomogeneousExtends(p: AppLayerParameters, isSequence: bool, t: byte, ios: seq<InformationObject>, io: InformationObject)
    requires ios == [] || Homogeneous(p, isSequence, t, ios)
    requires io.WellFormed(p) && io.TypeId() == t && (isSequence && ios != [] ==> io.ioa == ios[0].ioa + |ios|)
    ensures Homogeneous(p, isSequence, t, ios + [io])
  {
    hide InformationObject.WellFormed, InformationObject.TypeId;
  }

  /** When one call accepts an object: the list is empty, or it is not closed by a single-object type, has fewer than 127
      objects of the same type and, in sequence form, the address follows on; and the object fits the maximum size. */
  predicate Acceptable(p: AppLayerParameters, d: seq<byte>, io: InformationObject)
    requires p.Valid() && io.WellFormed(p) && |d| >= p.HeaderLength()
  {
    var n := NumberOfElements(d);
    var shared := n > 0 && IsSequence(d);
    && (n > 0 ==>
          && !IsSingleInformationObjectType(d[0]) && n < 0x7f && d[0] == io.TypeId()
          && (shared ==> FollowsOn(p, d, io.ioa)))
    && |d| + (if shared then |io.Element()| else p.sizeOfIOA + |io.Element()|) <= p.maxSizeOfASDU
  }

  /** What one call may change: nothing but the type of a still empty ASDU when it refuses; when it accepts, also one
      piece at the end and the count. */
  lemma AddOutcome(p: AppLayerParameters, d: seq<byte>, io: InformationObject)
    requires p.Valid() && io.WellFormed(p) && |d| >= p.HeaderLength()
    ensures var r, n := Add(p, d, io), NumberOfElements(d);
            var t := if n == 0 then io.TypeId() else d[0];
            var shared := n > 0 && IsSequence(d);
            var piece := if shared then io.Element() else Address(p, io.ioa) + io.Element();
            && (r.ok <==> Acceptable(p, d, io))
            && if r.ok then
                 && r.data == (d[0 := t] + piece)[1 := (d[1] + 1) % 256]
                 && |r.data| <= p.maxSizeOfASDU && n < 0x7f && t == io.TypeId()
                 && (shared ==> FollowsOn(p, d, io.ioa))
               else r.data == d[0 := t]
  {
    hide InformationObject.Element, Address, GetElementDataSize, ParseAddress, IsSingleInformationObjectType;
  }

  /** One addInformationObject call keeps the invariant and appends the object exactly when it reports success. */
  lemma AddKeepsBuilt(p: AppLayerParameters, isSequence: bool, header: seq<byte>, d: seq<byte>,
                      ios: seq<InformationObject>, io: InformationObject)
    requires p.Valid() && Built(p, isSequence, header, d, ios) && io.WellFormed(p)
    ensures var r := Add(p, d, io);
            |r.data| >= p.HeaderLength() && Built(p, isSequence, header, r.data, if r.ok then ios + [io] else ios)
  {
    hide InformationObject.Element, Address, GetElementDataSize, Pieces, Flatten, IsSingleInformationObjectType, Octets,
         ParseAddress, Payload, Add, InformationObject.TypeId, InformationObject.InRange;
    AddOutcome(p, d, io);
    var r, payload := Add(p, d, io), Payload(p, isSequence, ios);
    var vsq: int := (if isSequence then 128 else 0) + |ios|;
    var t := if ios == [] then io.TypeId() else d[0];
    OctetsParts(d[0], vsq, header, payload);
    assert d[p.HeaderLength()..] == payload;
    if r.ok {
      var piece := if isSequence && ios != [] then io.Element() else Address(p, io.ioa) + io.Element();
      OctetsStep(d[0], vsq, header, payload, piece, t, vsq + 1);
      OctetsParts(t, vsq + 1, header, payload + piece);
      PayloadExtends(p, isSequence, ios, io);
      FirstAddress(p, isSequence, ios);
      HomogeneousExtends(p, isSequence, t, ios, io);
    } else {
      OctetsStep(d[0], vsq, header, payload, [], t, vsq);
      OctetsParts(t, vsq, header, payload);
    }
  }

  /** In sequence form the payload starts with the first object's address. */
  lemma FirstAddress(p: AppLayerParameters, isSequence: bool, ios: seq<InformationObject>)
    requires p.Valid() && AllWellFormed(p, ios)
    ensures isSequence && ios != [] ==> ParseAddress(p, Payload(p, isSequence, ios), 0) == ios[0].ioa
  {
    hide Address, Pieces, Flatten, ParseAddress;
    if isSequence && ios != [] {
      AddressRoundTrip(p, ios[0].ioa, Flatten(Pieces(p, isSequence, ios)));
    }
  }

  lemma {:induction false} AddAllBuilds(p: AppLayerParameters, isSequence: bool, header: seq<byte>, d: seq<byte>,
                                        ios: seq<InformationObject>)
    requires p.Valid() && Built(p, isSequence, header, d, []) && AllWellFormed(p, ios)
    ensures var (data, accepted) := AddAll(p, d, ios);
            Built(p, isSequence, header, data, accepted)
  {
    if ios != [] {
      AddAllBuilds(p, isSequence, header, d, ios[..|ios| - 1]);
      var (before, accepted) := AddAll(p, d, ios[..|ios| - 1]);
      AddKeepsBuilt(p, isSequence, header, before, accepted, ios[|ios| - 1]);
    }
  }

  lemma MonitoringType(io: InformationObject)
    ensures var t := io.TypeId();
            GetElementDataSize(t) >= 0 && t in {1, 5, 7, 11} && LayoutOf(t) == Repeated(GetElementDataSize(t)) && !IsSingleInformationObjectType(t)
  {
  }

  /** Sequence form: the first address, then the elements. */
  lemma SequenceSlices(p: AppLayerParameters, t: byte, ios: seq<InformationObject>, i: nat)
    requires p.Valid() && Homogeneous(p, true, t, ios) && i < |ios|
    ensures var size, payload := GetElementDataSize(t), Payload(p, true, ios);
            var start := ElementStart(p, true, i, size);
            && |payload| == p.sizeOfIOA + |ios| * size
            && start + size <= |payload| && payload[start..start + size] == ios[i].Element()
            && payload == Address(p, ios[0].ioa) + payload[p.sizeOfIOA..]
  {
    hide InformationObject.Element, Address, GetElementDataSize;
    var size, ps := GetElementDataSize(ios[i].TypeId()), Pieces(p, true, ios);
    assert |ios[i].Element()| == size;
    FlattenAt(ps, size, i);
    assert Payload(p, true, ios)[p.sizeOfIOA..] == Flatten(ps);
    SliceShift(Payload(p, true, ios), p.sizeOfIOA, i * size, size);
  }

  lemma SliceShift(s: seq<byte>, base: nat, offset: nat, size: nat)
    requires base + offset + size <= |s|
    ensures s[base + offset..base + offset + size] == s[base..][offset..offset + size]
  {
  }

  /** Single-object form: every element behind its own address. */
  lemma SingleSlices(p: AppLayerParameters, t: byte, ios: seq<InformationObject>, i: nat)
    requires p.Valid() && Homogeneous(p, false, t, ios) && i < |ios|
    ensures var size, payload := GetElementDataSize(t), Payload(p, false, ios);
            var start := ElementStart(p, false, i, size);
            && |payload| == |ios| * (p.sizeOfIOA + size)
            && start + size <= |payload| && payload[start..start + size] == ios[i].Element()
            && payload[start - p.sizeOfIOA..] == Address(p, ios[i].ioa) + payload[start..]
  {
    hide InformationObject.Element, Address, GetElementDataSize, Flatten;
    var size, ps, payload := GetElementDataSize(ios[i].TypeId()), Pieces(p, false, ios), Payload(p, false, ios);
    var a, e, stride := Address(p, ios[i].ioa), ios[i].Element(), p.sizeOfIOA + size;
    assert ps[i] == a + e && |e| == size;
    forall j | 0 <= j < |ps| ensures |ps[j]| == stride { assert ios[j].TypeId() == t; }
    FlattenAt(ps, stride, i);
    assert payload == Flatten(ps);
    SplitPiece(payload, i * stride, a, e);
  }

  lemma SplitPiece(s: seq<byte>, at: nat, a: seq<byte>, e: seq<byte>)
    requires at + |a| + |e| <= |s| && s[at..at + |a| + |e|] == a + e
    ensures s[at + |a|..at + |a| + |e|] == e && s[at..] == a + s[at + |a|..]
  {
    assert s[at..at + |a|] == (a + e)[..|a|];
    assert s[at + |a|..at + |a| + |e|] == (a + e)[|a|..];
  }

  /** Octets of the payload of a list of objects of type t. */
  function PayloadSize(p: AppLayerParameters, isSequence: bool, t: byte, n: nat): int {
    if n == 0 then 0
    else if isSequence then p.sizeOfIOA + n * GetElementDataSize(t)
    else n * (p.sizeOfIOA + GetElementDataSize(t))
  }

  lemma BuiltSize(p: AppLayerParameters, isSequence: bool, header: seq<byte>, d: seq<byte>, ios: seq<InformationObject>)
    requires p.Valid() && Built(p, isSequence, header, d, ios)
    ensures |d| == p.HeaderLength() + PayloadSize(p, isSequence, d[0], |ios|)
  {
    hide InformationObject.Element, Address, Octets, Pieces, Flatten, GetElementDataSize, Payload;
    OctetsParts(d[0], (if isSequence then 128 else 0) + |ios|, header, Payload(p, isSequence, ios));
    if ios == [] {
      EmptyPayload(p, isSequence);
    } else if isSequence {
      SequenceSlices(p, d[0], ios, 0);
    } else {
      SingleSlices(p, d[0], ios, 0);
    }
  }

  lemma EmptyPayload(p: AppLayerParameters, isSequence: bool)
    requires p.Valid()
    ensures Payload(p, isSequence, []) == []
  {
    assert Pieces(p, isSequence, []) == [];
  }

  /** A finished list passes the receiver's validation. */
  lemma BuiltIsAccepted(p: AppLayerParameters, isSequence: bool, header: seq<byte>, d: seq<byte>, ios: seq<InformationObject>)
    requires p.Valid() && Built(p, isSequence, header, d, ios) && ios != []
    ensures Accepts(p, d) && NumberOfElements(d) == |ios| && IsSequence(d) == isSequence
    ensures d[0] == ios[0].TypeId() && d[p.HeaderLength()..] == Payload(p, isSequence, ios)
  {
    hide InformationObject.Element, Octets, GetElementDataSize, Payload, InformationObject.WellFormed;
    BuiltSize(p, isSequence, header, d, ios);
    OctetsParts(d[0], (if isSequence then 128 else 0) + |ios|, header, Payload(p, isSequence, ios));
  }

  /** How getElementEx evaluates once the slices are known. */
  lemma GetElementFromSlices(p: AppLayerParameters, d: seq<byte>, i: nat, io: InformationObject)
    requires p.Valid() && |d| >= p.HeaderLength() && FindsElement(p, d, i) && d[0] == io.TypeId() && io.WellFormed(p)
    requires var payload, size := d[p.HeaderLength()..], GetElementDataSize(d[0]);
             var start := ElementStart(p, IsSequence(d), i, size);
             && start + size <= |payload| && payload[start..start + size] == io.Element()
             && io.ioa == if IsSequence(d) then ParseAddress(p, payload, 0) + i
                          else ParseAddress(p, payload, start - p.sizeOfIOA)
    ensures GetElement(p, d, i) == Some(io)
  {
    hide FindsElement, InformationObject.Element, ParseElement, ParseAddress, GetElementDataSize;
    ElementRoundTrip(p, io);
  }

  /** A finished list yields its objects by index. */
  lemma BuiltReadsBack(p: AppLayerParameters, isSequence: bool, header: seq<byte>, d: seq<byte>,
                       ios: seq<InformationObject>, i: nat)
    requires p.Valid() && Built(p, isSequence, header, d, ios) && i < |ios|
    ensures GetElement(p, d, i) == Some(ios[i])
  {
    hide InformationObject.Element, Address, Octets, Pieces, Flatten, ParseAddress, LayoutOf, IsSingleInformationObjectType,
         GetElement, Accepts, FindsElement, Payload, GetElementDataSize;
    BuiltIsAccepted(p, isSequence, header, d, ios);
    var t, payload := d[0], Payload(p, isSequence, ios);
    MonitoringType(ios[i]);
    var start := ElementStart(p, isSequence, i, GetElementDataSize(t));
    AcceptedElementsAreComplete(p, d, i);
    if isSequence {
      SequenceSlices(p, t, ios, i);
      AddressRoundTrip(p, ios[0].ioa, payload[p.sizeOfIOA..]);
    } else {
      SingleSlices(p, t, ios, i);
      AddressRoundTrip(p, ios[i].ioa, payload[start..]);
      ParseAddressShift(p, payload, start - p.sizeOfIOA);
    }
    GetElementFromSlices(p, d, i, ios[i]);
  }

  /** An ASDU the parser accepts, with exactly these objects in this order, within the configured maximum. */
  ghost predicate Carries(p: AppLayerParameters, isSequence: bool, d: seq<byte>, ios: seq<InformationObject>)
    requires p.Valid()
  {
    && Accepts(p, d) && NumberOfElements(d) == |ios| && IsSequence(d) == isSequence
    && (ios != [] ==> |d| <= p.maxSizeOfASDU)
    && forall i | 0 <= i < |ios| :: GetElement(p, d, i) == Some(ios[i])
  }

  /** Adding any list and parsing the octets gives back exactly the accepted objects, in order; the count never
      reaches the SQ bit and the ASDU never exceeds the configured maximum. */
  lemma BuildThenParse(p: AppLayerParameters, isSequence: bool, cot: nat, oa: byte, ca: nat, isTest: bool,
                       isNegative: bool, ios: seq<InformationObject>)
    requires p.Valid() && AllWellFormed(p, ios)
    ensures var (d, accepted) := AddAll(p, Initialize(p, isSequence, cot, oa, ca, isTest, isNegative), ios);
            && Carries(p, isSequence, d, accepted)
            && d[2..p.HeaderLength()] == Initialize(p, isSequence, cot, oa, ca, isTest, isNegative)[2..]
  {
    hide Initialize, Add, GetElement, Accepts, Pieces, InformationObject.WellFormed;
    var start := Initialize(p, isSequence, cot, oa, ca, isTest, isNegative);
    InitializeBuilds(p, isSequence, cot, oa, ca, isTest, isNegative);
    AddAllBuilds(p, isSequence, start[2..], start, ios);
    var (d, accepted) := AddAll(p, start, ios);
    HeaderKept(p, isSequence, start[2..], d, accepted);
    forall i | 0 <= i < |accepted|
      ensures GetElement(p, d, i) == Some(accepted[i])
    {
      BuiltReadsBack(p, isSequence, start[2..], d, accepted, i);
    }
    if accepted != [] {
      BuiltIsAccepted(p, isSequence, start[2..], d, accepted);
    }
  }

  /** A list addInformationObject takes as a whole: one type, consecutive addresses in sequence form, at most 127 objects,
      and within the configured maximum. */
  ghost predicate Whole(p: AppLayerParameters, isSequence: bool, ios: seq<InformationObject>) {
    ios == []
    || (&& Homogeneous(p, isSequence, ios[0].TypeId(), ios) && |ios| <= 127
        && p.HeaderLength() + PayloadSize(p, isSequence, ios[0].TypeId(), |ios|) <= p.maxSizeOfASDU)
  }

  lemma WholePrefix(p: AppLayerParameters, isSequence: bool, ios: seq<InformationObject>)
    requires Whole(p, isSequence, ios) && ios != []
    ensures Whole(p, isSequence, ios[..|ios| - 1])
  {
    hide InformationObject.WellFormed, GetElementDataSize;
    var n, t := |ios| - 1, ios[0].TypeId();
    MonitoringType(ios[0]);
    if n > 0 {
      MulLe(n, n + 1, GetElementDataSize(t));
      MulLe(n, n + 1, p.sizeOfIOA + GetElementDataSize(t));
    }
  }

  /** The next object of such a list is accepted. */
  lemma NextAccepted(p: AppLayerParameters, isSequence: bool, header: seq<byte>, d: seq<byte>, ios: seq<InformationObject>)
    requires p.Valid() && ios != [] && Whole(p, isSequence, ios) && AllWellFormed(p, ios) && |d| >= p.HeaderLength()
    requires Built(p, isSequence, header, d, ios[..|ios| - 1])
    ensures Acceptable(p, d, ios[|ios| - 1])
  {
    hide InformationObject.Element, Address, Octets, GetElementDataSize, Payload, ParseAddress,
         IsSingleInformationObjectType, PayloadSize;
    var front, io := ios[..|ios| - 1], ios[|ios| - 1];
    MonitoringType(ios[0]);
    BuiltSize(p, isSequence, header, d, front);
    assert front == [] ==> PayloadSize(p, isSequence, d[0], 0) == PayloadSize(p, isSequence, ios[0].TypeId(), 0) by {
      NoPayload(p, isSequence, d[0]);
      NoPayload(p, isSequence, ios[0].TypeId());
    }
    HeaderKept(p, isSequence, header, d, front);
    NextSize(p, isSequence, ios[0].TypeId(), |front|, |io.Element()|);
    if front != [] {
      FirstAddress(p, isSequence, front);
      BuiltIsAccepted(p, isSequence, header, d, front);
    }
  }

  lemma NoPayload(p: AppLayerParameters, isSequence: bool, t: byte)
    ensures PayloadSize(p, isSequence, t, 0) == 0
  {
  }

  lemma NextSize(p: AppLayerParameters, isSequence: bool, t: byte, n: nat, size: nat)
    requires size == GetElementDataSize(t)
    ensures PayloadSize(p, isSequence, t, n + 1)
            == PayloadSize(p, isSequence, t, n) + if isSequence && n > 0 then size else p.sizeOfIOA + size
  {
    hide GetElementDataSize;
    assert (n + 1) * size == n * size + size;
    assert (n + 1) * (p.sizeOfIOA + size) == n * (p.sizeOfIOA + size) + (p.sizeOfIOA + size);
  }

  lemma {:induction false} AddAllStep(p: AppLayerParameters, d: seq<byte>, ios: seq<InformationObject>)
    requires p.Valid() && |d| >= p.HeaderLength() && AllWellFormed(p, ios)
    ensures ios == [] ==> AddAll(p, d, ios).1 == []
    ensures ios != [] ==>
            var front, io := ios[..|ios| - 1], ios[|ios| - 1];
            var (before, accepted) := AddAll(p, d, front);
            AddAll(p, d, ios).1 == if Add(p, before, io).ok then accepted + [io] else accepted
  {
    hide Add;
  }

  lemma {:induction false} WholeListAccepted(p: AppLayerParameters, isSequence: bool, header: seq<byte>, d: seq<byte>,
                                             ios: seq<InformationObject>)
    requires p.Valid() && |d| >= p.HeaderLength() && Built(p, isSequence, header, d, [])
    requires AllWellFormed(p, ios) && Whole(p, isSequence, ios)
    ensures AddAll(p, d, ios).1 == ios
    decreases |ios|
  {
    hide Add, AddAll, Acceptable, Built, Whole, InformationObject.WellFormed, InformationObject.Element, Address;
    AddAllStep(p, d, ios);
    if ios == [] {
    } else {
      var front, io := ios[..|ios| - 1], ios[|ios| - 1];
      WholePrefix(p, isSequence, ios);
      WholeListAccepted(p, isSequence, header, d, front);
      AddAllBuilds(p, isSequence, header, d, front);
      var before := AddAll(p, d, front).0;
      NextAccepted(p, isSequence, header, before, ios);
      AddOutcome(p, before, io);
      assert front + [io] == ios;
    }
  }

  /** A list is accepted whole, and then read back whole, exactly if it is of one type with consecutive addresses where
      they are shared, has at most 127 objects and fits. */
  lemma WholeListThenParse(p: AppLayerParameters, isSequence: bool, cot: nat, oa: byte, ca: nat, isTest: bool,
                           isNegative: bool, ios: seq<InformationObject>)
    requires p.Valid() && AllWellFormed(p, ios)
    ensures var (d, accepted) := AddAll(p, Initialize(p, isSequence, cot, oa, ca, isTest, isNegative), ios);
            && (accepted == ios <==> Whole(p, isSequence, ios))
            && (Whole(p, isSequence, ios) ==> Carries(p, isSequence, d, ios))
  {
    hide Initialize, Carries, AddAll, Whole;
    var start := Initialize(p, isSequence, cot, oa, ca, isTest, isNegative);
    InitializeBuilds(p, isSequence, cot, oa, ca, isTest, isNegative);
    BuildThenParse(p, isSequence, cot, oa, ca, isTest, isNegative, ios);
    var (d, accepted) := AddAll(p, start, ios);
    if Whole(p, isSequence, ios) {
      WholeListAccepted(p, isSequence, start[2..], start, ios);
    } else if accepted == ios {
      AddAllBuilds(p, isSequence, start[2..], start, ios);
      BuiltIsWhole(p, isSequence, start[2..], d, ios);
    }
  }

  lemma BuiltIsWhole(p: AppLayerParameters, isSequence: bool, header: seq<byte>, d: seq<byte>, ios: seq<InformationObject>)
    requires p.Valid() && Built(p, isSequence, header, d, ios)
    ensures Whole(p, isSequence, ios)
  {
    hide Pieces, Payload, Octets;
    BuiltSize(p, isSequence, header, d, ios);
  }

  lemma InitializeBuilds(p: AppLayerParameters, isSequence: bool, cot: nat, oa: byte, ca: nat, isTest: bool, isNegative: bool)
    requires p.Valid()
    ensures var start := Initialize(p, isSequence, cot, oa, ca, isTest, isNegative);
            Built(p, isSequence, start[2..], start, [])
  {
    var start := Initialize(p, isSequence, cot, oa, ca, isTest, isNegative);
    assert Payload(p, isSequence, []) == [] by { assert Pieces(p, isSequence, []) == []; }
    assert start == [start[0], start[1]] + start[2..] + [];
  }

  lemma HeaderKept(p: AppLayerParameters, isSequence: bool, header: seq<byte>, d: seq<byte>, ios: seq<InformationObject>)
    requires p.Valid() && Built(p, isSequence, header, d, ios)
    ensures d[2..p.HeaderLength()] == header
    ensures NumberOfElements(d) == |ios| && IsSequence(d) == isSequence
    ensures ios == [] ==> Accepts(p, d)
  {
    hide Pieces;
    OctetsParts(d[0], (if isSequence then 128 else 0) + |ios|, header, Payload(p, isSequence, ios));
  }

  // ---------------------------------------------------------------- the object that is built in place

  // ---------------------------------------------------------------- the header read back

  /** The getters return what an ASDU was initialised with: the cause modulo 64 and the common address modulo its size,
      so exactly what fits. */
  lemma HeaderReadsBack(p: AppLayerParameters, isSequence: bool, cot: nat, oa: byte, ca: nat, isTest: bool, isNegative: bool)
    requires p.Valid()
    ensures var d := Initialize(p, isSequence, cot, oa, ca, isTest, isNegative);
            && HeaderOf(p, d) == Header(isTest, isNegative, cot % 64, if p.sizeOfCOT > 1 then oa as int else -1,
                                        ca % CommonAddressLimit(p))
            && IsSequence(d) == isSequence && NumberOfElements(d) == 0
            && (CauseOf(d) == cot <==> cot < 64) && (CommonAddress(p, d) == ca <==> ca < CommonAddressLimit(p))
  {
    var d := Initialize(p, isSequence, cot, oa, ca, isTest, isNegative);
    assert d[2] as int == cot % 64 + (if isTest then 0x80 else 0) + (if isNegative then 0x40 else 0);
    assert p.sizeOfCOT > 1 ==> d[3] == oa;
    assert d[2 + p.sizeOfCOT] == ca % 0x100 && (p.sizeOfCA > 1 ==> d[3 + p.sizeOfCOT] == ca / 0x100 % 0x100);
    assert d[1] == if isSequence then 0x80 else 0;
    hide Word, Initialize;
    CauseReadsBack(d, cot, isTest, isNegative);
    AddressReadsBack(p, d, ca);
    hide IsTest, IsNegative, CauseOf, CommonAddress, CommonAddressLimit;
  }

  lemma CauseReadsBack(d: seq<byte>, cot: nat, isTest: bool, isNegative: bool)
    requires |d| > 2 && d[2] as int == cot % 64 + (if isTest then 0x80 else 0) + (if isNegative then 0x40 else 0)
    ensures IsTest(d) == isTest && IsNegative(d) == isNegative && CauseOf(d) == cot % 64
    ensures CauseOf(d) == cot <==> cot < 64
  {
    CauseBits(cot % 64, isTest, isNegative);
  }

  lemma CauseBits(cause: nat, isTest: bool, isNegative: bool)
    requires cause < 64
    ensures var b: int := cause + (if isTest then 0x80 else 0) + (if isNegative then 0x40 else 0);
            b % 0x40 == cause && (b / 0x40 % 2 == 1 <==> isNegative) && (b >= 0x80 <==> isTest)
  {
  }

  lemma AddressReadsBack(p: AppLayerParameters, d: seq<byte>, ca: nat)
    requires p.Valid() && |d| >= p.HeaderLength() && d[2 + p.sizeOfCOT] == ca % 0x100
    requires p.sizeOfCA > 1 ==> d[3 + p.sizeOfCOT] == ca / 0x100 % 0x100
    ensures CommonAddress(p, d) == ca % CommonAddressLimit(p)
    ensures CommonAddress(p, d) == ca <==> ca < CommonAddressLimit(p)
  {
    LowAndHigh(ca);
    hide Word;
  }

  lemma SplitAddress(ca: nat)
    requires ca < 0x1_0000
    ensures ca / 0x100 < 0x100 && Word(ca % 0x100, ca / 0x100) == ca
  {
  }

  lemma SameCause(c: seq<byte>, d: seq<byte>)
    requires |c| > 2 && |d| > 2 && c[2] == d[2]
    ensures IsTest(c) == IsTest(d) && IsNegative(c) == IsNegative(d) && CauseOf(c) == CauseOf(d)
  {
  }

  lemma LowAndHigh(ca: nat)
    ensures Word(ca % 0x100, ca / 0x100 % 0x100) == ca % 0x1_0000
  {
    var high, low := ca / 0x1_0000, ca % 0x1_0000;
    assert ca == 0x100 * (0x100 * high + low / 0x100) + low % 0x100;
    Digit(0x100 * high + low / 0x100, low % 0x100);
    Digit(high, low / 0x100);
  }

  lemma Digit(q: nat, r: nat)
    requires r < 0x100
    ensures (0x100 * q + r) / 0x100 == q && (0x100 * q + r) % 0x100 == r
  {
  }

  /** And they still do when any list of objects has been added. */
  lemma BuiltHeaderReadsBack(p: AppLayerParameters, isSequence: bool, cot: nat, oa: byte, ca: nat, isTest: bool,
                             isNegative: bool, ios: seq<InformationObject>)
    requires p.Valid() && AllWellFormed(p, ios)
    ensures var (d, accepted) := AddAll(p, Initialize(p, isSequence, cot, oa, ca, isTest, isNegative), ios);
            && HeaderOf(p, d) == Header(isTest, isNegative, cot % 64, if p.sizeOfCOT > 1 then oa as int else -1,
                                        ca % CommonAddressLimit(p))
            && IsSequence(d) == isSequence && NumberOfElements(d) == |accepted|
            && (accepted != [] ==> d[0] == accepted[0].TypeId())
  {
    hide Initialize, AddAll, AllWellFormed, Carries, Accepts;
    var start := Initialize(p, isSequence, cot, oa, ca, isTest, isNegative);
    HeaderReadsBack(p, isSequence, cot, oa, ca, isTest, isNegative);
    BuildThenParse(p, isSequence, cot, oa, ca, isTest, isNegative, ios);
    InitializeBuilds(p, isSequence, cot, oa, ca, isTest, isNegative);
    AddAllBuilds(p, isSequence, start[2..], start, ios);
    var (d, accepted) := AddAll(p, start, ios);
    BuiltQualifier(p, isSequence, start[2..], d, accepted);
    SameHeader(p, start, d);
  }

  lemma BuiltQualifier(p: AppLayerParameters, isSequence: bool, header: seq<byte>, d: seq<byte>, ios: seq<InformationObject>)
    requires p.Valid() && Built(p, isSequence, header, d, ios)
    ensures IsSequence(d) == isSequence && NumberOfElements(d) == |ios| && (ios != [] ==> d[0] == ios[0].TypeId())
  {
    hide Payload, Pieces;
  }

  lemma SameHeader(p: AppLayerParameters, c: seq<byte>, d: seq<byte>)
    requires p.Valid() && |c| >= p.HeaderLength() && |d| >= p.HeaderLength()
    requires c[2..p.HeaderLength()] == d[2..p.HeaderLength()]
    ensures HeaderOf(p, c) == HeaderOf(p, d)
  {
    assert forall i | 2 <= i < p.HeaderLength() :: c[i] == c[2..p.HeaderLength()][i - 2] == d[i];
    hide Word;
  }

  class StaticAsdu {
    const parameters: AppLayerParameters
    const encodedData: array<byte>
    var payloadSize: nat

    ghost predicate Valid() reads this {
      parameters.Valid() && encodedData.Length == 256 && parameters.HeaderLength() + payloadSize <= 256
    }

    /** Header and payload as CS101_ASDU_encode hands them to a frame. */
    ghost function Data(): (d: seq<byte>)
      reads this, encodedData
      requires Valid()
      ensures |d| == parameters.HeaderLength() + payloadSize
    {
      encodedData[..parameters.HeaderLength() + payloadSize]
    }

    constructor (p: AppLayerParameters, isSequence: bool, cot: nat, oa: byte, ca: nat, isTest: bool, isNegative: bool)
      requires p.Valid()
      ensures Valid() && parameters == p && fresh(encodedData)
      ensures Data() == Initialize(p, isSequence, cot, oa, ca, isTest, isNegative)
    {
      var data := new byte[256];
      data[0] := 0;
      if isSequence { data[1] := 0x80; } else { data[1] := 0; }
      data[2] := cot % 64;
      if isTest { data[2] := data[2] + 0x80; }
      if isNegative { data[2] := data[2] + 0x40; }
      var caIndex: nat;
      if p.sizeOfCOT > 1 {
        data[3] := oa;
        caIndex := 4;
      } else {
        caIndex := 3;
      }
      data[caIndex] := ca % 0x100;
      if p.sizeOfCA > 1 {
        data[caIndex + 1] := ca / 0x100 % 0x100;
      }
      parameters, encodedData, payloadSize := p, data, 0;
    }

    /** Type, qualifier and payload are as before. */
    twostate predicate OnlyHeaderChanges()
      reads this, encodedData
      requires old(Valid()) && Valid()
    {
      && payloadSize == old(payloadSize)
      && Data()[..2] == old(Data())[..2] && Data()[parameters.HeaderLength()..] == old(Data())[parameters.HeaderLength()..]
    }

    method SetTest(value: bool)
      requires Valid()
      modifies encodedData
      ensures Valid() && OnlyHeaderChanges()
      ensures HeaderOf(parameters, Data()) == HeaderOf(parameters, old(Data())).(isTest := value)
    {
      if value && encodedData[2] < 0x80 {
        encodedData[2] := encodedData[2] + 0x80;
      } else if !value && encodedData[2] >= 0x80 {
        encodedData[2] := encodedData[2] - 0x80;
      }
    }

    method SetNegative(value: bool)
      requires Valid()
      modifies encodedData
      ensures Valid() && OnlyHeaderChanges()
      ensures HeaderOf(parameters, Data()) == HeaderOf(parameters, old(Data())).(isNegative := value)
    {
      var octet: int := encodedData[2];
      if value && octet / 0x40 % 2 == 0 {
        encodedData[2] := octet + 0x40;
      } else if !value && octet / 0x40 % 2 == 1 {
        encodedData[2] := octet - 0x40;
      }
    }

    method SetCot(value: nat)
      requires Valid()
      modifies encodedData
      ensures Valid() && OnlyHeaderChanges()
      ensures HeaderOf(parameters, Data()) == HeaderOf(parameters, old(Data())).(cause := value % 64)
    {
      var cot := encodedData[2] - encodedData[2] % 0x40;
      encodedData[2] := cot + value % 0x40;
    }

    /** An address out of range is replaced by the nearest one in range. */
    method SetCa(ca: int)
      requires Valid()
      modifies encodedData
      ensures Valid() && OnlyHeaderChanges()
      ensures var limit := CommonAddressLimit(parameters);
              HeaderOf(parameters, Data())
              == HeaderOf(parameters, old(Data())).(ca := if ca < 0 then 0 else if ca >= limit then limit - 1 else ca)
    {
      var caIndex := 2 + parameters.sizeOfCOT;
      var setCa := ca;
      if ca < 0 {
        setCa := 0;
      } else {
        if parameters.sizeOfCA == 1 {
          if ca > 255 { setCa := 255; }
        } else if parameters.sizeOfCA > 1 {
          if ca > 65535 { setCa := 65535; }
        }
      }
      hide IsTest, IsNegative, CauseOf, Word;
      if parameters.sizeOfCA == 1 {
        encodedData[caIndex] := setCa;
      } else {
        SplitAddress(setCa);
        encodedData[caIndex] := setCa % 0x100;
        encodedData[caIndex + 1] := setCa / 0x100;
      }
      SameCause(old(Data()), Data());
    }

    method SetNextByte(b: byte)
      requires Valid() && parameters.HeaderLength() + payloadSize < 256
      modifies this`payloadSize, encodedData
      ensures Valid() && Data() == old(Data()) + [b] && payloadSize == old(payloadSize) + 1
    {
      encodedData[parameters.HeaderLength() + payloadSize] := b;
      payloadSize := payloadSize + 1;
    }

    method EncodeBase(ioa: nat)
      requires Valid() && parameters.HeaderLength() + payloadSize + parameters.sizeOfIOA <= 256
      modifies this`payloadSize, encodedData
      ensures Valid() && Data() == old(Data()) + Address(parameters, ioa)
    {
      SetNextByte(ioa % 0x100);
      if parameters.sizeOfIOA > 1 { SetNextByte(ioa / 0x100 % 0x100); }
      if parameters.sizeOfIOA > 2 { SetNextByte(ioa / 0x10000 % 0x100); }
    }

    method EncodeSinglePoint(on: bool, quality: byte)
      requires Valid() && parameters.HeaderLength() + payloadSize + 1 <= 256
      modifies this`payloadSize, encodedData
      ensures Valid() && Data() == old(Data()) + [quality - quality % 16 + if on then 1 else 0]
    {
      var val := quality - quality % 16;
      if on { val := val + 1; }
      SetNextByte(val);
    }

    method EncodeStepPosition(position: int, isTransient: bool, quality: byte)
      requires Valid() && -64 <= position <= 63 && parameters.HeaderLength() + payloadSize + 2 <= 256
      modifies this`payloadSize, encodedData
      ensures Valid()
      ensures Data() == old(Data()) + [(if position < 0 then position + 128 else position) + if isTransient then 128 else 0, quality]
    {
      var vti := if position < 0 then position + 128 else position;
      if isTransient { vti := vti + 0x80; }
      SetNextByte(vti);
      SetNextByte(quality);
    }

    method EncodeBitString32(bits: nat, quality: byte)
      requires Valid() && bits < 0x1_0000_0000 && parameters.HeaderLength() + payloadSize + 5 <= 256
      modifies this`payloadSize, encodedData
      ensures Valid()
      ensures Data() == old(Data()) + [bits % 0x100, bits / 0x100 % 0x100, bits / 0x10000 % 0x100, bits / 0x100_0000, quality]
    {
      hide Data;
      SetNextByte(bits % 0x100);
      SetNextByte(bits / 0x100 % 0x100);
      SetNextByte(bits / 0x10000 % 0x100);
      SetNextByte(bits / 0x100_0000);
      SetNextByte(quality);
    }

    method EncodeMeasuredValueScaled(scaled: int, quality: byte)
      requires Valid() && -32768 <= scaled <= 32767 && parameters.HeaderLength() + payloadSize + 3 <= 256
      modifies this`payloadSize, encodedData
      ensures Valid()
      ensures var u := if scaled < 0 then scaled + 65536 else scaled; Data() == old(Data()) + [u % 256, u / 256, quality]
    {
      hide Data;
      var valueToEncode := if scaled < 0 then scaled + 65536 else scaled;
      SetNextByte(valueToEncode % 256);
      SetNextByte(valueToEncode / 256);
      SetNextByte(quality);
    }

    method EncodeElement(io: InformationObject)
      requires Valid() && io.InRange() && parameters.HeaderLength() + payloadSize + |io.Element()| <= 256
      modifies this`payloadSize, encodedData
      ensures Valid() && Data() == old(Data()) + io.Element()
    {
      hide Data;
      match io
      case SinglePoint(_, on, quality) => EncodeSinglePoint(on, quality);
      case StepPosition(_, position, isTransient, quality) => EncodeStepPosition(position, isTransient, quality);
      case BitString32(_, bits, quality) => EncodeBitString32(bits, quality);
      case MeasuredValueScaled(_, scaled, quality) => EncodeMeasuredValueScaled(scaled, quality);
    }

    /** A store into the header. */
    method SetOctet(i: nat, b: byte)
      requires Valid() && i < parameters.HeaderLength()
      modifies encodedData
      ensures Valid() && Data() == old(Data())[i := b]
    {
      encodedData[i] := b;
    }

    method EncodeObject(io: InformationObject, inSequence: bool) returns (ok: bool)
      requires Valid() && io.WellFormed(parameters)
      modifies this`payloadSize, encodedData
      ensures Valid() && Added(ok, Data()) == Encode(parameters, old(Data()), io, inSequence)
    {
      hide InformationObject.Element, Address, GetElementDataSize;
      var size := |io.Element()| + if inSequence then 0 else parameters.sizeOfIOA;
      if parameters.maxSizeOfASDU - payloadSize - parameters.HeaderLength() < size {
        return false;
      }
      ghost var before := Data();
      if !inSequence {
        EncodeBase(io.ioa);
      }
      EncodeElement(io);
      assert Data() == before + if inSequence then io.Element() else Address(parameters, io.ioa) + io.Element();
      return true;
    }

    method AddInformationObject(io: InformationObject) returns (encoded: bool)
      requires Valid() && io.WellFormed(parameters)
      modifies this`payloadSize, encodedData
      ensures Valid() && Added(encoded, Data()) == Add(parameters, old(Data()), io)
    {
      hide InformationObject.Element, Address, GetElementDataSize, ParseAddress, IsSingleInformationObjectType, Encode, InformationObject.WellFormed;
      var header := parameters.HeaderLength();
      var numberOfElements: nat := encodedData[1] % 128;
      if numberOfElements > 0 {
        if IsSingleInformationObjectType(encodedData[0]) {
          return false;
        }
      }
      encoded := false;
      if numberOfElements == 0 {
        SetOctet(0, io.TypeId());
        encoded := EncodeObject(io, false);
      } else if numberOfElements < 0x7f {
        if encodedData[0] == io.TypeId() {
          if encodedData[1] >= 128 {
            if io.ioa == ParseAddress(parameters, encodedData[header..header + payloadSize], 0) + numberOfElements {
              encoded := EncodeObject(io, true);
            }
          } else {
            encoded := EncodeObject(io, false);
          }
        }
      }
      if encoded {
        var vsq: int := encodedData[1];
        SetOctet(1, (vsq + 1) % 256);
      }
    }
  }
}
