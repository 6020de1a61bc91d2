// The ASDU builder and parser (lib60870-C/src/iec60870/cs101/cs101_asdu.c) with four monitoring types of
// cs101_information_objects.c: the variable structure qualifier, the size table and both addressing modes.
module Asdu {
  import opened Bytes

  /** The sizes an application layer is configured with. */
  datatype AppLayerParameters = AppLayerParameters(sizeOfCOT: nat, sizeOfCA: nat, sizeOfIOA: nat, maxSizeOfASDU: nat)
  {
    predicate Valid() {
      1 <= sizeOfCOT <= 2 && 1 <= sizeOfCA <= 2 && 1 <= sizeOfIOA <= 3 && maxSizeOfASDU <= 256
    }

    function HeaderLength(): nat { 2 + sizeOfCOT + sizeOfCA }

    /** One more than the largest address that fits. */
    function AddressLimit(): nat {
      if sizeOfIOA == 1 then 0x100 else if sizeOfIOA == 2 then 0x1_0000 else 0x100_0000
    }
  }

  // ---------------------------------------------------------------- type tables

  /** Data octets of one element without its address; -1 for variable or unknown types. */
  function GetElementDataSize(t: byte): int {
    if t in {102} then 0
    else if t in {1, 3, 45, 46, 47, 70, 100, 101, 105, 113} then 1
    else if t in {5, 21, 104, 106} then 2
    else if t in {9, 11, 48, 49, 110, 111} then 3
    else if t in {2, 4, 51, 122, 124} then 4
    else if t in {6, 7, 13, 15, 20, 50, 112, 123} then 5
    else if t in {10, 12, 17, 120} then 6
    else if t in {18, 19, 103, 121} then 7
    else if t in {8, 14, 16, 30, 31, 58, 59, 60} then 8
    else if t in {32, 107} then 9
    else if t in {34, 35, 38, 61, 62} then 10
    else if t in {39, 40, 64} then 11
    else if t in {33, 36, 37, 63} then 12
    else if t in {126} then 13
    else if t in {41} then 14
    else if t in {127} then 16
    else -1
  }

  /** Types that may carry only one information object. */
  predicate IsSingleInformationObjectType(t: byte) {
    45 <= t <= 51 || 58 <= t <= 64 || t == 70 || 100 <= t <= 107 || 120 <= t <= 125
  }

  /** Where getElementEx looks for element `index`, and what the object's reader demands from there. */
  datatype Layout =
    | Repeated(size: nat)  // address once in sequence form, before every element otherwise
    | Indexed(size: nat)   // always address plus element, whatever the SQ bit says
    | First(size: nat)     // always the first object
    | Segment              // variable length, the first object
    | Unsupported

  function LayoutOf(t: byte): Layout {
    if t in {1, 3} then Repeated(1)
    else if t in {5, 21} then Repeated(2)
    else if t in {9, 11} then Repeated(3)
    else if t in {2, 4} then Repeated(4)
    else if t in {6, 7, 13, 15, 20} then Repeated(5)
    else if t in {10, 12, 17} then Repeated(6)
    else if t in {18, 19} then Repeated(7)
    else if t in {8, 14, 16, 30, 31} then Repeated(8)
    else if t in {32} then Repeated(9)
    else if t in {34, 35, 38} then Repeated(10)
    else if t in {39, 40} then Repeated(11)
    else if t in {33, 36, 37} then Repeated(12)
    else if t in {126} then Repeated(13)
    else if t in {41} then Repeated(14)
    else if t in {45, 46, 47, 113} then Indexed(1)
    else if t in {48, 49, 110, 111} then Indexed(3)
    else if t in {51} then Indexed(4)
    else if t in {50, 112} then Indexed(5)
    else if t in {58, 59, 60} then Indexed(8)
    else if t in {61, 62} then Indexed(10)
    else if t in {64} then Indexed(11)
    else if t in {63} then Indexed(12)
    else if t in {102} then First(0)
    else if t in {70, 100, 101, 105} then First(1)
    else if t in {104, 106} then First(2)
    else if t in {122, 124} then First(4)
    else if t in {123} then First(5)
    else if t in {120} then First(6)
    else if t in {103, 121} then First(7)
    else if t in {107} then First(9)
    else if t in {127} then First(16)
    else if t == 125 then Segment
    else Unsupported
  }

  // ---------------------------------------------------------------- received octets

  predicate IsSequence(d: seq<byte>) requires |d| > 1 { d[1] >= 128 }

  function NumberOfElements(d: seq<byte>): nat requires |d| > 1 { d[1] % 128 }

  /** The cause field: a test bit, a negative bit and six bits of cause. */
  predicate IsTest(d: seq<byte>) requires |d| > 2 { d[2] >= 0x80 }

  predicate IsNegative(d: seq<byte>) requires |d| > 2 { d[2] / 0x40 % 2 == 1 }

  function CauseOf(d: seq<byte>): nat requires |d| > 2 { d[2] % 0x40 }

  /** -1 if the cause field has no octet for it. */
  function OriginatorAddress(p: AppLayerParameters, d: seq<byte>): int
    requires p.Valid() && |d| >= p.HeaderLength()
  {
    if p.sizeOfCOT < 2 then -1 else d[3]
  }

  function CommonAddress(p: AppLayerParameters, d: seq<byte>): nat
    requires p.Valid() && |d| >= p.HeaderLength()
  {
    if p.sizeOfCA == 1 then d[2 + p.sizeOfCOT] else Word(d[2 + p.sizeOfCOT], d[3 + p.sizeOfCOT])
  }

  function CommonAddressLimit(p: AppLayerParameters): nat { if p.sizeOfCA == 1 then 0x100 else 0x1_0000 }

  datatype Header = Header(isTest: bool, isNegative: bool, cause: nat, oa: int, ca: nat)

  /** What the getters read from the octets. */
  function HeaderOf(p: AppLayerParameters, d: seq<byte>): Header
    requires p.Valid() && |d| >= p.HeaderLength()
  {
    Header(IsTest(d), IsNegative(d), CauseOf(d), OriginatorAddress(p, d), CommonAddress(p, d))
  }

  /** createFromBufferEx: the header is there and the qualifier fits the payload. */
  predicate Accepts(p: AppLayerParameters, msg: seq<byte>) {
    && |msg| >= p.HeaderLength()
    && var payloadSize := |msg| - p.HeaderLength();
       var n, dataSize := NumberOfElements(msg), GetElementDataSize(msg[0]);
       (dataSize >= 0 && n > 0 ==>
          payloadSize >= if IsSequence(msg) then p.sizeOfIOA + n * dataSize else n * (p.sizeOfIOA + dataSize))
  }

  /** getElementEx up to the reader's size check: element `index` exists and all its octets are in the payload. */
  predicate FindsElement(p: AppLayerParameters, d: seq<byte>, index: int)
    requires |d| >= p.HeaderLength()
  {
    var payloadSize := |d| - p.HeaderLength();
    && 0 <= index < NumberOfElements(d)
    && !(IsSingleInformationObjectType(d[0]) && index > 0)
    && match LayoutOf(d[0])
       case Repeated(size) =>
         (if IsSequence(d) then p.sizeOfIOA + index * size + size
          else index * (p.sizeOfIOA + size) + size + p.sizeOfIOA) <= payloadSize
       case Indexed(size) => index * (p.sizeOfIOA + size) + p.sizeOfIOA + size <= payloadSize
       case First(size) => p.sizeOfIOA + size <= payloadSize
       case Segment =>
         && p.sizeOfIOA + 4 <= payloadSize
         && p.sizeOfIOA + 4 + d[p.HeaderLength() + p.sizeOfIOA + 3] <= payloadSize
       case Unsupported => false
  }

  lemma TablesAgree(t: byte)
    requires GetElementDataSize(t) >= 0
    ensures match LayoutOf(t)
            case Repeated(size) => size == GetElementDataSize(t) && !IsSingleInformationObjectType(t)
            case Indexed(size) => size == GetElementDataSize(t) && (IsSingleInformationObjectType(t) || 110 <= t <= 113)
            case First(size) => size == GetElementDataSize(t) && (IsSingleInformationObjectType(t) || t == 127)
            case _ => false
  {
  }

  /** The types with a time tag are the ones without it, longer by the three octets of CP24Time2a or the seven of
      CP56Time2a (section 7.3 of IEC 60870-5-101). */
  lemma TimeTagsAddUp(i: nat)
    requires i < 8
    ensures var plain: byte := 2 * i + 1;
            && LayoutOf(plain) == Repeated(GetElementDataSize(plain))
            && LayoutOf(plain + 1) == Repeated(GetElementDataSize(plain) + 3)
            && LayoutOf(30 + i) == Repeated(GetElementDataSize(plain) + 7)
    ensures i < 3 ==> GetElementDataSize(38 + i) == GetElementDataSize(17 + i) + 4
    ensures i < 7 ==> LayoutOf(58 + i) == Indexed(GetElementDataSize(45 + i) + 7)
                      && LayoutOf(45 + i) == Indexed(GetElementDataSize(45 + i))
  {
    assert i == 0 || i == 1 || i == 2 || i == 3 || i == 4 || i == 5 || i == 6 || i == 7;
  }

  /** An index below the element count may be read: 0 only for single-object types. */
  predicate Readable(d: seq<byte>, index: nat) requires |d| > 1 {
    index < NumberOfElements(d) && (IsSingleInformationObjectType(d[0]) ==> index == 0)
  }

  lemma MulLe(a: nat, b: nat, c: nat)
    requires a <= b
    ensures a * c <= b * c
  {
    if a < b { MulLe(a, b - 1, c); }
  }

  /** Validation is sufficient: every readable element of an accepted ASDU is complete, except that parameter
      types 110 to 113 in sequence form are only guaranteed to have their first one. */
  lemma AcceptedElementsAreComplete(p: AppLayerParameters, d: seq<byte>, index: nat)
    requires p.Valid() && Accepts(p, d) && GetElementDataSize(d[0]) >= 0 && Readable(d, index)
    requires !(IsSequence(d) && 110 <= d[0] <= 113) || index == 0
    ensures FindsElement(p, d, index)
  {
    TablesAgree(d[0]);
    var size: nat := GetElementDataSize(d[0]);
    MulLe(index + 1, NumberOfElements(d), size);
    MulLe(index + 1, NumberOfElements(d), p.sizeOfIOA + size);
    assert (index + 1) * size == index * size + size;
    assert (index + 1) * (p.sizeOfIOA + size) == index * (p.sizeOfIOA + size) + p.sizeOfIOA + size;
    assert NumberOfElements(d) >= 1;
    MulLe(1, NumberOfElements(d), size);
    MulLe(1, NumberOfElements(d), p.sizeOfIOA + size);
  }

  /** And necessary: an element that is found exists, is the only one if its type allows no other, and all its octets, those
      of a segment's own length included, are in the payload. */
  lemma FoundElementsAreThere(p: AppLayerParameters, d: seq<byte>, index: int)
    requires p.Valid() && |d| >= p.HeaderLength() && FindsElement(p, d, index)
    ensures var payloadSize := |d| - p.HeaderLength();
            && index >= 0 && Readable(d, index)
            && match LayoutOf(d[0])
               case Repeated(size) =>
                 payloadSize >= if IsSequence(d) then p.sizeOfIOA + (index + 1) * size else (index + 1) * (p.sizeOfIOA + size)
               case Indexed(size) => payloadSize >= (index + 1) * (p.sizeOfIOA + size)
               case First(size) => payloadSize >= p.sizeOfIOA + size
               case Segment =>
                 var at := p.HeaderLength() + p.sizeOfIOA + 4;
                 at <= |d| && at + d[at - 1] as int <= |d|
               case Unsupported => false
  {
    match LayoutOf(d[0])
    case Repeated(size) =>
      assert (index + 1) * size == index * size + size;
      assert (index + 1) * (p.sizeOfIOA + size) == index * (p.sizeOfIOA + size) + p.sizeOfIOA + size;
    case Indexed(size) =>
      assert (index + 1) * (p.sizeOfIOA + size) == index * (p.sizeOfIOA + size) + p.sizeOfIOA + size;
    case _ =>
  }

  /** For those four types the reader strides over an address that sequence form does not repeat: element `index` of an
      accepted ASDU is complete if and only if as many address-and-element strides fit the payload, and all elements
      are if and only if the payload holds one for each. */
  lemma ParameterTypesInSequenceForm(p: AppLayerParameters, d: seq<byte>)
    requires p.Valid() && Accepts(p, d) && 110 <= d[0] <= 113 && IsSequence(d)
    ensures var n, payloadSize := NumberOfElements(d), |d| - p.HeaderLength();
            var stride := p.sizeOfIOA + GetElementDataSize(d[0]);
            && (forall i | 0 <= i < n :: FindsElement(p, d, i) <==> (i + 1) * stride <= payloadSize)
            && ((forall i | 0 <= i < n :: FindsElement(p, d, i)) <==> n * stride <= payloadSize)
  {
    TablesAgree(d[0]);
    var size, n := GetElementDataSize(d[0]), NumberOfElements(d);
    var stride, payloadSize := p.sizeOfIOA + size, |d| - p.HeaderLength();
    forall i | 0 <= i < n ensures FindsElement(p, d, i) <==> (i + 1) * stride <= payloadSize {
      Indexed110(p, d, i, size);
    }
    if n > 0 {
      assert FindsElement(p, d, n - 1) <==> (n - 1 + 1) * stride <= payloadSize;
    }
    if n * stride <= payloadSize {
      forall i | 0 <= i < n ensures FindsElement(p, d, i) {
        MulLe(i + 1, n, stride);
      }
    }
  }

  lemma Indexed110(p: AppLayerParameters, d: seq<byte>, i: nat, size: nat)
    requires |d| >= p.HeaderLength() && i < NumberOfElements(d) && LayoutOf(d[0]) == Indexed(size)
    requires 110 <= d[0] <= 113
    ensures FindsElement(p, d, i) <==> (i + 1) * (p.sizeOfIOA + size) <= |d| - p.HeaderLength()
  {
    assert (i + 1) * (p.sizeOfIOA + size) == i * (p.sizeOfIOA + size) + p.sizeOfIOA + size;
  }

  lemma ParameterTypesCounterexample()
    ensures var p := AppLayerParameters(2, 2, 3, 249);
            var d: seq<byte> := [110, 0x82, 20, 0, 1, 0] + [1, 0, 0] + [1, 0, 0, 2, 0, 0];
            Accepts(p, d) && NumberOfElements(d) == 2 && !FindsElement(p, d, 1)
  {
  }
}
