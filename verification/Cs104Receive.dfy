// Incremental reassembly of APDUs from a TCP byte stream (receiveMessage in cs104_connection.c): whatever portions the
// socket hands out, the messages are those of one pass over the whole stream.
module Cs104Receive {
  import opened Bytes
  import opened Cs104Frame

  /** The complete messages of a stream, the octets of an unfinished one behind them, and whether every message began
      with the start octet. */
  datatype Parsed = Parsed(messages: seq<seq<byte>>, rest: seq<byte>, ok: bool)

  /** The stream begins with all octets of a message. */
  predicate Complete(stream: seq<byte>) { |stream| >= 2 && |stream| >= stream[1] as int + 2 }

  /** One pass over a whole stream. */
  function Split(stream: seq<byte>): (r: Parsed)
    ensures r.ok ==> !(r.rest != [] && Complete(r.rest))
  {
    if stream == [] then Parsed([], [], true)
    else if stream[0] != 0x68 then Parsed([], stream, false)
    else if !Complete(stream) then Parsed([], stream, true)
    else
      var size := stream[1] as int + 2;
      var tail := Split(stream[size..]);
      tail.(messages := [stream[..size]] + tail.messages)
  }

  lemma {:induction false} SplitHead(m: seq<byte>, tail: seq<byte>)
    requires |m| >= 2 && m[0] == 0x68 && |m| == m[1] as int + 2
    ensures Split(m + tail) == Split(tail).(messages := [m] + Split(tail).messages)
  {
    assert (m + tail)[..|m|] == m && (m + tail)[|m|..] == tail;
  }

  lemma {:induction false} SplitIncomplete(m: seq<byte>)
    requires m == [] || !Complete(m)
    requires m != [] ==> m[0] == 0x68
    ensures Split(m) == Parsed([], m, true)
  {
  }

  lemma {:induction false} SplitStart(m: seq<byte>)
    requires Split(m).ok
    ensures m != [] ==> m[0] == 0x68
  {
  }

  /** The size a complete first message claims. */
  function CompleteSize(stream: seq<byte>): (size: nat)
    requires Complete(stream)
    ensures 2 <= size <= |stream| && size == stream[1] as int + 2
  {
    stream[1] as int + 2
  }

  /** Parsing may stop anywhere and go on later with the octets left over. */
  lemma {:induction false} SplitAppend(a: seq<byte>, b: seq<byte>)
    requires Split(a).ok
    ensures var first := Split(a);
            var second := Split(first.rest + b);
            Split(a + b) == second.(messages := first.messages + second.messages)
  {
    hide Split, Complete;
    SplitStart(a);
    if a == [] || !Complete(a) {
      SplitIncomplete(a);
      assert [] + Split(a + b).messages == Split(a + b).messages;
    } else {
      var size := CompleteSize(a);
      var m, tail := a[..size], a[size..];
      assert a == m + tail && a + b == m + (tail + b);
      SplitHead(m, tail);
      SplitHead(m, tail + b);
      SplitAppend(tail, b);
      var first, second := Split(tail).messages, Split(Split(tail).rest + b).messages;
      assert [m] + (first + second) == [m] + first + second;
    }
  }

  /** What a station writes. */
  function Octets(frames: seq<Apdu>): seq<byte>
    requires forall i | 0 <= i < |frames| :: Sendable(frames[i])
  {
    if frames == [] then [] else Encode(frames[0]) + Octets(frames[1..])
  }

  function Messages(frames: seq<Apdu>): (r: seq<seq<byte>>)
    requires forall i | 0 <= i < |frames| :: Sendable(frames[i])
    ensures |r| == |frames| && forall i | 0 <= i < |frames| :: r[i] == Encode(frames[i])
  {
    seq(|frames|, i requires 0 <= i < |frames| => Encode(frames[i]))
  }

  /** The octets of any list of frames split into exactly these frames. */
  lemma {:induction false} FramesRoundTrip(frames: seq<Apdu>)
    requires forall i | 0 <= i < |frames| :: Sendable(frames[i])
    ensures Split(Octets(frames)) == Parsed(Messages(frames), [], true)
  {
    hide Split, Encode;
    if frames == [] {
      SplitIncomplete([]);
    } else {
      var head, rest := frames[0], frames[1..];
      FramesRoundTrip(rest);
      EncodeHeader(head);
      SplitHead(Encode(head), Octets(rest));
      assert Messages(frames) == [Encode(head)] + Messages(rest);
    }
  }

  lemma EncodeHeader(a: Apdu)
    requires Sendable(a)
    ensures Encode(a)[0] == 0x68 && |Encode(a)| == Encode(a)[1] as int + 2
  {
  }

  /** Whatever has arrived of a frame list's octets, it is free of errors and holds the first frames and a part of the
      next one. */
  lemma {:induction false} CutAnywhere(frames: seq<Apdu>, cut: nat) returns (complete: nat)
    requires forall i | 0 <= i < |frames| :: Sendable(frames[i])
    requires cut <= |Octets(frames)|
    ensures complete <= |frames|
    ensures var p := Split(Octets(frames)[..cut]);
            p.ok && p.messages == Messages(frames[..complete])
            && |p.rest| + |Octets(frames[..complete])| == cut
  {
    hide Split, Encode, Octets, Complete;
    if frames == [] {
      OctetsParts(frames);
      complete := 0;
      SplitIncomplete([]);
      return;
    }
    var head, rest := frames[0], frames[1..];
    var size := |Encode(head)|;
    OctetsParts(frames);
    EncodeHeader(head);
    OctetsParts([]);
    if cut < size {
      complete := 0;
      assert Octets(frames)[..cut] == Encode(head)[..cut];
      CutFrame(head, cut);
    } else {
      var inner := CutAnywhere(rest, cut - size);
      SplitHead(Encode(head), Octets(rest)[..cut - size]);
      assert Octets(frames)[..cut] == Encode(head) + Octets(rest)[..cut - size];
      complete := inner + 1;
      assert frames[..complete][0] == head && frames[..complete][1..] == rest[..inner];
      OctetsParts(frames[..complete]);
    }
  }

  lemma {:induction false} OctetsParts(frames: seq<Apdu>)
    requires forall i | 0 <= i < |frames| :: Sendable(frames[i])
    ensures frames == [] ==> Octets(frames) == [] && Messages(frames) == []
    ensures frames != [] ==> Octets(frames) == Encode(frames[0]) + Octets(frames[1..])
    ensures frames != [] ==> Messages(frames) == [Encode(frames[0])] + Messages(frames[1..])
  {
    hide Encode;
    if frames != [] {
      assert Octets(frames) == Encode(frames[0]) + Octets(frames[1..]);
    }
  }

  lemma CutFrame(a: Apdu, cut: nat)
    requires Sendable(a) && cut < |Encode(a)|
    ensures Split(Encode(a)[..cut]) == Parsed([], Encode(a)[..cut], true)
  {
    EncodeHeader(a);
    hide Encode;
    SplitIncomplete(Encode(a)[..cut]);
  }

  /** However the stream of a frame list was cut and whatever older octets are left in the buffer, the decoded frames
      are the encoded ones. */
  lemma FramesDecode(frames: seq<Apdu>, i: nat, leftover: seq<byte>)
    requires forall i | 0 <= i < |frames| :: Sendable(frames[i])
    requires i < |frames|
    ensures var p := Split(Octets(frames));
            i < |p.messages| && 6 <= |p.messages[i]|
            && Decode(p.messages[i] + leftover, |p.messages[i]|) == frames[i]
  {
    hide Split, Octets, Decode, Encode;
    FramesRoundTrip(frames);
    DecodeEncode(frames[i], leftover);
  }

  /** A non-blocking stream socket: each read takes any number of the octets that have arrived, or fails. */
  class Socket {
    var unread: seq<byte>
    var failed: bool

    constructor (stream: seq<byte>)
      ensures unread == stream && !failed
    {
      unread, failed := stream, false;
    }

    method Read(size: nat) returns (count: int, data: seq<byte>)
      modifies this
      ensures count == -1 || 0 <= count <= size
      ensures count == -1 ==> failed && data == [] && unread == old(unread)
      ensures count >= 0 ==> failed == old(failed) && |data| == count && old(unread) == data + unread
    {
      if * {
        failed := true;
        return -1, [];
      }
      count := 0;
      while count < size && count < |unread|
        invariant 0 <= count <= size && count <= |unread|
      {
        if * { break; }
        count := count + 1;
      }
      data := unread[..count];
      unread := unread[count..];
    }
  }

  class Receiver {
    const recvBuffer: array<byte>
    var recvBufPos: nat
    ghost var consumed: seq<byte>       // everything taken from the socket so far
    ghost var emitted: seq<seq<byte>>   // the messages reported so far

    ghost predicate Holding(bufPos: int) reads this, recvBuffer {
      && recvBuffer.Length == 260 && 0 <= bufPos <= 260
      && Split(consumed) == Parsed(emitted, recvBuffer[..bufPos], true)
      && (bufPos > 0 ==> recvBuffer[0] == 0x68)
    }

    ghost predicate Valid() reads this, recvBuffer {
      Holding(recvBufPos)
    }

    constructor ()
      ensures Valid() && consumed == [] && emitted == [] && fresh(recvBuffer)
    {
      recvBuffer := new byte[260](_ => 0);
      recvBufPos := 0;
      consumed, emitted := [], [];
    }

    /** readFromSocket into the buffer from a position on. */
    method ReadInto(socket: Socket, bufPos: nat, size: nat) returns (count: int, ghost data: seq<byte>)
      requires bufPos + size <= recvBuffer.Length
      modifies this`consumed, recvBuffer, socket
      ensures -1 <= count <= size && |data| == (if count == -1 then 0 else count)
      ensures if count == -1 then socket.failed else socket.failed == old(socket.failed)
      ensures consumed == old(consumed) + data && old(socket.unread) == data + socket.unread
      ensures recvBuffer[..bufPos + |data|] == old(recvBuffer[..bufPos]) + data
    {
      var octets;
      count, octets := socket.Read(size);
      for i := 0 to |octets|
        modifies recvBuffer
        invariant recvBuffer[..bufPos] == old(recvBuffer[..bufPos]) && recvBuffer[bufPos..bufPos + i] == octets[..i]
      {
        recvBuffer[bufPos + i] := octets[i];
      }
      assert recvBuffer[..bufPos + |octets|] == recvBuffer[..bufPos] + recvBuffer[bufPos..bufPos + |octets|];
      data := octets;
      consumed := consumed + data;
    }

    /** One call reads at most one message: -1 on error, 0 while it is incomplete, otherwise its size. Whatever portions
        the socket delivers, the messages reported so far are those of the consumed stream. */
    method ReceiveMessage(socket: Socket) returns (r: int, ghost data: seq<byte>)
      requires Valid()
      modifies this, recvBuffer, socket
      ensures consumed == old(consumed) + data && old(socket.unread) == data + socket.unread
      ensures r >= -1
      ensures r == -1 ==> emitted == old(emitted) && (socket.failed || !Split(consumed).ok)
      ensures r >= 0 ==> Valid()
      ensures r == 0 ==> emitted == old(emitted)
      ensures r > 0 ==> r <= 257 && emitted == old(emitted) + [recvBuffer[..r]]
      ensures r > 0 ==> recvBufPos == 0
      ensures r >= 0 ==> Split(old(recvBuffer[..recvBufPos]) + data)
                         == Parsed(if r > 0 then [recvBuffer[..r]] else [], recvBuffer[..recvBufPos], true)
    {
      hide Split;
      var bufPos := recvBufPos;
      ghost var before, partial := emitted, recvBuffer[..recvBufPos];
      data := [];

      if bufPos == 0 {
        var readFirst;
        readFirst, data := ReadInto(socket, 0, 1);
        if readFirst < 1 {
          assert old(consumed) + [] == old(consumed) && recvBuffer[..0] == [];
          if readFirst == 0 { CallSplits(old(consumed), before, partial, data, emitted, recvBuffer[..recvBufPos]); }
          return readFirst, data;
        }
        assert recvBuffer[..1] == data;
        if recvBuffer[0] != 0x68 {
          BadStart(old(consumed), data);
          return -1, data;
        }
        Incomplete(old(consumed), [], data);
        assert [] + data == data;
        bufPos := bufPos + 1;
      }

      ghost var data1;
      r, data1 := ReceiveRest(socket, bufPos);
      data := data + data1;
      if r >= 0 {
        assert consumed == old(consumed) + data;
        CallSplits(old(consumed), before, partial, data, emitted, recvBuffer[..recvBufPos]);
      }
    }

    /** receiveMessage behind the start octet. */
    method ReceiveRest(socket: Socket, pos: int) returns (r: int, ghost data: seq<byte>)
      requires Holding(pos) && pos >= 1
      modifies this, recvBuffer, socket
      ensures consumed == old(consumed) + data && old(socket.unread) == data + socket.unread
      ensures r >= -1
      ensures r == -1 ==> emitted == old(emitted) && socket.failed
      ensures r >= 0 ==> Valid()
      ensures r == 0 ==> emitted == old(emitted)
      ensures r > 0 ==> r <= 257 && emitted == old(emitted) + [recvBuffer[..r]]
      ensures r > 0 ==> recvBufPos == 0
    {
      hide Split;
      var bufPos := pos;
      ghost var before, partial := consumed, recvBuffer[..bufPos];
      data := [];
      if bufPos == 1 {
        var readCnt;
        readCnt, data := ReadInto(socket, 1, 1);
        if readCnt < 0 {
          recvBufPos := 0;
          return -1, data;
        } else if readCnt == 0 {
          assert recvBuffer[..1] == partial + [] == partial && before + [] == before;
          recvBufPos := 1;
          return 0, data;
        }
        bufPos := bufPos + 1;
      }
      assert recvBuffer[..bufPos] == partial + data;
      ghost var data1;
      r, data1 := ReceiveBody(socket, bufPos, before, partial, data);
      data := data + data1;
    }

    /** receiveMessage behind the length octet. */
    method ReceiveBody(socket: Socket, bufPos: int, ghost before: seq<byte>, ghost partial: seq<byte>, ghost taken: seq<byte>)
      returns (r: int, ghost data: seq<byte>)
      requires recvBuffer.Length == 260 && 2 <= bufPos <= 260 && bufPos <= recvBuffer[1] as int + 2
      requires Split(before) == Parsed(emitted, partial, true)
      requires consumed == before + taken && recvBuffer[..bufPos] == partial + taken && recvBuffer[0] == 0x68
      modifies this, recvBuffer, socket
      ensures consumed == old(consumed) + data && old(socket.unread) == data + socket.unread
      ensures r >= -1
      ensures r == -1 ==> emitted == old(emitted) && socket.failed
      ensures r >= 0 ==> Valid()
      ensures r == 0 ==> emitted == old(emitted)
      ensures r > 0 ==> r <= 257 && emitted == old(emitted) + [recvBuffer[..r]]
      ensures r > 0 ==> recvBufPos == 0
    {
      hide Split;
      var length: int := recvBuffer[1];
      var remainingLength := length - bufPos + 2;
      var readCnt;
      readCnt, data := ReadInto(socket, bufPos, remainingLength);
      ghost var m := partial + taken + data;
      assert partial + (taken + data) == m && before + (taken + data) == consumed;
      assert recvBuffer[..bufPos + |data|] == m && m[1] == length;
      if readCnt == remainingLength {
        recvBufPos := 0;
        Finished(before, partial, taken + data);
        emitted := emitted + [recvBuffer[..length + 2]];
        r := length + 2;
      } else if readCnt == -1 {
        recvBufPos := 0;
        r := -1;
      } else {
        recvBufPos := bufPos + readCnt;
        Incomplete(before, partial, taken + data);
        r := 0;
      }
    }
  }

  /** What further octets add to the messages, the octets held back decide alone. */
  lemma CallSplits(consumed: seq<byte>, emitted: seq<seq<byte>>, partial: seq<byte>, data: seq<byte>,
                   emittedNow: seq<seq<byte>>, partialNow: seq<byte>)
    requires Split(consumed) == Parsed(emitted, partial, true)
    requires Split(consumed + data) == Parsed(emittedNow, partialNow, true)
    ensures |emitted| <= |emittedNow|
    ensures Split(partial + data) == Parsed(emittedNow[|emitted|..], partialNow, true)
  {
    hide Split;
    SplitAppend(consumed, data);
  }

  /** An octet other than the start octet where a message should begin. */
  lemma BadStart(before: seq<byte>, taken: seq<byte>)
    requires Split(before).ok && Split(before).rest == []
    requires taken != [] && taken[0] != 0x68
    ensures !Split(before + taken).ok
  {
    assert !Split(taken).ok;
    assert [] + taken == taken;
    hide Split;
    SplitAppend(before, taken);
  }

  /** More octets, still no complete message. */
  lemma Incomplete(before: seq<byte>, partial: seq<byte>, taken: seq<byte>)
    requires Split(before).ok && Split(before).rest == partial
    requires partial + taken != [] && (partial + taken)[0] == 0x68 && !Complete(partial + taken)
    ensures Split(before + taken) == Parsed(Split(before).messages, partial + taken, true)
  {
    SplitIncomplete(partial + taken);
    hide Split, Complete;
    SplitAppend(before, taken);
    assert Split(before).messages + [] == Split(before).messages;
  }

  /** The octets that complete exactly one message. */
  lemma Finished(before: seq<byte>, partial: seq<byte>, taken: seq<byte>)
    requires Split(before).ok && Split(before).rest == partial
    requires |partial + taken| >= 2 && (partial + taken)[0] == 0x68 && |partial + taken| == (partial + taken)[1] as int + 2
    ensures Split(before + taken) == Parsed(Split(before).messages + [partial + taken], [], true)
  {
    var m := partial + taken;
    SplitHead(m, []);
    assert m + [] == m;
    SplitIncomplete([]);
    hide Split, Complete;
    SplitAppend(before, taken);
  }
}
