// Two CS104 stations connected by octet streams that are delivered in any portions: the reassembly of Cs104Receive.dfy
// between the octets and the frame handling of Cs104System.dfy. Every run is, message by message, a run on frames.
module Cs104Octets {
  import opened Asdu
  import opened Bytes
  import opened Cs104Frame
  import opened Cs104Receive
  import opened Cs104Station
  import opened Cs104System

  /** One direction: the octets of an unfinished message in the receive buffer, and those still under way. */
  datatype Wire = Wire(partial: seq<byte>, unread: seq<byte>) {
    function Pending(): seq<byte> { partial + unread }
  }

  datatype Line = Line(a: Peer, b: Peer, ab: Wire, ba: Wire)

  /** A local action, or one call of receiveMessage that takes `count` octets; `leftover` is what the receive buffer
      holds behind the message. */
  datatype Move = Local(action: Action) | Read(count: nat, leftover: seq<byte>, now: nat)

  datatype Event = Event(byA: bool, move: Move)

  function Reverse(s: Line): Line { Line(s.b, s.a, s.ba, s.ab) }

  /** What a station wrote, in octets. It only ever writes frames that can be sent, as the lemmas below show. */
  function Written(out: seq<Apdu>): seq<byte> {
    if forall i | 0 <= i < |out| :: Sendable(out[i]) then Octets(out) else []
  }

  function Transmit(w: Wire, out: seq<Apdu>): Wire { w.(unread := w.unread + Written(out)) }

  function LocalA(s: Line, action: Action): Line
    requires s.a.station.al.Valid()
  {
    var r := Act(s.a, [], action);
    s.(a := r.peer, ab := Transmit(s.ab, r.out))
  }

  /** One call takes octets of one message only: it ends with the message or in front of its end. */
  predicate OneCall(w: Wire, count: nat) {
    count <= |w.unread|
    && var p := Split(w.partial + w.unread[..count]);
       p.ok ==> p.messages == [] || (|p.messages| == 1 && p.rest == [])
  }

  /** A wrong start octet closes the connection; a complete message is decoded and handled. */
  function ReadA(s: Line, count: nat, leftover: seq<byte>, now: nat): Line
    requires s.a.station.al.Valid() && OneCall(s.ba, count)
  {
    var p := Split(s.ba.partial + s.ba.unread[..count]);
    var rest := Wire(p.rest, s.ba.unread[count..]);
    if !p.ok then s.(a := s.a.(open := false, fault := true), ba := rest)
    else if p.messages == [] || |p.messages[0] + leftover| < 6 then s.(ba := rest)
    else
      var m := p.messages[0];
      var r := Act(s.a, [Decode(m + leftover, |m|)], Receive(now));
      s.(a := r.peer, ab := Transmit(s.ab, r.out), ba := rest)
  }

  function StepA(s: Line, move: Move): Line
    requires s.a.station.al.Valid()
  {
    match move
    case Local(action) => LocalA(s, action)
    case Read(count, leftover, now) => if s.a.open && OneCall(s.ba, count) then ReadA(s, count, leftover, now) else s
  }

  function Next(s: Line, e: Event): Line
    requires s.a.station.al.Valid() && s.b.station.al.Valid()
  {
    if e.byA then StepA(s, e.move) else Reverse(StepA(Reverse(s), e.move))
  }

  function Initial(parA: Parameters, parB: Parameters, al: AppLayerParameters, now: nat): Line {
    var s := Cs104System.Initial(parA, parB, al, now);
    Line(s.a, s.b, Wire([], []), Wire([], []))
  }

  // ---------------------------------------------------------------- refinement

  /** The octets not yet handled are those of the frames under way. */
  ghost predicate Carries(w: Wire, channel: seq<Apdu>) {
    && AllSendable(channel) && w.Pending() == Octets(channel)
    && Split(w.partial) == Parsed([], w.partial, true)
  }

  ghost predicate Refines(s: Line, f: System) {
    s.a == f.a && s.b == f.b && Carries(s.ab, f.ab) && Carries(s.ba, f.ba)
  }

  lemma {:induction false} OctetsAppend(a: seq<Apdu>, b: seq<Apdu>)
    requires AllSendable(a) && AllSendable(b)
    ensures AllSendable(a + b) && Octets(a + b) == Octets(a) + Octets(b)
  {
    hide Encode, Sendable;
    if a == [] {
      assert a + b == b;
    } else {
      OctetsAppend(a[1..], b);
      assert (a + b)[1..] == a[1..] + b;
    }
  }

  lemma TransmitCarries(w: Wire, channel: seq<Apdu>, out: seq<Apdu>)
    requires Carries(w, channel) && AllSendable(channel + out)
    ensures Carries(Transmit(w, out), channel + out)
  {
    hide Octets, Split, Sendable;
    assert forall i | 0 <= i < |out| :: out[i] == (channel + out)[|channel| + i];
    OctetsAppend(channel, out);
    assert w.partial + (w.unread + Octets(out)) == w.partial + w.unread + Octets(out);
  }

  /** What a call gets from a stream of frames: nothing yet, or exactly the next frame. */
  lemma CallTakes(w: Wire, channel: seq<Apdu>, count: nat)
    requires Carries(w, channel) && OneCall(w, count)
    ensures var p := Split(w.partial + w.unread[..count]);
            && p.ok
            && if p.messages == [] then Carries(Wire(p.rest, w.unread[count..]), channel)
               else channel != [] && p.messages[0] == Encode(channel[0])
                    && Carries(Wire(p.rest, w.unread[count..]), channel[1..])
  {
    hide Split, Encode, Octets, Sendable;
    var cut := |w.partial| + count;
    assert w.Pending()[..cut] == w.partial + w.unread[..count];
    var complete := CutAnywhere(channel, cut);
    var p := Split(w.partial + w.unread[..count]);
    NothingSplit();
    if p.messages == [] {
      assert complete == 0;
      UnfinishedIsRest(w.partial + w.unread[..count]);
      assert p.rest + w.unread[count..] == w.Pending();
    } else {
      assert complete == 1 && |Messages(channel[..1])| == 1 && channel[..1][0] == channel[0];
      OctetsParts(channel);
      OctetsParts(channel[..1]);
      OctetsParts([]);
      assert channel[..1][1..] == [];
      assert cut == |Encode(channel[0])|;
      assert w.unread[count..] == w.Pending()[cut..] == Octets(channel[1..]);
    }
  }

  lemma NothingSplit()
    ensures Split([]) == Parsed([], [], true)
  {
  }

  /** A stream that contains no complete message is its own rest. */
  lemma UnfinishedIsRest(stream: seq<byte>)
    requires Split(stream).ok && Split(stream).messages == []
    ensures Split(stream).rest == stream
  {
  }

  /** A step of a on octets is the same step on frames, or none. */
  lemma StepARefines(s: Line, f: System, al: AppLayerParameters, move: Move) returns (steps: seq<Step>)
    requires Inv(f, al) && Refines(s, f)
    ensures |steps| <= 1 && (steps != [] ==> steps[0].byA)
    ensures Refines(StepA(s, move), if steps == [] then f else Cs104System.StepA(f, steps[0].action))
  {
    hide Inv, Octets, Split, Sendable, Decode, Encode;
    ConfiguredByInv(f, al);
    match move
    case Local(action) =>
      if action.Receive? {
        steps := [];
        TransmitCarries(s.ab, f.ab, []) by { assert f.ab + [] == f.ab; }
        assert f.ab + [] == f.ab;
      } else {
        steps := [Step(true, action)];
        LocalActs(s.a, f.ba, action);
        WrittenIsSendable(f, al, action);
        TransmitCarries(s.ab, f.ab, Act(f.a, f.ba, action).out);
      }
    case Read(count, leftover, now) =>
      steps := [];
      if s.a.open && OneCall(s.ba, count) {
        CallTakes(s.ba, f.ba, count);
        var p := Split(s.ba.partial + s.ba.unread[..count]);
        if p.messages != [] {
          var frame := f.ba[0];
          EncodedLength(frame);
          DecodeEncode(frame, leftover);
          steps := [Step(true, Receive(now))];
          assert Act(s.a, [frame], Receive(now)) == Act(f.a, f.ba, Receive(now)).(input := []);
          WrittenIsSendable(f, al, Receive(now));
          TransmitCarries(s.ab, f.ab, Act(f.a, f.ba, Receive(now)).out);
        }
      }
  }

  lemma ConfiguredByInv(f: System, al: AppLayerParameters)
    requires Inv(f, al)
    ensures Configured(f) && AllSendable(f.ab) && AllSendable(f.ba)
  {
  }

  lemma EncodedLength(a: Apdu)
    requires Sendable(a)
    ensures |Encode(a)| >= 6
  {
  }

  lemma LocalActs(p: Peer, input: seq<Apdu>, action: Action)
    requires p.station.al.Valid() && !action.Receive?
    ensures Act(p, [], action) == Act(p, input, action).(input := [])
    ensures Act(p, input, action).input == input
  {
    hide Accepts, HandleTimeouts;
  }

  lemma WrittenIsSendable(f: System, al: AppLayerParameters, action: Action)
    requires Inv(f, al)
    ensures AllSendable(f.ab + Act(f.a, f.ba, action).out)
  {
    hide Act;
    StepAKeepsInv(f, al, action);
  }

  function Run(s: Line, events: seq<Event>): (r: Line)
    requires s.a.station.al.Valid() && s.b.station.al.Valid()
    ensures r.a.station.al.Valid() && r.b.station.al.Valid()
  {
    if events == [] then s
    else
      var before, e := Run(s, events[..|events| - 1]), events[|events| - 1];
      StepKeepsParameters(before, e.move);
      StepKeepsParameters(Reverse(before), e.move);
      Next(before, e)
  }

  lemma StepKeepsParameters(s: Line, move: Move)
    requires s.a.station.al.Valid()
    ensures StepA(s, move).a.station.al == s.a.station.al && StepA(s, move).b == s.b
  {
    hide Act, Split, Decode;
    match move
    case Local(action) => ActKeepsParameters(s.a, [], action);
    case Read(count, leftover, now) =>
      if s.a.open && OneCall(s.ba, count) {
        var p := Split(s.ba.partial + s.ba.unread[..count]);
        if p.ok && p.messages != [] && |p.messages[0] + leftover| >= 6 {
          ActKeepsParameters(s.a, [Decode(p.messages[0] + leftover, |p.messages[0]|)], Receive(now));
        }
      }
  }

  /** Every run on octets is a run on frames, whatever portions the streams were delivered in. */
  lemma {:induction false} RunRefines(parA: Parameters, parB: Parameters, al: AppLayerParameters, now: nat,
                                      events: seq<Event>) returns (steps: seq<Step>)
    requires Windows(parA) && Windows(parB) && al.Valid()
    ensures Refines(Run(Initial(parA, parB, al, now), events),
                    Cs104System.Run(Cs104System.Initial(parA, parB, al, now), steps))
  {
    var s0, f0 := Initial(parA, parB, al, now), Cs104System.Initial(parA, parB, al, now);
    hide Refines, Inv, StepA, Cs104System.StepA;
    if events == [] {
      steps := [];
      InitialRefines(parA, parB, al, now);
    } else {
      var front, e := events[..|events| - 1], events[|events| - 1];
      steps := RunRefines(parA, parB, al, now, front);
      var s, f := Run(s0, front), Cs104System.Run(f0, steps);
      Reachable(parA, parB, al, now, steps);
      var more;
      if e.byA {
        more := StepARefines(s, f, al, e.move);
      } else {
        ReverseRefines(s, f, al);
        var swapped := StepARefines(Reverse(s), Swap(f), al, e.move);
        more := if swapped == [] then [] else [Step(false, swapped[0].action)];
        ReverseRefinesBack(StepA(Reverse(s), e.move),
                           if swapped == [] then Swap(f) else Cs104System.StepA(Swap(f), swapped[0].action));
      }
      if more != [] {
        steps := steps + more;
        assert steps[..|steps| - 1] == steps[..|steps| - |more|];
        assert Cs104System.Run(f0, steps) == Cs104System.Next(f, more[0]);
      }
    }
  }

  lemma InitialRefines(parA: Parameters, parB: Parameters, al: AppLayerParameters, now: nat)
    ensures Refines(Initial(parA, parB, al, now), Cs104System.Initial(parA, parB, al, now))
  {
    NothingSplit();
  }

  lemma ReverseRefines(s: Line, f: System, al: AppLayerParameters)
    requires Refines(s, f) && Inv(f, al)
    ensures Refines(Reverse(s), Swap(f)) && Inv(Swap(f), al)
  {
    hide Carries, Direction;
  }

  lemma ReverseRefinesBack(s: Line, f: System)
    requires Refines(s, f)
    ensures Refines(Reverse(s), Swap(f))
  {
    hide Carries;
  }

  /** Over octet streams, too, no run meets a wrong start octet, a sequence error, a rejected N(R) or an ASDU that cannot
      be parsed, and each application has received a prefix of what the other one sent. */
  lemma NoOctetRunFails(parA: Parameters, parB: Parameters, al: AppLayerParameters, now: nat, events: seq<Event>)
    requires Windows(parA) && Windows(parB) && al.Valid()
    ensures var r := Run(Initial(parA, parB, al, now), events);
            && !r.a.fault && !r.b.fault
            && r.b.delivered <= r.a.sent && r.a.delivered <= r.b.sent
  {
    hide Run, Cs104System.Run, Carries;
    var steps := RunRefines(parA, parB, al, now, events);
    NoRunFails(parA, parB, al, now, steps);
  }
}
