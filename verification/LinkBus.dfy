// The master's bus in the unbalanced mode (LinkLayerPrimaryUnbalanced_runStateMachine in link_layer.c): which slave has
// its turn.
module LinkBus {
  import opened LinkFrames
  import opened LinkUnbalanced
  import opened Rings
  import opened Wrappers

  // ---------------------------------------------------------------- turns

  datatype Bus = Bus(connections: seq<Connection>, current: Option<nat>, nextIndex: nat)

  predicate ValidBus(b: Bus) {
    && b.nextIndex < |b.connections|
    && (b.current.Some? ==> b.current.value < |b.connections|)
  }

  predicate KeepsTurn(b: Bus)
    requires ValidBus(b)
  {
    b.current.Some? && b.connections[b.current.value].waiting
  }

  /** The current slave keeps its turn while it waits for a response; otherwise the next one in the list has it. */
  function Select(b: Bus): (r: Bus)
    requires ValidBus(b)
  {
    if KeepsTurn(b) then b
    else b.(current := Some(b.nextIndex), nextIndex := Following(b.nextIndex, |b.connections|))
  }

  lemma SelectKeepsValid(b: Bus)
    requires ValidBus(b)
    ensures ValidBus(Select(b)) && Select(b).current.Some?
  {
    FollowingWraps(b.nextIndex, |b.connections|);
  }

  function RunBus(b: Bus, now: nat): (r: (Bus, seq<Request>))
    requires ValidBus(b)
    ensures ValidBus(r.0) && |r.0.connections| == |b.connections|
  {
    SelectKeepsValid(b);
    var s := Select(b);
    var (c, out) := RunConnection(s.connections[s.current.value], now);
    (s.(connections := s.connections[s.current.value := c]), out)
  }

  /** A run of the bus, or any change of the connections in between: responses and requests of the application. */
  datatype Event = Runs(now: nat) | Changed(connections: seq<Connection>)

  /** The bus after some events, and the slaves that were given a turn. */
  function History(b: Bus, events: seq<Event>): (r: (Bus, seq<nat>))
    requires ValidBus(b)
    ensures ValidBus(r.0) && |r.0.connections| == |b.connections|
  {
    if events == [] then (b, [])
    else
      var (before, turns) := History(b, events[..|events| - 1]);
      match events[|events| - 1]
      case Runs(now) =>
        var after := RunBus(before, now).0;
        (after, if KeepsTurn(before) then turns else turns + [before.nextIndex])
      case Changed(connections) =>
        (if |connections| == |before.connections| then before.(connections := connections) else before, turns)
  }

  /** The slave i turns after slave k. */
  function Turn(k: nat, i: nat, n: nat): nat
    requires n > 0
  {
    if i == 0 then k else Following(Turn(k, i - 1, n), n)
  }

  lemma {:induction false} TurnsAdd(k: nat, i: nat, j: nat, n: nat)
    requires n > 0
    ensures Turn(k, i + j, n) == Turn(Turn(k, i, n), j, n)
    decreases j
  {
    if j == 0 {
    } else {
      TurnsAdd(k, i, j - 1, n);
    }
  }

  lemma {:induction false} TurnWraps(k: nat, i: nat, n: nat)
    requires k < n && i < n
    ensures Turn(k, i, n) == if k + i < n then k + i else k + i - n
    decreases i
  {
    if i == 0 {
    } else {
      TurnWraps(k, i - 1, n);
      FollowingWraps(Turn(k, i - 1, n), n);
    }
  }

  lemma {:induction false} TurnBounded(k: nat, i: nat, n: nat)
    requires k < n
    ensures Turn(k, i, n) < n
    decreases i
  {
    if i == 0 {
    } else {
      TurnBounded(k, i - 1, n);
      FollowingWraps(Turn(k, i - 1, n), n);
    }
  }

  /** Turns are given strictly in the order of the list, whatever happens in between. */
  lemma {:induction false} TurnsInOrder(b: Bus, events: seq<Event>, i: nat)
    requires ValidBus(b)
    ensures var (after, turns) := History(b, events);
            && after.nextIndex == Turn(b.nextIndex, |turns|, |b.connections|)
            && (i < |turns| ==> turns[i] == Turn(b.nextIndex, i, |b.connections|))
  {
    if events == [] {
    } else {
      TurnsInOrder(b, events[..|events| - 1], i);
    }
  }

  /** In a list of turns given in order each of the n slaves has exactly one among any n consecutive ones. */
  lemma EachOnceInOrder(turns: seq<nat>, k: nat, n: nat, from: nat, slave: nat) returns (i: nat)
    requires k < n && slave < n && from + n <= |turns|
    requires forall j | 0 <= j < |turns| :: turns[j] == Turn(k, j, n)
    ensures from <= i < from + n && turns[i] == slave
    ensures forall j | from <= j < from + n && turns[j] == slave :: j == i
  {
    var first := Turn(k, from, n);
    TurnBounded(k, from, n);
    i := if slave >= first then from + (slave - first) else from + (slave - first + n);
    forall j | from <= j < from + n
      ensures turns[j] == if first + (j - from) < n then first + (j - from) else first + (j - from) - n
    {
      TurnsAdd(k, from, j - from, n);
      TurnWraps(first, j - from, n);
    }
  }

  /** Among any n consecutive turns each of the n slaves has exactly one. */
  lemma EachSlaveOnce(b: Bus, events: seq<Event>, from: nat, slave: nat) returns (i: nat)
    requires ValidBus(b) && slave < |b.connections|
    requires from + |b.connections| <= |History(b, events).1|
    ensures var turns := History(b, events).1;
            && from <= i < from + |b.connections| && turns[i] == slave
            && forall j | from <= j < from + |b.connections| && turns[j] == slave :: j == i
  {
    forall j | 0 <= j < |History(b, events).1|
      ensures History(b, events).1[j] == Turn(b.nextIndex, j, |b.connections|)
    {
      TurnsInOrder(b, events, j);
    }
    i := EachOnceInOrder(History(b, events).1, b.nextIndex, |b.connections|, from, slave);
  }
}
