// The event queue of a CS 101 slave (cs101_queue.c): a ring that drops its oldest entry when full.
module Cs101Queue {
  import opened Bytes
  import opened Rings

  const BUFFER_SIZE := 256

  datatype Element = Element(size: byte, buffer: seq<byte>)

  /** An array slot: the octets of an encoded ASDU, behind them whatever an earlier entry left, and an 8-bit size. */
  type QueueElement = e: Element | |e.buffer| == BUFFER_SIZE witness Element(0, seq(BUFFER_SIZE, _ => 0))

  function Message(e: QueueElement): seq<byte> { e.buffer[..e.size] }

  /** What the 8-bit size leaves of an ASDU. */
  function Stored(asdu: seq<byte>): seq<byte> { asdu[..|asdu| % 256] }

  /** An ASDU survives unless it has exactly 256 octets; then it comes back empty. */
  lemma StoredWhole(asdu: seq<byte>)
    requires |asdu| <= BUFFER_SIZE
    ensures Stored(asdu) == asdu <==> |asdu| != 256
    ensures |asdu| == 256 ==> Stored(asdu) == []
  {
    if |asdu| < 256 { assert asdu[..|asdu|] == asdu; }
  }

  lemma MessageStored(asdu: seq<byte>, buffer: seq<byte>)
    requires |asdu| <= BUFFER_SIZE == |buffer|
    ensures Message(Element(|asdu| % 256, asdu + buffer[|asdu|..])) == Stored(asdu)
  {
  }

  // ---------------------------------------------------------------- the bounded list

  datatype Op<T> = Enqueue(x: T) | Dequeue | Flush

  /** A queue of at most `cap` entries with its history: everything ever added, the entries taken out and their positions
      among those added, and how many entries were dropped for lack of room or flushed. */
  datatype History<T> =
    History(contents: seq<T>, added: seq<T>, outputs: seq<T>, taken: seq<nat>, dropped: nat, flushed: nat)

  function Enqueued<T>(contents: seq<T>, cap: nat, x: T): seq<T>
    requires cap >= 1
  {
    if |contents| >= cap then contents[1..] + [x] else contents + [x]
  }

  function Step<T>(h: History<T>, cap: nat, op: Op<T>): History<T>
    requires cap >= 1 && |h.contents| <= |h.added|
  {
    match op
    case Enqueue(x) =>
      h.(contents := Enqueued(h.contents, cap, x), added := h.added + [x],
         dropped := h.dropped + if |h.contents| >= cap then 1 else 0)
    case Dequeue =>
      if h.contents == [] then h
      else h.(contents := h.contents[1..], outputs := h.outputs + [h.contents[0]],
              taken := h.taken + [|h.added| - |h.contents|])
    case Flush => h.(contents := [], flushed := h.flushed + |h.contents|)
  }

  ghost predicate Consistent<T>(h: History<T>, cap: nat) {
    && |h.contents| <= cap && |h.contents| <= |h.added|
    && h.contents == h.added[|h.added| - |h.contents|..]
    && |h.outputs| == |h.taken|
    && (forall i | 0 <= i < |h.taken| ::
          h.taken[i] < |h.added| - |h.contents| && h.outputs[i] == h.added[h.taken[i]])
    && (forall i, j | 0 <= i < j < |h.taken| :: h.taken[i] < h.taken[j])
    && |h.taken| + |h.contents| + h.dropped + h.flushed == |h.added|
  }

  lemma StepKeepsConsistent<T>(h: History<T>, cap: nat, op: Op<T>)
    requires cap >= 1 && Consistent(h, cap)
    ensures Consistent(Step(h, cap, op), cap)
  {
  }

  function Run<T>(ops: seq<Op<T>>, cap: nat): (h: History<T>)
    requires cap >= 1
    ensures |h.contents| <= |h.added|
  {
    if ops == [] then History([], [], [], [], 0, 0)
    else Step(Run(ops[..|ops| - 1], cap), cap, ops[|ops| - 1])
  }

  /** After any operations the queue holds the newest entries ever added, in order and at most `cap` of them; entries
      were taken out in the order they were added, none twice; and every entry is accounted for. */
  lemma {:induction false} EveryRunConsistent<T>(ops: seq<Op<T>>, cap: nat)
    requires cap >= 1
    ensures Consistent(Run(ops, cap), cap)
  {
    if ops == [] {
    } else {
      EveryRunConsistent(ops[..|ops| - 1], cap);
      StepKeepsConsistent(Run(ops[..|ops| - 1], cap), cap, ops[|ops| - 1]);
    }
  }

  function Burst<T>(contents: seq<T>, cap: nat, xs: seq<T>): seq<T>
    requires cap >= 1
    decreases |xs|
  {
    if xs == [] then contents else Burst(Enqueued(contents, cap, xs[0]), cap, xs[1..])
  }

  /** Adding any number of entries without taking one leaves the newest `cap` of all. */
  lemma {:induction false} BurstKeepsNewest<T>(contents: seq<T>, cap: nat, xs: seq<T>)
    requires |contents| <= cap && cap >= 1
    ensures var all := contents + xs;
            Burst(contents, cap, xs) == if |all| <= cap then all else all[|all| - cap..]
    decreases |xs|
  {
    if xs == [] {
      assert contents + xs == contents;
    } else {
      var next := Enqueued(contents, cap, xs[0]);
      BurstKeepsNewest(next, cap, xs[1..]);
      assert |contents| < cap ==> next + xs[1..] == contents + xs;
      assert |contents| == cap ==> next + xs[1..] == (contents + xs)[1..];
    }
  }

  // ---------------------------------------------------------------- the ring

  class Queue {
    const elements: array<QueueElement>
    var size: int
    var entryCounter: int
    var firstMsgIndex: int
    var lastMsgIndex: int

    ghost predicate Valid() reads this, elements {
      && 1 <= size == elements.Length && 0 <= entryCounter <= size
      && 0 <= firstMsgIndex < size && 0 <= lastMsgIndex < size
      && |Slots(elements[..], entryCounter, firstMsgIndex, lastMsgIndex)| == entryCounter
    }

    ghost function Entries(): seq<QueueElement>
      requires Valid()
      reads this, elements
    {
      Slots(elements[..], entryCounter, firstMsgIndex, lastMsgIndex)
    }

    /** What Dequeue will hand out, oldest first. */
    ghost function Contents(): (r: seq<seq<byte>>)
      requires Valid()
      reads this, elements
      ensures |r| == entryCounter
    {
      Messages(Entries())
    }

    /** -1 stands for the default of 100 entries. */
    constructor (maxQueueSize: int)
      requires maxQueueSize == -1 || maxQueueSize >= 1
      ensures Valid() && Contents() == [] && size == (if maxQueueSize == -1 then 100 else maxQueueSize)
      ensures fresh(elements)
    {
      var queueSize := maxQueueSize;
      if maxQueueSize == -1 {
        queueSize := 100;
      }
      entryCounter := 0;
      firstMsgIndex := 0;
      lastMsgIndex := 0;
      var zeros := seq(BUFFER_SIZE, _ => 0 as byte);
      elements := new QueueElement[queueSize](_ => Element(0, zeros));
      size := queueSize;
    }

    method Enqueue(asdu: seq<byte>)
      requires Valid() && |asdu| <= BUFFER_SIZE
      modifies this, elements
      ensures Valid() && size == old(size)
      ensures Contents() == Enqueued(old(Contents()), size, Stored(asdu))
    {
      hide Ring, Slots, Enqueued, Messages, Stored, Message;
      ghost var a, entries := elements[..], Entries();
      var nextIndex: int;
      var removeEntry := false;
      if entryCounter == 0 {
        firstMsgIndex := 0;
        nextIndex := 0;
      } else {
        nextIndex := lastMsgIndex + 1;
      }
      if nextIndex == size {
        nextIndex := 0;
      }
      if entryCounter == size {
        removeEntry := true;
      }
      ghost var x: QueueElement := Element(|asdu| % 256, asdu + elements[nextIndex].buffer[|asdu|..]);
      SlotsEnqueued(a, entryCounter, old(firstMsgIndex), lastMsgIndex, x);
      MessagesEnqueued(entries, size, x);
      MessageStored(asdu, elements[nextIndex].buffer);
      if !removeEntry {
        lastMsgIndex := nextIndex;
        entryCounter := entryCounter + 1;
      } else {
        lastMsgIndex := nextIndex;
        var firstIndex := nextIndex + 1;
        if firstIndex == size {
          firstIndex := 0;
        }
        firstMsgIndex := firstIndex;
      }
      Encode(nextIndex, asdu);
      assert elements[..] == a[nextIndex := x];
    }

    /** CS101_ASDU_encode into the slot's buffer, then the 8-bit size. */
    method Encode(index: int, asdu: seq<byte>)
      requires 0 <= index < elements.Length && |asdu| <= BUFFER_SIZE
      modifies elements
      ensures elements[..] == old(elements[..])[index :=
                Element(|asdu| % 256, asdu + old(elements[index].buffer[|asdu|..]))]
    {
      var buffer := elements[index].buffer;
      for i := 0 to |asdu|
        invariant |buffer| == BUFFER_SIZE
        invariant buffer[..i] == asdu[..i] && buffer[i..] == old(elements[index].buffer[i..])
      {
        buffer := buffer[i := asdu[i]];
      }
      elements[index] := Element(|asdu| % 256, buffer);
      assert buffer == asdu + old(elements[index].buffer)[|asdu|..];
    }

    /** No storage, no removal. */
    method Dequeue(hasStorage: bool) returns (frame: Dequeued)
      requires Valid()
      modifies this
      ensures Valid() && size == old(size)
      ensures if old(Contents()) == [] || !hasStorage then frame == NoFrame && Contents() == old(Contents())
              else frame == Octets(old(Contents())[0]) && Contents() == old(Contents())[1..]
    {
      frame := NoFrame;
      ghost var entries := Entries();
      if entryCounter != 0 {
        SlotsDequeued(elements[..], entryCounter, firstMsgIndex, lastMsgIndex);
        hide Ring, Slots, Following, Message;
        if hasStorage {
          var currentIndex := firstMsgIndex;
          frame := Octets(Message(elements[currentIndex]));
          firstMsgIndex := Following(currentIndex, size);
          entryCounter := entryCounter - 1;
          assert Entries() == entries[1..];
          assert Messages(entries[1..]) == Messages(entries)[1..];
        }
      }
    }

    /** The type of the oldest entry, its first octet. */
    method HasWaitingAsdu() returns (waiting: bool, typeId: byte)
      requires Valid()
      ensures waiting <==> Contents() != []
      ensures waiting && Contents()[0] != [] ==> typeId == Contents()[0][0]
    {
      waiting, typeId := entryCounter != 0, 0;
      if entryCounter != 0 {
        SlotsDequeued(elements[..], entryCounter, firstMsgIndex, lastMsgIndex);
        typeId := elements[firstMsgIndex].buffer[0];
      }
    }

    method IsFull() returns (full: bool)
      requires Valid()
      ensures full <==> |Contents()| == size
    {
      full := entryCounter == size;
    }

    method Flush()
      requires Valid()
      modifies this
      ensures Valid() && size == old(size) && Contents() == []
    {
      entryCounter := 0;
      firstMsgIndex := 0;
      lastMsgIndex := 0;
    }
  }

  ghost function Slots<T>(a: seq<T>, count: nat, first: nat, last: nat): seq<T>
    requires first < |a| && last < |a|
  {
    if count == 0 then [] else Ring(a, first, last)
  }

  /** The slot arithmetic of enqueue: where the entry goes and which slots are in use afterwards. */
  lemma SlotsEnqueued<T>(a: seq<T>, count: nat, first: nat, last: nat, x: T)
    requires first < |a| && last < |a| && |Slots(a, count, first, last)| == count <= |a|
    ensures var next := if count == 0 || last + 1 == |a| then 0 else last + 1;
            var newFirst := if count == 0 then 0 else if count < |a| then first else if next + 1 == |a| then 0 else next + 1;
            var newCount := if count < |a| then count + 1 else count;
            && next < |a| && newFirst < |a|
            && Slots(a[next := x], newCount, newFirst, next) == Enqueued(Slots(a, count, first, last), |a|, x)
            && |Slots(a[next := x], newCount, newFirst, next)| == newCount
  {
    if count > 0 {
      FollowingWraps(last, |a|);
      FollowingWraps(Following(last, |a|), |a|);
      if count < |a| {
        RingAppend(a, first, last, x);
      } else {
        RingReplace(a, first, last, x);
      }
    }
  }

  /** The slot arithmetic of dequeue. */
  lemma SlotsDequeued<T>(a: seq<T>, count: nat, first: nat, last: nat)
    requires first < |a| && last < |a| && |Slots(a, count, first, last)| == count && count > 0
    ensures var next := Following(first, |a|);
            && next < |a| && Slots(a, count, first, last)[0] == a[first]
            && Slots(a, count - 1, next, last) == Slots(a, count, first, last)[1..]
  {
    RingAdvance(a, first, last);
  }

  datatype Dequeued = NoFrame | Octets(octets: seq<byte>)

  ghost function Messages(entries: seq<QueueElement>): (r: seq<seq<byte>>)
    ensures |r| == |entries| && forall i | 0 <= i < |entries| :: r[i] == Message(entries[i])
  {
    seq(|entries|, i requires 0 <= i < |entries| => Message(entries[i]))
  }

  lemma MessagesEnqueued(entries: seq<QueueElement>, cap: nat, x: QueueElement)
    requires cap >= 1
    ensures Messages(Enqueued(entries, cap, x)) == Enqueued(Messages(entries), cap, Message(x))
  {
  }
}
