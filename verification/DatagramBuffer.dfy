/**
 __txc_recvmsg as it runs on the circular buffer of a socket (src/xcalls/x_recvmsg.c): heads
 and tails updated in place, headers and data written into one array of bytes. Proved against
 module RecvMsg.
 */
module DatagramBuffer {
  import opened Options
  import opened DualQueue
  import opened DatagramMemory
  import opened RecvMsg
  import CircularBuffer

  /** A byte after recvmsg(2): name, payload and control data arrive where the header points. */
  function CellReceived(mem: Memory, base: nat, r: Record, a: nat): Cell
    requires a < |mem|
  {
    if In(a, base, 16) then Scrap
    else if In(a, base + PAYLOAD_AT, |r.payload|) then Raw(r.payload[a - (base + PAYLOAD_AT)])
    else if In(a, base + CONTROL_AT, |r.control|) then Raw(r.control[a - (base + CONTROL_AT)])
    else mem[a]
  }

  /** A byte after lengths and flags have been set, and the control data copied behind the payload. */
  function CellCompleted(mem: Memory, base: nat, r: Record, a: nat): Cell
    requires a < |mem| && InBuffer(|mem|, base, Message(|r.payload|, |r.control|))
  {
    var p, c := |r.payload|, |r.control|;
    if In(a, base, HEADER_SIZE) then Head(p, c, a - base)
    else if In(a, base + PAYLOAD_AT + p, c) then mem[base + CONTROL_AT + (a - (base + PAYLOAD_AT + p))]
    else mem[a]
  }

  /** A byte after the pointers have been set. */
  function CellPointing(mem: Memory, base: nat, a: nat): Cell
    requires a < |mem|
  {
    if InPointers(base, a) then Scrap else mem[a]
  }

  /** Pointers, receive and completion together are one refill. */
  lemma StepsAreRefill(mem: Memory, m1: Memory, m2: Memory, m3: Memory, base: nat, r: Record, a: nat)
    requires a < |mem| == |m1| == |m2| == |m3| && SizesFit(r) && InBuffer(|mem|, base, ShapeOf(r))
    requires forall i: nat :: i < |mem| ==> m1[i] == CellPointing(mem, base, i)
    requires forall i: nat :: i < |mem| ==> m2[i] == CellReceived(m1, base, r, i)
    requires if r.payload == [] then m3 == m2 else m3[a] == CellCompleted(m2, base, r, a)
    ensures m3[a] == CellAfter(mem, base, false, r, a)
  {
    var copied := base + PAYLOAD_AT + |r.payload|;
    if r.payload != [] && In(a, copied, |r.control|) {
      assert m2[base + CONTROL_AT + (a - copied)] == Raw(r.control[a - copied]);
    }
  }

  /** The messages waiting in the kernel. */
  class KernelSocket {
    var messages: seq<Record>

    /** recvmsg(2): takes the next message. */
    method Receive() returns (r: Record)
      requires messages != []
      modifies this
      ensures r == old(messages)[0] && messages == old(messages)[1..]
    {
      r, messages := messages[0], messages[1..];
    }

    /** recvmsg(2) into the buffer. */
    method ReceiveInto(cells: array<Cell>, base: nat) returns (r: Record)
      requires messages != [] && SizesFit(messages[0]) && InBuffer(cells.Length, base, ShapeOf(messages[0]))
      modifies this, cells
      ensures r == old(messages)[0] && messages == old(messages)[1..]
      ensures forall a: nat :: a < cells.Length ==> cells[a] == CellReceived(old(cells[..]), base, r, a)
    {
      r := Receive();
      forall i | 0 <= i < 16 {
        cells[base + i] := Scrap;
      }
      forall i | 0 <= i < |r.payload| {
        cells[base + PAYLOAD_AT + i] := Raw(r.payload[i]);
      }
      forall i | 0 <= i < |r.control| {
        cells[base + CONTROL_AT + i] := Raw(r.control[i]);
      }
    }
  }

  lemma SameCells(cells: array<Cell>, m: Memory)
    requires cells.Length == |m| && forall a: nat :: a < |m| ==> cells[a] == m[a]
    ensures cells[..] == m
  {
  }

  // ---------------------------------------------------------------- the caller's vectors

  /** The sum of the first `i` lengths. */
  function Sum(lengths: seq<nat>, i: nat): nat
    requires i <= |lengths|
  {
    if i == 0 then 0 else Sum(lengths, i - 1) + lengths[i - 1]
  }

  function Total(lengths: seq<nat>): nat {
    Sum(lengths, |lengths|)
  }

  function Joined(parts: seq<Memory>): Memory {
    if parts == [] then [] else Joined(parts[..|parts| - 1]) + parts[|parts| - 1]
  }

  function Raws(bytes: seq<bv8>): (m: Memory)
    ensures |m| == |bytes|
  {
    seq(|bytes|, i requires 0 <= i < |bytes| => Raw(bytes[i]))
  }

  lemma {:induction false} SumAscends(lengths: seq<nat>, i: nat, n: nat)
    requires i <= n <= |lengths|
    ensures Sum(lengths, i) <= Sum(lengths, n)
    decreases n
  {
    if i < n { SumAscends(lengths, i, n - 1); }
  }

  lemma JoinedGrows(mem: Memory, parts: seq<Memory>, part: Memory, lo: nat, mid: nat, hi: nat)
    requires lo <= mid <= hi <= |mem| && Joined(parts) == mem[lo..mid] && part == mem[mid..hi]
    ensures Joined(parts + [part]) == mem[lo..hi]
  {
    assert (parts + [part])[..|parts|] == parts;
    assert mem[lo..hi] == mem[lo..mid] + mem[mid..hi];
  }

  /** What is copied out of a whole record is the beginning of its payload. */
  lemma CopiesPayload(mem: Memory, h: nat, r: Record, n: nat)
    requires Holds(mem, h, r) && n <= |r.payload| && r.payload != []
    ensures h + PAYLOAD_AT + n <= |mem| && mem[h + PAYLOAD_AT..h + PAYLOAD_AT + n] == Raws(r.payload[..n])
  {
    var at := h + PAYLOAD_AT;
    assert At(mem, h).payload == r.payload && |r.payload| == mem[h].p;
    forall i: nat | i < n ensures RawAt(mem, at + i) && mem[at + i] == Raw(r.payload[i]) {
      assert In(at + i, at, mem[h].p);
    }
    assert In(at + (|r.payload| - 1), at, mem[h].p) && RawAt(mem, at + (|r.payload| - 1));
  }

  class Socket {
    const queues: CircularBuffer.Buffer
    const cells: array<Cell>

    ghost function Abstract(kernel: KernelSocket): State
      reads this, queues, cells, kernel
    {
      State(cells[..], queues.View(), kernel.messages)
    }

    constructor (size: nat)
      requires RESERVATION <= size <= INT_MAX
      ensures queues.View() == Empty(size) && cells.Length == size && fresh(queues) && fresh(cells)
    {
      queues := new CircularBuffer.Buffer(size);
      cells := new Cell[size](_ => Scrap);
    }

    /** The consuming branch; the length of the record is taken in both cases. */
    method Consume(kernel: KernelSocket) returns (delivered: Record)
      requires Consistent(Abstract(kernel)) && queues.speculative && Buffered(queues.View())
      modifies queues
      ensures var t := old(Abstract(kernel));
              && Holds(t.mem, RecvBase(t.q), delivered)
              && Abstract(kernel) == t.(q := DualQueue.Consume(t.q, Len(delivered)))
    {
      FrontRecord(Abstract(kernel));
      var base := if queues.specPrimaryTail != queues.specPrimaryHead then queues.specPrimaryHead
                  else queues.specSecondaryHead;
      delivered := At(cells[..], base);
      var _ := queues.ConsumeSpeculative(Len(delivered));
    }

    /** Set before the receive: where payload and control data are to go. */
    method SetPointers(base: nat)
      requires base + HEADER_SIZE <= cells.Length
      modifies cells
      ensures forall a: nat :: a < cells.Length ==> cells[a] == CellPointing(old(cells[..]), base, a)
    {
      forall i | 0 <= i < 8 {
        cells[base + 24 + i] := Scrap;
      }
      forall i | 0 <= i < 8 {
        cells[base + 40 + i] := Scrap;
      }
    }

    /** Set after the receive: lengths and flags, and the control data again, behind the payload. */
    method CompleteRecord(base: nat, r: Record)
      requires r.payload != [] && SizesFit(r) && InBuffer(cells.Length, base, ShapeOf(r))
      modifies cells
      ensures forall a: nat :: a < cells.Length ==> cells[a] == CellCompleted(old(cells[..]), base, r, a)
    {
      var p, c := |r.payload|, |r.control|;
      ghost var mem := cells[..];
      forall i | 0 <= i < HEADER_SIZE {
        cells[base + i] := Head(p, c, i);
      }
      assert forall a: nat :: In(a, base + CONTROL_AT, c) ==> cells[a] == mem[a];
      forall i | 0 <= i < c {
        cells[base + PAYLOAD_AT + p + i] := cells[base + CONTROL_AT + i];
      }
    }

    /** Stores the kernel's next message, if it has a payload, and leaves its bytes behind otherwise. */
    method ReceiveAt(kernel: KernelSocket, base: nat) returns (r: Record)
      requires kernel.messages != [] && SizesFit(kernel.messages[0])
      requires InBuffer(cells.Length, base, ShapeOf(kernel.messages[0]))
      modifies cells, kernel
      ensures r == old(kernel.messages)[0] && kernel.messages == old(kernel.messages)[1..]
      ensures cells[..] == After(old(cells[..]), base, false, r)
    {
      ghost var mem := cells[..];
      SetPointers(base);
      ghost var m1 := cells[..];
      r := kernel.ReceiveInto(cells, base);
      ghost var m2 := cells[..];
      if r.payload != [] {
        CompleteRecord(base, r);
      }
      forall a: nat | a < |mem| ensures cells[a] == CellAfter(mem, base, false, r, a) {
        StepsAreRefill(mem, m1, m2, cells[..], base, r, a);
      }
      SameCells(cells, After(mem, base, false, r));
    }

    /** The refilling branch: reserve, receive, store the record, move the tail behind it. */
    method Refill(kernel: KernelSocket, received: bool) returns (delivered: Option<Record>, base: nat, room: bool)
      requires Refillable(Abstract(kernel), received) || (
                 && Layout(queues.View())
                 && DualQueue.Refill(queues.View(), RESERVATION).NoSpace?)
      modifies queues, cells, kernel
      ensures var t := old(Abstract(kernel));
              if DualQueue.Refill(t.q, RESERVATION).NoSpace?
              then !room && delivered == None && Abstract(kernel) == t
              else && room && base == RefillBase(t.q)
                   && delivered == (if received then Some(t.kernel[0]) else None)
                   && Abstract(kernel) == Refilled(t, received)
      ensures room && delivered.Some? && delivered.value.payload != [] ==> Holds(cells[..], base, delivered.value)
    {
      var place;
      place, base := queues.FindRoom(RESERVATION);
      if place == NoSpace {
        return None, base, false;
      }
      if !received {
        ghost var t := Abstract(kernel);
        SetPointers(base);
        SameCells(cells, After(t.mem, base, true, NextMessage(t)));
        return None, base, true;
      }
      ghost var mem := cells[..];
      var r := ReceiveAt(kernel, base);
      if r.payload != [] {
        StoredHolds(mem, base, r);
        queues.MoveTail(place, Len(r));
      }
      return Some(r), base, true;
    }

    /** The last step of the call: what follows the header goes to the caller's vectors, as long as they are. */
    method CopyOut(base: nat, lengths: seq<nat>) returns (parts: seq<Memory>, ret: nat)
      requires base + PAYLOAD_AT + Total(lengths) <= cells.Length
      ensures ret == Total(lengths) && |parts| == |lengths|
      ensures forall i :: 0 <= i < |parts| ==> |parts[i]| == lengths[i]
      ensures Joined(parts) == cells[base + PAYLOAD_AT..base + PAYLOAD_AT + ret]
    {
      var at := base + PAYLOAD_AT;
      ghost var mem := cells[..];
      parts, ret := [], 0;
      for i := 0 to |lengths|
        invariant |parts| == i && ret == Sum(lengths, i) && at + ret <= cells.Length
        invariant forall j :: 0 <= j < i ==> |parts[j]| == lengths[j]
        invariant Joined(parts) == mem[at..at + ret]
      {
        SumAscends(lengths, i + 1, |lengths|);
        var end := at + ret + lengths[i];
        var part := cells[at + ret..end];
        JoinedGrows(mem, parts, part, at, at + ret, end);
        parts, ret := parts + [part], ret + lengths[i];
      }
    }

    /** Snapshot, then consume or refill: the record, and where its header lies if there was room. */
    method Bring(kernel: KernelSocket, received: bool) returns (delivered: Option<Record>, base: nat, room: bool)
      requires Consistent(Abstract(kernel)) && Guard(Abstract(kernel), received)
      modifies queues, cells, kernel
      ensures var (s, e) := (old(Abstract(kernel)), RecvTx(old(Abstract(kernel)), received));
              && Abstract(kernel) == e.s && delivered == e.delivered
              && (room <==> Buffered(Snapshot(s.q)) || !DualQueue.Refill(Snapshot(s.q), RESERVATION).NoSpace?)
              && (room ==> base == RecvBase(Snapshot(s.q)))
      ensures room && delivered.Some? && delivered.value.payload != [] ==> Holds(cells[..], base, delivered.value)
    {
      SnapshotConsistent(Abstract(kernel));
      queues.TakeSnapshot();
      if queues.specPrimaryTail != queues.specPrimaryHead || queues.specSecondaryTail != queues.specSecondaryHead {
        base := if queues.specPrimaryTail != queues.specPrimaryHead then queues.specPrimaryHead
                else queues.specSecondaryHead;
        var r := Consume(kernel);
        return Some(r), base, true;
      }
      delivered, base, room := Refill(kernel, received);
    }

    /**
     A transactional receive, the sentinel being held. It returns the sum of the caller's
     lengths, whatever the kernel has said, unless there is no room.
     */
    method RecvSpeculative(kernel: KernelSocket, received: bool, lengths: seq<nat>)
      returns (delivered: Option<Record>, parts: seq<Memory>, ret: int)
      requires Consistent(Abstract(kernel)) && Guard(Abstract(kernel), received)
      requires RecvBase(Snapshot(queues.View())) + PAYLOAD_AT + Total(lengths) <= cells.Length
      modifies queues, cells, kernel
      ensures var (s, e) := (old(Abstract(kernel)), RecvTx(old(Abstract(kernel)), received));
              && Abstract(kernel) == e.s && delivered == e.delivered
              && Delivers(s, received, delivered, kernel.messages)
              && (ret == -1 <==> !Buffered(Snapshot(s.q)) && DualQueue.Refill(Snapshot(s.q), RESERVATION).NoSpace?)
      ensures ret != -1 ==> ret == Total(lengths) && |parts| == |lengths|
      ensures ret != -1 && delivered.Some? && ret <= |delivered.value.payload| ==>
                Joined(parts) == Raws(delivered.value.payload[..ret])
    {
      RecvDelivers(Abstract(kernel), received);
      var base, room;
      delivered, base, room := Bring(kernel, received);
      if !room {
        return delivered, [], -1;
      }
      parts, ret := CopyOut(base, lengths);
      if delivered.Some? && delivered.value.payload != [] && ret <= |delivered.value.payload| {
        CopiesPayload(cells[..], base, delivered.value, ret);
      }
    }

    /** Takes the first queued record; an emptied primary queue makes room for the secondary one. */
    method TakeDirect(kernel: KernelSocket) returns (r: Record)
      requires Consistent(Abstract(kernel)) && PlainBuffered(queues.View())
      modifies queues
      ensures var s := old(Abstract(kernel));
              Holds(s.mem, PlainHead(s.q), r) && Abstract(kernel) == s.(q := ConsumePlain(s.q, Len(r)))
    {
      PlainFront(Abstract(kernel));
      if queues.primaryTail != queues.primaryHead {
        r := At(cells[..], queues.primaryHead);
        queues.primaryHead := queues.primaryHead + Len(r);
      } else {
        r := At(cells[..], queues.secondaryHead);
        queues.secondaryHead := queues.secondaryHead + Len(r);
        queues.primaryTail := queues.secondaryTail;
        queues.primaryHead := queues.secondaryHead;
        queues.secondaryHead, queues.secondaryTail := 0, 0;
      }
    }

    /**
     A receive outside a retryable transaction, whether or not another one is reading. Without
     queued messages the kernel itself fills the caller's vectors.
     */
    method RecvDirect(kernel: KernelSocket, received: bool, lengths: seq<nat>)
      returns (delivered: Option<Record>, parts: seq<Memory>, ret: int)
      requires Consistent(Abstract(kernel)) && Possible(Abstract(kernel), received)
      requires PlainBuffered(queues.View()) ==>
                 PlainHead(queues.View()) + PAYLOAD_AT + Total(lengths) <= cells.Length
      modifies queues, kernel
      ensures var (s, e) := (old(Abstract(kernel)), RecvPlain(old(Abstract(kernel)), received));
              && Abstract(kernel) == e.s && delivered == e.delivered
              && ret == (if PlainBuffered(s.q) then Total(lengths)
                         else if received then |delivered.value.payload| else -1)
              && (PlainBuffered(s.q) && ret <= |delivered.value.payload| ==>
                    |parts| == |lengths| && Joined(parts) == Raws(delivered.value.payload[..ret]))
    {
      if queues.primaryTail != queues.primaryHead || queues.secondaryTail != queues.secondaryHead {
        var base := if queues.primaryTail != queues.primaryHead then queues.primaryHead else queues.secondaryHead;
        var r := TakeDirect(kernel);
        parts, ret := CopyOut(base, lengths);
        if r.payload != [] && ret <= |r.payload| { CopiesPayload(cells[..], base, r, ret); }
        return Some(r), parts, ret;
      } else if received {
        var r := kernel.Receive();
        return Some(r), [], |r.payload|;
      }
      return None, [], -1;
    }
  }
}
