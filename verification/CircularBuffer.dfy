/**
 The buffer and the pipe calls as the library runs them: fields and bytes updated in place
 (src/core/buffer.c, src/xcalls/x_read_pipe.c), proved against module ReadPipe.
 */
module CircularBuffer {
  import opened DualQueue
  import opened ReadPipe

  /** The read end inside the kernel. */
  class KernelPipe {
    var data: seq<bv8>

    constructor (data: seq<bv8>)
      ensures this.data == data
    {
      this.data := data;
    }

    /** read(2): fails, or copies the next `granted` bytes to `buf` from `base` on. */
    method Read(buf: array<bv8>, base: nat, granted: int)
      requires -1 <= granted <= |data| && base + granted <= buf.Length
      modifies this, buf
      ensures granted <= 0 ==> data == old(data) && buf[..] == old(buf[..])
      ensures granted > 0 ==>
                data == old(data)[granted..] && buf[..] == Overwrite(old(buf[..]), base, old(data)[..granted])
    {
      if granted > 0 {
        forall i | 0 <= i < granted {
          buf[base + i] := data[i];
        }
        data := data[granted..];
      }
    }
  }

  lemma CopiedPrefix(mem: seq<bv8>, base: nat, n: nat, k: int)
    requires base + n <= |mem| && k <= n
    ensures 0 <= k ==> mem[base..base + k] <= mem[base..base + n]
  {
  }

  class Buffer {
    const sizeMax: nat
    const buf: array<bv8>
    var primaryHead: nat
    var primaryTail: nat
    var secondaryHead: nat
    var secondaryTail: nat
    var specPrimaryHead: nat
    var specPrimaryTail: nat
    var specSecondaryHead: nat
    var specSecondaryTail: nat
    var speculative: bool

    ghost function View(): Queues
      reads this
    {
      Queues(sizeMax, primaryHead, primaryTail, secondaryHead, secondaryTail,
             specPrimaryHead, specPrimaryTail, specSecondaryHead, specSecondaryTail, speculative)
    }

    ghost function Abstract(kernel: KernelPipe): State
      reads this, buf, kernel
    {
      State(buf[..], View(), kernel.data)
    }

    constructor (size: nat)
      requires size <= INT_MAX
      ensures fresh(buf) && View() == Empty(size) && buf.Length == size
    {
      sizeMax := size;
      buf := new bv8[size];
      primaryHead, primaryTail, secondaryHead, secondaryTail := 0, 0, 0, 0;
      specPrimaryHead, specPrimaryTail, specSecondaryHead, specSecondaryTail := 0, 0, 0, 0;
      speculative := false;
    }

    /** x_read_pipe_undo. */
    method UndoAction()
      modifies this`speculative
      ensures View() == Undo(old(View())) && !speculative
    {
      speculative := false;
    }

    /** x_read_pipe_commit. */
    method CommitAction()
      modifies this
      ensures View() == Commit(old(View())) && !speculative
    {
      if specPrimaryTail != specPrimaryHead {
        primaryHead := specPrimaryHead;
        primaryTail := specPrimaryTail;
      } else if specSecondaryTail != specSecondaryHead {
        primaryHead := specSecondaryHead;
        primaryTail := specSecondaryTail;
        secondaryHead, secondaryTail := 0, 0;
      } else {
        primaryHead, primaryTail := 0, 0;
        secondaryHead, secondaryTail := 0, 0;
      }
      speculative := false;
    }

    /** The first read of a transaction takes the snapshot (and registers the two actions). */
    method TakeSnapshot()
      modifies this
      ensures View() == Snapshot(old(View())) && speculative
    {
      if !speculative {
        specPrimaryHead := primaryHead;
        specPrimaryTail := primaryTail;
        specSecondaryHead := secondaryHead;
        specSecondaryTail := secondaryTail;
        speculative := true;
      }
    }

    /** The consuming branch: which bytes, and the speculative head moved. */
    method ConsumeSpeculative(n: nat) returns (base: nat)
      requires speculative && Buffered(View())
      modifies this
      ensures View() == Consume(old(View()), n) && base == ReadBase(old(View()), n)
    {
      if specPrimaryTail != specPrimaryHead {
        base := specPrimaryHead;
        specPrimaryHead := specPrimaryHead + n;
      } else {
        base := specSecondaryHead;
        specSecondaryHead := specSecondaryHead + n;
      }
    }

    /** The two room tests, which are on unsigned ints. */
    method FindRoom(n: nat) returns (place: Place, base: nat)
      requires Layout(View()) && n <= INT_MAX
      ensures place == Refill(View(), n)
      ensures base == if place.Primary? then primaryTail else secondaryTail
    {
      if primaryTail < U32(sizeMax - n) {
        return Primary, primaryTail;
      } else if secondaryTail < U32(primaryHead + 1 - n) {
        return Secondary, secondaryTail;
      }
      return NoSpace, secondaryTail;
    }

    /** The tail of the queue that was refilled. */
    method MoveTail(place: Place, granted: nat)
      requires !place.NoSpace?
      modifies this
      ensures View() == Store(old(View()), place, granted)
    {
      if place.Primary? {
        primaryTail := primaryTail + granted;
      } else {
        secondaryTail := secondaryTail + granted;
      }
    }

    /** The refilling branch: find room, read from the kernel into it, move the tail. */
    method RefillSpeculative(kernel: KernelPipe, n: nat, granted: int) returns (ret: int, base: nat, found: bool)
      requires Consistent(Abstract(kernel)) && !Buffered(View())
      requires n <= INT_MAX && FitsLayout(View(), n) && -1 <= granted <= n && granted <= |kernel.data|
      modifies this, buf, kernel
      ensures base == ReadBase(old(View()), n) && found == !Refill(old(View()), n).NoSpace?
      ensures found ==> base + n <= buf.Length && ret == granted
      ensures !found ==> ret == -1
      ensures Abstract(kernel) ==
              if found && granted > 0
              then Refilled(old(Abstract(kernel)), n, old(kernel.data)[..granted])
              else old(Abstract(kernel))
    {
      var place;
      place, base := FindRoom(n);
      found := place != NoSpace;
      if !found {
        return -1, base, false;
      }
      RoomTests(View(), n);
      kernel.Read(buf, base, granted);
      ret := granted;
      if ret > 0 {
        MoveTail(place, ret);
      }
    }

    /**
     __txc_read_pipe in a retryable transaction, the sentinel being held: snapshot, then
     consume or refill, then copy n bytes out; `granted` is the kernel's answer.
     */
    method ReadSpeculative(kernel: KernelPipe, n: nat, granted: int) returns (ret: int, out: seq<bv8>)
      requires Consistent(Abstract(kernel)) && Guard(Abstract(kernel), n, granted)
      modifies this, buf, kernel
      ensures var e := ReadTx(old(Abstract(kernel)), n, granted);
              Abstract(kernel) == e.s && ret == e.ret && e.data <= out
      ensures Delivers(old(Abstract(kernel)), n, granted, ret, out, kernel.data)
    {
      ghost var s := Abstract(kernel);
      TakeSnapshot();
      var base;
      if specPrimaryTail != specPrimaryHead || specSecondaryTail != specSecondaryHead {
        base := ConsumeSpeculative(n);
        ret := n;
      } else {
        ghost var mem, data := buf[..], kernel.data;
        var found;
        ret, base, found := RefillSpeculative(kernel, n, granted);
        if !found {
          DeliversWhatItSays(s, n, granted, []);
          return ret, [];
        }
        if ret > 0 { OverwriteIs(mem, base, data[..granted], base, base); }
      }
      out := buf[base..base + n];
      CopiedPrefix(buf[..], base, n, ret);
      DeliversWhatItSays(s, n, granted, out);
    }

    /**
     __txc_read_pipe outside a retryable transaction, whether or not another one is reading.
     The source leaves the returned value
     unset after a buffered read; the model returns the requested size.
     */
    method ReadDirect(kernel: KernelPipe, n: nat, granted: int) returns (ret: int, out: seq<bv8>)
      requires Consistent(Abstract(kernel)) && PlainDefined(Abstract(kernel), n, granted)
      modifies this, kernel
      ensures var e := ReadPlain(old(Abstract(kernel)), n, granted);
              Abstract(kernel) == e.s && ret == e.ret && out == e.data
      ensures var got := if PlainBuffered(old(View())) then n else granted;
              ret == got && |out| == (if got < 0 then 0 else got)
      ensures var all := old(Queued(Abstract(kernel)));
              PlainBuffered(old(View())) && PlainGuard(old(View()), n) && n <= |all| ==> out == all[..n]
      ensures !PlainBuffered(old(View())) ==> old(kernel.data) == out + kernel.data
    {
      PlainReturns(Abstract(kernel), n, granted);
      if primaryTail != primaryHead || secondaryTail != secondaryHead {
        var base;
        if primaryTail != primaryHead {
          base := primaryHead;
          primaryHead := primaryHead + n;
        } else {
          base := secondaryHead;
          secondaryHead := secondaryHead + n;
          primaryTail := secondaryTail;
          primaryHead := secondaryHead;
          secondaryHead, secondaryTail := 0, 0;
        }
        ret := n;
        out := buf[base..base + n];
      } else {
        ret := granted;
        out := if granted > 0 then kernel.data[..granted] else [];
        kernel.data := if granted > 0 then kernel.data[granted..] else kernel.data;
      }
    }
  }
}
