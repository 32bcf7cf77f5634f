/**
 Transactional datagram reads (src/xcalls/x_recvmsg.c). The buffer is the byte memory of
 module DatagramMemory; the queues are chains of records, each found behind the header of the
 one before it.
 */
module RecvMsg {
  import opened Options
  import opened DualQueue
  import opened DatagramMemory

  datatype State = State(mem: Memory, q: Queues, kernel: seq<Record>)

  /** `received` says whether the kernel hands over its next message or fails. */
  datatype Op = TxRecv(received: bool) | CommitTx | AbortTx | PlainRecv(received: bool)

  datatype History = History(committed: seq<Record>, tentative: seq<Record>)

  // ---------------------------------------------------------------- chains of records

  /** Where the record behind the one at `h` begins. */
  function Behind(mem: Memory, h: nat): (n: nat)
    requires h < |mem| && mem[h].Head?
    ensures h < n
  {
    h + HEADER_SIZE + mem[h].p + mem[h].c
  }

  /** The region lo..hi is a gapless chain of whole records with payload. */
  ghost predicate Parsed(mem: Memory, lo: nat, hi: nat)
    decreases hi - lo
  {
    || lo == hi
    || (lo < hi && Intact(mem, lo) && mem[lo].p > 0 && Behind(mem, lo) <= hi && Parsed(mem, Behind(mem, lo), hi))
  }

  ghost function Records(mem: Memory, lo: nat, hi: nat): seq<Record>
    requires Parsed(mem, lo, hi)
    decreases hi - lo
  {
    if lo == hi then [] else [At(mem, lo)] + Records(mem, Behind(mem, lo), hi)
  }

  /** A refill at `base` writes no byte that a record of the chain needs. */
  ghost predicate Spared(mem: Memory, lo: nat, hi: nat, base: nat, shape: Shape)
    requires Parsed(mem, lo, hi)
    decreases hi - lo
  {
    lo == hi || (Apart(lo, mem[lo].p, mem[lo].c, base, shape) && Spared(mem, Behind(mem, lo), hi, base, shape))
  }

  lemma {:induction false} ParsedOrdered(mem: Memory, lo: nat, hi: nat)
    requires Parsed(mem, lo, hi)
    ensures lo <= hi
    decreases hi - lo
  {
  }

  lemma {:induction false} ParsedJoin(mem: Memory, lo: nat, mid: nat, hi: nat)
    requires Parsed(mem, lo, mid) && Parsed(mem, mid, hi)
    ensures Parsed(mem, lo, hi) && Records(mem, lo, hi) == Records(mem, lo, mid) + Records(mem, mid, hi)
    decreases mid - lo
  {
    ParsedOrdered(mem, mid, hi);
    if lo < mid {
      var next := Behind(mem, lo);
      ParsedJoin(mem, next, mid, hi);
      assert Records(mem, lo, hi) == [At(mem, lo)] + Records(mem, next, hi);
      assert Records(mem, lo, mid) == [At(mem, lo)] + Records(mem, next, mid);
    }
  }

  lemma {:induction false} SparedJoin(mem: Memory, lo: nat, mid: nat, hi: nat, base: nat, shape: Shape)
    requires Parsed(mem, lo, mid) && Parsed(mem, mid, hi) && Parsed(mem, lo, hi)
    ensures Spared(mem, lo, hi, base, shape) <==> Spared(mem, lo, mid, base, shape) && Spared(mem, mid, hi, base, shape)
    decreases mid - lo
  {
    ParsedOrdered(mem, mid, hi);
    if lo < mid {
      SparedJoin(mem, Behind(mem, lo), mid, hi, base, shape);
    }
  }

  /** A spared chain survives the refill. */
  lemma {:induction false} SparedKeepsRecords(mem: Memory, base: nat, failed: bool, r: Record, lo: nat, hi: nat)
    requires Parsed(mem, lo, hi) && Spared(mem, lo, hi, base, ShapeAfter(failed, r))
    ensures Parsed(After(mem, base, failed, r), lo, hi)
    ensures Records(After(mem, base, failed, r), lo, hi) == Records(mem, lo, hi)
    decreases hi - lo
  {
    if lo < hi {
      var m := After(mem, base, failed, r);
      ApartKeeps(mem, base, failed, r, lo);
      SameLengths(m, mem, lo);
      SparedKeepsRecords(mem, base, failed, r, Behind(mem, lo), hi);
    }
  }

  /** Equal records have equal lengths. */
  lemma SameLengths(m: Memory, mem: Memory, h: nat)
    requires Intact(m, h) && Intact(mem, h) && At(m, h) == At(mem, h)
    ensures m[h] == mem[h] && Behind(m, h) == Behind(mem, h)
  {
    assert |At(m, h).payload| == m[h].p && |At(m, h).control| == m[h].c;
    assert |At(mem, h).payload| == mem[h].p && |At(mem, h).control| == mem[h].c;
    assert HeadAt(m, h, m[h].p, m[h].c, h) && HeadAt(mem, h, mem[h].p, mem[h].c, h);
  }

  /** The stored record is a chain of one. */
  lemma NewRecord(mem: Memory, base: nat, r: Record)
    requires r.payload != [] && SizesFit(r) && InBuffer(|mem|, base, ShapeOf(r))
    ensures var m := After(mem, base, false, r);
            Parsed(m, base, base + Len(r)) && Records(m, base, base + Len(r)) == [r]
  {
    var m := After(mem, base, false, r);
    StoredHolds(mem, base, r);
    assert |At(m, base).payload| == m[base].p && |At(m, base).control| == m[base].c;
    assert Behind(m, base) == base + Len(r);
    assert Parsed(m, base + Len(r), base + Len(r));
  }

  // ---------------------------------------------------------------- states

  /** Every head and tail is a record boundary, and secondary is used only when it has to be. */
  ghost predicate Consistent(s: State) {
    var q := s.q;
    && |s.mem| == q.sizeMax && Layout(q) && RESERVATION <= q.sizeMax && FixedSize(q, RESERVATION)
    && if q.speculative then
         && Parsed(s.mem, q.primaryHead, q.specPrimaryHead)
         && Parsed(s.mem, q.specPrimaryHead, q.specPrimaryTail)
         && Parsed(s.mem, q.specPrimaryTail, q.primaryTail)
         && Parsed(s.mem, q.secondaryHead, q.specSecondaryHead)
         && Parsed(s.mem, q.specSecondaryHead, q.specSecondaryTail)
         && Parsed(s.mem, q.specSecondaryTail, q.secondaryTail)
       else
         Parsed(s.mem, q.primaryHead, q.primaryTail) && Parsed(s.mem, q.secondaryHead, q.secondaryTail)
  }

  lemma ConsistentParsed(s: State)
    requires Consistent(s)
    ensures Parsed(s.mem, s.q.primaryHead, s.q.primaryTail) && Parsed(s.mem, s.q.secondaryHead, s.q.secondaryTail)
  {
    var q := s.q;
    if q.speculative {
      ParsedJoin(s.mem, q.primaryHead, q.specPrimaryHead, q.specPrimaryTail);
      ParsedJoin(s.mem, q.primaryHead, q.specPrimaryTail, q.primaryTail);
      ParsedJoin(s.mem, q.secondaryHead, q.specSecondaryHead, q.specSecondaryTail);
      ParsedJoin(s.mem, q.secondaryHead, q.specSecondaryTail, q.secondaryTail);
    }
  }

  ghost function Queued(s: State): seq<Record>
    requires Consistent(s)
  {
    ConsistentParsed(s);
    Records(s.mem, s.q.primaryHead, s.q.primaryTail) + Records(s.mem, s.q.secondaryHead, s.q.secondaryTail)
  }

  /** The queued records the running transaction has been given. */
  ghost function Given(s: State): seq<Record>
    requires Consistent(s)
  {
    ConsistentParsed(s);
    var q := s.q;
    if !q.speculative then []
    else if PrimaryBuffered(q) then Records(s.mem, q.primaryHead, q.specPrimaryHead)
    else if SecondaryBuffered(q) then
      Records(s.mem, q.primaryHead, q.primaryTail) + Records(s.mem, q.secondaryHead, q.specSecondaryHead)
    else Queued(s)
  }

  /** The queued records it has not been given. */
  ghost function Remaining(s: State): seq<Record>
    requires Consistent(s)
  {
    var q := s.q;
    if !q.speculative then Queued(s)
    else if PrimaryBuffered(q) then
      Records(s.mem, q.specPrimaryHead, q.specPrimaryTail) + Records(s.mem, q.specSecondaryHead, q.specSecondaryTail)
    else if SecondaryBuffered(q) then Records(s.mem, q.specSecondaryHead, q.specSecondaryTail)
    else []
  }

  lemma Associates(a: seq<Record>, b: seq<Record>, c: seq<Record>)
    ensures (a + b) + c == a + (b + c)
  {
  }

  lemma GivenAndRemaining(s: State)
    requires Consistent(s)
    ensures Queued(s) == Given(s) + Remaining(s)
  {
    var q := s.q;
    ConsistentParsed(s);
    if q.speculative && PrimaryBuffered(q) {
      ParsedJoin(s.mem, q.primaryHead, q.specPrimaryHead, q.specPrimaryTail);
      assert q.secondaryHead == q.specSecondaryHead && q.secondaryTail == q.specSecondaryTail;
      Associates(Records(s.mem, q.primaryHead, q.specPrimaryHead), Records(s.mem, q.specPrimaryHead, q.specPrimaryTail),
                 Records(s.mem, q.secondaryHead, q.secondaryTail));
    } else if q.speculative && SecondaryBuffered(q) {
      ParsedJoin(s.mem, q.secondaryHead, q.specSecondaryHead, q.specSecondaryTail);
      Associates(Records(s.mem, q.primaryHead, q.primaryTail), Records(s.mem, q.secondaryHead, q.specSecondaryHead),
                 Records(s.mem, q.specSecondaryHead, q.specSecondaryTail));
    }
  }

  ghost function Stream(s: State): seq<Record>
    requires Consistent(s)
  {
    Queued(s) + s.kernel
  }

  // ---------------------------------------------------------------- the operations

  /** What the kernel can answer: an error, or its next message, cut to the sizes asked for. */
  predicate Possible(s: State, received: bool) {
    received ==> s.kernel != [] && SizesFit(s.kernel[0])
  }

  function NextMessage(s: State): Record {
    if s.kernel != [] then s.kernel[0] else Record([], [])
  }

  function RefillBase(q: Queues): nat {
    if Refill(q, RESERVATION).Primary? then q.primaryTail else q.secondaryTail
  }

  /** Where the header lies that a transactional receive works with, after the snapshot. */
  function RecvBase(q: Queues): nat {
    if PrimaryBuffered(q) then q.specPrimaryHead
    else if SecondaryBuffered(q) then q.specSecondaryHead
    else RefillBase(q)
  }

  /** Where the first queued record lies. */
  function PlainHead(q: Queues): nat {
    if q.primaryTail != q.primaryHead then q.primaryHead else q.secondaryHead
  }

  /** The refill stays inside the buffer and writes no byte a queued record needs. */
  ghost predicate SparesQueues(t: State, shape: Shape)
    requires Consistent(t)
  {
    ConsistentParsed(t);
    && Spared(t.mem, t.q.primaryHead, t.q.primaryTail, RefillBase(t.q), shape)
    && Spared(t.mem, t.q.secondaryHead, t.q.secondaryTail, RefillBase(t.q), shape)
  }

  /** The guard of a speculative receive, on the snapshot. */
  ghost predicate Guard(s: State, received: bool)
    requires Consistent(s)
  {
    SnapshotConsistent(s);
    var t := s.(q := Snapshot(s.q));
    var shape := ShapeAfter(!received, NextMessage(s));
    && Possible(s, received)
    && (!Buffered(t.q) ==>
          && FitsLayout(t.q, RESERVATION)
          && (!Refill(t.q, RESERVATION).NoSpace? ==>
                && InBuffer(|t.mem|, RefillBase(t.q), shape) && SparesQueues(t, shape)
                && (received ==> t.kernel[0].payload != [])))
  }

  datatype Effect = Effect(s: State, delivered: Option<Record>)

  function Handed(e: Effect): seq<Record> {
    match e.delivered
    case None => []
    case Some(r) => [r]
  }

  /** The refilling branch: a message without payload is taken but not kept. */
  function Refilled(t: State, received: bool): State
    requires received ==> t.kernel != []
  {
    var r := NextMessage(t);
    State(After(t.mem, RefillBase(t.q), !received, r),
          if received && r.payload != [] then Store(t.q, Refill(t.q, RESERVATION), Len(r)) else t.q,
          if received then t.kernel[1..] else t.kernel)
  }

  function RecvTx(s: State, received: bool): Effect
    requires Consistent(s) && Possible(s, received)
  {
    var t := s.(q := Snapshot(s.q));
    if Buffered(t.q) then
      SnapshotConsistent(s);
      FrontRecord(t);
      var r := At(t.mem, RecvBase(t.q));
      Effect(t.(q := Consume(t.q, Len(r))), Some(r))
    else if Refill(t.q, RESERVATION).NoSpace? then Effect(t, None)
    else Effect(Refilled(t, received), if received then Some(t.kernel[0]) else None)
  }

  function RecvPlain(s: State, received: bool): Effect
    requires Consistent(s) && Possible(s, received)
  {
    if PlainBuffered(s.q) then
      PlainFront(s);
      var r := At(s.mem, PlainHead(s.q));
      Effect(s.(q := ConsumePlain(s.q, Len(r))), Some(r))
    else if !received then Effect(s, None)
    else Effect(s.(kernel := s.kernel[1..]), Some(s.kernel[0]))
  }

  lemma PlainFront(s: State)
    requires Consistent(s) && PlainBuffered(s.q)
    ensures Intact(s.mem, PlainHead(s.q))
  {
    ConsistentParsed(s);
  }

  lemma SnapshotConsistent(s: State)
    requires Consistent(s)
    ensures var t := s.(q := Snapshot(s.q));
            Consistent(t) && Queued(t) == Queued(s) && Given(t) == Given(s) && t.q.speculative
  {
    ConsistentParsed(s);
    var t := s.(q := Snapshot(s.q));
    ConsistentParsed(t);
    if !s.q.speculative && !Buffered(t.q) {
      assert Queued(t) == [];
    }
  }

  lemma FrontRecord(t: State)
    requires Consistent(t) && t.q.speculative && Buffered(t.q)
    ensures Intact(t.mem, RecvBase(t.q))
  {
  }

  // ---------------------------------------------------------------- one operation

  /** The first record behind `h` becomes the last one in front of it. */
  lemma TakeFront(mem: Memory, a: nat, h: nat, e: nat)
    requires Parsed(mem, a, h) && Parsed(mem, h, e) && h < e
    ensures Intact(mem, h)
    ensures var n := h + Len(At(mem, h));
            && n <= e && Parsed(mem, n, e) && Parsed(mem, a, n)
            && Records(mem, a, n) == Records(mem, a, h) + [At(mem, h)]
  {
    var n := Behind(mem, h);
    ParsedOrdered(mem, n, e);
    SingleRecord(mem, h);
    ParsedJoin(mem, a, h, n);
  }

  lemma SingleRecord(mem: Memory, h: nat)
    requires Intact(mem, h) && mem[h].p > 0
    ensures Parsed(mem, h, Behind(mem, h)) && Records(mem, h, Behind(mem, h)) == [At(mem, h)]
  {
    var n := Behind(mem, h);
    assert Parsed(mem, n, n) && Records(mem, n, n) == [];
    assert Records(mem, h, n) == [At(mem, h)] + Records(mem, n, n);
  }

  lemma ConsumeKeepsQueues(q: Queues, n: nat)
    requires Layout(q) && FixedSize(q, RESERVATION) && q.speculative && Buffered(q) && FitsLayout(q, n)
    ensures Layout(Consume(q, n)) && FixedSize(Consume(q, n), RESERVATION)
  {
  }

  lemma PrimaryStaysParsed(t: State, n: nat)
    requires Consistent(t) && t.q.speculative && PrimaryBuffered(t.q) && t.q.specPrimaryHead + n <= t.q.specPrimaryTail
    requires Parsed(t.mem, t.q.primaryHead, t.q.specPrimaryHead + n)
    requires Parsed(t.mem, t.q.specPrimaryHead + n, t.q.specPrimaryTail)
    ensures Consistent(t.(q := Consume(t.q, n))) && Queued(t.(q := Consume(t.q, n))) == Queued(t)
  {
    ConsumeKeepsQueues(t.q, n);
    ConsistentParsed(t);
    ConsistentParsed(t.(q := Consume(t.q, n)));
  }

  lemma ConsumeFromPrimary(t: State)
    requires Consistent(t) && t.q.speculative && PrimaryBuffered(t.q)
    ensures Intact(t.mem, t.q.specPrimaryHead)
    ensures var r := At(t.mem, t.q.specPrimaryHead);
            var t' := t.(q := Consume(t.q, Len(r)));
            && Consistent(t') && Queued(t') == Queued(t) && Given(t') == Given(t) + [r]
  {
    var q := t.q;
    TakeFront(t.mem, q.primaryHead, q.specPrimaryHead, q.specPrimaryTail);
    var r := At(t.mem, q.specPrimaryHead);
    var t' := t.(q := Consume(q, Len(r)));
    PrimaryStaysParsed(t, Len(r));
    if q.specPrimaryHead + Len(r) == q.specPrimaryTail {
      assert q.specSecondaryHead == q.secondaryHead;
      assert Records(t.mem, q.secondaryHead, q.specSecondaryHead) == [];
    }
  }

  lemma ConsumeFromSecondary(t: State)
    requires Consistent(t) && t.q.speculative && !PrimaryBuffered(t.q) && SecondaryBuffered(t.q)
    ensures Intact(t.mem, t.q.specSecondaryHead)
    ensures var r := At(t.mem, t.q.specSecondaryHead);
            var t' := t.(q := Consume(t.q, Len(r)));
            && Consistent(t') && Queued(t') == Queued(t) && Given(t') == Given(t) + [r]
  {
    var q := t.q;
    TakeFront(t.mem, q.secondaryHead, q.specSecondaryHead, q.specSecondaryTail);
    var r := At(t.mem, q.specSecondaryHead);
    var t' := t.(q := Consume(q, Len(r)));
    ConsumeKeepsQueues(q, Len(r));
    ConsistentParsed(t);
    ConsistentParsed(t');
  }

  lemma RefillLayout(t: State)
    requires Consistent(t) && t.q.speculative && !Buffered(t.q) && FitsLayout(t.q, RESERVATION)
    requires !Refill(t.q, RESERVATION).NoSpace?
    ensures Refill(t.q, RESERVATION).Primary? ==> t.q.secondaryHead == t.q.secondaryTail
    ensures Refill(t.q, RESERVATION).Secondary? ==> t.q.secondaryTail + RESERVATION <= t.q.primaryHead
    ensures t.kernel != [] && SizesFit(t.kernel[0]) ==>
              var q := Store(t.q, Refill(t.q, RESERVATION), Len(t.kernel[0]));
              Layout(q) && FixedSize(q, RESERVATION)
  {
    RoomTests(t.q, RESERVATION);
    ReadKeepsLayoutIff(t.q, RESERVATION);
    if t.kernel != [] && SizesFit(t.kernel[0]) {
      var n := Len(t.kernel[0]);
      assert Layout(AfterRead(t.q, RESERVATION, n));
      FixedSizeKeepsOrder(t.q, RESERVATION, n, 0);
    }
  }

  /**
   A queue a..d, of which b..c is what the snapshot has left, as it was in `mem` and as it is in
   `m`, where it ends at `end` and `extra` has been appended.
   */
  ghost predicate Extended(mem: Memory, m: Memory, a: nat, b: nat, c: nat, d: nat, end: nat, extra: seq<Record>) {
    && Parsed(mem, a, d) && Parsed(m, a, b) && Parsed(m, b, c) && Parsed(m, c, end) && Parsed(m, a, end)
    && Records(m, a, end) == Records(mem, a, d) + extra
  }

  lemma KeepChain(mem: Memory, m: Memory, a: nat, b: nat, c: nat, d: nat, base: nat, failed: bool, r: Record)
    requires Parsed(mem, a, b) && Parsed(mem, b, c) && Parsed(mem, c, d) && Parsed(mem, a, d)
    requires Spared(mem, a, d, base, ShapeAfter(failed, r)) && m == After(mem, base, failed, r)
    ensures Extended(mem, m, a, b, c, d, d, [])
  {
    ParsedJoin(mem, a, b, c);
    SparedJoin(mem, a, c, d, base, ShapeAfter(failed, r));
    SparedJoin(mem, a, b, c, base, ShapeAfter(failed, r));
    SparedKeepsRecords(mem, base, failed, r, a, b);
    SparedKeepsRecords(mem, base, failed, r, b, c);
    SparedKeepsRecords(mem, base, failed, r, c, d);
    SparedKeepsRecords(mem, base, failed, r, a, d);
  }

  /** The queue the new message is put behind. */
  lemma GrowChain(mem: Memory, m: Memory, a: nat, b: nat, c: nat, base: nat, end: nat, r: Record)
    requires Parsed(mem, a, b) && Parsed(mem, b, c) && Parsed(mem, c, base) && Parsed(mem, a, base)
    requires Spared(mem, a, base, base, ShapeOf(r)) && m == After(mem, base, false, r) && end == base + Len(r)
    requires r.payload != [] && SizesFit(r) && InBuffer(|mem|, base, ShapeOf(r))
    ensures Extended(mem, m, a, b, c, base, end, [r])
  {
    KeepChain(mem, m, a, b, c, base, base, false, r);
    assert Records(mem, a, base) + [] == Records(mem, a, base);
    ExtendChain(mem, m, a, base, end, r);
    ExtendChain(mem, m, c, base, end, r);
  }

  lemma ExtendChain(mem: Memory, m: Memory, lo: nat, base: nat, end: nat, r: Record)
    requires r.payload != [] && SizesFit(r) && InBuffer(|mem|, base, ShapeOf(r))
    requires m == After(mem, base, false, r) && Parsed(m, lo, base) && end == base + Len(r)
    ensures Parsed(m, lo, end) && Records(m, lo, end) == Records(m, lo, base) + [r]
  {
    NewRecord(mem, base, r);
    ParsedJoin(m, lo, base, end);
  }

  /** What a refill needs: a used-up snapshot, room, and bytes to write that nobody needs. */
  ghost predicate Refillable(t: State, received: bool) {
    && Consistent(t) && t.q.speculative && !Buffered(t.q) && FitsLayout(t.q, RESERVATION)
    && !Refill(t.q, RESERVATION).NoSpace? && Possible(t, received)
    && InBuffer(|t.mem|, RefillBase(t.q), ShapeAfter(!received, NextMessage(t)))
  }

  /** The two queues in `m`, extended by what has been appended to them. */
  ghost predicate BothExtended(t: State, m: Memory, e1: nat, x1: seq<Record>, e2: nat, x2: seq<Record>) {
    var q := t.q;
    && Extended(t.mem, m, q.primaryHead, q.specPrimaryHead, q.specPrimaryTail, q.primaryTail, e1, x1)
    && Extended(t.mem, m, q.secondaryHead, q.specSecondaryHead, q.specSecondaryTail, q.secondaryTail, e2, x2)
  }

  lemma KeepBoth(t: State, m: Memory, base: nat, failed: bool, r: Record)
    requires Consistent(t) && t.q.speculative && m == After(t.mem, base, failed, r)
    requires Parsed(t.mem, t.q.primaryHead, t.q.primaryTail) && Parsed(t.mem, t.q.secondaryHead, t.q.secondaryTail)
    requires Spared(t.mem, t.q.primaryHead, t.q.primaryTail, base, ShapeAfter(failed, r))
    requires Spared(t.mem, t.q.secondaryHead, t.q.secondaryTail, base, ShapeAfter(failed, r))
    ensures BothExtended(t, m, t.q.primaryTail, [], t.q.secondaryTail, [])
  {
    var q := t.q;
    KeepChain(t.mem, m, q.primaryHead, q.specPrimaryHead, q.specPrimaryTail, q.primaryTail, base, failed, r);
    KeepChain(t.mem, m, q.secondaryHead, q.specSecondaryHead, q.specSecondaryTail, q.secondaryTail, base, failed, r);
  }

  lemma SameQueues(t: State, m: Memory)
    requires Consistent(t) && t.q.speculative && |m| == |t.mem|
    requires BothExtended(t, m, t.q.primaryTail, [], t.q.secondaryTail, [])
    ensures Consistent(t.(mem := m)) && Queued(t.(mem := m)) == Queued(t)
  {
  }

  /** A failing refill that spares the queues leaves every record as it was. */
  lemma FailureKeepsQueues(t: State)
    requires Refillable(t, false) && SparesQueues(t, Failed)
    ensures Consistent(Refilled(t, false)) && Queued(Refilled(t, false)) == Queued(t)
  {
    var m := After(t.mem, RefillBase(t.q), true, NextMessage(t));
    ConsistentParsed(t);
    KeepBoth(t, m, RefillBase(t.q), true, NextMessage(t));
    SameQueues(t, m);
  }

  lemma StoringInPrimary(t: State, m: Memory, end: nat, r: Record)
    requires Consistent(t) && t.q.speculative && end == t.q.primaryTail + Len(r)
    requires m == After(t.mem, t.q.primaryTail, false, r)
    requires Parsed(t.mem, t.q.primaryHead, t.q.primaryTail) && Parsed(t.mem, t.q.secondaryHead, t.q.secondaryTail)
    requires Spared(t.mem, t.q.primaryHead, t.q.primaryTail, t.q.primaryTail, ShapeOf(r))
    requires Spared(t.mem, t.q.secondaryHead, t.q.secondaryTail, t.q.primaryTail, ShapeOf(r))
    requires r.payload != [] && SizesFit(r) && InBuffer(|t.mem|, t.q.primaryTail, ShapeOf(r))
    ensures BothExtended(t, m, end, [r], t.q.secondaryTail, [])
  {
    var q := t.q;
    GrowChain(t.mem, m, q.primaryHead, q.specPrimaryHead, q.specPrimaryTail, q.primaryTail, end, r);
    KeepChain(t.mem, m, q.secondaryHead, q.specSecondaryHead, q.specSecondaryTail, q.secondaryTail,
              q.primaryTail, false, r);
  }

  lemma StoringInSecondary(t: State, m: Memory, end: nat, r: Record)
    requires Consistent(t) && t.q.speculative && end == t.q.secondaryTail + Len(r)
    requires m == After(t.mem, t.q.secondaryTail, false, r)
    requires Parsed(t.mem, t.q.primaryHead, t.q.primaryTail) && Parsed(t.mem, t.q.secondaryHead, t.q.secondaryTail)
    requires Spared(t.mem, t.q.primaryHead, t.q.primaryTail, t.q.secondaryTail, ShapeOf(r))
    requires Spared(t.mem, t.q.secondaryHead, t.q.secondaryTail, t.q.secondaryTail, ShapeOf(r))
    requires r.payload != [] && SizesFit(r) && InBuffer(|t.mem|, t.q.secondaryTail, ShapeOf(r))
    ensures BothExtended(t, m, t.q.primaryTail, [], end, [r])
  {
    var q := t.q;
    KeepChain(t.mem, m, q.primaryHead, q.specPrimaryHead, q.specPrimaryTail, q.primaryTail, q.secondaryTail, false, r);
    GrowChain(t.mem, m, q.secondaryHead, q.specSecondaryHead, q.specSecondaryTail, q.secondaryTail, end, r);
  }

  /** Extended chains make a consistent state with the new record at its end. */
  lemma Reassemble(t: State, m: Memory, place: Place, n: nat, e1: nat, x1: seq<Record>, e2: nat, x2: seq<Record>)
    requires Consistent(t) && t.q.speculative && !Buffered(t.q) && |m| == |t.mem| && BothExtended(t, m, e1, x1, e2, x2)
    requires place.Primary? ==> e1 == t.q.primaryTail + n && e2 == t.q.secondaryTail && x2 == []
    requires place.Secondary? ==> e1 == t.q.primaryTail && e2 == t.q.secondaryTail + n && x1 == []
    requires Layout(Store(t.q, place, n)) && FixedSize(Store(t.q, place, n), RESERVATION)
    requires !place.NoSpace? && (place.Primary? ==> t.q.secondaryHead == t.q.secondaryTail)
    ensures var s := State(m, Store(t.q, place, n), t.kernel);
            Consistent(s) && Queued(s) == Queued(t) + if place.Primary? then x1 else x2
  {
    var q := t.q;
    if place.Secondary? {
      Associates(Records(t.mem, q.primaryHead, q.primaryTail), Records(t.mem, q.secondaryHead, q.secondaryTail), x2);
    } else {
      assert Records(t.mem, q.secondaryHead, q.secondaryTail) == [];
    }
  }

  /** What the kernel still has does not matter for the queues. */
  lemma OnlyQueues(s: State, kernel: seq<Record>)
    requires Consistent(s)
    ensures Consistent(s.(kernel := kernel)) && Queued(s.(kernel := kernel)) == Queued(s)
  {
  }

  /** Storing a message keeps every queued record that is spared, and appends the new one. */
  lemma RefillAppends(t: State)
    requires Refillable(t, true) && SparesQueues(t, ShapeOf(t.kernel[0])) && t.kernel[0].payload != []
    ensures var t' := Refilled(t, true);
            && Consistent(t') && Queued(t') == Queued(t) + [t.kernel[0]] && Given(t') == Queued(t')
  {
    var r, m := t.kernel[0], After(t.mem, RefillBase(t.q), false, t.kernel[0]);
    RefillLayout(t);
    ConsistentParsed(t);
    var end := RefillBase(t.q) + Len(r);
    if Refill(t.q, RESERVATION).Primary? {
      StoringInPrimary(t, m, end, r);
      Reassemble(t, m, Primary, Len(r), end, [r], t.q.secondaryTail, []);
    } else {
      StoringInSecondary(t, m, end, r);
      Reassemble(t, m, Secondary, Len(r), t.q.primaryTail, [], end, [r]);
    }
    OnlyQueues(State(m, Store(t.q, Refill(t.q, RESERVATION), Len(r)), t.kernel), t.kernel[1..]);
    UsedUp(Refilled(t, true));
  }

  /** What a running transaction has been given is what an abort has to give back. */
  ghost predicate Account(s: State, h: History, original: seq<Record>) {
    Consistent(s) && h.tentative == Given(s) && h.committed + Stream(s) == original
  }

  /** A receive from the buffer hands out the next record that was queued at the snapshot. */
  lemma TakeConserves(s: State, received: bool)
    requires Consistent(s) && Possible(s, received) && s.q.speculative && Buffered(s.q)
    ensures var e := RecvTx(s, received);
            && Consistent(e.s) && Stream(e.s) == Stream(s) && e.delivered.Some?
            && Given(e.s) == Given(s) + [e.delivered.value]
  {
    if PrimaryBuffered(s.q) { ConsumeFromPrimary(s); } else { ConsumeFromSecondary(s); }
  }

  /** A receive from the kernel hands out its next message. */
  lemma BringConserves(s: State, received: bool)
    requires Consistent(s) && s.q.speculative && !Buffered(s.q) && Guard(s, received)
    ensures var e := RecvTx(s, received);
            && Consistent(e.s) && Stream(e.s) == Stream(s)
            && Given(e.s) == Given(s) + Handed(e)
  {
    if !Refill(s.q, RESERVATION).NoSpace? {
      UsedUp(s);
      if received { RefillConserves(s); } else { FailureConserves(s); }
    }
  }

  lemma OpenRecvConserves(s: State, received: bool)
    requires Consistent(s) && s.q.speculative && Guard(s, received)
    ensures var e := RecvTx(s, received);
            Consistent(e.s) && Stream(e.s) == Stream(s) && Given(e.s) == Given(s) + Handed(e)
  {
    if Buffered(s.q) { TakeConserves(s, received); } else { BringConserves(s, received); }
  }

  /** One transactional receive: the stream is unchanged and its next message is handed out. */
  lemma RecvTxConserves(s: State, received: bool)
    requires Consistent(s) && Guard(s, received)
    ensures var e := RecvTx(s, received);
            && Consistent(e.s) && Stream(e.s) == Stream(s)
            && Given(e.s) == Given(s) + Handed(e)
  {
    var t := s.(q := Snapshot(s.q));
    SnapshotConsistent(s);
    assert RecvTx(s, received) == RecvTx(t, received);
    OpenRecvConserves(t, received);
  }

  /** What a transactional receive hands out, and what it leaves in the kernel. */
  ghost predicate Delivers(s: State, received: bool, delivered: Option<Record>, left: seq<Record>)
    requires Consistent(s)
  {
    var q := Snapshot(s.q);
    if Buffered(q) then
      |Given(s)| < |Queued(s)| && delivered == Some(Queued(s)[|Given(s)|]) && left == s.kernel
    else if received && !Refill(q, RESERVATION).NoSpace? then
      s.kernel != [] && delivered == Some(s.kernel[0]) && left == s.kernel[1..]
    else
      delivered == None && left == s.kernel
  }

  lemma NextInLine(queued: seq<Record>, given: seq<Record>, r: Record, rest: seq<Record>)
    requires queued == given + [r] + rest
    ensures |given| < |queued| && queued[|given|] == r
  {
  }

  lemma TakeDelivers(t: State, received: bool)
    requires Consistent(t) && Possible(t, received) && t.q.speculative && Buffered(t.q)
    ensures var e := RecvTx(t, received);
            && e.s.q.speculative && e.s.kernel == t.kernel && e.delivered.Some?
            && |Given(t)| < |Queued(t)| && Queued(t)[|Given(t)|] == e.delivered.value
  {
    var e := RecvTx(t, received);
    TakeConserves(t, received);
    GivenAndRemaining(e.s);
    SameStream(Queued(e.s), Queued(t), t.kernel);
    NextInLine(Queued(t), Given(t), e.delivered.value, Remaining(e.s));
  }

  lemma SameStream(a: seq<Record>, b: seq<Record>, c: seq<Record>)
    requires a + c == b + c
    ensures a == b
  {
    assert |a + c| == |b + c|;
    assert a == (a + c)[..|a|] && b == (b + c)[..|b|];
  }

  /** The next record queued at the snapshot, or the kernel's next message if there is room for it. */
  lemma RecvDelivers(s: State, received: bool)
    requires Consistent(s) && Guard(s, received)
    ensures var e := RecvTx(s, received);
            e.s.q.speculative && Delivers(s, received, e.delivered, e.s.kernel)
  {
    var t := s.(q := Snapshot(s.q));
    SnapshotConsistent(s);
    if Buffered(t.q) { TakeDelivers(t, received); }
  }

  lemma UsedUp(t: State)
    requires Consistent(t) && t.q.speculative && !Buffered(t.q)
    ensures Given(t) == Queued(t)
  {
  }

  lemma RefillConserves(t: State)
    requires Refillable(t, true) && SparesQueues(t, ShapeOf(t.kernel[0])) && t.kernel[0].payload != []
    ensures var t' := Refilled(t, true);
            && Consistent(t') && Given(t') == Queued(t) + [t.kernel[0]] && Stream(t') == Stream(t)
  {
    RefillAppends(t);
    Associates(Queued(t), [t.kernel[0]], t.kernel[1..]);
    assert t.kernel == [t.kernel[0]] + t.kernel[1..];
  }

  lemma FailureConserves(t: State)
    requires Refillable(t, false) && SparesQueues(t, Failed)
    ensures var t' := Refilled(t, false);
            Consistent(t') && Given(t') == Queued(t) && Stream(t') == Stream(t)
  {
    FailureKeepsQueues(t);
    UsedUp(Refilled(t, false));
  }

  function CommitState(s: State): State {
    s.(q := Commit(s.q))
  }

  function AbortState(s: State): State {
    s.(q := Undo(s.q))
  }

  /** Commit drops exactly the records the transaction was given. */
  lemma CommitDropsGiven(s: State)
    requires Consistent(s) && s.q.speculative
    ensures Consistent(CommitState(s)) && Queued(s) == Given(s) + Queued(CommitState(s))
    ensures Given(CommitState(s)) == [] && CommitState(s).kernel == s.kernel && !CommitState(s).q.speculative
  {
    OthersKeepLayout(s.q, 0);
    FixedSizeKeepsOrder(s.q, RESERVATION, 0, 0);
    GivenAndRemaining(s);
    ConsistentParsed(s);
    var c := CommitState(s);
    if PrimaryBuffered(s.q) {
      assert Parsed(s.mem, c.q.primaryHead, c.q.primaryTail);
      assert Records(s.mem, s.q.secondaryHead, s.q.secondaryTail)
          == Records(s.mem, s.q.specSecondaryHead, s.q.specSecondaryTail);
    }
    assert Queued(c) == Remaining(s);
  }

  lemma AbortKeepsStream(s: State)
    requires Consistent(s)
    ensures Consistent(AbortState(s)) && Queued(AbortState(s)) == Queued(s) && AbortState(s).kernel == s.kernel
    ensures Stream(AbortState(s)) == Stream(s) && Given(AbortState(s)) == [] && !AbortState(s).q.speculative
  {
    OthersKeepLayout(s.q, 0);
    FixedSizeKeepsOrder(s.q, RESERVATION, 0, 0);
    ConsistentParsed(s);
    ConsistentParsed(AbortState(s));
  }

  /** A plain receive takes the first queued record. */
  lemma PlainTakes(s: State, received: bool)
    requires Consistent(s) && Possible(s, received) && !s.q.speculative && PlainBuffered(s.q)
    ensures var e := RecvPlain(s, received);
            && Consistent(e.s) && Given(e.s) == [] && e.delivered.Some? && e.s.kernel == s.kernel
            && Queued(s) == [e.delivered.value] + Queued(e.s)
  {
    var e := RecvPlain(s, received);
    var q := s.q;
    var head := PlainHead(q);
    PlainFront(s);
    var r := At(s.mem, head);
    var end := if q.primaryTail != q.primaryHead then q.primaryTail else q.secondaryTail;
    assert Behind(s.mem, head) == head + Len(r);
    ParsedOrdered(s.mem, head + Len(r), end);
    OthersKeepLayout(q, Len(r));
    FixedSizeKeepsOrder(q, RESERVATION, 0, Len(r));
  }

  lemma NothingQueued(s: State)
    requires Consistent(s) && !PlainBuffered(s.q)
    ensures Queued(s) == [] && Given(s) == []
  {
  }

  lemma RecvPlainConserves(s: State, received: bool)
    requires Consistent(s) && Possible(s, received) && (!s.q.speculative || !PlainBuffered(s.q))
    ensures var e := RecvPlain(s, received);
            && Consistent(e.s) && Given(e.s) == [] && Given(s) == []
            && Handed(e) + Stream(e.s) == Stream(s)
  {
    var e := RecvPlain(s, received);
    if PlainBuffered(s.q) {
      PlainTakes(s, received);
      Associates([e.delivered.value], Queued(e.s), s.kernel);
    } else {
      NothingQueued(s);
      NothingQueued(e.s);
      assert received ==> s.kernel == [s.kernel[0]] + s.kernel[1..];
    }
  }

  /** A plain receive hands out the first queued record, or else the kernel's next message. */
  lemma RecvPlainDelivers(s: State, received: bool)
    requires Consistent(s) && Possible(s, received)
    ensures var e := RecvPlain(s, received);
            && e.s.mem == s.mem && e.s.q.speculative == s.q.speculative
            && (if PlainBuffered(s.q) then
                  Queued(s) != [] && e.delivered == Some(Queued(s)[0]) && e.s.kernel == s.kernel
                else
                  && e.s.q == s.q
                  && (received ==> e.delivered == Some(s.kernel[0]) && e.s.kernel == s.kernel[1..])
                  && (!received ==> e.delivered == None && e.s.kernel == s.kernel))
  {
    if PlainBuffered(s.q) {
      ConsistentParsed(s);
      PlainFront(s);
    }
  }

  lemma PlainShortens(s: State, received: bool)
    requires Consistent(s) && Possible(s, received) && PlainBuffered(s.q) && Consistent(RecvPlain(s, received).s)
    ensures |Queued(RecvPlain(s, received).s)| + 1 == |Queued(s)|
  {
    var q, e := s.q, RecvPlain(s, received).s;
    PlainFront(s);
    ConsistentParsed(s);
    ConsistentParsed(e);
    if q.primaryTail != q.primaryHead {
      assert Records(e.mem, e.q.secondaryHead, e.q.secondaryTail) == Records(s.mem, q.secondaryHead, q.secondaryTail);
    }
  }

  lemma GivenShrinks(s: State, s2: State)
    requires Consistent(s) && Consistent(s2) && |Queued(s2)| < |Queued(s)| && Remaining(s2) == Remaining(s)
    ensures |Given(s2)| < |Given(s)|
  {
    GivenAndRemaining(s);
    GivenAndRemaining(s2);
  }

  /** Behind the back of a running transaction a plain receive takes a record it may have been given. */
  lemma PlainTakesTooEarly(s: State, received: bool)
    requires Consistent(s) && Possible(s, received) && s.q.speculative && PlainBuffered(s.q)
    ensures var e := RecvPlain(s, received);
            Consistent(e.s) ==> |Given(e.s)| < |Given(s)|
  {
    var e := RecvPlain(s, received);
    if Consistent(e.s) {
      PlainShortens(s, received);
      GivenShrinks(s, e.s);
    }
  }

  /** A plain receive keeps the account if and only if no transaction is reading or nothing is queued. */
  lemma PlainRecvKeepsAccountIff(s: State, received: bool, h: History, original: seq<Record>)
    requires Account(s, h, original) && Possible(s, received)
    ensures var e := RecvPlain(s, received);
            Account(e.s, h.(committed := h.committed + Handed(e)), original) <==>
            !s.q.speculative || !PlainBuffered(s.q)
  {
    var e := RecvPlain(s, received);
    if s.q.speculative && PlainBuffered(s.q) {
      PlainTakesTooEarly(s, received);
    } else {
      RecvPlainConserves(s, received);
      Associates(h.committed, Handed(e), Stream(e.s));
    }
  }

  // ---------------------------------------------------------------- whole runs

  ghost predicate Allowed(s: State, op: Op) {
    Consistent(s) &&
    match op
    case TxRecv(received) => Guard(s, received)
    case CommitTx => s.q.speculative
    case AbortTx => s.q.speculative
    case PlainRecv(received) => Possible(s, received) && (!s.q.speculative || !PlainBuffered(s.q))
  }

  ghost function Apply(s: State, op: Op): State
    requires Allowed(s, op)
  {
    match op
    case TxRecv(received) => RecvTx(s, received).s
    case CommitTx => CommitState(s)
    case AbortTx => AbortState(s)
    case PlainRecv(received) => RecvPlain(s, received).s
  }

  ghost function Observe(s: State, op: Op, h: History): History
    requires Allowed(s, op)
  {
    match op
    case TxRecv(received) =>
      h.(tentative := h.tentative + Handed(RecvTx(s, received)))
    case CommitTx => History(h.committed + h.tentative, [])
    case AbortTx => h.(tentative := [])
    case PlainRecv(received) =>
      h.(committed := h.committed + Handed(RecvPlain(s, received)))
  }

  lemma OpKeepsAccount(s: State, op: Op, h: History, original: seq<Record>)
    requires Allowed(s, op) && Account(s, h, original)
    ensures Account(Apply(s, op), Observe(s, op, h), original)
  {
    match op
    case TxRecv(received) => RecvTxConserves(s, received);
    case CommitTx =>
      CommitDropsGiven(s);
      Associates(h.tentative, Queued(CommitState(s)), s.kernel);
      Associates(h.committed, h.tentative, Stream(CommitState(s)));
    case AbortTx => AbortKeepsStream(s);
    case PlainRecv(received) => PlainRecvKeepsAccountIff(s, received, h, original);
  }

  ghost predicate AllowedRun(s: State, ops: seq<Op>)
    decreases |ops|
  {
    ops == [] || (Allowed(s, ops[0]) && AllowedRun(Apply(s, ops[0]), ops[1..]))
  }

  ghost function RunState(s: State, ops: seq<Op>): State
    requires AllowedRun(s, ops)
    decreases |ops|
  {
    if ops == [] then s else RunState(Apply(s, ops[0]), ops[1..])
  }

  ghost function RunHistory(s: State, ops: seq<Op>, h: History): History
    requires AllowedRun(s, ops)
    decreases |ops|
  {
    if ops == [] then h else RunHistory(Apply(s, ops[0]), ops[1..], Observe(s, ops[0], h))
  }

  /**
   Over any run in which every refill meets its guard, the messages consumed for good followed
   by the buffered ones and those in the kernel are the original sequence of messages, byte by
   byte, and a running transaction has been given exactly the next ones.
   */
  lemma {:induction false} RunKeepsAccount(s: State, ops: seq<Op>, h: History, original: seq<Record>)
    requires AllowedRun(s, ops) && Account(s, h, original)
    ensures Account(RunState(s, ops), RunHistory(s, ops, h), original)
    decreases |ops|
  {
    if ops != [] {
      OpKeepsAccount(s, ops[0], h, original);
      RunKeepsAccount(Apply(s, ops[0]), ops[1..], Observe(s, ops[0], h), original);
    }
  }

  lemma FreshBufferAccounts(mem: Memory, kernel: seq<Record>)
    requires |mem| == TXC_BUFFER_CIRCULAR_SIZE
    ensures Account(State(mem, Empty(TXC_BUFFER_CIRCULAR_SIZE), kernel), History([], []), kernel)
  {
  }

  // ---------------------------------------------------------------- when a refill conserves the messages

  /** Aborting after the refill leaves all messages to be received, in their order. */
  ghost predicate Conserves(t: State, received: bool)
    requires Consistent(t) && (received ==> t.kernel != [])
  {
    var a := AbortState(Refilled(t, received));
    Consistent(a) && Stream(a) == Stream(t)
  }

  /** The same situation with other bytes in the messages. */
  ghost predicate SameSizes(t: State, u: State) {
    && u.q == t.q && |u.mem| == |t.mem| && |u.kernel| == |t.kernel|
    && (forall a: nat :: a < |t.mem| ==> SameKind(t.mem, u.mem, a))
    && (t.kernel != [] ==> SameSize(u.kernel[0], |t.kernel[0].payload|, |t.kernel[0].control|))
  }

  predicate SameKind(m: Memory, n: Memory, a: nat)
    requires a < |m| == |n|
  {
    n[a] == m[a] || (m[a].Raw? && n[a].Raw?)
  }

  /** Chains depend on headers only. */
  lemma {:induction false} SameKindParsed(m: Memory, n: Memory, lo: nat, hi: nat, base: nat, shape: Shape)
    requires |m| == |n| && Parsed(m, lo, hi) && forall a: nat :: a < |m| ==> SameKind(m, n, a)
    ensures Parsed(n, lo, hi) && (Spared(n, lo, hi, base, shape) <==> Spared(m, lo, hi, base, shape))
    decreases hi - lo
  {
    if lo < hi {
      SameKindIntact(m, n, lo);
      SameKindParsed(m, n, Behind(m, lo), hi, base, shape);
    }
  }

  lemma SameKindIntact(m: Memory, n: Memory, h: nat)
    requires |m| == |n| && Intact(m, h) && forall a: nat :: a < |m| ==> SameKind(m, n, a)
    ensures Intact(n, h) && n[h] == m[h]
  {
    var p, c := m[h].p, m[h].c;
    assert SameKind(m, n, h);
    forall a: nat | In(a, h, HEADER_SIZE) ensures HeadAt(n, h, p, c, a) {
      assert HeadAt(m, h, p, c, a) && SameKind(m, n, a);
    }
    forall a: nat | In(a, h + PAYLOAD_AT, p) ensures RawAt(n, a) {
      assert RawAt(m, a) && SameKind(m, n, a);
    }
    forall a: nat | In(a, h + CONTROL_AT, c) ensures RawAt(n, a) {
      assert RawAt(m, a) && SameKind(m, n, a);
    }
  }

  /** All data bytes zero. */
  function Zeroed(m: Memory): (n: Memory)
    ensures |n| == |m|
  {
    seq(|m|, a requires 0 <= a < |m| => if m[a].Raw? then Raw(0) else m[a])
  }

  lemma ZeroedHolds(m: Memory, h: nat)
    requires Intact(m, h)
    ensures Holds(Zeroed(m), h, Filled(m[h].p, m[h].c, 0))
  {
    var n, p, c := Zeroed(m), m[h].p, m[h].c;
    forall a: nat | a < |m| ensures SameKind(m, n, a) { }
    SameKindIntact(m, n, h);
    forall a: nat | In(a, h + PAYLOAD_AT, p) ensures n[a] == Raw(0) { assert RawAt(m, a); }
    forall a: nat | In(a, h + CONTROL_AT, c) ensures n[a] == Raw(0) { assert RawAt(m, a); }
    DataIs(n, h + PAYLOAD_AT, p, Filled(p, c, 0).payload);
    DataIs(n, h + CONTROL_AT, c, Filled(p, c, 0).control);
  }

  /** If all records of zeros survive a refill of ones, the chain was spared. */
  lemma {:induction false} SurvivalIsSpared(m: Memory, base: nat, failed: bool, r: Record, lo: nat, hi: nat, hi2: nat,
                                            rest: seq<Record>, rest2: seq<Record>)
    requires Parsed(m, lo, hi) && r == Filled(|r.payload|, |r.control|, 1) && (base < lo || hi <= base)
    requires forall h: nat :: Intact(m, h) ==> Holds(m, h, Filled(m[h].p, m[h].c, 0))
    requires var n := After(m, base, failed, r);
             Parsed(n, lo, hi2) && hi <= hi2 && Records(n, lo, hi2) + rest2 == Records(m, lo, hi) + rest
    ensures Spared(m, lo, hi, base, ShapeAfter(failed, r))
    ensures var n := After(m, base, failed, r);
            Parsed(n, hi, hi2) && Records(n, hi, hi2) + rest2 == rest
    decreases hi - lo
  {
    var n := After(m, base, failed, r);
    if lo < hi {
      var x, y := Records(m, lo, hi) + rest, Records(n, lo, hi2) + rest2;
      assert x[0] == At(m, lo) && y[0] == At(n, lo);
      SameLengths(n, m, lo);
      var next := Behind(m, lo);
      assert x[1..] == Records(m, next, hi) + rest && y[1..] == Records(n, next, hi2) + rest2;
      assert Holds(n, lo, Filled(m[lo].p, m[lo].c, 0));
      ParsedOrdered(m, next, hi);
      if !Apart(lo, m[lo].p, m[lo].c, base, ShapeAfter(failed, r)) {
        var a: nat :| Needed(lo, m[lo].p, m[lo].c, a) && Written(base, ShapeAfter(failed, r), a);
        OverlapChanges(m, lo, m[lo].p, m[lo].c, base, failed, r, a);
      }
      SurvivalIsSpared(m, base, failed, r, next, hi, hi2, rest, rest2);
    }
  }

  lemma SameSizesConsistent(t: State, u: State)
    requires Consistent(t) && t.q.speculative && SameSizes(t, u)
    ensures Consistent(u)
    ensures forall shape :: SparesQueues(u, shape) <==> SparesQueues(t, shape)
  {
    var q := t.q;
    ConsistentParsed(t);
    SameKindParsed(t.mem, u.mem, q.primaryHead, q.specPrimaryHead, 0, Failed);
    SameKindParsed(t.mem, u.mem, q.specPrimaryHead, q.specPrimaryTail, 0, Failed);
    SameKindParsed(t.mem, u.mem, q.specPrimaryTail, q.primaryTail, 0, Failed);
    SameKindParsed(t.mem, u.mem, q.secondaryHead, q.specSecondaryHead, 0, Failed);
    SameKindParsed(t.mem, u.mem, q.specSecondaryHead, q.specSecondaryTail, 0, Failed);
    SameKindParsed(t.mem, u.mem, q.specSecondaryTail, q.secondaryTail, 0, Failed);
    forall shape ensures SparesQueues(u, shape) <==> SparesQueues(t, shape) {
      SameKindParsed(t.mem, u.mem, q.primaryHead, q.primaryTail, RefillBase(q), shape);
      SameKindParsed(t.mem, u.mem, q.secondaryHead, q.secondaryTail, RefillBase(q), shape);
    }
  }

  /** The refill writes no byte a queued record needs, and what it receives has a payload. */
  ghost predicate Spares(t: State, received: bool)
    requires Consistent(t) && Possible(t, received)
  {
    SparesQueues(t, ShapeAfter(!received, NextMessage(t))) && (received ==> t.kernel[0].payload != [])
  }

  lemma SameSizesSpare(t: State, u: State, received: bool)
    requires Refillable(t, received) && SameSizes(t, u)
    ensures Refillable(u, received) && (Spares(u, received) <==> Spares(t, received))
  {
    SameSizesConsistent(t, u);
    assert ShapeAfter(!received, NextMessage(u)) == ShapeAfter(!received, NextMessage(t));
  }

  lemma SparingConserves(u: State, received: bool)
    requires Refillable(u, received) && Spares(u, received)
    ensures Conserves(u, received)
  {
    if received { RefillConserves(u); } else { FailureConserves(u); }
    AbortKeepsStream(Refilled(u, received));
  }

  /** The situation in which every overlap shows: queued data are zeros, the message is ones. */
  function Telling(t: State): State {
    State(Zeroed(t.mem), t.q,
          if t.kernel == [] then []
          else [Filled(|t.kernel[0].payload|, |t.kernel[0].control|, 1)] + t.kernel[1..])
  }

  lemma TellingIs(t: State)
    ensures SameSizes(t, Telling(t))
    ensures NextMessage(Telling(t)) == Filled(|NextMessage(t).payload|, |NextMessage(t).control|, 1)
    ensures var m := Telling(t).mem; forall h: nat :: Intact(m, h) ==> Holds(m, h, Filled(m[h].p, m[h].c, 0))
  {
    var m := Telling(t).mem;
    assert Zeroed(m) == m;
    forall h: nat | Intact(m, h) ensures Holds(m, h, Filled(m[h].p, m[h].c, 0)) {
      ZeroedHolds(m, h);
    }
  }

  lemma ConservingIsSpared(u: State, received: bool)
    requires Refillable(u, received) && NextMessage(u) == Filled(|NextMessage(u).payload|, |NextMessage(u).control|, 1)
    requires forall h: nat :: Intact(u.mem, h) ==> Holds(u.mem, h, Filled(u.mem[h].p, u.mem[h].c, 0))
    requires Conserves(u, received)
    ensures Spares(u, received)
  {
    var q, r, base := u.q, NextMessage(u), RefillBase(u.q);
    var a := AbortState(Refilled(u, received));
    ConsistentParsed(u);
    RefillLayout(u);
    var x2 := Records(u.mem, q.secondaryHead, q.secondaryTail);
    var y2 := Records(a.mem, a.q.secondaryHead, a.q.secondaryTail);
    Associates(Records(u.mem, q.primaryHead, q.primaryTail), x2, u.kernel);
    Associates(Records(a.mem, q.primaryHead, a.q.primaryTail), y2, a.kernel);
    SurvivalIsSpared(u.mem, base, !received, r, q.primaryHead, q.primaryTail, a.q.primaryTail,
                     x2 + u.kernel, y2 + a.kernel);
    if Refill(q, RESERVATION).Secondary? {
      assert y2 + a.kernel == x2 + u.kernel;
      SurvivalIsSpared(u.mem, base, !received, r, q.secondaryHead, q.secondaryTail, a.q.secondaryTail,
                       u.kernel, a.kernel);
    }
  }

  /**
   A refill followed by an abort leaves all messages to be received, whatever bytes they
   consist of, if and only if it writes no byte a queued record needs and what it has
   received has a payload.
   */
  lemma RefillConservesIff(t: State, received: bool)
    requires Refillable(t, received)
    ensures (forall u: State :: Consistent(u) && SameSizes(t, u) ==> Conserves(u, received)) <==> Spares(t, received)
  {
    if Spares(t, received) {
      forall u: State | Consistent(u) && SameSizes(t, u) ensures Conserves(u, received) {
        SameSizesSpare(t, u, received);
        SparingConserves(u, received);
      }
    } else {
      TellingIs(t);
      SameSizesSpare(t, Telling(t), received);
      if Conserves(Telling(t), received) { ConservingIsSpared(Telling(t), received); }
    }
  }

  /** A refill whose header still lies in front of the first queued payload spares everything. */
  lemma {:induction false} ShortQueueIsSpared(mem: Memory, lo: nat, hi: nat, base: nat, p: nat, c: nat)
    requires Parsed(mem, lo, hi) && hi <= base && base + HEADER_SIZE <= lo + PAYLOAD_AT
    requires p <= TXC_DGRAM_MAX_SIZE && c <= TXC_CONTROLMSG_MAX_SIZE
    ensures Spared(mem, lo, hi, base, Message(p, c))
    decreases hi - lo
  {
    if lo < hi {
      ParsedOrdered(mem, Behind(mem, lo), hi);
      ShortQueueIsSpared(mem, Behind(mem, lo), hi, base, p, c);
    }
  }

  lemma FirstMessageStored(mem: Memory, first: Record, second: Record)
    requires |mem| == TXC_BUFFER_CIRCULAR_SIZE && first == Filled(4000, 0, 0) && second == Filled(1, 0, 1)
    ensures var s := State(mem, Empty(TXC_BUFFER_CIRCULAR_SIZE), [first, second]);
            Consistent(s) && Guard(s, true)
            && var q := Queues(TXC_BUFFER_CIRCULAR_SIZE, 0, 4056, 0, 0, 0, 0, 0, 0, true);
               RecvTx(s, true).s == State(After(mem, 0, false, first), q, [second])
  {
  }

  lemma SecondMessageStored(s: State, second: Record)
    requires s.q == Queues(TXC_BUFFER_CIRCULAR_SIZE, 0, 4056, 0, 0, 0, 0, 0, 0, true) && Consistent(s)
    requires s.kernel == [second] && second == Filled(1, 0, 1)
    ensures Possible(s, true)
    ensures RecvTx(s, true).s.mem == After(s.mem, 4056, false, second)
    ensures RecvTx(s, true).s.q.primaryHead == 0 && RecvTx(s, true).s.q.primaryTail == 4113
  {
    assert RefillBase(s.q) == 4056;
  }

  /**
   Two messages, the first of 4000 bytes: the header of the second is written into the
   payload of the first, so after an abort the first cannot be received again.
   */
  lemma SecondMessageDestroysFirst(mem: Memory)
    requires |mem| == TXC_BUFFER_CIRCULAR_SIZE
    ensures var first, second := Filled(4000, 0, 0), Filled(1, 0, 1);
            var s := State(mem, Empty(TXC_BUFFER_CIRCULAR_SIZE), [first, second]);
            Consistent(s) && Guard(s, true)
            && var s1 := RecvTx(s, true).s;
               Consistent(s1) && Queued(s1) == [first] && Possible(s1, true)
               && var s2 := AbortState(RecvTx(s1, true).s);
                  s2.q.primaryHead == 0 && s2.q.primaryTail == 4113 && !Holds(s2.mem, 0, first)
  {
    var first, second := Filled(4000, 0, 0), Filled(1, 0, 1);
    FirstMessageStored(mem, first, second);
    var s := State(mem, Empty(TXC_BUFFER_CIRCULAR_SIZE), [first, second]);
    RecvTxConserves(s, true);
    var s1 := RecvTx(s, true).s;
    assert Stream(s1) == [first, second] && s1.kernel == [second];
    assert Queued(s1) == Stream(s1)[..1];
    SecondMessageStored(s1, second);
    StoredHolds(mem, 0, first);
    OverlapChanges(s1.mem, 0, 4000, 0, 4056, false, second, 4056);
  }
}
