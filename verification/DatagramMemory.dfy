/**
 How x_recvmsg lays out a record in the buffer (src/xcalls/x_recvmsg.c:283-319). The offsets
 of payload and control data are added to a pointer to headers, so they are multiplied by the
 size of a header: a record is scattered over the buffer, while the tail moves behind the
 record as if it were contiguous. This module says which bytes a refill writes, which bytes a
 queued record needs, and when the one spares the other.
 */
module DatagramMemory {
  const HEADER_SIZE: nat := 56
  const TXC_DGRAM_MAX_SIZE: nat := 1024 * 64
  const TXC_CONTROLMSG_MAX_SIZE: nat := 1024 * 2

  /** What every refill reserves, whatever the message turns out to be. */
  const RESERVATION: nat := HEADER_SIZE + TXC_DGRAM_MAX_SIZE + TXC_CONTROLMSG_MAX_SIZE

  /** Where payload and control data go, counted from the header. */
  const PAYLOAD_AT: nat := HEADER_SIZE * HEADER_SIZE
  const CONTROL_AT: nat := (HEADER_SIZE + TXC_DGRAM_MAX_SIZE) * HEADER_SIZE

  /**
   One byte of the buffer: data, or byte `i` of the header of a record with these lengths, or
   a header byte of a receive that stored no record.
   */
  datatype Cell = Raw(b: bv8) | Head(p: nat, c: nat, i: nat) | Scrap

  type Memory = seq<Cell>

  datatype Record = Record(payload: seq<bv8>, control: seq<bv8>)

  /** How far the tail moves. */
  function Len(r: Record): nat {
    HEADER_SIZE + |r.payload| + |r.control|
  }

  /** What comes of a receive into the buffer: an error, a message without payload, a stored message. */
  datatype Shape = Failed | Bare(c: nat) | Message(p: nat, c: nat)

  function ShapeOf(r: Record): Shape {
    if r.payload == [] then Bare(|r.control|) else Message(|r.payload|, |r.control|)
  }

  predicate In(a: int, lo: nat, n: nat) {
    lo <= a < lo + n
  }

  /** The bytes that have to stay for the record at `h` to be delivered. */
  predicate Needed(h: nat, p: nat, c: nat, a: int) {
    In(a, h, HEADER_SIZE) || In(a, h + PAYLOAD_AT, p) || In(a, h + CONTROL_AT, c)
  }

  /** The two pointer fields of a header, set before the receive. */
  predicate InPointers(base: nat, a: int) {
    In(a, base + 24, 8) || In(a, base + 40, 8)
  }

  /** The bytes a refill at `base` writes; received control data are copied behind the payload too. */
  predicate Written(base: nat, shape: Shape, a: int) {
    match shape
    case Failed => InPointers(base, a)
    case Bare(c) => In(a, base, 16) || InPointers(base, a) || In(a, base + CONTROL_AT, c)
    case Message(p, c) =>
      In(a, base, HEADER_SIZE) || In(a, base + PAYLOAD_AT, p + c) || In(a, base + CONTROL_AT, c)
  }

  /** No byte the record at `h` needs is written by the refill. */
  ghost predicate Apart(h: nat, p: nat, c: nat, base: nat, shape: Shape) {
    forall a: nat :: Needed(h, p, c, a) ==> !Written(base, shape, a)
  }

  /** All the bytes the refill writes are inside the buffer. */
  predicate InBuffer(size: nat, base: nat, shape: Shape) {
    && base + HEADER_SIZE <= size
    && match shape
       case Failed => true
       case Bare(c) => c == 0 || base + CONTROL_AT + c <= size
       case Message(p, c) => base + PAYLOAD_AT + p + c <= size && (c == 0 || base + CONTROL_AT + c <= size)
  }

  // ---------------------------------------------------------------- records in memory

  predicate RawAt(mem: Memory, a: nat) {
    a < |mem| && mem[a].Raw?
  }

  ghost predicate AllRaw(mem: Memory, lo: nat, n: nat) {
    forall a: nat :: In(a, lo, n) ==> RawAt(mem, a)
  }

  predicate HeadAt(mem: Memory, h: nat, p: nat, c: nat, a: nat) {
    h <= a < |mem| && mem[a] == Head(p, c, a - h)
  }

  /** At `h` there is a whole header for these lengths, followed by data where it points. */
  ghost predicate IntactFor(mem: Memory, h: nat, p: nat, c: nat) {
    && (forall a: nat :: In(a, h, HEADER_SIZE) ==> HeadAt(mem, h, p, c, a))
    && AllRaw(mem, h + PAYLOAD_AT, p) && AllRaw(mem, h + CONTROL_AT, c)
  }

  /** At `h` there is a whole header, and the data it describes are data. */
  ghost predicate Intact(mem: Memory, h: nat) {
    h < |mem| && mem[h].Head? && IntactFor(mem, h, mem[h].p, mem[h].c)
  }

  function ByteAt(mem: Memory, a: nat): bv8
    requires RawAt(mem, a)
  {
    mem[a].b
  }

  function Data(mem: Memory, lo: nat, n: nat): (d: seq<bv8>)
    requires AllRaw(mem, lo, n)
    ensures |d| == n && forall i :: 0 <= i < n ==> RawAt(mem, lo + i) && d[i] == ByteAt(mem, lo + i)
  {
    seq(n, i requires 0 <= i < n => assert In(lo + i, lo, n); ByteAt(mem, lo + i))
  }

  lemma DataIs(mem: Memory, lo: nat, n: nat, d: seq<bv8>)
    requires AllRaw(mem, lo, n) && |d| == n
    requires forall a: nat :: In(a, lo, n) ==> mem[a] == Raw(d[a - lo])
    ensures Data(mem, lo, n) == d
  {
    forall i: nat | i < n ensures Data(mem, lo, n)[i] == d[i] {
      assert In(lo + i, lo, n);
    }
  }

  /** The record as it would be delivered. */
  function At(mem: Memory, h: nat): (r: Record)
    requires Intact(mem, h)
    ensures Len(r) == HEADER_SIZE + mem[h].p + mem[h].c
  {
    Record(Data(mem, h + PAYLOAD_AT, mem[h].p), Data(mem, h + CONTROL_AT, mem[h].c))
  }

  ghost predicate Holds(mem: Memory, h: nat, r: Record) {
    Intact(mem, h) && At(mem, h) == r
  }

  /** One byte after a refill that received `r`, or nothing. */
  function CellAfter(mem: Memory, base: nat, failed: bool, r: Record, a: nat): Cell
    requires a < |mem|
  {
    var p, c := |r.payload|, |r.control|;
    if failed then if InPointers(base, a) then Scrap else mem[a]
    else if p == 0 then
      if In(a, base, 16) || InPointers(base, a) then Scrap
      else if In(a, base + CONTROL_AT, c) then Raw(r.control[a - (base + CONTROL_AT)])
      else mem[a]
    else if In(a, base, HEADER_SIZE) then Head(p, c, a - base)
    else if In(a, base + PAYLOAD_AT, p) then Raw(r.payload[a - (base + PAYLOAD_AT)])
    else if In(a, base + PAYLOAD_AT + p, c) then Raw(r.control[a - (base + PAYLOAD_AT + p)])
    else if In(a, base + CONTROL_AT, c) then Raw(r.control[a - (base + CONTROL_AT)])
    else mem[a]
  }

  function After(mem: Memory, base: nat, failed: bool, r: Record): (m: Memory)
    ensures |m| == |mem|
  {
    seq(|mem|, a requires 0 <= a < |mem| => CellAfter(mem, base, failed, r, a))
  }

  function ShapeAfter(failed: bool, r: Record): Shape {
    if failed then Failed else ShapeOf(r)
  }

  predicate SizesFit(r: Record) {
    |r.payload| <= TXC_DGRAM_MAX_SIZE && |r.control| <= TXC_CONTROLMSG_MAX_SIZE
  }

  // ---------------------------------------------------------------- what a refill does to a record

  lemma OthersUntouched(mem: Memory, base: nat, failed: bool, r: Record, a: nat)
    requires a < |mem| && !Written(base, ShapeAfter(failed, r), a)
    ensures After(mem, base, failed, r)[a] == mem[a]
  {
  }

  lemma SameData(m: Memory, mem: Memory, lo: nat, n: nat)
    requires AllRaw(mem, lo, n) && |m| == |mem| && forall a: nat :: In(a, lo, n) ==> m[a] == mem[a]
    ensures AllRaw(m, lo, n) && Data(m, lo, n) == Data(mem, lo, n)
  {
    forall a: nat | In(a, lo, n) ensures RawAt(m, a) {
      assert RawAt(mem, a);
    }
    forall i: nat | i < n ensures Data(m, lo, n)[i] == Data(mem, lo, n)[i] {
      assert In(lo + i, lo, n) && RawAt(mem, lo + i);
    }
  }

  /** A refill that is apart from a record leaves it as it is. */
  lemma ApartKeeps(mem: Memory, base: nat, failed: bool, r: Record, h: nat)
    requires Intact(mem, h) && Apart(h, mem[h].p, mem[h].c, base, ShapeAfter(failed, r))
    ensures Holds(After(mem, base, failed, r), h, At(mem, h))
  {
    var m, p, c := After(mem, base, failed, r), mem[h].p, mem[h].c;
    forall a: nat | Needed(h, p, c, a) && a < |mem| ensures m[a] == mem[a] {
      OthersUntouched(mem, base, failed, r, a);
    }
    forall a: nat | In(a, h, HEADER_SIZE) ensures HeadAt(m, h, p, c, a) {
      assert HeadAt(mem, h, p, c, a) && Needed(h, p, c, a);
    }
    assert HeadAt(m, h, p, c, h);
    forall a: nat | In(a, h + PAYLOAD_AT, p) ensures m[a] == mem[a] {
      assert RawAt(mem, a) && Needed(h, p, c, a);
    }
    forall a: nat | In(a, h + CONTROL_AT, c) ensures m[a] == mem[a] {
      assert RawAt(mem, a) && Needed(h, p, c, a);
    }
    SameData(m, mem, h + PAYLOAD_AT, p);
    SameData(m, mem, h + CONTROL_AT, c);
  }

  /** A stored message can be read back from where it was put. */
  lemma StoredHolds(mem: Memory, base: nat, r: Record)
    requires r.payload != [] && SizesFit(r) && InBuffer(|mem|, base, ShapeOf(r))
    ensures Holds(After(mem, base, false, r), base, r)
  {
    var m, p, c := After(mem, base, false, r), |r.payload|, |r.control|;
    forall a: nat | In(a, base, HEADER_SIZE) ensures HeadAt(m, base, p, c, a) { }
    assert HeadAt(m, base, p, c, base);
    forall a: nat | In(a, base + PAYLOAD_AT, p)
      ensures RawAt(m, a) && m[a] == Raw(r.payload[a - (base + PAYLOAD_AT)])
    {
    }
    forall a: nat | In(a, base + CONTROL_AT, c)
      ensures RawAt(m, a) && m[a] == Raw(r.control[a - (base + CONTROL_AT)])
    {
    }
    DataIs(m, base + PAYLOAD_AT, p, r.payload);
    DataIs(m, base + CONTROL_AT, c, r.control);
  }

  /** The control data are there twice: where the header points and behind the payload. */
  lemma ControlCopied(mem: Memory, base: nat, r: Record, i: nat)
    requires r.payload != [] && SizesFit(r) && InBuffer(|mem|, base, ShapeOf(r)) && i < |r.control|
    ensures var m := After(mem, base, false, r);
            m[base + CONTROL_AT + i] == m[base + PAYLOAD_AT + |r.payload| + i] == Raw(r.control[i])
  {
  }

  function Filled(p: nat, c: nat, b: bv8): (r: Record)
    ensures |r.payload| == p && |r.control| == c
  {
    Record(seq(p, _ => b), seq(c, _ => b))
  }

  /** What a refill with data bytes of one leaves in a byte it writes. */
  lemma WrittenIs(mem: Memory, base: nat, failed: bool, r: Record, a: nat)
    requires a < |mem| && r == Filled(|r.payload|, |r.control|, 1) && Written(base, ShapeAfter(failed, r), a)
    ensures var x := After(mem, base, failed, r)[a];
            x == Raw(1) || x.Scrap? || (In(a, base, HEADER_SIZE) && x.Head? && x.i == a - base)
  {
  }

  /** A refill of ones that writes a byte of a record of zeros destroys the record. */
  lemma OverlapChanges(mem: Memory, h: nat, p: nat, c: nat, base: nat, failed: bool, r: Record, a: nat)
    requires Holds(mem, h, Filled(p, c, 0)) && h != base
    requires r == Filled(|r.payload|, |r.control|, 1)
    requires Needed(h, p, c, a) && Written(base, ShapeAfter(failed, r), a)
    ensures !Holds(After(mem, base, failed, r), h, Filled(p, c, 0))
  {
    var m := After(mem, base, failed, r);
    if a < |mem| { WrittenIs(mem, base, failed, r, a); }
    if Holds(m, h, Filled(p, c, 0)) {
      HeldByte(m, h, p, c, a);
    }
  }

  /** What a record of zeros looks like, byte by byte. */
  lemma HeldByte(m: Memory, h: nat, p: nat, c: nat, a: nat)
    requires Holds(m, h, Filled(p, c, 0)) && Needed(h, p, c, a)
    ensures a < |m| && if In(a, h, HEADER_SIZE) then m[a] == Head(p, c, a - h) else m[a] == Raw(0)
  {
    var r := At(m, h);
    assert |r.payload| == p && |r.control| == c;
    if In(a, h, HEADER_SIZE) {
      assert HeadAt(m, h, p, c, a);
    } else if In(a, h + PAYLOAD_AT, p) {
      assert RawAt(m, a) && r.payload[a - (h + PAYLOAD_AT)] == 0;
    } else {
      assert RawAt(m, a) && r.control[a - (h + CONTROL_AT)] == 0;
    }
  }

  // ---------------------------------------------------------------- when a record survives

  ghost predicate Survives(mem: Memory, h: nat, q: Record, base: nat, failed: bool, r: Record) {
    Holds(mem, h, q) ==> Holds(After(mem, base, failed, r), h, q)
  }

  predicate SameSize(r: Record, p: nat, c: nat) {
    |r.payload| == p && |r.control| == c
  }

  /**
   A queued record survives a refill, whatever the two contain, if and only if the refill
   writes no byte that the record needs.
   */
  lemma SurvivesIff(size: nat, h: nat, p: nat, c: nat, base: nat, failed: bool, r: Record)
    requires p > 0 && SizesFit(Filled(p, c, 0)) && InBuffer(size, h, Message(p, c)) && h != base
    ensures Apart(h, p, c, base, ShapeAfter(failed, r)) <==>
            forall mem: Memory, q: Record, r2: Record ::
              |mem| == size && SameSize(q, p, c) && SameSize(r2, |r.payload|, |r.control|) ==>
              Survives(mem, h, q, base, failed, r2)
  {
    var zeros, ones := Filled(p, c, 0), Filled(|r.payload|, |r.control|, 1);
    if Apart(h, p, c, base, ShapeAfter(failed, r)) {
      forall mem: Memory, q: Record, r2: Record
        | |mem| == size && SameSize(q, p, c) && SameSize(r2, |r.payload|, |r.control|)
        ensures Survives(mem, h, q, base, failed, r2)
      {
        if Holds(mem, h, q) {
          ApartKeeps(mem, base, failed, r2, h);
        }
      }
    } else {
      var a: nat :| Needed(h, p, c, a) && Written(base, ShapeAfter(failed, r), a);
      var blank: Memory := seq(size, _ => Scrap);
      var mem := After(blank, h, false, zeros);
      StoredHolds(blank, h, zeros);
      OverlapChanges(mem, h, p, c, base, failed, ones, a);
      assert !Survives(mem, h, zeros, base, failed, ones);
    }
  }

  /**
   The header of the next record lies inside the payload of the one before it, unless that
   one is short: neighbours are apart if and only if the first has at most 3024 bytes.
   */
  lemma NeighboursApartIff(h: nat, p: nat, c: nat, p2: nat, c2: nat)
    requires 0 < p <= TXC_DGRAM_MAX_SIZE && c <= TXC_CONTROLMSG_MAX_SIZE
    requires 0 < p2 <= TXC_DGRAM_MAX_SIZE && c2 <= TXC_CONTROLMSG_MAX_SIZE
    ensures Apart(h, p, c, h + HEADER_SIZE + p + c, Message(p2, c2)) <==> p + c <= PAYLOAD_AT - 2 * HEADER_SIZE
  {
    var base := h + HEADER_SIZE + p + c;
    if p + c > PAYLOAD_AT - 2 * HEADER_SIZE {
      var a := if base <= h + PAYLOAD_AT then h + PAYLOAD_AT else base;
      assert Needed(h, p, c, a) && Written(base, Message(p2, c2), a);
    }
  }

  /** Three messages of 1500 bytes: the third header is inside the first payload. */
  lemma ThirdMessageOverlaps()
    ensures Apart(0, 1500, 0, 1556, Message(1500, 0)) && !Apart(0, 1500, 0, 3112, Message(1500, 0))
  {
    NeighboursApartIff(0, 1500, 0, 1500, 0);
    assert Needed(0, 1500, 0, 3136) && Written(3112, Message(1500, 0), 3136);
  }
}
