/**
 The index arithmetic of the circular input buffer (src/core/buffer.c), shared by the pipe
 and the datagram reads: a primary and a secondary queue in one array, a speculative
 snapshot, commit, undo and the room tests of a refill.
 */
module DualQueue {
  /** The fields of txc_buffer_circular_s; the speculative ones are meaningful while `speculative`. */
  datatype Queues = Queues(sizeMax: nat,
                           primaryHead: nat, primaryTail: nat, secondaryHead: nat, secondaryTail: nat,
                           specPrimaryHead: nat, specPrimaryTail: nat,
                           specSecondaryHead: nat, specSecondaryTail: nat,
                           speculative: bool)

  const TXC_BUFFER_CIRCULAR_SIZE: nat := 1024 * (64 * 2) * 64
  const INT_MAX: nat := 0x7fff_ffff

  /** Unsigned 32-bit arithmetic wraps around. */
  function U32(x: int): nat {
    x % 0x1_0000_0000
  }

  /** txc_buffer_circular_init. */
  function Empty(sizeMax: nat): Queues {
    Queues(sizeMax, 0, 0, 0, 0, 0, 0, 0, 0, false)
  }

  // ---------------------------------------------------------------- operations

  /** The first speculative read of a transaction remembers the queues. */
  function Snapshot(q: Queues): Queues {
    if q.speculative then q
    else q.(specPrimaryHead := q.primaryHead, specPrimaryTail := q.primaryTail,
            specSecondaryHead := q.secondaryHead, specSecondaryTail := q.secondaryTail, speculative := true)
  }

  predicate PrimaryBuffered(q: Queues) {
    q.specPrimaryTail != q.specPrimaryHead
  }

  predicate SecondaryBuffered(q: Queues) {
    q.specSecondaryTail != q.specSecondaryHead
  }

  /** Some of the data seen at the snapshot is still to be consumed. */
  predicate Buffered(q: Queues) {
    PrimaryBuffered(q) || SecondaryBuffered(q)
  }

  /** Takes `n` cells of the snapshot: from its primary queue while that has any. */
  function Consume(q: Queues, n: nat): Queues {
    if PrimaryBuffered(q) then q.(specPrimaryHead := q.specPrimaryHead + n)
    else q.(specSecondaryHead := q.specSecondaryHead + n)
  }

  /** The room tests as the compiler sees them: unsigned, so a negative difference wraps. */
  predicate RoomPrimary(q: Queues, n: nat) {
    q.primaryTail < U32(q.sizeMax - n)
  }

  predicate RoomSecondary(q: Queues, n: nat) {
    q.secondaryTail < U32(q.primaryHead + 1 - n)
  }

  /** Where a refill that reserves `n` cells puts its data. */
  datatype Place = Primary | Secondary | NoSpace

  function Refill(q: Queues, n: nat): Place {
    if RoomPrimary(q, n) then Primary else if RoomSecondary(q, n) then Secondary else NoSpace
  }

  /** A refill stores `g` cells behind one of the tails. */
  function Store(q: Queues, place: Place, g: nat): Queues {
    match place
    case Primary => q.(primaryTail := q.primaryTail + g)
    case Secondary => q.(secondaryTail := q.secondaryTail + g)
    case NoSpace => q
  }

  function Commit(q: Queues): Queues {
    var r :=
      if PrimaryBuffered(q) then q.(primaryHead := q.specPrimaryHead, primaryTail := q.specPrimaryTail)
      else if SecondaryBuffered(q) then
        q.(primaryHead := q.specSecondaryHead, primaryTail := q.specSecondaryTail,
           secondaryHead := 0, secondaryTail := 0)
      else q.(primaryHead := 0, primaryTail := 0, secondaryHead := 0, secondaryTail := 0);
    r.(speculative := false)
  }

  function Undo(q: Queues): Queues {
    q.(speculative := false)
  }

  /** A non-transactional read of `n` buffered cells; an emptied primary makes room for the secondary. */
  function ConsumePlain(q: Queues, n: nat): Queues {
    if q.primaryTail != q.primaryHead then q.(primaryHead := q.primaryHead + n)
    else q.(primaryHead := q.secondaryHead + n, primaryTail := q.secondaryTail,
            secondaryHead := 0, secondaryTail := 0)
  }

  predicate PlainBuffered(q: Queues) {
    q.primaryTail != q.primaryHead || q.secondaryTail != q.secondaryHead
  }

  // ---------------------------------------------------------------- layout

  /**
   The layout of buffer.c: both queues are inside the array and never overlap, the
   speculative heads lie between the committed head and the snapshot's tail, and a refill
   happens only when the snapshot has been used up.
   */
  predicate Layout(q: Queues) {
    && q.sizeMax <= INT_MAX
    && q.secondaryHead <= q.secondaryTail <= q.primaryHead <= q.primaryTail <= q.sizeMax
    && (q.speculative ==>
          && q.primaryHead <= q.specPrimaryHead <= q.specPrimaryTail <= q.primaryTail
          && q.secondaryHead <= q.specSecondaryHead <= q.specSecondaryTail <= q.secondaryTail
          && (q.specSecondaryHead > q.secondaryHead ==> !PrimaryBuffered(q))
          && (Buffered(q) ==> q.primaryTail == q.specPrimaryTail && q.secondaryTail == q.specSecondaryTail))
  }

  /** The request a speculative read makes of the queues: what the caller may ask for. */
  predicate FitsLayout(q: Queues, n: nat) {
    if PrimaryBuffered(q) then n <= q.specPrimaryTail - q.specPrimaryHead
    else if SecondaryBuffered(q) then n <= q.specSecondaryTail - q.specSecondaryHead
    else n <= q.sizeMax && (!RoomPrimary(q, n) ==> n <= q.primaryHead + 1)
  }

  /** A refill into the primary queue keeps the order of arrival if the secondary is empty. */
  predicate FitsOrder(q: Queues, n: nat) {
    Buffered(q) || !RoomPrimary(q, n) || q.secondaryHead == q.secondaryTail
  }

  /** The queues after a speculative read of `n` cells for which the kernel delivered `g`. */
  function AfterRead(q: Queues, n: nat, g: nat): Queues {
    if Buffered(q) then Consume(q, n) else Store(q, Refill(q, n), g)
  }

  /** The room tests mean what they intend whenever the unsigned differences do not wrap. */
  lemma RoomTests(q: Queues, n: nat)
    requires Layout(q)
    ensures n <= q.sizeMax ==> (RoomPrimary(q, n) <==> q.primaryTail + n < q.sizeMax)
    ensures n <= q.primaryHead + 1 ==> (RoomSecondary(q, n) <==> q.secondaryTail + n <= q.primaryHead)
    ensures q.sizeMax < n <= INT_MAX ==> RoomPrimary(q, n)
    ensures q.primaryHead + 1 < n <= INT_MAX ==> RoomSecondary(q, n)
  {
  }

  /**
   A speculative read keeps the layout, whatever the kernel delivers, if and only if the
   request fits its queue and neither unsigned room test wraps.
   */
  lemma ReadKeepsLayoutIff(q: Queues, n: nat)
    requires Layout(q) && q.speculative && n <= INT_MAX
    ensures (forall g: nat :: g <= n ==> Layout(AfterRead(q, n, g))) <==> FitsLayout(q, n)
  {
    RoomTests(q, n);
    if !FitsLayout(q, n) {
      assert !Layout(AfterRead(q, n, n));
    }
  }

  /**
   A room test that wraps: on a buffer of 2n cells, one transaction reads n cells and asks for
   n more. The second refill is put where the first one is queued.
   */
  lemma SecondHalfWraps(n: nat)
    requires 2 <= n && 2 * n <= INT_MAX
    ensures var q := AfterRead(Snapshot(Empty(2 * n)), n, n);
            && Layout(q) && q.primaryHead == 0 && q.primaryTail == n && !Buffered(q) && !FitsLayout(q, n)
            && Refill(q, n).Secondary? && q.secondaryTail == 0
  {
    assert U32(2 * n - n) == n && U32(1 - n) == 0x1_0000_0000 + 1 - n;
  }

  lemma OthersKeepLayout(q: Queues, n: nat)
    requires Layout(q)
    ensures Layout(Snapshot(q)) && Layout(Undo(q))
    ensures q.speculative ==> Layout(Commit(q))
    ensures !q.speculative && PlainBuffered(q)
            && n <= (if q.primaryTail != q.primaryHead then q.primaryTail - q.primaryHead
                     else q.secondaryTail - q.secondaryHead)
            ==> Layout(ConsumePlain(q, n))
  {
  }

  // ---------------------------------------------------------------- constant reservations

  /** The secondary queue is in use only while `n` more cells do not fit behind the primary. */
  predicate FixedSize(q: Queues, n: nat) {
    q.secondaryHead != q.secondaryTail ==> !RoomPrimary(q, n)
  }

  /** If every request reserves the same number of cells, refills never get out of order. */
  lemma FixedSizeKeepsOrder(q: Queues, n: nat, g: nat, k: nat)
    requires Layout(q) && FixedSize(q, n)
    ensures FitsOrder(Snapshot(q), n)
    ensures FixedSize(Empty(q.sizeMax), n) && FixedSize(Snapshot(q), n) && FixedSize(Undo(q), n)
    ensures q.speculative ==> FixedSize(Commit(q), n) && FixedSize(Consume(q, k), n)
    ensures q.speculative && g <= n && FitsLayout(q, n) ==> FixedSize(AfterRead(q, n, g), n)
    ensures FixedSize(ConsumePlain(q, k), n)
  {
    RoomTests(q, n);
  }
}
