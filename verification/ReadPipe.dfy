/**
 Transactional pipe reads (src/xcalls/x_read_pipe.c): the buffer holds bytes that a
 transaction has read from the kernel but may have to give back.
 */
module ReadPipe {
  import opened DualQueue

  /** The buffer's bytes, its queues, and what is still in the kernel. */
  datatype State = State(mem: seq<bv8>, q: Queues, kernel: seq<bv8>)

  /** An operation together with what the kernel answers: -1 or a number of bytes. */
  datatype Op = TxRead(n: nat, granted: int) | CommitTx | AbortTx | PlainRead(n: nat, granted: int)

  /** A run's history: what committed readers and the running transaction have been given. */
  datatype History = History(committed: seq<bv8>, tentative: seq<bv8>)

  predicate Consistent(s: State) {
    Layout(s.q) && |s.mem| == s.q.sizeMax
  }

  /** Buffered bytes in order of arrival: the primary queue, then the secondary. */
  function Queued(s: State): seq<bv8>
    requires Consistent(s)
  {
    s.mem[s.q.primaryHead..s.q.primaryTail] + s.mem[s.q.secondaryHead..s.q.secondaryTail]
  }

  /** How many of the queued bytes the running transaction has been given. */
  function Given(q: Queues): nat
    requires Layout(q)
  {
    if !q.speculative then 0
    else if PrimaryBuffered(q) then q.specPrimaryHead - q.primaryHead
    else if SecondaryBuffered(q) then
      (q.primaryTail - q.primaryHead) + (q.specSecondaryHead - q.secondaryHead)
    else (q.primaryTail - q.primaryHead) + (q.secondaryTail - q.secondaryHead)
  }

  /** The kernel's answer to a request of n bytes: a failure, or a prefix of what it has. */
  predicate Answer(s: State, n: nat, granted: int) {
    -1 <= granted <= n && granted <= |s.kernel|
  }

  function Overwrite(mem: seq<bv8>, base: nat, data: seq<bv8>): seq<bv8>
    requires base + |data| <= |mem|
  {
    mem[..base] + data + mem[base + |data|..]
  }

  // ---------------------------------------------------------------- the operations

  /** First index of the bytes a speculative read hands out. */
  function ReadBase(q: Queues, n: nat): nat {
    if PrimaryBuffered(q) then q.specPrimaryHead
    else if SecondaryBuffered(q) then q.specSecondaryHead
    else if Refill(q, n).Primary? then q.primaryTail else q.secondaryTail
  }

  /** What keeps a speculative read inside the queues it may touch, checked on the snapshot. */
  predicate Guard(s: State, n: nat, granted: int) {
    var q := Snapshot(s.q);
    n <= INT_MAX && FitsLayout(q, n) && (!Buffered(q) ==> Answer(s, n, granted))
  }

  /** First index of the bytes a plain read hands out. */
  function PlainBase(q: Queues): nat {
    if q.primaryTail != q.primaryHead then q.primaryHead else q.secondaryHead
  }

  /** What a plain read is defined for: bytes inside the array, or a possible answer of the kernel. */
  predicate PlainDefined(s: State, n: nat, granted: int) {
    if PlainBuffered(s.q) then PlainBase(s.q) + n <= s.q.sizeMax else Answer(s, n, granted)
  }

  /**
   When a plain read does no harm: it asks for no more than its queue has, and while a
   transaction is reading it takes nothing and does not move the queue the transaction uses.
   */
  predicate PlainGuard(q: Queues, n: nat) {
    if q.primaryTail != q.primaryHead then n <= q.primaryTail - q.primaryHead && (q.speculative ==> n == 0)
    else
      q.secondaryTail != q.secondaryHead ==>
        && n <= q.secondaryTail - q.secondaryHead
        && (q.speculative ==> n == 0 && q.secondaryTail == q.primaryHead && q.specSecondaryTail == 0)
  }

  /** A refill that the kernel answers with `data`. */
  function Refilled(s: State, n: nat, data: seq<bv8>): State
    requires ReadBase(s.q, n) + |data| <= |s.mem| && |data| <= |s.kernel|
  {
    State(Overwrite(s.mem, ReadBase(s.q, n), data), Store(s.q, Refill(s.q, n), |data|), s.kernel[|data|..])
  }

  /** The effect of a speculative read: the state, the returned value, the bytes the caller may use. */
  datatype Effect = Effect(s: State, ret: int, data: seq<bv8>)

  function ReadTx(s: State, n: nat, granted: int): Effect
    requires Consistent(s) && Guard(s, n, granted)
  {
    var t := s.(q := Snapshot(s.q));
    RoomTests(t.q, n);
    if Buffered(t.q) then Effect(t.(q := Consume(t.q, n)), n, s.mem[ReadBase(t.q, n)..ReadBase(t.q, n) + n])
    else if Refill(t.q, n).NoSpace? then Effect(t, -1, [])
    else if granted <= 0 then Effect(t, granted, [])
    else Effect(Refilled(t, n, s.kernel[..granted]), granted, s.kernel[..granted])
  }

  function ReadPlain(s: State, n: nat, granted: int): Effect
    requires Consistent(s) && PlainDefined(s, n, granted)
  {
    if PlainBuffered(s.q) then
      Effect(s.(q := ConsumePlain(s.q, n)), n, s.mem[PlainBase(s.q)..PlainBase(s.q) + n])
    else if granted <= 0 then Effect(s, granted, [])
    else Effect(s.(kernel := s.kernel[granted..]), granted, s.kernel[..granted])
  }

  // ---------------------------------------------------------------- the stream

  /** Everything not yet consumed for good, in order. */
  function Stream(s: State): seq<bv8>
    requires Consistent(s)
  {
    Queued(s) + s.kernel
  }

  /** What a running transaction has been given is a prefix of the queues, so undo can give it back. */
  ghost predicate Tentative(s: State, tentative: seq<bv8>) {
    Consistent(s) && Given(s.q) <= |Queued(s)| && tentative == Queued(s)[..Given(s.q)]
  }

  // Sequence facts.

  lemma SliceOfSlice(mem: seq<bv8>, lo: nat, hi: nat, g: nat, n: nat)
    requires lo <= hi <= |mem| && g + n <= hi - lo
    ensures mem[lo..hi][g..g + n] == mem[lo + g..lo + g + n]
  {
    var a, b := mem[lo..hi][g..g + n], mem[lo + g..lo + g + n];
    assert forall i :: 0 <= i < n ==> a[i] == mem[lo + g + i] == b[i];
  }

  lemma SliceOfSum(a: seq<bv8>, b: seq<bv8>, g: nat, n: nat)
    requires g + n <= |a| + |b|
    ensures g + n <= |a| ==> (a + b)[g..g + n] == a[g..g + n]
    ensures |a| <= g ==> (a + b)[g..g + n] == b[g - |a|..g - |a| + n]
  {
  }

  lemma Joined(mem: seq<bv8>, lo: nat, mid: nat, hi: nat)
    requires lo <= mid <= hi <= |mem|
    ensures mem[lo..hi] == mem[lo..mid] + mem[mid..hi]
  {
  }

  lemma OverwriteIs(mem: seq<bv8>, base: nat, data: seq<bv8>, lo: nat, hi: nat)
    requires base + |data| <= |mem| && lo <= hi <= |mem|
    ensures |Overwrite(mem, base, data)| == |mem|
    ensures hi <= base || base + |data| <= lo ==> Overwrite(mem, base, data)[lo..hi] == mem[lo..hi]
    ensures lo <= base ==> Overwrite(mem, base, data)[lo..base + |data|] == mem[lo..base] + data
    ensures Overwrite(mem, base, data)[base..base + |data|] == data
  {
  }

  lemma Associates(a: seq<bv8>, b: seq<bv8>, c: seq<bv8>)
    ensures (a + b) + c == a + (b + c)
  {
  }

  /** The bytes behind a speculative head are the queued bytes not yet given. */
  lemma PrimaryIsNext(s: State, n: nat)
    requires Consistent(s) && s.q.speculative && PrimaryBuffered(s.q)
    requires n <= s.q.specPrimaryTail - s.q.specPrimaryHead
    ensures Given(s.q) + n <= |Queued(s)|
    ensures s.mem[s.q.specPrimaryHead..s.q.specPrimaryHead + n] == Queued(s)[Given(s.q)..Given(s.q) + n]
  {
    SliceOfSum(s.mem[s.q.primaryHead..s.q.primaryTail], s.mem[s.q.secondaryHead..s.q.secondaryTail], Given(s.q), n);
    SliceOfSlice(s.mem, s.q.primaryHead, s.q.primaryTail, Given(s.q), n);
  }

  lemma SecondaryIsNext(s: State, n: nat)
    requires Consistent(s) && s.q.speculative && !PrimaryBuffered(s.q) && SecondaryBuffered(s.q)
    requires n <= s.q.specSecondaryTail - s.q.specSecondaryHead
    ensures Given(s.q) + n <= |Queued(s)|
    ensures s.mem[s.q.specSecondaryHead..s.q.specSecondaryHead + n] == Queued(s)[Given(s.q)..Given(s.q) + n]
  {
    SliceOfSum(s.mem[s.q.primaryHead..s.q.primaryTail], s.mem[s.q.secondaryHead..s.q.secondaryTail], Given(s.q), n);
    SliceOfSlice(s.mem, s.q.secondaryHead, s.q.secondaryTail, s.q.specSecondaryHead - s.q.secondaryHead, n);
  }

  lemma ConsumeMovesGiven(q: Queues, n: nat)
    requires Layout(q) && q.speculative && Buffered(q) && FitsLayout(q, n)
    ensures Layout(Consume(q, n)) && Given(Consume(q, n)) == Given(q) + n
  {
  }

  /** A consuming read returns the next bytes of the stream and changes nothing else. */
  lemma BufferedReadIsNext(s: State, n: nat)
    requires Consistent(s) && s.q.speculative && Buffered(s.q) && FitsLayout(s.q, n)
    ensures var s' := s.(q := Consume(s.q, n));
            && Consistent(s') && Queued(s') == Queued(s)
            && Given(s'.q) == Given(s.q) + n <= |Queued(s)|
            && s.mem[ReadBase(s.q, n)..ReadBase(s.q, n) + n] == Queued(s)[Given(s.q)..Given(s.q) + n]
  {
    ConsumeMovesGiven(s.q, n);
    if PrimaryBuffered(s.q) { PrimaryIsNext(s, n); } else { SecondaryIsNext(s, n); }
  }

  lemma StoreBehindPrimary(s: State, data: seq<bv8>)
    requires Consistent(s) && s.q.secondaryHead == s.q.secondaryTail && s.q.primaryTail + |data| <= |s.mem|
    requires Layout(Store(s.q, Primary, |data|))
    ensures var s' := State(Overwrite(s.mem, s.q.primaryTail, data), Store(s.q, Primary, |data|), s.kernel);
            Consistent(s') && Queued(s') == Queued(s) + data
  {
    OverwriteIs(s.mem, s.q.primaryTail, data, s.q.primaryHead, s.q.primaryTail);
  }

  lemma StoreBehindSecondary(s: State, data: seq<bv8>)
    requires Consistent(s) && s.q.secondaryTail + |data| <= |s.mem|
    requires Layout(Store(s.q, Secondary, |data|))
    ensures var s' := State(Overwrite(s.mem, s.q.secondaryTail, data), Store(s.q, Secondary, |data|), s.kernel);
            Consistent(s') && Queued(s') == Queued(s) + data
  {
    OverwriteIs(s.mem, s.q.secondaryTail, data, s.q.primaryHead, s.q.primaryTail);
    OverwriteIs(s.mem, s.q.secondaryTail, data, s.q.secondaryHead, s.q.secondaryTail);
    Associates(s.mem[s.q.primaryHead..s.q.primaryTail], s.mem[s.q.secondaryHead..s.q.secondaryTail], data);
  }

  /** A refill that gets data: where it goes, and that nothing queued is overwritten. */
  lemma RefillStores(s: State, n: nat, data: seq<bv8>)
    requires Consistent(s) && s.q.speculative && !Buffered(s.q) && n <= INT_MAX
    requires FitsLayout(s.q, n) && FitsOrder(s.q, n) && !Refill(s.q, n).NoSpace? && 0 < |data| <= n
    ensures var base := ReadBase(s.q, n);
            && base + |data| <= |s.mem|
            && var s' := State(Overwrite(s.mem, base, data), Store(s.q, Refill(s.q, n), |data|), s.kernel);
               && Consistent(s') && Queued(s') == Queued(s) + data
               && s'.mem[base..base + |data|] == data
               && Given(s'.q) == |Queued(s')|
  {
    RoomTests(s.q, n);
    ReadKeepsLayoutIff(s.q, n);
    assert Layout(AfterRead(s.q, n, |data|));
    OverwriteIs(s.mem, ReadBase(s.q, n), data, 0, 0);
    if Refill(s.q, n).Primary? { StoreBehindPrimary(s, data); } else { StoreBehindSecondary(s, data); }
  }

  /** A first read that finds nothing queued has nothing to remember. */
  lemma UsedUp(s: State)
    requires Consistent(s) && !Buffered(Snapshot(s.q))
    ensures Given(Snapshot(s.q)) == |Queued(s)| == Given(s.q)
  {
  }

  lemma SnapshotKeeps(s: State)
    requires Consistent(s)
    ensures var t := s.(q := Snapshot(s.q));
            Consistent(t) && t.q.speculative && Queued(t) == Queued(s) && Given(t.q) == Given(s.q)
  {
  }

  lemma BufferedConserves(t: State, n: nat)
    requires Consistent(t) && t.q.speculative && Buffered(t.q) && FitsLayout(t.q, n)
    requires Given(t.q) <= |Queued(t)|
    ensures ReadBase(t.q, n) + n <= |t.mem|
    ensures var s' := t.(q := Consume(t.q, n));
            && Tentative(s', Queued(t)[..Given(t.q)] + t.mem[ReadBase(t.q, n)..ReadBase(t.q, n) + n])
            && Stream(s') == Stream(t)
  {
    BufferedReadIsNext(t, n);
    Joined(Queued(t), 0, Given(t.q), Given(t.q) + n);
  }

  /** With something of the snapshot left a read gets all it asks for: the next queued bytes. */
  lemma BufferedReturns(s: State, n: nat, granted: int)
    requires Consistent(s) && Guard(s, n, granted) && Buffered(Snapshot(s.q))
    ensures var (g, e) := (Given(Snapshot(s.q)), ReadTx(s, n, granted));
            && e.s.q.speculative && e.s.mem == s.mem && e.s.kernel == s.kernel
            && g + n <= |Queued(s)| && e.ret == n && e.data == Queued(s)[g..g + n]
  {
    SnapshotKeeps(s);
    BufferedReadIsNext(s.(q := Snapshot(s.q)), n);
  }

  /** Otherwise it gets what the kernel grants, or the error for a full buffer. */
  lemma RefillReturns(s: State, n: nat, granted: int)
    requires Consistent(s) && Guard(s, n, granted) && !Buffered(Snapshot(s.q))
    ensures var (got, e) := (if granted < 0 then 0 else granted, ReadTx(s, n, granted));
            && e.s.q.speculative
            && (if Refill(Snapshot(s.q), n).NoSpace? then
                  e.ret == -1 && e.data == [] && e.s.mem == s.mem && e.s.kernel == s.kernel
                else
                  && got <= |s.kernel| && e.ret == granted && e.data == s.kernel[..got]
                  && e.s.kernel == s.kernel[got..])
  {
  }

  /** What the caller of a transactional read gets, and what it leaves in the kernel. */
  ghost predicate Delivers(s: State, n: nat, granted: int, ret: int, out: seq<bv8>, left: seq<bv8>)
    requires Consistent(s)
  {
    SnapshotKeeps(s);
    var q, got := Snapshot(s.q), if granted < 0 then 0 else granted;
    if Buffered(q) then
      && Given(q) + n <= |Queued(s)| && ret == n && out == Queued(s)[Given(q)..Given(q) + n] && left == s.kernel
    else if Refill(q, n).NoSpace? then
      ret == -1 && out == [] && left == s.kernel
    else
      && ret == granted && |out| == n && got <= n && got <= |s.kernel|
      && out[..got] == s.kernel[..got] && left == s.kernel[got..]
  }

  lemma DeliversWhatItSays(s: State, n: nat, granted: int, out: seq<bv8>)
    requires Consistent(s) && Guard(s, n, granted) && ReadTx(s, n, granted).data <= out
    requires |out| == if !Buffered(Snapshot(s.q)) && Refill(Snapshot(s.q), n).NoSpace? then 0 else n
    ensures Delivers(s, n, granted, ReadTx(s, n, granted).ret, out, ReadTx(s, n, granted).s.kernel)
  {
    if Buffered(Snapshot(s.q)) { BufferedReturns(s, n, granted); } else { RefillReturns(s, n, granted); }
  }

  /** One transactional read: the stream is unchanged and the reader is given its next bytes. */
  lemma ReadTxConserves(s: State, n: nat, granted: int, tentative: seq<bv8>)
    requires Tentative(s, tentative) && Guard(s, n, granted) && FitsOrder(Snapshot(s.q), n)
    ensures var e := ReadTx(s, n, granted);
            Tentative(e.s, tentative + e.data) && Stream(e.s) == Stream(s)
  {
    var t := s.(q := Snapshot(s.q));
    SnapshotKeeps(s);
    if Buffered(t.q) {
      BufferedConserves(t, n);
    } else {
      UsedUp(s);
      assert tentative == Queued(s);
      if granted > 0 && !Refill(t.q, n).NoSpace? {
        RefillConserves(t, n, s.kernel[..granted]);
      } else {
        assert tentative + [] == tentative;
      }
    }
  }

  lemma RefillConserves(t: State, n: nat, data: seq<bv8>)
    requires Consistent(t) && t.q.speculative && !Buffered(t.q) && n <= INT_MAX
    requires FitsLayout(t.q, n) && FitsOrder(t.q, n) && !Refill(t.q, n).NoSpace? && 0 < |data| <= n
    requires data <= t.kernel
    ensures ReadBase(t.q, n) + |data| <= |t.mem|
    ensures Tentative(Refilled(t, n, data), Queued(t) + data) && Stream(Refilled(t, n, data)) == Stream(t)
  {
    RefillStores(t, n, data);
    Joined(t.kernel, 0, |data|, |t.kernel|);
    Associates(Queued(t), data, t.kernel[|data|..]);
    var s' := Refilled(t, n, data);
    assert Queued(s')[..Given(s'.q)] == Queued(s');
  }

  function CommitState(s: State): State {
    s.(q := Commit(s.q))
  }

  function AbortState(s: State): State {
    s.(q := Undo(s.q))
  }

  /** Commit drops exactly the bytes the transaction was given. */
  lemma CommitDropsGiven(s: State)
    requires Consistent(s) && s.q.speculative
    ensures Consistent(CommitState(s)) && Given(s.q) <= |Queued(s)|
    ensures Queued(CommitState(s)) == Queued(s)[Given(s.q)..] && CommitState(s).kernel == s.kernel
    ensures Given(CommitState(s).q) == 0 && !CommitState(s).q.speculative
  {
    OthersKeepLayout(s.q, 0);
    var q := s.q;
    var a, b := s.mem[q.primaryHead..q.primaryTail], s.mem[q.secondaryHead..q.secondaryTail];
    var g := Given(q);
    if PrimaryBuffered(q) {
      assert (a + b)[g..] == a[g..] + b;
    } else if SecondaryBuffered(q) {
      assert (a + b)[g..] == b[g - |a|..];
    } else {
      assert (a + b)[g..] == [];
    }
  }

  /** Abort leaves queues and kernel as they are and forgets what was given. */
  lemma AbortKeepsStream(s: State)
    requires Consistent(s)
    ensures Consistent(AbortState(s)) && Queued(AbortState(s)) == Queued(s) && AbortState(s).kernel == s.kernel
    ensures Stream(AbortState(s)) == Stream(s) && Given(AbortState(s).q) == 0 && !AbortState(s).q.speculative
  {
  }

  lemma PlainFromPrimary(s: State, n: nat)
    requires Consistent(s) && !s.q.speculative && s.q.primaryTail != s.q.primaryHead
    requires n <= s.q.primaryTail - s.q.primaryHead
    ensures var s' := s.(q := ConsumePlain(s.q, n));
            Consistent(s') && s.mem[s.q.primaryHead..s.q.primaryHead + n] + Queued(s') == Queued(s)
  {
    var q := s.q;
    Joined(s.mem, q.primaryHead, q.primaryHead + n, q.primaryTail);
    Associates(s.mem[q.primaryHead..q.primaryHead + n], s.mem[q.primaryHead + n..q.primaryTail],
               s.mem[q.secondaryHead..q.secondaryTail]);
  }

  lemma PlainFromSecondary(s: State, n: nat)
    requires Consistent(s) && !s.q.speculative && s.q.primaryTail == s.q.primaryHead
    requires n <= s.q.secondaryTail - s.q.secondaryHead
    ensures var s' := s.(q := ConsumePlain(s.q, n));
            Consistent(s') && s.mem[s.q.secondaryHead..s.q.secondaryHead + n] + Queued(s') == Queued(s)
  {
    Joined(s.mem, s.q.secondaryHead, s.q.secondaryHead + n, s.q.secondaryTail);
  }

  lemma PlainTakesBuffered(s: State, n: nat, granted: int)
    requires Consistent(s) && !s.q.speculative && PlainDefined(s, n, granted) && PlainGuard(s.q, n)
    requires PlainBuffered(s.q)
    ensures var e := ReadPlain(s, n, granted);
            && Consistent(e.s) && !e.s.q.speculative && e.s.kernel == s.kernel
            && e.data + Queued(e.s) == Queued(s) && |e.data| == e.ret == n
  {
    if s.q.primaryTail != s.q.primaryHead { PlainFromPrimary(s, n); } else { PlainFromSecondary(s, n); }
  }

  /** What a plain read returns and hands out, whether or not a transaction is reading. */
  lemma PlainReturns(s: State, n: nat, granted: int)
    requires Consistent(s) && PlainDefined(s, n, granted)
    ensures var e := ReadPlain(s, n, granted);
            && e.s.mem == s.mem && e.s.q.speculative == s.q.speculative
            && (if PlainBuffered(s.q) then
                  && e.ret == n == |e.data| && e.s.kernel == s.kernel
                  && (n <= |Queued(s)| && PlainGuard(s.q, n) ==> e.data == Queued(s)[..n])
                else
                  && e.ret == granted && e.data == s.kernel[..if granted < 0 then 0 else granted]
                  && e.s.kernel == s.kernel[|e.data|..])
  {
    if PlainBuffered(s.q) && n <= |Queued(s)| && PlainGuard(s.q, n) {
      var q := s.q;
      SliceOfSum(s.mem[q.primaryHead..q.primaryTail], s.mem[q.secondaryHead..q.secondaryTail], 0, n);
      SliceOfSlice(s.mem, PlainBase(q),
                   if q.primaryTail != q.primaryHead then q.primaryTail else q.secondaryTail, 0, n);
    }
  }

  /** A read between transactions consumes the next bytes of the stream at once. */
  lemma ReadPlainConserves(s: State, n: nat, granted: int)
    requires Consistent(s) && !s.q.speculative && PlainDefined(s, n, granted) && PlainGuard(s.q, n)
    ensures var e := ReadPlain(s, n, granted);
            && Consistent(e.s) && !e.s.q.speculative
            && e.data + Stream(e.s) == Stream(s)
            && |e.data| == if e.ret < 0 then 0 else e.ret
  {
    var e := ReadPlain(s, n, granted);
    if PlainBuffered(s.q) {
      PlainTakesBuffered(s, n, granted);
      Associates(e.data, Queued(e.s), s.kernel);
    } else {
      assert Queued(s) == [];
    }
  }

  /** While a transaction is reading, a harmless plain read of the buffer takes nothing. */
  lemma PlainTakesNothing(s: State, n: nat, granted: int)
    requires Consistent(s) && s.q.speculative && PlainDefined(s, n, granted) && PlainGuard(s.q, n)
    requires PlainBuffered(s.q)
    ensures var e := ReadPlain(s, n, granted);
            && Consistent(e.s) && e.data == [] && e.s.kernel == s.kernel
            && Queued(e.s) == Queued(s) && Given(e.s.q) == Given(s.q)
  {
  }

  /** With nothing queued a plain read takes its bytes from the kernel, whether or not a transaction is reading. */
  lemma PlainFromKernel(s: State, n: nat, granted: int)
    requires Consistent(s) && PlainDefined(s, n, granted) && !PlainBuffered(s.q)
    ensures var e := ReadPlain(s, n, granted);
            && Consistent(e.s) && e.s.q == s.q && Queued(e.s) == Queued(s) == []
            && e.data + e.s.kernel == s.kernel
  {
  }

  /** Otherwise the queues are damaged, or what the transaction has been given is no longer there. */
  lemma PlainBreaks(s: State, n: nat, granted: int)
    requires Consistent(s) && PlainDefined(s, n, granted) && !PlainGuard(s.q, n)
    ensures var e := ReadPlain(s, n, granted);
            !Layout(e.s.q) || Given(e.s.q) != Given(s.q)
  {
  }

  // ---------------------------------------------------------------- whole runs

  predicate Allowed(s: State, op: Op) {
    Consistent(s) &&
    match op
    case TxRead(n, granted) => Guard(s, n, granted) && FitsOrder(Snapshot(s.q), n)
    case CommitTx => s.q.speculative
    case AbortTx => s.q.speculative
    case PlainRead(n, granted) => PlainDefined(s, n, granted) && PlainGuard(s.q, n)
  }

  /** The same without the condition on the order of refills. */
  predicate Guarded(s: State, op: Op) {
    if op.TxRead? then Consistent(s) && Guard(s, op.n, op.granted) else Allowed(s, op)
  }

  function Apply(s: State, op: Op): State
    requires Guarded(s, op)
  {
    match op
    case TxRead(n, granted) => ReadTx(s, n, granted).s
    case CommitTx => CommitState(s)
    case AbortTx => AbortState(s)
    case PlainRead(n, granted) => ReadPlain(s, n, granted).s
  }

  /** What the callers have seen after the operation. */
  function Observe(s: State, op: Op, h: History): History
    requires Allowed(s, op)
  {
    match op
    case TxRead(n, granted) => h.(tentative := h.tentative + ReadTx(s, n, granted).data)
    case CommitTx => History(h.committed + h.tentative, [])
    case AbortTx => h.(tentative := [])
    case PlainRead(n, granted) => h.(committed := h.committed + ReadPlain(s, n, granted).data)
  }

  predicate AllowedRun(s: State, ops: seq<Op>)
    decreases |ops|
  {
    ops == [] || (Allowed(s, ops[0]) && AllowedRun(Apply(s, ops[0]), ops[1..]))
  }

  function RunState(s: State, ops: seq<Op>): State
    requires AllowedRun(s, ops)
    decreases |ops|
  {
    if ops == [] then s else RunState(Apply(s, ops[0]), ops[1..])
  }

  function RunHistory(s: State, ops: seq<Op>, h: History): History
    requires AllowedRun(s, ops)
    decreases |ops|
  {
    if ops == [] then h else RunHistory(Apply(s, ops[0]), ops[1..], Observe(s, ops[0], h))
  }

  /** The observable account: bytes consumed for good, then the stream, is always the original. */
  ghost predicate Account(s: State, h: History, original: seq<bv8>) {
    Tentative(s, h.tentative) && h.committed + Stream(s) == original
  }

  lemma CommitKeepsAccount(s: State, h: History, original: seq<bv8>)
    requires Allowed(s, CommitTx) && Account(s, h, original)
    ensures Account(Apply(s, CommitTx), Observe(s, CommitTx, h), original)
  {
    CommitDropsGiven(s);
    PrefixMoves(h.committed, Queued(s), s.kernel, Given(s.q));
  }

  /** The front of the queue becomes the end of what has been consumed. */
  lemma PrefixMoves(consumed: seq<bv8>, queued: seq<bv8>, kernel: seq<bv8>, g: nat)
    requires g <= |queued|
    ensures (consumed + queued[..g]) + (queued[g..] + kernel) == consumed + (queued + kernel)
  {
  }

  /** The data handed out go from the front of what is left to the end of what is consumed. */
  lemma HandedOver(s: State, h: History, original: seq<bv8>, data: seq<bv8>, s2: State)
    requires Account(s, h, original) && Consistent(s2) && data + Stream(s2) == Stream(s)
    requires Given(s2.q) <= |Queued(s2)| && h.tentative == Queued(s2)[..Given(s2.q)]
    ensures Account(s2, h.(committed := h.committed + data), original)
  {
    Associates(h.committed, data, Stream(s2));
  }

  lemma PlainKeepsAccount(s: State, n: nat, granted: int, h: History, original: seq<bv8>, e: Effect)
    requires Account(s, h, original) && PlainDefined(s, n, granted) && PlainGuard(s.q, n)
    requires e == ReadPlain(s, n, granted)
    ensures Account(e.s, h.(committed := h.committed + e.data), original)
  {
    if !PlainBuffered(s.q) {
      PlainFromKernel(s, n, granted);
    } else if s.q.speculative {
      PlainTakesNothing(s, n, granted);
    } else {
      ReadPlainConserves(s, n, granted);
    }
    HandedOver(s, h, original, e.data, e.s);
  }

  lemma GivenMatters(s: State, s2: State, tentative: seq<bv8>)
    requires Tentative(s, tentative) && (!Layout(s2.q) || Given(s2.q) != Given(s.q))
    ensures !Tentative(s2, tentative)
  {
  }

  /**
   A plain read keeps the account if and only if it asks for no more than the queue has and,
   while a transaction is reading, takes nothing from the buffer.
   */
  lemma PlainReadKeepsAccountIff(s: State, n: nat, granted: int, h: History, original: seq<bv8>)
    requires Account(s, h, original) && PlainDefined(s, n, granted)
    ensures var e := ReadPlain(s, n, granted);
            Account(e.s, h.(committed := h.committed + e.data), original) <==> PlainGuard(s.q, n)
  {
    var e := ReadPlain(s, n, granted);
    if PlainGuard(s.q, n) {
      PlainKeepsAccount(s, n, granted, h, original, e);
    } else {
      PlainBreaks(s, n, granted);
      GivenMatters(s, e.s, h.tentative);
    }
  }

  lemma FourFromKernel(mem: seq<bv8>)
    requires |mem| == 16
    ensures var s := State(mem, Empty(16), [1, 2, 3, 4]);
            && Consistent(s) && Guard(s, 4, 4)
            && ReadTx(s, 4, 4) == Effect(State(Overwrite(mem, 0, [1, 2, 3, 4]),
                                               Queues(16, 0, 4, 0, 0, 0, 0, 0, 0, true), []), 4, [1, 2, 3, 4])
  {
    assert [1 as bv8, 2, 3, 4][..4] == [1, 2, 3, 4] && [1 as bv8, 2, 3, 4][4..] == [];
  }

  /**
   A transaction has read four bytes of a pipe that has no more; a plain read by another
   thread gets the same bytes, and the commit makes both final.
   */
  lemma PlainReadDuplicates(mem: seq<bv8>)
    requires |mem| == 16
    ensures var s := State(mem, Empty(16), [1, 2, 3, 4]);
            && Consistent(s) && Guard(s, 4, 4)
            && var t := ReadTx(s, 4, 4);
               && t.data == [1, 2, 3, 4] && Consistent(t.s) && PlainDefined(t.s, 4, -1)
               && var e := ReadPlain(t.s, 4, -1);
                  e.data == [1, 2, 3, 4] && CommitState(e.s) == State(t.s.mem, Commit(t.s.q), [])
  {
    FourFromKernel(mem);
    OverwriteIs(mem, 0, [1, 2, 3, 4], 0, 0);
  }

  lemma OpKeepsAccount(s: State, op: Op, h: History, original: seq<bv8>)
    requires Allowed(s, op) && Account(s, h, original)
    ensures Account(Apply(s, op), Observe(s, op, h), original)
  {
    match op
    case TxRead(n, granted) => ReadTxConserves(s, n, granted, h.tentative);
    case CommitTx => CommitKeepsAccount(s, h, original);
    case AbortTx => AbortKeepsStream(s);
    case PlainRead(n, granted) => PlainReadKeepsAccountIff(s, n, granted, h, original);
  }

  /**
   The buffer refines a FIFO stream with transactional prefix consumption: over any run in
   which every request meets its guard, the bytes consumed for good followed by the queues
   and the kernel are the original stream, and a running transaction has been given exactly
   the stream's next bytes.
   */
  lemma {:induction false} RunKeepsAccount(s: State, ops: seq<Op>, h: History, original: seq<bv8>)
    requires AllowedRun(s, ops) && Account(s, h, original)
    ensures Account(RunState(s, ops), RunHistory(s, ops, h), original)
    ensures RunHistory(s, ops, h).tentative <= Stream(RunState(s, ops))
    decreases |ops|
  {
    if ops != [] {
      OpKeepsAccount(s, ops[0], h, original);
      RunKeepsAccount(Apply(s, ops[0]), ops[1..], Observe(s, ops[0], h), original);
    }
  }

  lemma FreshBufferAccounts(mem: seq<bv8>, kernel: seq<bv8>)
    requires |mem| <= INT_MAX
    ensures Account(State(mem, Empty(|mem|), kernel), History([], []), kernel)
  {
  }

  // ---------------------------------------------------------------- when the order is kept

  predicate Refillable(s: State, q: Queues, n: nat) {
    s.q == q && Consistent(s) && n <= |s.kernel|
  }

  lemma RefillPlaced(s: State, q: Queues, n: nat)
    requires Refillable(s, q, n) && q.speculative && !Buffered(q) && 0 < n <= INT_MAX && FitsLayout(q, n)
    requires !Refill(q, n).NoSpace?
    ensures ReadBase(q, n) + n <= |s.mem| && Consistent(Refilled(s, n, s.kernel[..n]))
    ensures FitsOrder(q, n) ==> Stream(Refilled(s, n, s.kernel[..n])) == Stream(s)
  {
    RoomTests(q, n);
    ReadKeepsLayoutIff(q, n);
    assert Layout(AfterRead(q, n, n));
    if FitsOrder(q, n) {
      RefillConserves(s, n, s.kernel[..n]);
    }
  }

  /** Zeros in the buffer, ones in the kernel: the ones overtake the secondary queue. */
  lemma Overtakes(q: Queues, n: nat) returns (s: State)
    requires Layout(q) && q.speculative && !Buffered(q) && 0 < n <= INT_MAX && FitsLayout(q, n)
    requires !FitsOrder(q, n)
    ensures Refillable(s, q, n) && ReadBase(q, n) + n <= |s.mem| && Consistent(Refilled(s, n, s.kernel[..n]))
    ensures Stream(Refilled(s, n, s.kernel[..n])) != Stream(s)
  {
    s := State(seq(q.sizeMax, _ => 0), q, seq(n, _ => 1));
    RefillPlaced(s, q, n);
    var s' := Refilled(s, n, s.kernel[..n]);
    var k := q.primaryTail - q.primaryHead;
    assert s'.mem[q.primaryTail] == 1;
    assert Queued(s)[k] == 0 && Queued(s')[k] == 1;
    assert Stream(s)[k] == 0 && Stream(s')[k] == 1;
  }

  /**
   A refill of a non-empty request keeps the stream, for all contents of buffer and kernel,
   if and only if it does not go to the primary queue while the secondary is in use.
   */
  lemma RefillKeepsStreamIff(q: Queues, n: nat)
    requires Layout(q) && q.speculative && !Buffered(q) && 0 < n <= INT_MAX && FitsLayout(q, n)
    requires !Refill(q, n).NoSpace?
    ensures (forall s: State :: Refillable(s, q, n) ==>
              && ReadBase(q, n) + n <= |s.mem|
              && Consistent(Refilled(s, n, s.kernel[..n]))
              && Stream(Refilled(s, n, s.kernel[..n])) == Stream(s))
            <==> FitsOrder(q, n)
  {
    if FitsOrder(q, n) {
      forall s: State | Refillable(s, q, n)
        ensures ReadBase(q, n) + n <= |s.mem| && Consistent(Refilled(s, n, s.kernel[..n]))
                && Stream(Refilled(s, n, s.kernel[..n])) == Stream(s)
      {
        RefillPlaced(s, q, n);
      }
    } else {
      var s := Overtakes(q, n);
    }
  }

  /** With requests of one size the order needs no guard: every run keeps its own condition. */
  lemma ConstantSizeNeedsNoOrderGuard(s: State, n: nat, granted: int)
    requires Consistent(s) && FixedSize(s.q, n) && n <= INT_MAX
    requires FitsLayout(Snapshot(s.q), n) && (!Buffered(Snapshot(s.q)) ==> Answer(s, n, granted))
    ensures Guard(s, n, granted) && FitsOrder(Snapshot(s.q), n)
    ensures FixedSize(ReadTx(s, n, granted).s.q, n)
  {
    FixedSizeKeepsOrder(s.q, n, if granted < 0 then 0 else granted, n);
    var g := if granted < 0 then 0 else granted;
    if g <= n { FixedSizeKeepsOrder(Snapshot(s.q), n, g, n); }
  }

  predicate SizeIs(op: Op, n: nat) {
    op.TxRead? ==> op.n == n
  }

  /** A run in which every transactional read asks for `n` bytes and meets its guard. */
  predicate GuardedRun(s: State, ops: seq<Op>, n: nat)
    decreases |ops|
  {
    ops == [] || (Guarded(s, ops[0]) && SizeIs(ops[0], n) && GuardedRun(Apply(s, ops[0]), ops[1..], n))
  }

  lemma FixedSizeStep(s: State, op: Op, n: nat)
    requires Guarded(s, op) && SizeIs(op, n) && FixedSize(s.q, n)
    ensures Allowed(s, op) && FixedSize(Apply(s, op).q, n)
  {
    match op
    case TxRead(_, granted) => ConstantSizeNeedsNoOrderGuard(s, n, granted);
    case CommitTx => FixedSizeKeepsOrder(s.q, n, 0, 0);
    case AbortTx => FixedSizeKeepsOrder(s.q, n, 0, 0);
    case PlainRead(k, _) => FixedSizeKeepsOrder(s.q, n, 0, k);
  }

  /** So a run with requests of one size is an allowed run as it is. */
  lemma {:induction false} ConstantSizeRunIsAllowed(s: State, ops: seq<Op>, n: nat)
    requires GuardedRun(s, ops, n) && FixedSize(s.q, n)
    ensures AllowedRun(s, ops)
    decreases |ops|
  {
    if ops != [] {
      FixedSizeStep(s, ops[0], n);
      ConstantSizeRunIsAllowed(Apply(s, ops[0]), ops[1..], n);
    }
  }

  /** The state after a transaction has read four bytes, once or twice, getting all it asks for. */
  function ReadFour(q: Queues): Queues {
    AfterRead(Snapshot(q), 4, 4)
  }

  lemma RoomForOne(q: Queues)
    requires q.sizeMax == 10 && q.primaryTail == 8
    ensures RoomPrimary(q, 1) && Refill(q, 1).Primary? && !RoomPrimary(q, 4)
  {
    assert U32(9) == 9 && U32(6) == 6;
  }

  lemma FourByteReads()
    ensures ReadFour(Empty(10)) == Queues(10, 0, 4, 0, 0, 0, 0, 0, 0, true)
    ensures ReadFour(Queues(10, 0, 4, 0, 0, 0, 0, 0, 0, true)) == Queues(10, 0, 8, 0, 0, 0, 0, 0, 0, true)
    ensures ReadFour(Queues(10, 0, 8, 0, 0, 0, 0, 0, 0, false)) == Queues(10, 0, 8, 0, 0, 4, 8, 0, 0, true)
    ensures ReadFour(Queues(10, 4, 8, 0, 0, 4, 8, 0, 0, false)) == Queues(10, 4, 8, 0, 0, 8, 8, 0, 0, true)
    ensures ReadFour(Queues(10, 4, 8, 0, 0, 8, 8, 0, 0, true)) == Queues(10, 4, 8, 0, 4, 8, 8, 0, 0, true)
    ensures ReadFour(Queues(10, 4, 8, 0, 4, 8, 8, 0, 0, false)) == Queues(10, 4, 8, 0, 4, 8, 8, 0, 4, true)
    ensures ReadFour(Queues(10, 4, 8, 0, 4, 8, 8, 0, 4, true)) == Queues(10, 4, 8, 0, 4, 8, 8, 4, 4, true)
  {
  }

  lemma OneByteOvertakes(q: Queues)
    requires q == Queues(10, 4, 8, 0, 4, 8, 8, 4, 4, true)
    ensures Layout(q) && FitsLayout(q, 1) && FixedSize(q, 4) && Refill(q, 1).Primary? && !FitsOrder(q, 1)
  {
    RoomForOne(q);
  }

  /** A transaction that starts on these queues and reads four bytes twice. */
  ghost predicate ReadsTwice(q: Queues, once: Queues, twice: Queues) {
    once == ReadFour(q) && twice == ReadFour(once)
  }

  lemma FirstTransaction() returns (once: Queues, twice: Queues)
    ensures ReadsTwice(Empty(10), once, twice) && Undo(twice) == Queues(10, 0, 8, 0, 0, 0, 0, 0, 0, false)
  {
    FourByteReads();
    once, twice := Queues(10, 0, 4, 0, 0, 0, 0, 0, 0, true), Queues(10, 0, 8, 0, 0, 0, 0, 0, 0, true);
  }

  lemma SecondTransaction(q: Queues) returns (once: Queues)
    requires q == Queues(10, 0, 8, 0, 0, 0, 0, 0, 0, false)
    ensures once == ReadFour(q) && Commit(once) == Queues(10, 4, 8, 0, 0, 4, 8, 0, 0, false)
  {
    once := Queues(10, 0, 8, 0, 0, 4, 8, 0, 0, true);
    assert once == Consume(Snapshot(q), 4);
  }

  lemma ThirdTransaction(q: Queues) returns (once: Queues, twice: Queues)
    requires q == Queues(10, 4, 8, 0, 0, 4, 8, 0, 0, false)
    ensures ReadsTwice(q, once, twice) && Undo(twice) == Queues(10, 4, 8, 0, 4, 8, 8, 0, 0, false)
  {
    FourByteReads();
    once, twice := Queues(10, 4, 8, 0, 0, 8, 8, 0, 0, true), Queues(10, 4, 8, 0, 4, 8, 8, 0, 0, true);
  }

  lemma FourthTransaction(q: Queues) returns (once: Queues, twice: Queues)
    requires q == Queues(10, 4, 8, 0, 4, 8, 8, 0, 0, false)
    ensures ReadsTwice(q, once, twice) && twice == Queues(10, 4, 8, 0, 4, 8, 8, 4, 4, true)
  {
    FourByteReads();
    once, twice := Queues(10, 4, 8, 0, 4, 8, 8, 0, 4, true), Queues(10, 4, 8, 0, 4, 8, 8, 4, 4, true);
  }

  /**
   With changing sizes bytes can overtake each other. On a ten-byte buffer an aborted
   transaction has read twice, a committed one once, another aborted one twice, four bytes each
   time. A transaction that uses up the queues and then asks for one byte puts the new byte in
   front of the secondary queue.
   */
  lemma ChangingSizesBreakOrder()
    returns (q1: Queues, q2: Queues, q3: Queues, q4: Queues, q5: Queues, q6: Queues, q7: Queues)
    ensures ReadsTwice(Empty(10), q1, q2) && q3 == ReadFour(Undo(q2))
    ensures ReadsTwice(Commit(q3), q4, q5) && ReadsTwice(Undo(q5), q6, q7)
    ensures Layout(q7) && FitsLayout(q7, 1) && FixedSize(q7, 4) && Refill(q7, 1).Primary? && !FitsOrder(q7, 1)
  {
    q1, q2 := FirstTransaction();
    q3 := SecondTransaction(Undo(q2));
    q4, q5 := ThirdTransaction(Commit(q3));
    q6, q7 := FourthTransaction(Undo(q5));
    OneByteOvertakes(q7);
  }
}
