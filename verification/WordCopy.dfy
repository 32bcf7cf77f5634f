/**
 The unrolled, software-pipelined word copies (src/libc/wordcopy.c) on a memory of aligned
 words. Pointers are word indices. A jump into the middle of the loop is an entry number:
 in its first round the loop runs the steps do<entry> to do1 only.
 */
module WordCopy {
  const OP_T_THRES: nat := 16

  /** The test the copies make for lengths that need no round of the loop. */
  predicate SkipsLoop(len: nat, opsiz: nat) {
    OP_T_THRES <= 3 * opsiz && len == 0
  }

  ghost predicate Cell<W>(m: seq<W>, m0: seq<W>, v: seq<W>, d: nat, lo: nat, hi: nat, i: nat)
    requires i < |m| == |m0| && hi <= |v|
  {
    m[i] == if d + lo <= i < d + hi then v[i - d] else m0[i]
  }

  /** `m` is `m0` with v[lo..hi] written to its place in the block that begins at `d`. */
  ghost predicate Written<W>(m: seq<W>, m0: seq<W>, v: seq<W>, d: nat, lo: nat, hi: nat) {
    |m| == |m0| && hi <= |v| && forall i: nat :: i < |m| ==> Cell(m, m0, v, d, lo, hi, i)
  }

  lemma NothingWritten<W>(m: seq<W>, v: seq<W>, d: nat, lo: nat)
    requires lo <= |v|
    ensures Written(m, m, v, d, lo, lo)
  {
  }

  /** A word still has its old value if it is not among those written. */
  predicate Intact(x: int, d: nat, lo: nat, hi: nat) {
    x < d + lo || d + hi <= x
  }

  /** One step of a forward loop: load a word, then store the pending one behind those written. */
  method StepUp<W>(mem: array<W>, src: int, dst: int, pending: W, ghost m0: seq<W>, ghost v: seq<W>, ghost d: nat,
                   ghost c: nat) returns (loaded: W)
    requires Written(mem[..], m0, v, d, 0, c)
    requires 0 <= src < mem.Length && Intact(src, d, 0, c)
    requires c < |v| && dst == d + c < mem.Length && pending == v[c]
    modifies mem
    ensures loaded == m0[src] && Written(mem[..], m0, v, d, 0, c + 1)
  {
    assert Cell(mem[..], m0, v, d, 0, c, src);
    ghost var m := mem[..];
    loaded := mem[src];
    mem[dst] := pending;
    ghost var t, c1 := mem[..], c + 1;
    forall i: nat | i < |t| ensures Cell(t, m0, v, d, 0, c1, i) {
      assert Cell(m, m0, v, d, 0, c, i);
    }
  }

  /** One step of a backward loop: load a word, then store the pending one in front of those written. */
  method StepDown<W>(mem: array<W>, src: int, dst: int, pending: W, ghost m0: seq<W>, ghost v: seq<W>, ghost d: nat,
                     ghost lo: nat) returns (loaded: W)
    requires Written(mem[..], m0, v, d, lo, |v|)
    requires 0 <= src < mem.Length && Intact(src, d, lo, |v|)
    requires 0 < lo <= |v| && dst == d + lo - 1 < mem.Length && pending == v[lo - 1]
    modifies mem
    ensures loaded == m0[src] && Written(mem[..], m0, v, d, lo - 1, |v|)
  {
    assert Cell(mem[..], m0, v, d, lo, |v|, src);
    ghost var m := mem[..];
    loaded := mem[src];
    mem[dst] := pending;
    ghost var t, lo1, n := mem[..], lo - 1, |v|;
    forall i: nat | i < |t| ensures Cell(t, m0, v, d, lo1, n, i) {
      assert Cell(m, m0, v, d, lo, |v|, i);
    }
  }

  /** The step after a loop: the last pending word is stored, nothing is loaded. */
  method LastUp<W>(mem: array<W>, dst: int, pending: W, ghost m0: seq<W>, ghost v: seq<W>, ghost d: nat)
    requires v != [] && Written(mem[..], m0, v, d, 0, |v| - 1)
    requires dst == d + |v| - 1 < mem.Length && pending == v[|v| - 1]
    modifies mem
    ensures Written(mem[..], m0, v, d, 0, |v|)
  {
    var _ := StepUp(mem, dst, dst, pending, m0, v, d, |v| - 1);
  }

  method LastDown<W>(mem: array<W>, dst: int, pending: W, ghost m0: seq<W>, ghost v: seq<W>, ghost d: nat)
    requires v != [] && Written(mem[..], m0, v, d, 1, |v|)
    requires dst == d < mem.Length && pending == v[0]
    modifies mem
    ensures Written(mem[..], m0, v, d, 0, |v|)
  {
    var _ := StepDown(mem, dst, dst, pending, m0, v, d, 1);
  }

  // ---------------------------------------------------------------- aligned copies

  /** The block `v` is what is at `s`, and both places are in the memory `m`. */
  ghost predicate Block<W>(m: seq<W>, v: seq<W>, d: nat, s: nat) {
    d + |v| <= |m| && s + |v| <= |m| && forall i :: 0 <= i < |v| ==> v[i] == m[s + i]
  }

  /** Before do<entry>, `c` words are stored and the next one is pending, in a1 or a0 by turns. */
  ghost predicate FwdAt<W>(m: seq<W>, entry: nat, srcp: int, dstp: int, a0: W, a1: W, m0: seq<W>, v: seq<W>, d: nat,
                           s: nat, c: nat) {
    && Block(m0, v, d, s) && (d <= s + 1 || s + |v| <= d) && entry <= 8 && c < |v|
    && dstp + 8 - entry == d + c && srcp + 8 - entry == s + c + 1
    && Written(m, m0, v, d, 0, c) && v[c] == if entry % 2 == 0 then a1 else a0
  }

  /** The statements do8 to do5. */
  method FwdUpper<W>(mem: array<W>, entry: nat, srcp: int, dstp: int, r0: W, r1: W, ghost m0: seq<W>, ghost v: seq<W>,
                     ghost d: nat, ghost s: nat, ghost c: nat) returns (a0: W, a1: W)
    requires FwdAt(mem[..], entry, srcp, dstp, r0, r1, m0, v, d, s, c) && 4 < entry && c + entry < |v|
    modifies mem
    ensures FwdAt(mem[..], 4, srcp, dstp, a0, a1, m0, v, d, s, c + entry - 4)
  {
    a0, a1 := r0, r1;
    if entry >= 8 { a0 := StepUp(mem, srcp, dstp, a1, m0, v, d, c); }
    if entry >= 7 { a1 := StepUp(mem, srcp + 1, dstp + 1, a0, m0, v, d, c + entry - 7); }
    if entry >= 6 { a0 := StepUp(mem, srcp + 2, dstp + 2, a1, m0, v, d, c + entry - 6); }
    a1 := StepUp(mem, srcp + 3, dstp + 3, a0, m0, v, d, c + entry - 5);
  }

  /** The statements do4 to do1. */
  method FwdLower<W>(mem: array<W>, entry: nat, srcp: int, dstp: int, r0: W, r1: W, ghost m0: seq<W>, ghost v: seq<W>,
                     ghost d: nat, ghost s: nat, ghost c: nat) returns (a0: W, a1: W)
    requires FwdAt(mem[..], entry, srcp, dstp, r0, r1, m0, v, d, s, c) && 0 < entry <= 4 && c + entry < |v|
    modifies mem
    ensures FwdAt(mem[..], 0, srcp, dstp, a0, a1, m0, v, d, s, c + entry)
  {
    a0, a1 := r0, r1;
    if entry >= 4 { a0 := StepUp(mem, srcp + 4, dstp + 4, a1, m0, v, d, c); }
    if entry >= 3 { a1 := StepUp(mem, srcp + 5, dstp + 5, a0, m0, v, d, c + entry - 3); }
    if entry >= 2 { a0 := StepUp(mem, srcp + 6, dstp + 6, a1, m0, v, d, c + entry - 2); }
    a1 := StepUp(mem, srcp + 7, dstp + 7, a0, m0, v, d, c + entry - 1);
  }

  /** One round of the loop from do<entry> on. */
  method FwdRound<W>(mem: array<W>, entry: nat, srcp: int, dstp: int, r0: W, r1: W, ghost m0: seq<W>, ghost v: seq<W>,
                     ghost d: nat, ghost s: nat, ghost c: nat) returns (a0: W, a1: W)
    requires FwdAt(mem[..], entry, srcp, dstp, r0, r1, m0, v, d, s, c) && 0 < entry && c + entry < |v|
    modifies mem
    ensures FwdAt(mem[..], 0, srcp, dstp, a0, a1, m0, v, d, s, c + entry)
  {
    if entry > 4 {
      a0, a1 := FwdUpper(mem, entry, srcp, dstp, r0, r1, m0, v, d, s, c);
      a0, a1 := FwdLower(mem, 4, srcp, dstp, a0, a1, m0, v, d, s, c + entry - 4);
    } else {
      a0, a1 := FwdLower(mem, entry, srcp, dstp, r0, r1, m0, v, d, s, c);
    }
  }

  /** The loop, entered at do<entry>, until the last word is pending. */
  method FwdLoop<W>(mem: array<W>, entry: nat, srcBegin: int, dstBegin: int, count: nat, r0: W, r1: W,
                    ghost m0: seq<W>, ghost v: seq<W>, ghost d: nat, ghost s: nat, ghost rounds: nat)
    returns (dstp: int, a1: W)
    requires FwdAt(mem[..], entry, srcBegin, dstBegin, r0, r1, m0, v, d, s, 0)
    requires 0 < entry && 0 < count == 8 * rounds && count == |v| - 1 + 8 - entry
    modifies mem
    ensures |m0| == mem.Length && Written(mem[..], m0, v, d, 0, |v| - 1)
    ensures a1 == v[|v| - 1] && dstp == d + |v| - 1
  {
    var a0;
    a0, a1 := FwdRound(mem, entry, srcBegin, dstBegin, r0, r1, m0, v, d, s, 0);
    var srcp, len := srcBegin + 8, count - 8;
    dstp := dstBegin + 8;
    ghost var c, left := entry, rounds - 1;
    while len != 0
      invariant len == 8 * left && len == |v| - 1 - c
      invariant FwdAt(mem[..], 8, srcp, dstp, a0, a1, m0, v, d, s, c)
    {
      a0, a1 := FwdRound(mem, 8, srcp, dstp, a0, a1, m0, v, d, s, c);
      c, left, srcp, dstp, len := c + 8, left - 1, srcp + 8, dstp + 8, len - 8;
    }
  }

  /** The switch: where to enter the loop, with adjusted pointers and length; do0 is behind the loop. */
  method FwdEntry<W(0)>(mem: array<W>, dst: nat, src: nat, count: nat)
    returns (entry: nat, srcp: int, dstp: int, len: nat, a0: W, a1: W, ghost rounds: nat)
    requires dst + count <= mem.Length && src + count <= mem.Length && 0 < count
    ensures len == 8 * rounds && len == count - 1 + 8 - entry && 1 <= entry <= 8 && (entry == 8 <==> count % 8 == 1)
    ensures dstp + 8 - entry == dst && srcp + 8 - entry == src + 1 && mem[src] == if entry % 2 == 0 then a1 else a0
  {
    a0, a1 := *, *;
    var q := count / 8;
    assert count == 8 * q + count % 8;
    rounds := if count % 8 <= 1 then q else q + 1;
    match count % 8 {
      case 2 => a0 := mem[src]; srcp, dstp, len, entry := src - 6, dst - 7, count + 6, 1;
      case 3 => a1 := mem[src]; srcp, dstp, len, entry := src - 5, dst - 6, count + 5, 2;
      case 4 => a0 := mem[src]; srcp, dstp, len, entry := src - 4, dst - 5, count + 4, 3;
      case 5 => a1 := mem[src]; srcp, dstp, len, entry := src - 3, dst - 4, count + 3, 4;
      case 6 => a0 := mem[src]; srcp, dstp, len, entry := src - 2, dst - 3, count + 2, 5;
      case 7 => a1 := mem[src]; srcp, dstp, len, entry := src - 1, dst - 2, count + 1, 6;
      case 0 => a0 := mem[src]; srcp, dstp, len, entry := src, dst - 1, count, 7;
      case _ => a1 := mem[src]; srcp, dstp, len, entry := src + 1, dst, count - 1, 8;
    }
  }

  /** txc_libc_wordcopy_fwd_aligned. */
  method FwdAligned<W(0)>(mem: array<W>, dst: nat, src: nat, count: nat, opsiz: nat)
    requires dst + count <= mem.Length && src + count <= mem.Length
    requires count >= 2 || OP_T_THRES <= 3 * opsiz
    requires dst <= src + 1 || src + count <= dst
    modifies mem
    ensures mem[..] == Moved(old(mem[..]), dst, src, count)
  {
    ghost var m0 := mem[..];
    if SkipsLoop(count, opsiz) {
      MovedNothing(m0, dst, src);
      return;
    }
    ghost var v := m0[src..src + count];
    NothingWritten(m0, v, dst, 0);
    var entry, srcp, dstp, len, a0, a1, rounds := FwdEntry(mem, dst, src, count);
    if !(entry == 8 && SkipsLoop(len, opsiz)) {
      dstp, a1 := FwdLoop(mem, entry, srcp, dstp, len, a0, a1, m0, v, dst, src, rounds);
    }
    LastUp(mem, dstp, a1, m0, v, dst);
    WrittenIsStored(mem[..], m0, v, dst);
  }

  /** memmove on words. */
  function Moved<W>(m: seq<W>, d: nat, s: nat, n: nat): seq<W>
    requires d + n <= |m| && s + n <= |m|
  {
    Stored(m, d, m[s..s + n])
  }

  lemma MovedNothing<W>(m: seq<W>, d: nat, s: nat)
    requires d <= |m| && s <= |m|
    ensures Moved(m, d, s, 0) == m
  {
  }

  // ---------------------------------------------------------------- aligned, backward

  /** Before do<entry>, the last `c` words are stored and the one in front of them is pending. */
  ghost predicate BwdAt<W>(m: seq<W>, entry: nat, srcp: int, dstp: int, a0: W, a1: W, m0: seq<W>, v: seq<W>, d: nat,
                           s: nat, c: nat) {
    && Block(m0, v, d, s) && (s <= d + 1 || d + |v| <= s) && entry <= 8 && c < |v|
    && dstp + entry == d + |v| - c && srcp + entry == s + |v| - 1 - c
    && Written(m, m0, v, d, |v| - c, |v|) && v[|v| - 1 - c] == if entry % 2 == 0 then a1 else a0
  }

  /** The statements do8 to do5. */
  method BwdUpper<W>(mem: array<W>, entry: nat, srcp: int, dstp: int, r0: W, r1: W, ghost m0: seq<W>, ghost v: seq<W>,
                     ghost d: nat, ghost s: nat, ghost c: nat) returns (a0: W, a1: W)
    requires BwdAt(mem[..], entry, srcp, dstp, r0, r1, m0, v, d, s, c) && 4 < entry && c + entry < |v|
    modifies mem
    ensures BwdAt(mem[..], 4, srcp, dstp, a0, a1, m0, v, d, s, c + entry - 4)
  {
    a0, a1 := r0, r1;
    ghost var lo := |v| - c;
    if entry >= 8 { a0 := StepDown(mem, srcp + 7, dstp + 7, a1, m0, v, d, lo); }
    if entry >= 7 { a1 := StepDown(mem, srcp + 6, dstp + 6, a0, m0, v, d, lo - entry + 7); }
    if entry >= 6 { a0 := StepDown(mem, srcp + 5, dstp + 5, a1, m0, v, d, lo - entry + 6); }
    a1 := StepDown(mem, srcp + 4, dstp + 4, a0, m0, v, d, lo - entry + 5);
  }

  /** The statements do4 to do1. */
  method BwdLower<W>(mem: array<W>, entry: nat, srcp: int, dstp: int, r0: W, r1: W, ghost m0: seq<W>, ghost v: seq<W>,
                     ghost d: nat, ghost s: nat, ghost c: nat) returns (a0: W, a1: W)
    requires BwdAt(mem[..], entry, srcp, dstp, r0, r1, m0, v, d, s, c) && 0 < entry <= 4 && c + entry < |v|
    modifies mem
    ensures BwdAt(mem[..], 0, srcp, dstp, a0, a1, m0, v, d, s, c + entry)
  {
    a0, a1 := r0, r1;
    ghost var lo := |v| - c;
    if entry >= 4 { a0 := StepDown(mem, srcp + 3, dstp + 3, a1, m0, v, d, lo); }
    if entry >= 3 { a1 := StepDown(mem, srcp + 2, dstp + 2, a0, m0, v, d, lo - entry + 3); }
    if entry >= 2 { a0 := StepDown(mem, srcp + 1, dstp + 1, a1, m0, v, d, lo - entry + 2); }
    a1 := StepDown(mem, srcp, dstp, a0, m0, v, d, lo - entry + 1);
  }

  /** One round of the loop from do<entry> on. */
  method BwdRound<W>(mem: array<W>, entry: nat, srcp: int, dstp: int, r0: W, r1: W, ghost m0: seq<W>, ghost v: seq<W>,
                     ghost d: nat, ghost s: nat, ghost c: nat) returns (a0: W, a1: W)
    requires BwdAt(mem[..], entry, srcp, dstp, r0, r1, m0, v, d, s, c) && 0 < entry && c + entry < |v|
    modifies mem
    ensures BwdAt(mem[..], 0, srcp, dstp, a0, a1, m0, v, d, s, c + entry)
  {
    if entry > 4 {
      a0, a1 := BwdUpper(mem, entry, srcp, dstp, r0, r1, m0, v, d, s, c);
      a0, a1 := BwdLower(mem, 4, srcp, dstp, a0, a1, m0, v, d, s, c + entry - 4);
    } else {
      a0, a1 := BwdLower(mem, entry, srcp, dstp, r0, r1, m0, v, d, s, c);
    }
  }

  /** The loop, entered at do<entry>, until the first word is pending. */
  method BwdLoop<W>(mem: array<W>, entry: nat, srcBegin: int, dstBegin: int, count: nat, r0: W, r1: W,
                    ghost m0: seq<W>, ghost v: seq<W>, ghost d: nat, ghost s: nat, ghost rounds: nat)
    returns (dstp: int, a1: W)
    requires BwdAt(mem[..], entry, srcBegin, dstBegin, r0, r1, m0, v, d, s, 0)
    requires 0 < entry && 0 < count == 8 * rounds && count == |v| - 1 + 8 - entry
    modifies mem
    ensures |m0| == mem.Length && Written(mem[..], m0, v, d, 1, |v|)
    ensures a1 == v[0] && dstp + 7 == d
  {
    var a0;
    a0, a1 := BwdRound(mem, entry, srcBegin, dstBegin, r0, r1, m0, v, d, s, 0);
    var srcp, len := srcBegin - 8, count - 8;
    dstp := dstBegin - 8;
    ghost var c, left := entry, rounds - 1;
    while len != 0
      invariant len == 8 * left && len == |v| - 1 - c
      invariant BwdAt(mem[..], 8, srcp, dstp, a0, a1, m0, v, d, s, c)
    {
      a0, a1 := BwdRound(mem, 8, srcp, dstp, a0, a1, m0, v, d, s, c);
      c, left, srcp, dstp, len := c + 8, left - 1, srcp - 8, dstp - 8, len - 8;
    }
  }

  /** The switch of the backward copy; the pointers are ends of blocks. */
  method BwdEntry<W(0)>(mem: array<W>, dst: nat, src: nat, count: nat)
    returns (entry: nat, srcp: int, dstp: int, len: nat, a0: W, a1: W, ghost rounds: nat)
    requires 0 < count <= dst <= mem.Length && count <= src <= mem.Length
    ensures len == 8 * rounds && len == count - 1 + 8 - entry && 1 <= entry <= 8 && (entry == 8 <==> count % 8 == 1)
    ensures dstp + entry == dst && srcp + entry == src - 1 && mem[src - 1] == if entry % 2 == 0 then a1 else a0
  {
    a0, a1 := *, *;
    var q := count / 8;
    assert count == 8 * q + count % 8;
    rounds := if count % 8 <= 1 then q else q + 1;
    match count % 8 {
      case 2 => srcp, dstp := src - 2, dst - 1; a0 := mem[srcp + 1]; len, entry := count + 6, 1;
      case 3 => srcp, dstp := src - 3, dst - 2; a1 := mem[srcp + 2]; len, entry := count + 5, 2;
      case 4 => srcp, dstp := src - 4, dst - 3; a0 := mem[srcp + 3]; len, entry := count + 4, 3;
      case 5 => srcp, dstp := src - 5, dst - 4; a1 := mem[srcp + 4]; len, entry := count + 3, 4;
      case 6 => srcp, dstp := src - 6, dst - 5; a0 := mem[srcp + 5]; len, entry := count + 2, 5;
      case 7 => srcp, dstp := src - 7, dst - 6; a1 := mem[srcp + 6]; len, entry := count + 1, 6;
      case 0 => srcp, dstp := src - 8, dst - 7; a0 := mem[srcp + 7]; len, entry := count, 7;
      case _ => srcp, dstp := src - 9, dst - 8; a1 := mem[srcp + 8]; len, entry := count - 1, 8;
    }
  }

  /** txc_libc_wordcopy_bwd_aligned. */
  method BwdAligned<W(0)>(mem: array<W>, dst: nat, src: nat, count: nat, opsiz: nat)
    requires count <= dst <= mem.Length && count <= src <= mem.Length
    requires count >= 2 || OP_T_THRES <= 3 * opsiz
    requires src <= dst + 1 || dst <= src - count
    modifies mem
    ensures mem[..] == Moved(old(mem[..]), dst - count, src - count, count)
  {
    ghost var m0, d, s := mem[..], dst - count, src - count;
    if SkipsLoop(count, opsiz) {
      MovedNothing(m0, d, s);
      return;
    }
    ghost var v := m0[s..s + count];
    NothingWritten(m0, v, d, count);
    var entry, srcp, dstp, len, a0, a1, rounds := BwdEntry(mem, dst, src, count);
    if !(entry == 8 && SkipsLoop(len, opsiz)) {
      dstp, a1 := BwdLoop(mem, entry, srcp, dstp, len, a0, a1, m0, v, d, s, rounds);
    }
    LastDown(mem, dstp + 7, a1, m0, v, d);
    WrittenIsStored(mem[..], m0, v, d);
  }

  // ---------------------------------------------------------------- shifted copies

  /** The words a shifted copy produces from the `n + 1` words at `s`. */
  function Merged<W>(m: seq<W>, s: nat, n: nat, merge: (W, W) -> W): (r: seq<W>)
    requires n == 0 || s + n < |m|
    ensures |r| == n
  {
    seq(n, i requires 0 <= i < n => merge(m[s + i], m[s + i + 1]))
  }

  /** Before do<entry>, `c` words are stored and the two source words for the next one are at hand. */
  ghost predicate FwdShiftAt<W>(m: seq<W>, entry: nat, srcp: int, dstp: int, before: W, recent: W,
                                m0: seq<W>, v: seq<W>, merge: (W, W) -> W, d: nat, s: nat, c: nat) {
    && d + |v| <= |m0| && s + |v| < |m0| && v == Merged(m0, s, |v|, merge)
    && (d <= s + 2 || s + |v| < d) && entry <= 4 && c < |v|
    && dstp + 4 - entry == d + c && srcp + 4 - entry == s + c + 2
    && Written(m, m0, v, d, 0, c) && before == m0[s + c] && recent == m0[s + c + 1]
  }

  /** One round from do<entry> on; a0 to a3 take turns. */
  method FwdShiftRound<W>(mem: array<W>, entry: nat, srcp: int, dstp: int, r0: W, r1: W, r2: W, r3: W,
                          merge: (W, W) -> W, ghost m0: seq<W>, ghost v: seq<W>, ghost d: nat, ghost s: nat,
                          ghost c: nat) returns (a0: W, a1: W, a2: W, a3: W)
    requires FwdShiftAt(mem[..], entry, srcp, dstp,
                        if entry == 4 then r2 else if entry == 3 then r3 else if entry == 2 then r0 else r1,
                        if entry == 4 then r3 else if entry == 3 then r0 else if entry == 2 then r1 else r2,
                        m0, v, merge, d, s, c)
    requires 0 < entry && c + entry < |v|
    modifies mem
    ensures FwdShiftAt(mem[..], 0, srcp, dstp, a2, a3, m0, v, merge, d, s, c + entry)
  {
    a0, a1, a2, a3 := r0, r1, r2, r3;
    if entry >= 4 { a0 := StepUp(mem, srcp, dstp, merge(a2, a3), m0, v, d, c); }
    if entry >= 3 { a1 := StepUp(mem, srcp + 1, dstp + 1, merge(a3, a0), m0, v, d, c + entry - 3); }
    if entry >= 2 { a2 := StepUp(mem, srcp + 2, dstp + 2, merge(a0, a1), m0, v, d, c + entry - 2); }
    a3 := StepUp(mem, srcp + 3, dstp + 3, merge(a1, a2), m0, v, d, c + entry - 1);
  }

  /** The loop, entered at do<entry>, until the last word is pending. */
  method FwdShiftLoop<W>(mem: array<W>, entry: nat, srcBegin: int, dstBegin: int, count: nat,
                         r0: W, r1: W, r2: W, r3: W, merge: (W, W) -> W,
                         ghost m0: seq<W>, ghost v: seq<W>, ghost d: nat, ghost s: nat, ghost rounds: nat)
    returns (dstp: int, a2: W, a3: W)
    requires FwdShiftAt(mem[..], entry, srcBegin, dstBegin,
                        if entry == 4 then r2 else if entry == 3 then r3 else if entry == 2 then r0 else r1,
                        if entry == 4 then r3 else if entry == 3 then r0 else if entry == 2 then r1 else r2,
                        m0, v, merge, d, s, 0)
    requires 0 < entry && 0 < count == 4 * rounds && count == |v| - 1 + 4 - entry
    modifies mem
    ensures |m0| == mem.Length && Written(mem[..], m0, v, d, 0, |v| - 1)
    ensures merge(a2, a3) == v[|v| - 1] && dstp == d + |v| - 1
  {
    var a0, a1;
    a0, a1, a2, a3 := FwdShiftRound(mem, entry, srcBegin, dstBegin, r0, r1, r2, r3, merge, m0, v, d, s, 0);
    var srcp, len := srcBegin + 4, count - 4;
    dstp := dstBegin + 4;
    ghost var c, left := entry, rounds - 1;
    while len != 0
      invariant len == 4 * left && len == |v| - 1 - c
      invariant FwdShiftAt(mem[..], 4, srcp, dstp, a2, a3, m0, v, merge, d, s, c)
    {
      a0, a1, a2, a3 := FwdShiftRound(mem, 4, srcp, dstp, a0, a1, a2, a3, merge, m0, v, d, s, c);
      c, left, srcp, dstp, len := c + 4, left - 1, srcp + 4, dstp + 4, len - 4;
    }
  }

  /** The switch of the shifted copy. */
  method FwdShiftEntry<W(0)>(mem: array<W>, dst: nat, src: nat, count: nat)
    returns (entry: nat, srcp: int, dstp: int, len: nat, a0: W, a1: W, a2: W, a3: W, ghost rounds: nat)
    requires 0 < count && dst + count <= mem.Length && src + count < mem.Length
    ensures len == 4 * rounds && len == count - 1 + 4 - entry && 1 <= entry <= 4 && (entry == 4 <==> count % 4 == 1)
    ensures dstp + 4 - entry == dst && srcp + 4 - entry == src + 2
    ensures mem[src] == if entry == 4 then a2 else if entry == 3 then a3 else if entry == 2 then a0 else a1
    ensures mem[src + 1] == if entry == 4 then a3 else if entry == 3 then a0 else if entry == 2 then a1 else a2
  {
    a0, a1, a2, a3 := *, *, *, *;
    var q := count / 4;
    assert count == 4 * q + count % 4;
    rounds := if count % 4 <= 1 then q else q + 1;
    match count % 4 {
      case 2 => a1, a2 := mem[src], mem[src + 1]; srcp, dstp, len, entry := src - 1, dst - 3, count + 2, 1;
      case 3 => a0, a1 := mem[src], mem[src + 1]; srcp, dstp, len, entry := src, dst - 2, count + 1, 2;
      case 0 => a3, a0 := mem[src], mem[src + 1]; srcp, dstp, len, entry := src + 1, dst - 1, count, 3;
      case _ => a2, a3 := mem[src], mem[src + 1]; srcp, dstp, len, entry := src + 2, dst, count - 1, 4;
    }
  }

  /** txc_libc_wordcopy_fwd_dest_aligned; `src` is the word the source begins in. */
  method FwdDestAligned<W(0)>(mem: array<W>, dst: nat, src: nat, count: nat, merge: (W, W) -> W, opsiz: nat)
    requires dst + count <= mem.Length && (count == 0 || src + count < mem.Length)
    requires count >= 2 || OP_T_THRES <= 3 * opsiz
    requires dst <= src + 2 || src + count < dst
    modifies mem
    ensures mem[..] == Stored(old(mem[..]), dst, Merged(old(mem[..]), src, count, merge))
  {
    ghost var m0 := mem[..];
    ghost var v := Merged(m0, src, count, merge);
    if SkipsLoop(count, opsiz) {
      return;
    }
    NothingWritten(m0, v, dst, 0);
    var entry, srcp, dstp, len, a0, a1, a2, a3, rounds := FwdShiftEntry(mem, dst, src, count);
    if !(entry == 4 && SkipsLoop(len, opsiz)) {
      dstp, a2, a3 := FwdShiftLoop(mem, entry, srcp, dstp, len, a0, a1, a2, a3, merge, m0, v, dst, src, rounds);
    }
    LastUp(mem, dstp, merge(a2, a3), m0, v, dst);
    WrittenIsStored(mem[..], m0, v, dst);
  }

  /** Before do<entry>, the last `c` words are stored and the two source words for the one before are at hand. */
  ghost predicate BwdShiftAt<W>(m: seq<W>, entry: nat, srcp: int, dstp: int, low: W, high: W, m0: seq<W>, v: seq<W>,
                                merge: (W, W) -> W, d: nat, s: nat, c: nat) {
    && d + |v| <= |m0| && s + |v| < |m0| && v == Merged(m0, s, |v|, merge)
    && (s <= d + 1 || d + |v| <= s) && entry <= 4 && c < |v|
    && dstp + entry == d + |v| - c && srcp + entry == s + |v| - 1 - c
    && Written(m, m0, v, d, |v| - c, |v|) && low == m0[s + |v| - 1 - c] && high == m0[s + |v| - c]
  }

  /** One round from do<entry> on; a3 to a0 take turns. */
  method BwdShiftRound<W>(mem: array<W>, entry: nat, srcp: int, dstp: int, r0: W, r1: W, r2: W, r3: W,
                          merge: (W, W) -> W, ghost m0: seq<W>, ghost v: seq<W>, ghost d: nat, ghost s: nat,
                          ghost c: nat) returns (a0: W, a1: W, a2: W, a3: W)
    requires BwdShiftAt(mem[..], entry, srcp, dstp,
                        if entry == 4 then r0 else if entry == 3 then r3 else if entry == 2 then r2 else r1,
                        if entry == 4 then r1 else if entry == 3 then r0 else if entry == 2 then r3 else r2,
                        m0, v, merge, d, s, c)
    requires 0 < entry && c + entry < |v|
    modifies mem
    ensures BwdShiftAt(mem[..], 0, srcp, dstp, a0, a1, m0, v, merge, d, s, c + entry)
  {
    a0, a1, a2, a3 := r0, r1, r2, r3;
    ghost var lo := |v| - c;
    if entry >= 4 { a3 := StepDown(mem, srcp + 3, dstp + 3, merge(a0, a1), m0, v, d, lo); }
    if entry >= 3 { a2 := StepDown(mem, srcp + 2, dstp + 2, merge(a3, a0), m0, v, d, lo - entry + 3); }
    if entry >= 2 { a1 := StepDown(mem, srcp + 1, dstp + 1, merge(a2, a3), m0, v, d, lo - entry + 2); }
    a0 := StepDown(mem, srcp, dstp, merge(a1, a2), m0, v, d, lo - entry + 1);
  }

  /** The loop, entered at do<entry>, until the first word is pending. */
  method BwdShiftLoop<W>(mem: array<W>, entry: nat, srcBegin: int, dstBegin: int, count: nat,
                         r0: W, r1: W, r2: W, r3: W, merge: (W, W) -> W,
                         ghost m0: seq<W>, ghost v: seq<W>, ghost d: nat, ghost s: nat, ghost rounds: nat)
    returns (dstp: int, a0: W, a1: W)
    requires BwdShiftAt(mem[..], entry, srcBegin, dstBegin,
                        if entry == 4 then r0 else if entry == 3 then r3 else if entry == 2 then r2 else r1,
                        if entry == 4 then r1 else if entry == 3 then r0 else if entry == 2 then r3 else r2,
                        m0, v, merge, d, s, 0)
    requires 0 < entry && 0 < count == 4 * rounds && count == |v| - 1 + 4 - entry
    modifies mem
    ensures |m0| == mem.Length && Written(mem[..], m0, v, d, 1, |v|)
    ensures merge(a0, a1) == v[0] && dstp + 3 == d
  {
    var a2, a3;
    a0, a1, a2, a3 := BwdShiftRound(mem, entry, srcBegin, dstBegin, r0, r1, r2, r3, merge, m0, v, d, s, 0);
    var srcp, len := srcBegin - 4, count - 4;
    dstp := dstBegin - 4;
    ghost var c, left := entry, rounds - 1;
    while len != 0
      invariant len == 4 * left && len == |v| - 1 - c
      invariant BwdShiftAt(mem[..], 4, srcp, dstp, a0, a1, m0, v, merge, d, s, c)
    {
      a0, a1, a2, a3 := BwdShiftRound(mem, 4, srcp, dstp, a0, a1, a2, a3, merge, m0, v, d, s, c);
      c, left, srcp, dstp, len := c + 4, left - 1, srcp - 4, dstp - 4, len - 4;
    }
  }

  /** The switch of the backward shifted copy; `src` is the word behind the one the source ends in. */
  method BwdShiftEntry<W(0)>(mem: array<W>, dst: nat, src: nat, count: nat)
    returns (entry: nat, srcp: int, dstp: int, len: nat, a0: W, a1: W, a2: W, a3: W, ghost rounds: nat)
    requires 0 < count <= dst <= mem.Length && count < src <= mem.Length
    ensures len == 4 * rounds && len == count - 1 + 4 - entry && 1 <= entry <= 4 && (entry == 4 <==> count % 4 == 1)
    ensures dstp + entry == dst && srcp + entry == src - 2
    ensures mem[src - 2] == if entry == 4 then a0 else if entry == 3 then a3 else if entry == 2 then a2 else a1
    ensures mem[src - 1] == if entry == 4 then a1 else if entry == 3 then a0 else if entry == 2 then a3 else a2
  {
    a0, a1, a2, a3 := *, *, *, *;
    var q := count / 4;
    assert count == 4 * q + count % 4;
    rounds := if count % 4 <= 1 then q else q + 1;
    match count % 4 {
      case 2 => srcp, dstp := src - 3, dst - 1; a2, a1 := mem[srcp + 2], mem[srcp + 1]; len, entry := count + 2, 1;
      case 3 => srcp, dstp := src - 4, dst - 2; a3, a2 := mem[srcp + 3], mem[srcp + 2]; len, entry := count + 1, 2;
      case 0 => srcp, dstp := src - 5, dst - 3; a0, a3 := mem[srcp + 4], mem[srcp + 3]; len, entry := count, 3;
      case _ => srcp, dstp := src - 6, dst - 4; a1, a0 := mem[srcp + 5], mem[srcp + 4]; len, entry := count - 1, 4;
    }
  }

  /** txc_libc_wordcopy_bwd_dest_aligned; the source ends inside the word `end`. */
  method BwdDestAligned<W(0)>(mem: array<W>, dst: nat, end: nat, count: nat, merge: (W, W) -> W, opsiz: nat)
    requires count <= dst <= mem.Length && count <= end && (count == 0 || end < mem.Length)
    requires count >= 2 || OP_T_THRES <= 3 * opsiz
    requires end <= dst + 1 || dst <= end - count
    modifies mem
    ensures mem[..] == Stored(old(mem[..]), dst - count, Merged(old(mem[..]), end - count, count, merge))
  {
    ghost var m0, d, s := mem[..], dst - count, end - count;
    ghost var v := Merged(m0, s, count, merge);
    if SkipsLoop(count, opsiz) {
      return;
    }
    NothingWritten(m0, v, d, count);
    var entry, srcp, dstp, len, a0, a1, a2, a3, rounds := BwdShiftEntry(mem, dst, end + 1, count);
    if !(entry == 4 && SkipsLoop(len, opsiz)) {
      dstp, a0, a1 := BwdShiftLoop(mem, entry, srcp, dstp, len, a0, a1, a2, a3, merge, m0, v, d, s, rounds);
    }
    LastDown(mem, dstp + 3, merge(a0, a1), m0, v, d);
    WrittenIsStored(mem[..], m0, v, d);
  }

  /** `m` with `v` stored at `d`. */
  function Stored<W>(m: seq<W>, d: nat, v: seq<W>): seq<W>
    requires d + |v| <= |m|
  {
    m[..d] + v + m[d + |v|..]
  }

  lemma WrittenIsStored<W>(m: seq<W>, m0: seq<W>, v: seq<W>, d: nat)
    requires d + |v| <= |m0| && Written(m, m0, v, d, 0, |v|)
    ensures m == Stored(m0, d, v)
  {
    forall i: nat | i < |m| ensures m[i] == Stored(m0, d, v)[i] {
      assert Cell(m, m0, v, d, 0, |v|, i);
    }
  }
}
