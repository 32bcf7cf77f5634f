/**
 Bytes and words: the byte-order dependent MERGE of src/libc/memcopy.h, and the macros
 WORD_COPY_FWD and WORD_COPY_BWD, which copy bytes by the word copies of WordCopy. The
 memory is an array of 64-bit words, a byte address is eight times a word index plus 0..7.
 */
module WordBytes {
  import opened WordCopy

  type Word = bv64

  datatype ByteOrder = LittleEndian | BigEndian

  // ---------------------------------------------------------------- merging

  /** The byte of weight 256^j. */
  function Digit(w: Word, j: Word): Word
    requires j < 8
  {
    (w >> (8 * j)) & 0xff
  }

  /** The byte at offset `j` of the word in memory. */
  function ByteOf(order: ByteOrder, w: Word, j: Word): Word
    requires j < 8
  {
    Digit(w, if order.LittleEndian? then j else 7 - j)
  }

  /** MERGE for a source that begins `k` bytes into its first word: sh_1 is 8 * k, sh_2 the rest of the word. */
  function Merge(order: ByteOrder, k: Word, w0: Word, w1: Word): Word
    requires 1 <= k < 8
  {
    match order
    case LittleEndian => (w0 >> (8 * k)) | (w1 << (8 * (8 - k)))
    case BigEndian => (w0 << (8 * k)) | (w1 >> (8 * (8 - k)))
  }

  /** A word shifted down and one shifted up, side by side: the low bytes are the first word's. */
  lemma LowBytes(low: Word, high: Word, k: Word, j: Word)
    requires 1 <= k < 8 && j < 8 && k + j < 8
    ensures (((low >> (8 * k)) | (high << (8 * (8 - k)))) >> (8 * j)) & 0xff == (low >> (8 * (j + k))) & 0xff
  {
  }

  /** The high bytes are the second word's. */
  lemma HighBytes(low: Word, high: Word, k: Word, j: Word)
    requires 1 <= k < 8 && j < 8 && k + j >= 8
    ensures (((low >> (8 * k)) | (high << (8 * (8 - k)))) >> (8 * j)) & 0xff == (high >> (8 * (j + k - 8))) & 0xff
  {
  }

  lemma SideBySide(low: Word, high: Word, k: Word, j: Word)
    requires 1 <= k < 8 && j < 8
    ensures Digit((low >> (8 * k)) | (high << (8 * (8 - k))), j) ==
            if k + j < 8 then Digit(low, j + k) else Digit(high, j + k - 8)
  {
    if k + j < 8 { LowBytes(low, high, k, j); } else { HighBytes(low, high, k, j); }
  }

  lemma LittleMerge(w0: Word, w1: Word, k: Word, j: Word)
    requires 1 <= k < 8 && j < 8
    ensures Digit(Merge(LittleEndian, k, w0, w1), j) == if k + j < 8 then Digit(w0, j + k) else Digit(w1, j + k - 8)
  {
    SideBySide(w0, w1, k, j);
  }

  lemma BigMerge(w0: Word, w1: Word, k: Word, j: Word)
    requires 1 <= k < 8 && j < 8
    ensures Digit(Merge(BigEndian, k, w0, w1), 7 - j) ==
            if k + j < 8 then Digit(w0, 7 - (j + k)) else Digit(w1, 7 - (j + k - 8))
  {
    SideBySide(w1, w0, 8 - k, 7 - j);
  }

  /** MERGE takes the last 8 - k bytes of the first word and the first k of the second, in either byte order. */
  lemma MergeBytes(order: ByteOrder, w0: Word, w1: Word, k: Word, j: Word)
    requires 1 <= k < 8 && j < 8
    ensures ByteOf(order, Merge(order, k, w0, w1), j) ==
            if k + j < 8 then ByteOf(order, w0, j + k) else ByteOf(order, w1, j + k - 8)
  {
    match order
    case LittleEndian => LittleMerge(w0, w1, k, j);
    case BigEndian => BigMerge(w0, w1, k, j);
  }

  // ---------------------------------------------------------------- byte addresses

  /** A small number as a word. */
  function Num(j: nat): (r: Word)
    requires j < 8
    ensures r < 8
  {
    match j
    case 0 => 0
    case 1 => 1
    case 2 => 2
    case 3 => 3
    case 4 => 4
    case 5 => 5
    case 6 => 6
    case _ => 7
  }

  lemma NumAdds(j: nat, k: nat)
    requires j < 8 && k < 8
    ensures Num(j) + Num(k) < 16
    ensures j + k < 8 <==> Num(j) + Num(k) < 8
    ensures if j + k < 8 then Num(j + k) == Num(j) + Num(k) else Num(j + k - 8) == Num(j) + Num(k) - 8
  {
  }

  /** The byte of the memory at a byte address. */
  function ByteAt(order: ByteOrder, m: seq<Word>, a: nat): Word
    requires a < 8 * |m|
  {
    ByteOf(order, m[a / 8], Num(a % 8))
  }

  /** Byte `j` of word `i` is the byte at address `a`. */
  lemma AtWord(order: ByteOrder, m: seq<Word>, i: nat, j: nat, a: nat)
    requires i < |m| && j < 8 && a == 8 * i + j
    ensures ByteAt(order, m, a) == ByteOf(order, m[i], Num(j))
  {
  }

  ghost predicate ByteMoved(order: ByteOrder, m0: seq<Word>, m1: seq<Word>, dst: nat, src: nat, n: nat, a: nat)
    requires src + n <= 8 * |m0| && a < 8 * |m0| == 8 * |m1|
  {
    ByteAt(order, m1, a) == ByteAt(order, m0, if dst <= a < dst + n then src + (a - dst) else a)
  }

  /** Between two states of the memory, `n` bytes have been copied from `src` to `dst`, as by memmove. */
  ghost predicate BytesMoved(order: ByteOrder, m0: seq<Word>, m1: seq<Word>, dst: nat, src: nat, n: nat)
    requires src + n <= 8 * |m0|
  {
    |m1| == |m0| && forall a: nat :: a < 8 * |m0| ==> ByteMoved(order, m0, m1, dst, src, n, a)
  }

  /** The merge function for a source that begins `k` bytes into a word. */
  function Merger(order: ByteOrder, k: nat): (Word, Word) -> Word
    requires 1 <= k < 8
  {
    (x, y) => Merge(order, Num(k), x, y)
  }

  lemma AlignedByte(order: ByteOrder, m: seq<Word>, t: seq<Word>, d: nat, s: nat, n: nat,
                    d8: nat, s8: nat, n8: nat, i: nat, j: nat, a: nat)
    requires d + n <= |m| && s + n <= |m| && t == Moved(m, d, s, n) && i < |m| && j < 8
    requires d8 == 8 * d && s8 == 8 * s && n8 == 8 * n && a == 8 * i + j
    ensures ByteMoved(order, m, t, d8, s8, n8, a)
  {
    AtWord(order, t, i, j, a);
    if d <= i < d + n {
      assert t[i] == m[s + (i - d)] && d8 <= a < d8 + n8;
      AtWord(order, m, s + (i - d), j, s8 + (a - d8));
    } else {
      assert t[i] == m[i] && !(d8 <= a < d8 + n8);
      AtWord(order, m, i, j, a);
    }
  }

  lemma AlignedMovesBytes(order: ByteOrder, m: seq<Word>, t: seq<Word>, d: nat, s: nat, n: nat)
    requires d + n <= |m| && s + n <= |m| && t == Moved(m, d, s, n)
    ensures BytesMoved(order, m, t, 8 * d, 8 * s, 8 * n)
  {
    var d8, s8, n8 := 8 * d, 8 * s, 8 * n;
    forall a: nat | a < 8 * |m| ensures ByteMoved(order, m, t, d8, s8, n8, a) {
      AlignedByte(order, m, t, d, s, n, d8, s8, n8, a / 8, a % 8, a);
    }
  }

  /** A byte of a merged word is the source byte `k` further on. */
  lemma MergedByte(order: ByteOrder, m: seq<Word>, i: nat, k: nat, j: nat, a: nat)
    requires 1 <= k < 8 && j < 8 && i + 1 < |m| && a == 8 * i + k + j
    ensures ByteOf(order, Merger(order, k)(m[i], m[i + 1]), Num(j)) == ByteAt(order, m, a)
  {
    MergeBytes(order, m[i], m[i + 1], Num(k), Num(j));
    NumAdds(j, k);
    if j + k < 8 { AtWord(order, m, i, j + k, a); } else { AtWord(order, m, i + 1, j + k - 8, a); }
  }

  /** The words `v` are the source words from `s` on, shifted by `k` bytes, and have been stored at `d`. */
  ghost predicate ShiftStored(order: ByteOrder, m: seq<Word>, t: seq<Word>, d: nat, s: nat, v: seq<Word>, k: nat) {
    && 1 <= k < 8 && d + |v| <= |m| && (v == [] || s + |v| < |m|) && 8 * s + k + 8 * |v| <= 8 * |m|
    && v == Merged(m, s, |v|, Merger(order, k)) && t == Stored(m, d, v)
  }

  lemma ShiftedInside(order: ByteOrder, m: seq<Word>, t: seq<Word>, d: nat, s: nat, v: seq<Word>, k: nat,
                      i: nat, j: nat, a: nat)
    requires ShiftStored(order, m, t, d, s, v, k) && d <= i < d + |v| && j < 8
    requires a == 8 * (s + (i - d)) + k + j
    ensures ByteOf(order, t[i], Num(j)) == ByteAt(order, m, a)
  {
    assert t[i] == v[i - d];
    assert v[i - d] == Merger(order, k)(m[s + (i - d)], m[s + (i - d) + 1]);
    MergedByte(order, m, s + (i - d), k, j, a);
  }

  lemma ShiftedByte(order: ByteOrder, m: seq<Word>, t: seq<Word>, d: nat, s: nat, v: seq<Word>, k: nat,
                    d8: nat, s8: nat, n8: nat, i: nat, j: nat, a: nat)
    requires ShiftStored(order, m, t, d, s, v, k) && i < |m| && j < 8
    requires d8 == 8 * d && s8 == 8 * s + k && n8 == 8 * |v| && a == 8 * i + j
    ensures ByteMoved(order, m, t, d8, s8, n8, a)
  {
    AtWord(order, t, i, j, a);
    if d <= i < d + |v| {
      assert d8 <= a < d8 + n8;
      ShiftedInside(order, m, t, d, s, v, k, i, j, s8 + (a - d8));
    } else {
      assert t[i] == m[i] && !(d8 <= a < d8 + n8);
      AtWord(order, m, i, j, a);
    }
  }

  lemma ShiftedMovesBytes(order: ByteOrder, m: seq<Word>, t: seq<Word>, d: nat, s: nat, n: nat, k: nat)
    requires 1 <= k < 8 && d + n <= |m| && (n == 0 || s + n < |m|) && 8 * s + k + 8 * n <= 8 * |m|
    requires t == Stored(m, d, Merged(m, s, n, Merger(order, k)))
    ensures BytesMoved(order, m, t, 8 * d, 8 * s + k, 8 * n)
  {
    var v := Merged(m, s, n, Merger(order, k));
    var d8, s8, n8 := 8 * d, 8 * s + k, 8 * n;
    forall a: nat | a < 8 * |m| ensures ByteMoved(order, m, t, d8, s8, n8, a) {
      ShiftedByte(order, m, t, d, s, v, k, d8, s8, n8, a / 8, a % 8, a);
    }
  }

  // ---------------------------------------------------------------- the macros

  /** The shifted word copy upwards, of the blocks that begin at `dst` and `shift` bytes into `src`. */
  method CopyShiftedFwd(order: ByteOrder, mem: array<Word>, dst: nat, src: nat, shift: nat, count: nat)
    requires 1 <= shift < 8 && dst + count <= mem.Length && 8 * (src + count) + shift <= 8 * mem.Length
    requires dst <= src + 2 || src + count < dst
    modifies mem
    ensures BytesMoved(order, old(mem[..]), mem[..], 8 * dst, 8 * src + shift, 8 * count)
  {
    ghost var m := mem[..];
    FwdDestAligned(mem, dst, src, count, Merger(order, shift), 8);
    ShiftedMovesBytes(order, m, mem[..], dst, src, count, shift);
  }

  method CopyAlignedFwd(order: ByteOrder, mem: array<Word>, dst: nat, src: nat, count: nat)
    requires dst + count <= mem.Length && src + count <= mem.Length
    requires dst <= src + 1 || src + count <= dst
    modifies mem
    ensures BytesMoved(order, old(mem[..]), mem[..], 8 * dst, 8 * src, 8 * count)
  {
    ghost var m := mem[..];
    FwdAligned(mem, dst, src, count, 8);
    AlignedMovesBytes(order, m, mem[..], dst, src, count);
  }

  /** The shifted word copy downwards, of the blocks that begin at `dst` and `shift` bytes into `src`. */
  method CopyShiftedBwd(order: ByteOrder, mem: array<Word>, dst: nat, src: nat, shift: nat, count: nat)
    requires 1 <= shift < 8 && dst + count <= mem.Length && 8 * (src + count) + shift <= 8 * mem.Length
    requires src <= dst + 1 || dst + count <= src
    modifies mem
    ensures BytesMoved(order, old(mem[..]), mem[..], 8 * dst, 8 * src + shift, 8 * count)
  {
    ghost var m := mem[..];
    BwdDestAligned(mem, dst + count, src + count, count, Merger(order, shift), 8);
    assert dst + count - count == dst && src + count - count == src;
    ShiftedMovesBytes(order, m, mem[..], dst, src, count, shift);
  }

  method CopyAlignedBwd(order: ByteOrder, mem: array<Word>, dst: nat, src: nat, count: nat)
    requires dst + count <= mem.Length && src + count <= mem.Length
    requires src <= dst + 1 || dst + count <= src
    modifies mem
    ensures BytesMoved(order, old(mem[..]), mem[..], 8 * dst, 8 * src, 8 * count)
  {
    ghost var m := mem[..];
    BwdAligned(mem, dst + count, src + count, count, 8);
    AlignedMovesBytes(order, m, mem[..], dst, src, count);
  }

  /** WORD_COPY_FWD: copies the whole words among `n` bytes upwards; the rest is left to the caller. */
  method WordCopyFwd(order: ByteOrder, mem: array<Word>, dst: nat, src: nat, n: nat)
    returns (dstRest: nat, srcRest: nat, left: nat)
    requires dst % 8 == 0 && dst + n <= 8 * mem.Length && src + n <= 8 * mem.Length
    requires dst <= src || src + n <= dst
    modifies mem
    ensures left == n % 8 && dstRest == dst + n - left && srcRest == src + n - left
    ensures BytesMoved(order, old(mem[..]), mem[..], dst, src, n - left)
  {
    var count := n / 8;
    if src % 8 == 0 {
      CopyAlignedFwd(order, mem, dst / 8, src / 8, count);
    } else {
      CopyShiftedFwd(order, mem, dst / 8, src / 8, src % 8, count);
    }
    return dst + 8 * count, src + 8 * count, n % 8;
  }

  /** WORD_COPY_BWD: the pointers are ends; copies the last whole words downwards. */
  method WordCopyBwd(order: ByteOrder, mem: array<Word>, dst: nat, src: nat, n: nat)
    returns (dstRest: nat, srcRest: nat, left: nat)
    requires dst % 8 == 0 && n <= dst <= 8 * mem.Length && n <= src <= 8 * mem.Length
    requires src <= dst || dst <= src - n
    modifies mem
    ensures left == n % 8 && dstRest == dst - (n - left) && srcRest == src - (n - left)
    ensures BytesMoved(order, old(mem[..]), mem[..], dstRest, srcRest, n - left)
  {
    var count := n / 8;
    if src % 8 == 0 {
      CopyAlignedBwd(order, mem, dst / 8 - count, src / 8 - count, count);
    } else {
      CopyShiftedBwd(order, mem, dst / 8 - count, src / 8 - count, src % 8, count);
    }
    return dst - 8 * count, src - 8 * count, n % 8;
  }
}
