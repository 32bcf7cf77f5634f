/**
 The word-at-a-time strchr (src/libc/string.c): a test on the "hole" bits of a word decides
 whether its eight bytes have to be looked at one by one. It finds the same byte as a plain
 scan.
 */
module StrChr {
  import opened Options
  import opened WordBytes

  /** Zero bits to the left of each byte, the holes a carry falls into; the last one is bit 63. */
  const MAGIC_BITS: Word := 0x7efefefe_fefefeff

  /** Some hole bit is not changed by adding the magic bits. */
  predicate HoleTest(w: Word) {
    ((w + MAGIC_BITS) ^ !w) & !MAGIC_BITS != 0
  }

  predicate SomeByteZero(w: Word) {
    || w & 0xff == 0 || (w >> 8) & 0xff == 0 || (w >> 16) & 0xff == 0 || (w >> 24) & 0xff == 0
    || (w >> 32) & 0xff == 0 || (w >> 40) & 0xff == 0 || (w >> 48) & 0xff == 0 || (w >> 56) & 0xff == 0
  }

  /**
   The test never misses a zero byte, and its only misfire is a most significant byte of
   0x80 while no byte is zero.
   */
  lemma HoleTestIff(w: Word)
    ensures HoleTest(w) <==> SomeByteZero(w) || (w >> 56) & 0xff == 0x80
  {
  }

  /** The word all of whose bytes are `c`, put together as in the source. */
  function CharMask(c: Word): Word
    requires c < 0x100
  {
    var m := c | (c << 8);
    var m2 := m | (m << 16);
    m2 | ((m2 << 16) << 16)
  }

  lemma MaskBytes(c: Word, w: Word, j: Word)
    requires c < 0x100 && j < 8
    ensures Digit(w ^ CharMask(c), j) == 0 <==> Digit(w, j) == c
  {
  }

  lemma ZeroDigit(w: Word, j: Word)
    requires j < 8 && Digit(w, j) == 0
    ensures SomeByteZero(w)
  {
  }

  /** A word that fails both tests contains neither the character nor the end of the string. */
  lemma SkippedWordIsClean(w: Word, c: Word, j: Word)
    requires c < 0x100 && j < 8 && !HoleTest(w) && !HoleTest(w ^ CharMask(c))
    ensures Digit(w, j) != 0 && Digit(w, j) != c
  {
    if Digit(w, j) == 0 {
      ZeroDigit(w, j);
      HoleTestIff(w);
    }
    if Digit(w, j) == c {
      MaskBytes(c, w, j);
      ZeroDigit(w ^ CharMask(c), j);
      HoleTestIff(w ^ CharMask(c));
    }
  }

  ghost predicate CleanIn(order: ByteOrder, w: Word, c: Word, j: nat)
    requires j < 8
  {
    ByteOf(order, w, Num(j)) != 0 && ByteOf(order, w, Num(j)) != c
  }

  lemma SkippedBytes(order: ByteOrder, w: Word, c: Word)
    requires c < 0x100 && !HoleTest(w) && !HoleTest(w ^ CharMask(c))
    ensures forall j: nat :: j < 8 ==> CleanIn(order, w, c, j)
  {
    forall j: nat | j < 8 ensures CleanIn(order, w, c, j) {
      SkippedWordIsClean(w, c, if order.LittleEndian? then Num(j) else 7 - Num(j));
    }
  }

  // ---------------------------------------------------------------- the specification

  ghost predicate SameByte(order: ByteOrder, m: seq<Word>, b: seq<Word>, a: nat)
    requires a < |b| == 8 * |m|
  {
    b[a] == ByteAt(order, m, a)
  }

  /** `b` are the bytes of the memory. */
  ghost predicate IsMemory(order: ByteOrder, m: seq<Word>, b: seq<Word>) {
    |b| == 8 * |m| && forall a: nat :: a < |b| ==> SameByte(order, m, b, a)
  }

  function Bytes(order: ByteOrder, m: seq<Word>): (b: seq<Word>)
    ensures IsMemory(order, m, b)
  {
    seq(8 * |m|, a requires 0 <= a < 8 * |m| => ByteAt(order, m, a))
  }

  /** The byte neither is the character nor ends the string. */
  predicate Clean(b: seq<Word>, c: Word, a: nat) {
    a < |b| && b[a] != c && b[a] != 0
  }

  /** The scan byte by byte: the address of the first `c` up to and including the end of the string. */
  function Scan(b: seq<Word>, a: nat, c: Word): Option<nat>
    decreases |b| - a
  {
    if a >= |b| then None
    else if b[a] == c then Some(a)
    else if b[a] == 0 then None
    else Scan(b, a + 1, c)
  }

  lemma {:induction false} ScanSkips(b: seq<Word>, lo: nat, hi: nat, c: Word)
    requires lo <= hi && forall x: nat :: lo <= x < hi ==> Clean(b, c, x)
    ensures Scan(b, lo, c) == Scan(b, hi, c)
    decreases hi - lo
  {
    if lo < hi {
      assert Clean(b, c, lo);
      ScanSkips(b, lo + 1, hi, c);
    }
  }

  /** A string: from `a` on there is a zero byte inside the memory. */
  ghost predicate Terminated(b: seq<Word>, a: nat) {
    exists e: nat :: a <= e < |b| && b[e] == 0
  }

  /** What the scan finds in a string: the first occurrence, or that there is none up to the end. */
  lemma {:induction false} ScanFindsFirst(b: seq<Word>, a: nat, c: Word)
    requires Terminated(b, a)
    ensures match Scan(b, a, c)
            case Some(r) => a <= r < |b| && b[r] == c && forall x: nat :: a <= x < r ==> Clean(b, c, x)
            case None => exists e: nat :: a <= e < |b| && b[e] == 0 != c
                                          && forall x: nat :: a <= x < e ==> Clean(b, c, x)
    decreases |b| - a
  {
    if a < |b| && Clean(b, c, a) {
      ScanFindsFirst(b, a + 1, c);
    }
  }

  // ---------------------------------------------------------------- the function

  datatype Answer = Found(address: nat) | End | GoOn

  function Result(x: Answer, rest: Option<nat>): Option<nat> {
    match x
    case Found(a) => Some(a)
    case End => None
    case GoOn => rest
  }

  /** if (*cp == c) return cp; else if (*cp == 0) return NULL. */
  method Look(order: ByteOrder, mem: array<Word>, cp: nat, c: Word, ghost b: seq<Word>) returns (x: Answer)
    requires IsMemory(order, mem[..], b) && cp < |b|
    ensures x == GoOn <==> Clean(b, c, cp)
    ensures Scan(b, cp, c) == Result(x, Scan(b, cp + 1, c))
  {
    assert SameByte(order, mem[..], b, cp);
    var byte := ByteOf(order, mem[cp / 8], Num(cp % 8));
    if byte == c { return Found(cp); } else if byte == 0 { return End; }
    return GoOn;
  }

  /** The eight looks at the bytes of a word that has made a test fire. */
  method LookAtWord(order: ByteOrder, mem: array<Word>, cp: nat, c: Word, ghost b: seq<Word>) returns (x: Answer)
    requires IsMemory(order, mem[..], b) && cp + 8 <= |b|
    ensures Scan(b, cp, c) == Result(x, Scan(b, cp + 8, c))
    ensures x == GoOn ==> forall a: nat :: cp <= a < cp + 8 ==> Clean(b, c, a)
  {
    x := Look(order, mem, cp, c, b);
    if x != GoOn { return; }
    x := Look(order, mem, cp + 1, c, b);
    if x != GoOn { return; }
    x := Look(order, mem, cp + 2, c, b);
    if x != GoOn { return; }
    x := Look(order, mem, cp + 3, c, b);
    if x != GoOn { return; }
    x := Look(order, mem, cp + 4, c, b);
    if x != GoOn { return; }
    x := Look(order, mem, cp + 5, c, b);
    if x != GoOn { return; }
    x := Look(order, mem, cp + 6, c, b);
    if x != GoOn { return; }
    x := Look(order, mem, cp + 7, c, b);
  }

  /** The bytes in front of the first word boundary. */
  method LookAtHead(order: ByteOrder, mem: array<Word>, s: nat, c: Word, ghost b: seq<Word>)
    returns (x: Answer, p: nat)
    requires IsMemory(order, mem[..], b) && Terminated(b, s)
    ensures Scan(b, s, c) == Result(x, Scan(b, p, c))
    ensures x == GoOn ==> p % 8 == 0 && s <= p && forall a: nat :: s <= a < p ==> Clean(b, c, a)
  {
    ghost var e: nat :| s <= e < |b| && b[e] == 0;
    p := s;
    while p % 8 != 0
      invariant s <= p <= e && forall a: nat :: s <= a < p ==> Clean(b, c, a)
      invariant Scan(b, s, c) == Scan(b, p, c)
      decreases e - p
    {
      x := Look(order, mem, p, c, b);
      if x != GoOn { return; }
      p := p + 1;
    }
    return GoOn, p;
  }

  /** The loop over words, entered at a word boundary. */
  method LookAtWords(order: ByteOrder, mem: array<Word>, s: nat, c: Word, ghost b: seq<Word>) returns (x: Answer)
    requires IsMemory(order, mem[..], b) && Terminated(b, s) && s % 8 == 0 && c < 0x100
    ensures Scan(b, s, c) == Result(x, None) && x != GoOn
  {
    ghost var e: nat :| s <= e < |b| && b[e] == 0;
    var i := s / 8;
    while true
      invariant s <= 8 * i <= e && forall a: nat :: s <= a < 8 * i ==> Clean(b, c, a)
      decreases e - 8 * i
    {
      ScanSkips(b, s, 8 * i, c);
      var hit := TestWord(order, mem, i, c, b);
      if hit {
        x := LookAtWord(order, mem, 8 * i, c, b);
        if x != GoOn { return; }
      }
      assert !Clean(b, c, e);
      i := i + 1;
    }
  }

  /** The test for a word that may contain the character or the end. */
  method TestWord(order: ByteOrder, mem: array<Word>, i: nat, c: Word, ghost b: seq<Word>) returns (hit: bool)
    requires IsMemory(order, mem[..], b) && i < mem.Length && c < 0x100
    ensures !hit ==> forall a: nat :: 8 * i <= a < 8 * i + 8 ==> Clean(b, c, a)
  {
    var longword := mem[i];
    hit := HoleTest(longword) || HoleTest(longword ^ CharMask(c));
    if !hit {
      SkippedBytes(order, longword, c);
      SkippedBytesAreClean(order, mem[..], i, c, b);
    }
  }

  lemma SkippedBytesAreClean(order: ByteOrder, m: seq<Word>, i: nat, c: Word, b: seq<Word>)
    requires IsMemory(order, m, b) && i < |m| && forall j: nat :: j < 8 ==> CleanIn(order, m[i], c, j)
    ensures forall a: nat :: 8 * i <= a < 8 * i + 8 ==> Clean(b, c, a)
  {
    forall a: nat | 8 * i <= a < 8 * i + 8 ensures Clean(b, c, a) {
      var j: nat := a - 8 * i;
      assert CleanIn(order, m[i], c, j) && SameByte(order, m, b, a);
      AtWord(order, m, i, j, 8 * i + j);
    }
  }

  /** txc_libc_strchr, for a string that ends inside the memory. */
  method StrChr(order: ByteOrder, mem: array<Word>, s: nat, cIn: Word) returns (r: Option<nat>)
    requires Terminated(Bytes(order, mem[..]), s)
    ensures r == Scan(Bytes(order, mem[..]), s, cIn & 0xff)
  {
    var c := cIn & 0xff;
    ghost var b := Bytes(order, mem[..]);
    var x, p := LookAtHead(order, mem, s, c, b);
    if x == GoOn {
      StillTerminated(b, s, p, c);
      x := LookAtWords(order, mem, p, c, b);
    }
    r := match x case Found(a) => Some(a) case _ => None;
  }

  lemma StillTerminated(b: seq<Word>, lo: nat, hi: nat, c: Word)
    requires Terminated(b, lo) && forall a: nat :: lo <= a < hi ==> Clean(b, c, a)
    ensures Terminated(b, hi)
  {
    var e: nat :| lo <= e < |b| && b[e] == 0;
    assert !Clean(b, c, e);
  }
}
