/**
 The pool allocator (src/misc/pool.c): one array of descriptors, doubly linked into a free
 and an allocated list. Pointers to descriptors are indices, NULL is the null pointer.
 */
module Pool {
  const NULL := -1
  const UINT_RANGE := 0x1_0000_0000

  /** txc_pool_object_t: the address of the object, its status and its links. */
  datatype Descriptor = Descriptor(buf: int, taken: bool, next: int, prev: int)

  // ---------------------------------------------------------------- linked lists in the array

  function SetNext(l: seq<Descriptor>, i: int, p: int): (r: seq<Descriptor>)
    ensures |r| == |l|
  {
    if 0 <= i < |l| then l[i := l[i].(next := p)] else l
  }

  function SetPrev(l: seq<Descriptor>, i: int, p: int): (r: seq<Descriptor>)
    ensures |r| == |l|
  {
    if 0 <= i < |l| then l[i := l[i].(prev := p)] else l
  }

  function SetTaken(l: seq<Descriptor>, i: int, b: bool): (r: seq<Descriptor>)
    ensures |r| == |l|
  {
    if 0 <= i < |l| then l[i := l[i].(taken := b)] else l
  }

  function At(s: seq<nat>, k: int): int {
    if 0 <= k < |s| then s[k] else NULL
  }

  ghost predicate Distinct(s: seq<nat>) {
    forall i, j :: 0 <= i < j < |s| ==> s[i] != s[j]
  }

  ghost predicate Linked(l: seq<Descriptor>, s: seq<nat>, k: nat)
    requires k < |s|
  {
    s[k] < |l| && l[s[k]].next == At(s, k + 1) && l[s[k]].prev == At(s, k - 1)
  }

  /** From `head`, the links run through exactly the objects `s`, forwards and backwards. */
  ghost predicate IsList(l: seq<Descriptor>, head: int, s: seq<nat>) {
    && Distinct(s) && head == At(s, 0)
    && forall k: nat :: k < |s| ==> Linked(l, s, k)
  }

  lemma PopKeepsList(l: seq<Descriptor>, s: seq<nat>)
    requires s != [] && IsList(l, s[0], s)
    ensures s[0] < |l|
    ensures IsList(SetPrev(l, l[s[0]].next, NULL), l[s[0]].next, s[1..])
  {
    assert Linked(l, s, 0);
    var t, r := s[1..], SetPrev(l, l[s[0]].next, NULL);
    forall k: nat | k < |t| ensures Linked(r, t, k) {
      assert Linked(l, s, k + 1);
    }
  }

  lemma PushKeepsList(l: seq<Descriptor>, head: int, s: seq<nat>, i: nat)
    requires IsList(l, head, s) && i < |l| && i !in s
    ensures IsList(SetPrev(SetNext(SetPrev(l, i, NULL), i, head), head, i), i, [i] + s)
  {
    var t, r := [i] + s, SetPrev(SetNext(SetPrev(l, i, NULL), i, head), head, i);
    forall k: nat | k < |t| ensures Linked(r, t, k) {
      if k > 0 {
        assert Linked(l, s, k - 1) && t[k] == s[k - 1] != i;
      }
    }
  }

  /** Links that differ only outside a list leave the list alone. */
  lemma OtherListKept(l: seq<Descriptor>, r: seq<Descriptor>, head: int, s: seq<nat>)
    requires IsList(l, head, s) && |r| == |l|
    requires forall i: nat :: i < |l| && i in s ==> r[i].next == l[i].next && r[i].prev == l[i].prev
    ensures IsList(r, head, s)
  {
    forall k: nat | k < |s| ensures Linked(r, s, k) {
      assert Linked(l, s, k);
    }
  }

  function Without(s: seq<nat>, k: nat): seq<nat>
    requires k < |s|
  {
    s[..k] + s[k + 1..]
  }

  lemma WithoutIs(s: seq<nat>, k: nat)
    requires k < |s| && Distinct(s)
    ensures Distinct(Without(s, k))
    ensures forall x: nat :: x in Without(s, k) <==> x in s && x != s[k]
  {
    var t := Without(s, k);
    forall j | 0 <= j < |t| ensures t[j] == s[if j < k then j else j + 1] { }
    forall x: nat | x in s && x != s[k] ensures x in t {
      var j :| 0 <= j < |s| && s[j] == x;
      assert t[if j < k then j else j - 1] == x;
    }
  }

  /** Taking an object out of its list: its neighbours are linked to each other. */
  lemma UnlinkKeepsList(l: seq<Descriptor>, head: int, s: seq<nat>, k: nat)
    requires IsList(l, head, s) && k < |s|
    ensures s[k] < |l|
    ensures var d := l[s[k]];
            IsList(SetPrev(SetNext(l, d.prev, d.next), d.next, d.prev), if d.prev == NULL then d.next else head,
                   Without(s, k))
  {
    assert Linked(l, s, k);
    var d, t := l[s[k]], Without(s, k);
    var r := SetPrev(SetNext(l, d.prev, d.next), d.next, d.prev);
    WithoutIs(s, k);
    forall j: nat | j < |t| ensures Linked(r, t, j) {
      assert Linked(l, s, if j < k then j else j + 1);
      UnlinkedAt(l, s, k, j);
    }
  }

  lemma UnlinkedAt(l: seq<Descriptor>, s: seq<nat>, k: nat, j: nat)
    requires Distinct(s) && k < |s| && j < |s| - 1 && s[k] < |l|
    requires Linked(l, s, k) && Linked(l, s, if j < k then j else j + 1)
    ensures var d := l[s[k]];
            Linked(SetPrev(SetNext(l, d.prev, d.next), d.next, d.prev), Without(s, k), j)
  {
    var i := if j < k then j else j + 1;
    var t := Without(s, k);
    assert t[j] == s[i];
    assert j + 1 < |t| ==> t[j + 1] == s[if j + 1 < k then j + 1 else j + 2];
    assert j > 0 ==> t[j - 1] == s[if j - 1 < k then j - 1 else j];
  }

  // ---------------------------------------------------------------- the two lists

  /** Every object is in exactly one of two well-formed lists, and its status says which. */
  ghost predicate Partition(l: seq<Descriptor>, freeHead: int, usedHead: int, free: seq<nat>, used: seq<nat>) {
    && IsList(l, freeHead, free) && IsList(l, usedHead, used)
    && |free| + |used| == |l|
    && forall i: nat :: i < |l| ==> (i in used <==> l[i].taken) && (i in free <==> !l[i].taken)
  }

  /** The array after an allocation. */
  function AfterAlloc(l: seq<Descriptor>, i: int, usedHead: int): seq<Descriptor>
    requires 0 <= i < |l|
    ensures |AfterAlloc(l, i, usedHead)| == |l|
  {
    var l1 := SetPrev(l, l[i].next, NULL);
    SetTaken(SetPrev(SetNext(SetPrev(l1, i, NULL), i, usedHead), usedHead, i), i, true)
  }

  lemma AllocKeepsPartition(l: seq<Descriptor>, usedHead: int, free: seq<nat>, used: seq<nat>)
    requires free != [] && Partition(l, free[0], usedHead, free, used)
    ensures free[0] < |l|
    ensures Partition(AfterAlloc(l, free[0], usedHead), l[free[0]].next, free[0], free[1..], [free[0]] + used)
  {
    var i := free[0];
    assert Linked(l, free, 0) && i in free;
    var l1 := SetPrev(l, l[i].next, NULL);
    var l2 := SetPrev(SetNext(SetPrev(l1, i, NULL), i, usedHead), usedHead, i);
    var l3 := SetTaken(l2, i, true);
    assert l[i].next != NULL ==> l[i].next == free[1];
    assert usedHead != NULL ==> usedHead == used[0];
    PopKeepsList(l, free);
    OtherListKept(l, l1, usedHead, used);
    PushKeepsList(l1, usedHead, used, i);
    OtherListKept(l2, l3, i, [i] + used);
    forall j: nat | j < |l| && j in free[1..] ensures j != i && j !in used { }
    OtherListKept(l1, l3, l[i].next, free[1..]);
  }

  /** The array after a release. */
  function AfterFree(l: seq<Descriptor>, i: int, freeHead: int): seq<Descriptor>
    requires 0 <= i < |l|
    ensures |AfterFree(l, i, freeHead)| == |l|
  {
    var l1 := SetPrev(SetNext(l, l[i].prev, l[i].next), l[i].next, l[i].prev);
    SetTaken(SetPrev(SetNext(SetPrev(l1, i, NULL), i, freeHead), freeHead, i), i, false)
  }

  lemma FreeKeepsPartition(l: seq<Descriptor>, freeHead: int, usedHead: int, free: seq<nat>, used: seq<nat>, k: nat)
    requires k < |used| && Partition(l, freeHead, usedHead, free, used)
    ensures used[k] < |l|
    ensures var i := used[k];
            Partition(AfterFree(l, i, freeHead), i, if l[i].prev == NULL then l[i].next else usedHead,
                      [i] + free, Without(used, k))
  {
    var i, t := used[k], Without(used, k);
    assert Linked(l, used, k) && i in used;
    var l1 := SetPrev(SetNext(l, l[i].prev, l[i].next), l[i].next, l[i].prev);
    var l2 := SetPrev(SetNext(SetPrev(l1, i, NULL), i, freeHead), freeHead, i);
    var l3 := SetTaken(l2, i, false);
    assert l[i].next != NULL ==> l[i].next == used[k + 1];
    assert l[i].prev != NULL ==> l[i].prev == used[k - 1];
    assert freeHead != NULL ==> freeHead == free[0];
    UnlinkKeepsList(l, usedHead, used, k);
    OtherListKept(l, l1, freeHead, free);
    PushKeepsList(l1, freeHead, free, i);
    OtherListKept(l2, l3, i, [i] + free);
    WithoutIs(used, k);
    OtherListKept(l1, l3, if l[i].prev == NULL then l[i].next else usedHead, t);
  }

  // ---------------------------------------------------------------- addresses

  /** The byte offset of an object in the pool's buffer, computed in unsigned int. */
  function Address(i: int, objSize: nat): int {
    (i * objSize) % UINT_RANGE
  }

  /** txc_pool_object_free's way back from a pointer to the object's index. */
  function IndexOf(address: int, objSize: nat): int
    requires objSize > 0
  {
    (address % UINT_RANGE) / objSize
  }

  /** Division inverts the address layout if the whole pool fits in an unsigned int. */
  lemma IndexInvertsAddress(i: nat, objNum: nat, objSize: nat)
    requires i < objNum && 0 < objSize && objNum * objSize <= UINT_RANGE
    ensures IndexOf(Address(i, objSize), objSize) == i && 0 <= Address(i, objSize) <= (objNum - 1) * objSize
  {
    MulMonotone(i, objNum - 1, objSize);
    assert (objNum - 1) * objSize == objNum * objSize - objSize;
    DivCancels(i, objSize);
  }

  lemma MulMonotone(a: nat, b: nat, c: nat)
    requires a <= b
    ensures a * c <= b * c
  {
  }

  lemma DivCancels(i: nat, n: nat)
    requires n > 0
    ensures (i * n) / n == i
  {
    var q := (i * n) / n;
    assert q * n <= i * n < (q + 1) * n;
    if q < i { MulMonotone(q + 1, i, n); }
    if i < q { MulMonotone(i + 1, q, n); }
  }

  function NextIndex(i: nat, objNum: nat): int
    requires 0 < objNum
  {
    (i + 1) % objNum
  }

  /** The predecessor's index, computed in unsigned int. */
  function PrevIndex(i: nat, objNum: nat): int
    requires 0 < objNum
  {
    ((i - 1) % UINT_RANGE) % objNum
  }

  /** Inside the array the neighbours are the neighbouring indices. */
  lemma NeighbourIndices(i: nat, objNum: nat)
    requires i < objNum <= UINT_RANGE
    ensures i + 1 < objNum ==> NextIndex(i, objNum) == i + 1
    ensures 0 < i ==> PrevIndex(i, objNum) == i - 1
  {
    if i + 1 < objNum { SmallMod(i + 1, objNum); }
    if 0 < i {
      SmallMod(i - 1, UINT_RANGE);
      SmallMod(i - 1, objNum);
    }
  }

  lemma SmallMod(x: nat, n: nat)
    requires x < n
    ensures x % n == x
  {
  }

  // ---------------------------------------------------------------- the allocator

  class ObjectPool {
    const objSize: nat
    const objNum: nat
    const objList: array<Descriptor>
    var freeHead: int
    var allocatedHead: int
    var freeNum: nat
    var allocatedNum: nat
    /** The objects of the two lists, from the head on. */
    ghost var free: seq<nat>
    ghost var used: seq<nat>

    ghost predicate Layout()
      reads this, objList
    {
      && 0 < objNum == objList.Length && 0 < objSize && objNum * objSize <= UINT_RANGE
      && forall i :: 0 <= i < objNum ==> objList[..][i].buf == Address(i, objSize)
    }

    ghost predicate Valid()
      reads this, objList
    {
      && Layout()
      && Partition(objList[..], freeHead, allocatedHead, free, used)
      && freeNum == |free| && allocatedNum == |used|
    }

    /** txc_pool_create: all objects free, in the order of their addresses. */
    constructor (objSize: nat, objNum: nat)
      requires 0 < objNum && 0 < objSize && objNum * objSize <= UINT_RANGE
      ensures Valid() && used == [] && free == seq(objNum, i => i)
      ensures this.objSize == objSize && this.objNum == objNum && fresh(objList)
    {
      this.objSize, this.objNum := objSize, objNum;
      var l := new Descriptor[objNum](_ => Descriptor(0, false, NULL, NULL));
      MulMonotone(1, objSize, objNum);
      for i := 0 to objNum
        invariant forall j :: 0 <= j < i ==> l[j].buf == Address(j, objSize) && !l[j].taken
        invariant forall j :: 0 <= j < i ==> (j + 1 < objNum ==> l[j].next == j + 1) && (0 < j ==> l[j].prev == j - 1)
      {
        NeighbourIndices(i, objNum);
        l[i] := Descriptor(Address(i, objSize), false, NextIndex(i, objNum), PrevIndex(i, objNum));
      }
      l[0] := l[0].(prev := NULL);
      l[objNum - 1] := l[objNum - 1].(next := NULL);
      objList := l;
      freeNum, freeHead, allocatedNum, allocatedHead := objNum, 0, 0, NULL;
      ghost var all: seq<nat> := seq(objNum, i => i);
      free, used := all, [];
      forall k: nat | k < objNum ensures Linked(l[..], all, k) { }
      forall k: nat | k < objNum ensures k in all { assert all[k] == k; }
    }

    /** p->next = v */
    method StoreNext(p: int, v: int)
      requires 0 <= p < objList.Length
      modifies objList
      ensures objList[..] == SetNext(old(objList[..]), p, v)
    {
      objList[p] := objList[p].(next := v);
    }

    /** if (p) p->prev = v */
    method StorePrev(p: int, v: int)
      requires NULL <= p < objList.Length
      modifies objList
      ensures objList[..] == SetPrev(old(objList[..]), p, v)
    {
      if p != NULL {
        objList[p] := objList[p].(prev := v);
      }
    }

    method StoreStatus(p: int, b: bool)
      requires 0 <= p < objList.Length
      modifies objList
      ensures objList[..] == SetTaken(old(objList[..]), p, b)
    {
      objList[p] := objList[p].(taken := b);
    }

    /** The pointer assignments of an allocation. */
    method MoveToAllocated(i: int)
      requires 0 <= i < objList.Length && NULL <= objList[i].next < objList.Length && objList[i].next != i
      requires NULL <= allocatedHead < objList.Length
      modifies this`freeHead, this`allocatedHead, objList
      ensures objList[..] == AfterAlloc(old(objList[..]), i, old(allocatedHead))
      ensures freeHead == old(objList[..])[i].next && allocatedHead == i
    {
      freeHead := objList[i].next;
      StorePrev(freeHead, NULL);
      StorePrev(i, NULL);
      StoreNext(i, allocatedHead);
      StorePrev(allocatedHead, i);
      allocatedHead := i;
      StoreStatus(i, true);
    }

    /** The pointer assignments of a release. */
    method MoveToFree(i: int)
      requires 0 <= i < objList.Length && NULL <= objList[i].next < objList.Length && objList[i].next != i
      requires NULL <= objList[i].prev < objList.Length && objList[i].prev != i
      requires NULL <= freeHead < objList.Length
      modifies this`freeHead, this`allocatedHead, objList
      ensures objList[..] == AfterFree(old(objList[..]), i, old(freeHead))
      ensures freeHead == i
      ensures allocatedHead == var d := old(objList[..])[i]; if d.prev == NULL then d.next else old(allocatedHead)
    {
      ghost var l := objList[..];
      var d := objList[i];
      if d.prev != NULL {
        StoreNext(d.prev, d.next);
      } else {
        allocatedHead := d.next;
      }
      assert objList[..] == SetNext(l, d.prev, d.next);
      StorePrev(objList[i].next, objList[i].prev);
      assert objList[..] == SetPrev(SetNext(l, d.prev, d.next), d.next, d.prev);
      StorePrev(i, NULL);
      StoreNext(i, freeHead);
      StorePrev(freeHead, i);
      StoreStatus(i, false);
      freeHead := i;
    }

    /** txc_pool_object_alloc: the address of an object that was free, NULL if there is none. */
    method Alloc() returns (objp: int)
      requires Valid()
      modifies this, objList
      ensures Valid()
      ensures objp == NULL <==> old(free) == []
      ensures objp == NULL ==> free == old(free) && used == old(used) && objList[..] == old(objList[..])
      ensures objp != NULL ==> var i := old(free)[0];
              && i < objNum && !old(objList[..])[i].taken && objp == Address(i, objSize)
              && free == old(free)[1..] && used == [i] + old(used)
    {
      if freeNum == 0 {
        return NULL;
      }
      var i := freeHead;
      AllocKeepsPartition(objList[..], allocatedHead, free, used);
      HeadsInRange(objList[..], freeHead, allocatedHead, free, used);
      LinksInRange(objList[..], freeHead, free, 0);
      AfterAllocKeepsBuf(objList[..], i, allocatedHead);
      IndexInvertsAddress(i, objNum, objSize);
      objp := objList[i].buf;
      free, used := free[1..], [i as nat] + used;
      allocatedNum, freeNum := allocatedNum + 1, freeNum - 1;
      MoveToAllocated(i);
    }

    /** txc_pool_object_free of an allocated object; the library asserts that it is one. */
    method Free(objp: int, ghost i: nat)
      requires Valid() && i < objNum && objList[i].taken && objp == Address(i, objSize)
      modifies this, objList
      ensures Valid()
      ensures free == [i] + old(free)
      ensures exists k: nat :: k < |old(used)| && old(used)[k] == i && used == Without(old(used), k)
    {
      assert objList[..][i].taken && i in used;
      ghost var k: nat :| k < |used| && used[k] == i;
      FreeKeepsPartition(objList[..], freeHead, allocatedHead, free, used, k);
      HeadsInRange(objList[..], freeHead, allocatedHead, free, used);
      LinksInRange(objList[..], allocatedHead, used, k);
      AfterFreeKeepsBuf(objList[..], i, freeHead);
      IndexInvertsAddress(i, objNum, objSize);
      var index := IndexOf(objp, objSize);
      free, used := [i] + free, Without(used, k);
      allocatedNum, freeNum := allocatedNum - 1, freeNum + 1;
      MoveToFree(index);
    }
  }

  // ---------------------------------------------------------------- what the pointer assignments need

  lemma HeadsInRange(l: seq<Descriptor>, freeHead: int, usedHead: int, free: seq<nat>, used: seq<nat>)
    requires Partition(l, freeHead, usedHead, free, used)
    ensures NULL <= freeHead < |l| && NULL <= usedHead < |l|
    ensures freeHead == NULL <==> free == []
  {
    if free != [] { assert Linked(l, free, 0); }
    if used != [] { assert Linked(l, used, 0); }
  }

  lemma LinksInRange(l: seq<Descriptor>, head: int, s: seq<nat>, k: nat)
    requires IsList(l, head, s) && k < |s|
    ensures s[k] < |l|
    ensures var d := l[s[k]];
            NULL <= d.next < |l| && NULL <= d.prev < |l| && d.next != s[k] && d.prev != s[k]
  {
    assert Linked(l, s, k);
    if k + 1 < |s| { assert Linked(l, s, k + 1); }
    if 0 < k { assert Linked(l, s, k - 1); }
  }

  lemma AfterAllocKeepsBuf(l: seq<Descriptor>, i: int, usedHead: int)
    requires 0 <= i < |l|
    ensures forall j :: 0 <= j < |l| ==> AfterAlloc(l, i, usedHead)[j].buf == l[j].buf
  {
  }

  lemma AfterFreeKeepsBuf(l: seq<Descriptor>, i: int, freeHead: int)
    requires 0 <= i < |l|
    ensures forall j :: 0 <= j < |l| ==> AfterFree(l, i, freeHead)[j].buf == l[j].buf
  {
  }
}
