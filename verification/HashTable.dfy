/**
 The bucket hash table (src/misc/hash_table.c): every table entry has a doubly linked list
 of live buckets and one of recycled buckets. The table is a finite map.
 */
module HashTable {
  import opened Options

  const UINT_RANGE := 0x1_0000_0000

  // ---------------------------------------------------------------- association lists

  type Entries = seq<(nat, nat)>

  ghost predicate UniqueKeys(es: Entries) {
    forall i, j :: 0 <= i < j < |es| ==> es[i].0 != es[j].0
  }

  predicate HasKey(es: Entries, key: nat) {
    exists i :: 0 <= i < |es| && es[i].0 == key
  }

  /** The value of the first entry with the key. */
  function Find(es: Entries, key: nat): Option<nat> {
    if es == [] then None
    else if es[0].0 == key then Some(es[0].1)
    else Find(es[1..], key)
  }

  function Drop(es: Entries, k: nat): Entries
    requires k < |es|
  {
    es[..k] + es[k + 1..]
  }

  lemma {:induction false} FindsFirst(es: Entries, key: nat, k: nat)
    requires k <= |es| && forall i :: 0 <= i < k ==> es[i].0 != key
    ensures k == |es| ==> Find(es, key) == None
    ensures k < |es| && es[k].0 == key ==> Find(es, key) == Some(es[k].1)
  {
    if k > 0 { FindsFirst(es[1..], key, k - 1); }
  }

  lemma FindIff(es: Entries, key: nat)
    requires UniqueKeys(es)
    ensures Find(es, key) == None <==> !HasKey(es, key)
    ensures forall k :: 0 <= k < |es| && es[k].0 == key ==> Find(es, key) == Some(es[k].1)
  {
    if HasKey(es, key) {
      var k :| 0 <= k < |es| && es[k].0 == key;
      FindsFirst(es, key, k);
    } else {
      FindsFirst(es, key, |es|);
    }
  }

  lemma FindAfterDrop(es: Entries, k: nat, key: nat)
    requires k < |es| && UniqueKeys(es)
    ensures UniqueKeys(Drop(es, k))
    ensures Find(Drop(es, k), key) == if key == es[k].0 then None else Find(es, key)
  {
    var t := Drop(es, k);
    assert forall j :: 0 <= j < |t| ==> t[j] == es[if j < k then j else j + 1];
    FindIff(es, key);
    FindIff(t, key);
    if HasKey(es, key) && key != es[k].0 {
      var i :| 0 <= i < |es| && es[i].0 == key;
      assert t[if i < k then i else i - 1].0 == key;
    }
  }

  lemma FindAfterAdd(es: Entries, key: nat, value: nat, k: nat)
    ensures Find([(key, value)] + es, k) == if k == key then Some(value) else Find(es, k)
  {
    assert ([(key, value)] + es)[1..] == es;
  }

  // ---------------------------------------------------------------- buckets

  class Bucket {
    var next: Bucket?
    var prev: Bucket?
    var key: nat
    var value: nat
    /** The table entry whose lists the bucket moves between. */
    ghost const owner: BucketList

    constructor (ghost owner: BucketList)
      ensures this.owner == owner
    {
      next, prev, this.owner := null, null, owner;
    }
  }

  function NodeAt(s: seq<Bucket>, k: int): Bucket? {
    if 0 <= k < |s| then s[k] else null
  }

  ghost predicate Distinct(s: seq<Bucket>) {
    forall i, j :: 0 <= i < j < |s| ==> s[i] != s[j]
  }

  /** The links of bucket `k` lead to its neighbours; the head's back link is never looked at. */
  ghost predicate Linked(s: seq<Bucket>, k: nat)
    requires k < |s|
    reads s[k]
  {
    s[k].next == NodeAt(s, k + 1) && (k > 0 ==> s[k].prev == s[k - 1])
  }

  /** From `head`, the links run through exactly the buckets `s`. */
  ghost predicate Chain(head: Bucket?, s: seq<Bucket>)
    reads s
  {
    head == NodeAt(s, 0) && Distinct(s) && forall k: nat :: k < |s| ==> Linked(s, k)
  }

  ghost predicate HoldsAt(s: seq<Bucket>, es: Entries, k: nat)
    requires k < |s| == |es|
    reads s[k]
  {
    s[k].key == es[k].0 && s[k].value == es[k].1
  }

  ghost predicate Holds(s: seq<Bucket>, es: Entries)
    reads s
  {
    |s| == |es| && forall k: nat :: k < |s| ==> HoldsAt(s, es, k)
  }

  /** bucket_list_add. */
  method Push(head: Bucket?, b: Bucket, ghost s: seq<Bucket>) returns (newHead: Bucket)
    requires Chain(head, s) && b !in s
    modifies b`next, b`prev, s`prev
    ensures newHead == b && Chain(newHead, [b] + s)
  {
    ghost var t := [b] + s;
    if head != null {
      head.prev := b;
    }
    b.next := head;
    b.prev := null;
    newHead := b;
    forall k: nat | k < |t| ensures Linked(t, k) {
      if k > 0 {
        assert t[k] == s[k - 1] && s[k - 1] in s && old(Linked(s, k - 1));
        assert k > 1 ==> t[k - 1] == s[k - 2];
      }
    }
  }

  function DropNode(s: seq<Bucket>, k: nat): seq<Bucket>
    requires k < |s|
  {
    s[..k] + s[k + 1..]
  }

  lemma DropNodeIs(s: seq<Bucket>, k: nat)
    requires k < |s| && Distinct(s)
    ensures Distinct(DropNode(s, k))
    ensures forall b :: b in DropNode(s, k) <==> b in s && b != s[k]
  {
    var t := DropNode(s, k);
    forall j | 0 <= j < |t| ensures t[j] == s[if j < k then j else j + 1] { }
    forall b | b in s && b != s[k] ensures b in t {
      var j :| 0 <= j < |s| && s[j] == b;
      assert t[if j < k then j else j - 1] == b;
    }
  }

  /** bucket_list_remove. The new head keeps its link to the removed bucket. */
  method Unlink(head: Bucket, b: Bucket, ghost s: seq<Bucket>, ghost k: nat) returns (newHead: Bucket?)
    requires Chain(head, s) && k < |s| && s[k] == b
    modifies s`next, s`prev
    ensures Chain(newHead, DropNode(s, k))
    ensures k == 0 && |s| > 1 ==> newHead != null && newHead.prev == b
  {
    newHead := head;
    DropNodeIs(s, k);
    assert Linked(s, k);
    if head == b {
      newHead := b.next;
      if |s| > 1 { assert Linked(s, 1); }
      b.prev := null;
      assert DropNode(s, k) == s[1..];
      forall j: nat | j < |s| - 1 ensures Linked(s[1..], j) { assert Linked(s, j + 1); }
    } else {
      UnlinkInner(b, s, k);
    }
  }

  /** The links of bucket `j` after bucket `k` has been bypassed. */
  ghost predicate Bypassed(s: seq<Bucket>, k: nat, j: nat)
    requires 0 < k < |s| && j < |s|
    reads s[j]
  {
    && s[j].next == NodeAt(s, if j == k - 1 then k + 1 else j + 1)
    && (j > 0 ==> s[j].prev == NodeAt(s, if j == k + 1 then k - 1 else j - 1))
  }

  lemma BypassedIsLinked(s: seq<Bucket>, k: nat, j: nat)
    requires 0 < k < |s| && j < |s| - 1 && Bypassed(s, k, if j < k then j else j + 1)
    ensures Linked(DropNode(s, k), j)
  {
    var i := if j < k then j else j + 1;
    var t := DropNode(s, k);
    assert t[j] == s[i];
    assert j + 1 < |t| ==> t[j + 1] == s[if j + 1 < k then j + 1 else j + 2];
    assert j > 0 ==> t[j - 1] == s[if j - 1 < k then j - 1 else j];
  }

  /** The branch for a bucket that is not the head: only here back links are followed. */
  method UnlinkInner(b: Bucket, ghost s: seq<Bucket>, ghost k: nat)
    requires s != [] && Chain(s[0], s) && 0 < k < |s| && s[k] == b
    modifies s`next, s`prev
    ensures Chain(s[0], DropNode(s, k))
  {
    assert Linked(s, k);
    b.prev.next := b.next;
    if b.next != null {
      b.next.prev := b.prev;
    }
    DropNodeIs(s, k);
    forall j: nat | j < |s| - 1 ensures Linked(DropNode(s, k), j) {
      assert old(Linked(s, if j < k then j else j + 1));
      BypassedIsLinked(s, k, j);
    }
    assert DropNode(s, k)[0] == s[0];
  }

  // ---------------------------------------------------------------- one table entry

  class BucketList {
    var head: Bucket?
    var free: Bucket?
    /** The buckets of the two lists, and what the live ones hold. */
    ghost var live: seq<Bucket>
    ghost var idle: seq<Bucket>
    ghost var entries: Entries
    /** Every bucket ever allocated here. */
    ghost var nodes: set<Bucket>
    ghost const index: nat

    ghost predicate Valid()
      reads this, nodes
    {
      && (forall b <- live :: b in nodes) && (forall b <- idle :: b in nodes)
      && (forall b <- nodes :: b.owner == this)
      && Chain(head, live) && Chain(free, idle)
      && (forall b :: b in live ==> b !in idle)
      && Holds(live, entries) && UniqueKeys(entries)
    }

    constructor (ghost index: nat)
      ensures Valid() && entries == [] && nodes == {} && this.index == index
    {
      head, free, live, idle, entries := null, null, [], [], [];
      this.index, nodes := index, {};
    }

    /** The scan all three operations begin with: the bucket with the key, or null. */
    method Scan(key: nat) returns (bucket: Bucket?, ghost k: nat)
      requires Valid()
      ensures k <= |live| && bucket == NodeAt(live, k)
      ensures bucket == null <==> !HasKey(entries, key)
      ensures bucket != null ==> bucket.key == key && entries[k] == (key, bucket.value)
    {
      bucket, k := head, 0;
      while bucket != null && bucket.key != key
        invariant k <= |live| && bucket == NodeAt(live, k)
        invariant forall i :: 0 <= i < k ==> entries[i].0 != key
        decreases |live| - k
      {
        assert Linked(live, k) && HoldsAt(live, entries, k);
        bucket, k := bucket.next, k + 1;
      }
      if bucket != null {
        assert HoldsAt(live, entries, k);
        assert HasKey(entries, key);
      }
    }

    method Lookup(key: nat) returns (value: Option<nat>)
      requires Valid()
      ensures value == Find(entries, key)
    {
      FindIff(entries, key);
      var bucket, k := Scan(key);
      if bucket == null {
        return None;
      }
      return Some(bucket.value);
    }

    /** The first recycled bucket, taken off its list. */
    method Reuse() returns (bucket: Bucket)
      requires Valid() && free != null
      modifies this`free, this`idle, idle
      ensures Valid() && bucket !in live && bucket !in idle && bucket in nodes
    {
      bucket := free;
      assert Linked(idle, 0);
      DropNodeIs(idle, 0);
      free := Unlink(free, bucket, idle, 0);
      idle := DropNode(idle, 0);
      forall k: nat | k < |live| ensures Linked(live, k) && HoldsAt(live, entries, k) {
        assert old(Linked(live, k)) && old(HoldsAt(live, entries, k)) && live[k] in live;
      }
    }

    /** A bucket from the recycled list, or a new one. */
    method Take() returns (bucket: Bucket)
      requires Valid()
      modifies this`free, this`idle, this`nodes, idle
      ensures Valid() && bucket !in live && bucket !in idle && bucket in nodes
      ensures old(nodes) <= nodes && fresh(nodes - old(nodes))
    {
      if free != null {
        bucket := Reuse();
      } else {
        bucket := new Bucket(this);
        nodes := nodes + {bucket};
      }
    }

    /** Fills a bucket and puts it in front of the live ones. */
    method Insert(bucket: Bucket, key: nat, value: nat)
      requires Valid() && bucket !in live && bucket !in idle && bucket in nodes && !HasKey(entries, key)
      modifies this`head, this`live, this`entries, bucket, live
      ensures Valid() && live == [bucket] + old(live) && entries == [(key, value)] + old(entries)
    {
      bucket.key, bucket.value := key, value;
      ghost var l, es := [bucket] + live, [(key, value)] + entries;
      label before:
      head := Push(head, bucket, live);
      live, entries := l, es;
      forall k: nat | k < |idle| ensures Linked(idle, k) {
        assert old@before(Linked(idle, k)) && idle[k] in idle;
      }
      forall k: nat | k < |live| ensures HoldsAt(live, entries, k) {
        if k > 0 { assert old@before(HoldsAt(live, entries, k - 1)); }
      }
    }

    method Add(key: nat, value: nat) returns (ok: bool)
      requires Valid()
      modifies this, nodes
      ensures Valid() && old(nodes) <= nodes && fresh(nodes - old(nodes))
      ensures ok <==> !HasKey(old(entries), key)
      ensures entries == if ok then [(key, value)] + old(entries) else old(entries)
    {
      var found, _ := Scan(key);
      if found != null {
        return false;
      }
      var bucket := Take();
      Insert(bucket, key, value);
      return true;
    }

    lemma RestHolds(k: nat)
      requires Valid() && k < |live|
      ensures |Drop(entries, k)| == |DropNode(live, k)| && UniqueKeys(Drop(entries, k))
      ensures forall j: nat :: j < |DropNode(live, k)| ==> HoldsAt(DropNode(live, k), Drop(entries, k), j)
    {
      FindAfterDrop(entries, k, entries[k].0);
      forall j: nat | j < |DropNode(live, k)| ensures HoldsAt(DropNode(live, k), Drop(entries, k), j) {
        assert HoldsAt(live, entries, if j < k then j else j + 1);
      }
    }

    /** Takes live bucket `k` out of its list. */
    method Detach(bucket: Bucket, ghost k: nat)
      requires Valid() && k < |live| && live[k] == bucket
      modifies this`head, this`live, this`entries, live
      ensures Valid() && live == DropNode(old(live), k) && entries == Drop(old(entries), k)
    {
      DropNodeIs(live, k);
      RestHolds(k);
      ghost var l, es := DropNode(live, k), Drop(entries, k);
      head := Unlink(head, bucket, live, k);
      live, entries := l, es;
      forall j: nat | j < |idle| ensures Linked(idle, j) {
        assert old(Linked(idle, j)) && idle[j] in idle;
      }
      forall j: nat | j < |l| ensures HoldsAt(l, es, j) {
        assert old(HoldsAt(l, es, j));
      }
    }

    /** Puts a bucket on the recycled list. */
    method Recycle(bucket: Bucket)
      requires Valid() && bucket !in live && bucket !in idle && bucket in nodes
      modifies this`free, this`idle, bucket`next, bucket`prev, idle
      ensures Valid() && idle == [bucket] + old(idle)
    {
      ghost var i := [bucket] + idle;
      free := Push(free, bucket, idle);
      idle := i;
      forall j: nat | j < |live| ensures Linked(live, j) && HoldsAt(live, entries, j) {
        assert old(Linked(live, j)) && old(HoldsAt(live, entries, j)) && live[j] in live;
      }
    }

    /** The removed bucket is kept for the next Add. */
    method Remove(key: nat) returns (value: Option<nat>)
      requires Valid()
      modifies this, nodes
      ensures Valid() && nodes == old(nodes)
      ensures value == Find(old(entries), key)
      ensures value == None ==> entries == old(entries)
      ensures value.Some? ==> exists k: nat :: k < |old(entries)| && old(entries)[k].0 == key
                                               && entries == Drop(old(entries), k)
    {
      FindIff(entries, key);
      var bucket, k := Scan(key);
      if bucket == null {
        return None;
      }
      value := Some(bucket.value);
      DropNodeIs(live, k);
      Detach(bucket, k);
      Recycle(bucket);
    }
  }

  // ---------------------------------------------------------------- the table

  function Hash(key: nat, size: nat): (i: nat)
    requires size > 0
    ensures i < size
  {
    key % size
  }

  function MapFind(m: map<nat, nat>, key: nat): Option<nat> {
    if key in m then Some(m[key]) else None
  }

  /** The CALLOCed array of empty lists. */
  method EmptyLists(size: nat) returns (tbl: array<BucketList>, ghost os: set<object>)
    ensures tbl.Length == size && fresh(tbl) && fresh(os)
    ensures forall j :: 0 <= j < size ==> tbl[j] in os && IsNew(tbl[j], j)
  {
    var none := new BucketList(0);
    tbl, os := new BucketList[size](_ => none), {};
    for i := 0 to size
      invariant fresh(os) && forall j :: 0 <= j < i ==> tbl[j] in os && IsNew(tbl[j], j)
    {
      var list := new BucketList(i);
      tbl[i] := list;
      os := os + {list};
    }
  }

  ghost predicate IsNew(list: BucketList, i: nat)
    reads list, list.nodes
  {
    list.Valid() && list.entries == [] && list.nodes == {} && list.index == i
  }

  ghost predicate Sound(tbl: array<BucketList>, j: nat)
    requires j < tbl.Length
    reads tbl, tbl[j], tbl[j].nodes
  {
    tbl[j].index == j && tbl[j].Valid()
  }

  /** What entry `j` holds, and the buckets it is made of. */
  ghost function Part(tbl: array<BucketList>, j: nat): (Entries, set<Bucket>)
    requires j < tbl.Length
    reads tbl, tbl[j]
  {
    (tbl[j].entries, tbl[j].nodes)
  }

  /** Two entries of the table never share a bucket. */
  lemma PartsApart(tbl: array<BucketList>, i: nat, j: nat)
    requires i < tbl.Length && j < tbl.Length && i != j && Sound(tbl, i) && Sound(tbl, j)
    ensures tbl[i] != tbl[j] && tbl[i].nodes !! tbl[j].nodes
  {
    forall b | b in tbl[i].nodes ensures b !in tbl[j].nodes {
      assert b.owner == tbl[i];
    }
  }

  /** An addition to one entry does not touch the others: no bucket is ever shared. */
  method AddToList(tbl: array<BucketList>, i: nat, key: nat, value: nat) returns (ok: bool)
    requires i < tbl.Length && forall j: nat :: j < tbl.Length ==> Sound(tbl, j)
    modifies tbl[i], tbl[i].nodes
    ensures forall j: nat :: j < tbl.Length ==> Sound(tbl, j)
    ensures forall j: nat :: j < tbl.Length && j != i ==> Part(tbl, j) == old(Part(tbl, j))
    ensures fresh(tbl[i].nodes - old(tbl[i].nodes))
    ensures ok <==> !HasKey(old(tbl[i].entries), key)
    ensures tbl[i].entries == if ok then [(key, value)] + old(tbl[i].entries) else old(tbl[i].entries)
  {
    assert Sound(tbl, i);
    forall j: nat | j < tbl.Length && j != i ensures tbl[i] != tbl[j] && tbl[i].nodes !! tbl[j].nodes {
      PartsApart(tbl, i, j);
    }
    ok := tbl[i].Add(key, value);
    forall j: nat | j < tbl.Length && j != i ensures Part(tbl, j) == old(Part(tbl, j)) {
      assert old(Sound(tbl, j)) && old(Sound(tbl, i));
    }
    forall j: nat | j < tbl.Length ensures Sound(tbl, j) {
      assert old(Sound(tbl, j)) && old(Sound(tbl, i));
    }
  }

  method RemoveFromList(tbl: array<BucketList>, i: nat, key: nat) returns (value: Option<nat>)
    requires i < tbl.Length && forall j: nat :: j < tbl.Length ==> Sound(tbl, j)
    modifies tbl[i], tbl[i].nodes
    ensures forall j: nat :: j < tbl.Length ==> Sound(tbl, j)
    ensures forall j: nat :: j < tbl.Length && j != i ==> Part(tbl, j) == old(Part(tbl, j))
    ensures tbl[i].nodes == old(tbl[i].nodes)
    ensures value == Find(old(tbl[i].entries), key)
    ensures value == None ==> tbl[i].entries == old(tbl[i].entries)
    ensures value.Some? ==> exists k: nat :: k < |old(tbl[i].entries)| && old(tbl[i].entries)[k].0 == key
                                             && tbl[i].entries == Drop(old(tbl[i].entries), k)
  {
    assert Sound(tbl, i);
    forall j: nat | j < tbl.Length && j != i ensures tbl[i] != tbl[j] && tbl[i].nodes !! tbl[j].nodes {
      PartsApart(tbl, i, j);
    }
    value := tbl[i].Remove(key);
    forall j: nat | j < tbl.Length && j != i ensures Part(tbl, j) == old(Part(tbl, j)) {
      assert old(Sound(tbl, j)) && old(Sound(tbl, i));
    }
    forall j: nat | j < tbl.Length ensures Sound(tbl, j) {
      assert old(Sound(tbl, j)) && old(Sound(tbl, i));
    }
  }

  /** The keys in a list belong there. */
  ghost predicate InPlace(es: Entries, i: nat, size: nat)
    requires 0 < size
  {
    forall k :: 0 <= k < |es| ==> Hash(es[k].0, size) == i
  }

  class Table {
    const tbl: array<BucketList>
    /** The map the table stands for, and the objects it is made of. */
    ghost var contents: map<nat, nat>
    ghost var repr: set<object>

    ghost predicate Owned(i: nat)
      requires i < tbl.Length
      reads this, tbl, tbl[i]
    {
      tbl[i] in repr && tbl[i].nodes <= repr && InPlace(tbl[i].entries, i, tbl.Length)
    }

    ghost predicate Stands(key: nat)
      requires 0 < tbl.Length
      reads this, tbl, tbl[Hash(key, tbl.Length)]
    {
      MapFind(contents, key) == Find(tbl[Hash(key, tbl.Length)].entries, key)
    }

    ghost predicate Valid()
      reads this, repr, tbl
    {
      && 0 < tbl.Length && this in repr && tbl in repr
      && (forall i: nat :: i < tbl.Length ==> tbl[i] in repr && tbl[i].nodes <= repr)
      && (forall i: nat :: i < tbl.Length ==> Owned(i) && Sound(tbl, i))
      && (forall key: nat :: Stands(key))
    }

    constructor (size: nat)
      requires 0 < size
      ensures Valid() && contents == map[] && fresh(repr)
    {
      var t, os := EmptyLists(size);
      tbl := t;
      new;
      repr, contents := {this, tbl} + os, map[];
      forall i: nat | i < tbl.Length ensures Owned(i) && Sound(tbl, i) {
        assert IsNew(tbl[i], i);
      }
      forall key: nat ensures Stands(key) {
        assert IsNew(tbl[Hash(key, tbl.Length)], Hash(key, tbl.Length));
      }
    }

    method Lookup(key: nat) returns (value: Option<nat>)
      requires Valid()
      ensures value == MapFind(contents, key)
    {
      var i := Hash(key, tbl.Length);
      assert Sound(tbl, i) && Stands(key);
      value := tbl[i].Lookup(key);
    }

    method Add(key: nat, value: nat) returns (ok: bool)
      requires Valid()
      modifies repr
      ensures Valid() && fresh(repr - old(repr))
      ensures ok <==> key !in old(contents)
      ensures contents == if ok then old(contents)[key := value] else old(contents)
    {
      var i := Hash(key, tbl.Length);
      assert Sound(tbl, i) && Stands(key) && Owned(i);
      FindIff(tbl[i].entries, key);
      ghost var es := tbl[i].entries;
      ok := AddToList(tbl, i, key, value);
      repr := repr + tbl[i].nodes;
      if ok {
        contents := contents[key := value];
      }
      forall j: nat | j < tbl.Length ensures Owned(j) {
        assert old(Owned(j)) && (j != i ==> Part(tbl, j) == old(Part(tbl, j)));
      }
      forall k: nat ensures Stands(k) {
        assert old(Stands(k));
        var j := Hash(k, tbl.Length);
        assert j != i ==> Part(tbl, j) == old(Part(tbl, j));
        if ok { FindAfterAdd(es, key, value, k); }
      }
    }

    method Remove(key: nat) returns (value: Option<nat>)
      requires Valid()
      modifies repr
      ensures Valid() && repr == old(repr)
      ensures value == MapFind(old(contents), key)
      ensures contents == old(contents) - {key}
    {
      var i := Hash(key, tbl.Length);
      assert Sound(tbl, i) && Stands(key) && Owned(i);
      ghost var es := tbl[i].entries;
      value := RemoveFromList(tbl, i, key);
      contents := contents - {key};
      forall j: nat | j < tbl.Length ensures Owned(j) {
        assert old(Owned(j)) && (j != i ==> Part(tbl, j) == old(Part(tbl, j)));
      }
      forall k: nat ensures Stands(k) {
        assert old(Stands(k));
        var j := Hash(k, tbl.Length);
        assert j != i ==> Part(tbl, j) == old(Part(tbl, j));
        if value.Some? {
          var at: nat :| at < |es| && es[at].0 == key && tbl[i].entries == Drop(es, at);
          FindAfterDrop(es, at, k);
        }
      }
    }
  }

  // ---------------------------------------------------------------- the iterator

  /** The entries of the lists from `i` on, in the order of the table. */
  ghost function Flat(tbl: array<BucketList>, i: nat): Entries
    requires i <= tbl.Length
    reads tbl, tbl[..]
    decreases tbl.Length - i
  {
    if i == tbl.Length then [] else tbl[i].entries + Flat(tbl, i + 1)
  }

  lemma FindInConcat(xs: Entries, ys: Entries, key: nat)
    ensures Find(xs + ys, key) == if Find(xs, key) != None then Find(xs, key) else Find(ys, key)
  {
    if xs == [] {
      assert xs + ys == ys;
    } else if xs[0].0 != key {
      assert (xs + ys)[1..] == xs[1..] + ys;
      FindInConcat(xs[1..], ys, key);
    }
  }

  lemma ForeignKeyNotFound(es: Entries, i: nat, size: nat, key: nat)
    requires 0 < size && InPlace(es, i, size) && Hash(key, size) != i
    ensures Find(es, key) == None
  {
    FindsFirst(es, key, |es|);
  }

  ghost predicate HashesFrom(es: Entries, i: nat, size: nat)
    requires 0 < size
  {
    forall k :: 0 <= k < |es| ==> i <= Hash(es[k].0, size)
  }

  lemma ListBeforeRest(es: Entries, rest: Entries, i: nat, size: nat)
    requires 0 < size && InPlace(es, i, size) && HashesFrom(rest, i + 1, size) && UniqueKeys(es) && UniqueKeys(rest)
    ensures UniqueKeys(es + rest) && HashesFrom(es + rest, i, size)
  {
  }

  /** In the whole table no key comes twice. */
  lemma {:induction false} FlatIsUnique(t: Table, i: nat)
    requires t.Valid() && i <= t.tbl.Length
    ensures UniqueKeys(Flat(t.tbl, i)) && HashesFrom(Flat(t.tbl, i), i, t.tbl.Length)
    decreases t.tbl.Length - i
  {
    if i < t.tbl.Length {
      FlatIsUnique(t, i + 1);
      assert t.Owned(i) && Sound(t.tbl, i);
      ListBeforeRest(t.tbl[i].entries, Flat(t.tbl, i + 1), i, t.tbl.Length);
    }
  }

  /** All entries, looked through in order, are the contents of the table. */
  lemma {:induction false} FlatIsContents(t: Table, i: nat, key: nat)
    requires t.Valid() && i <= t.tbl.Length
    ensures Find(Flat(t.tbl, i), key) == if Hash(key, t.tbl.Length) < i then None else MapFind(t.contents, key)
    decreases t.tbl.Length - i
  {
    if i < t.tbl.Length {
      FlatIsContents(t, i + 1, key);
      assert t.Owned(i) && t.Stands(key);
      FindInConcat(t.tbl[i].entries, Flat(t.tbl, i + 1), key);
      if Hash(key, t.tbl.Length) != i { ForeignKeyNotFound(t.tbl[i].entries, i, t.tbl.Length, key); }
    }
  }

  lemma FirstOf(es: Entries, pos: nat, rest: Entries)
    requires pos < |es|
    ensures es[pos..] + rest == [es[pos]] + (es[pos + 1..] + rest)
  {
  }

  class Iterator {
    const table: Table
    var index: nat
    var bucket: Bucket?
    /** The position of the bucket in its list. */
    ghost var pos: nat

    ghost predicate Valid()
      reads this, table, table.repr, table.tbl
    {
      && this !in table.repr && table.Valid() && index < table.tbl.Length
      && var list := table.tbl[index];
         bucket != null ==> pos < |list.entries| == |list.live| && list.live[pos] == bucket
    }

    /** What the iterator has still to deliver. */
    ghost function Remaining(): Entries
      requires Valid()
      reads this, table, table.repr, table.tbl, table.tbl[..]
    {
      if bucket == null then []
      else table.tbl[index].entries[pos..] + Flat(table.tbl, index + 1)
    }

    /** txc_hash_table_iter_init. */
    constructor (table: Table)
      requires table.Valid()
      ensures Valid() && this.table == table && Remaining() == Flat(table.tbl, 0)
    {
      this.table, index, bucket, pos := table, 0, null, 0;
      new;
      Seek(0);
    }

    /** The search for the next list that is not empty. */
    method Seek(first: nat)
      requires Valid() && first <= table.tbl.Length && bucket == null
      modifies this
      ensures Valid() && Remaining() == Flat(table.tbl, first)
    {
      for i := first to table.tbl.Length
        invariant Valid() && bucket == null && Flat(table.tbl, first) == Flat(table.tbl, i)
      {
        assert Sound(table.tbl, i);
        if table.tbl[i].head != null {
          bucket, index, pos := table.tbl[i].head, i, 0;
          return;
        }
        assert table.tbl[i].entries == [];
      }
    }

    /** What is delivered next, and what stays to be delivered. */
    lemma Delivered()
      requires Valid() && bucket != null
      ensures var rest := table.tbl[index].entries[pos + 1..] + Flat(table.tbl, index + 1);
              Remaining() == [(bucket.key, bucket.value)] + rest
    {
      var list := table.tbl[index];
      assert Sound(table.tbl, index) && HoldsAt(list.live, list.entries, pos);
      FirstOf(list.entries, pos, Flat(table.tbl, index + 1));
    }

    /** On to the next bucket, in this list or a later one. */
    method Advance(ghost others: Entries)
      requires Valid() && bucket != null && others == table.tbl[index].entries[pos + 1..]
      modifies this
      ensures Valid() && Remaining() == others + Flat(table.tbl, old(index) + 1)
    {
      assert Sound(table.tbl, index) && Linked(table.tbl[index].live, pos);
      if bucket.next != null {
        bucket, pos := bucket.next, pos + 1;
      } else {
        bucket := null;
        Seek(index + 1);
        assert others == [];
      }
    }

    /** txc_hash_table_iter_next: delivers the next entry, None at the end. */
    method Next() returns (entry: Option<(nat, nat)>)
      requires Valid()
      modifies this
      ensures Valid()
      ensures entry == None <==> old(Remaining()) == []
      ensures entry.Some? ==> old(Remaining()) == [entry.value] + Remaining()
      ensures entry == None ==> Remaining() == []
    {
      if bucket == null { return None; }
      Delivered();
      entry := Some((bucket.key, bucket.value));
      Advance(table.tbl[index].entries[pos + 1..]);
    }
  }
}
