/**
 Kernel object abstractions, their reference counts, the descriptors each one lists, and the
 alias cache that finds the abstraction of a live file by its inode number (src/core/koa.c),
 together with what the path calls do with them (src/xcalls/x_open.c, x_create.c, x_rename.c).
 */
module AliasCache {
  import opened Options
  import opened HashTable

  const TXC_MAX_NUM_FDREFS_PER_KOA: nat := 8

  /** `count` of the object's cells hold the descriptors attached to it. */
  datatype Koa = Koa(isFile: bool, inode: nat, refcnt: nat, count: nat)

  /**
   All live KOAs by address, the alias cache (key to address), the descriptor map, the
   attachments without a descriptor that are still to be detached, and the descriptor cells
   of every object of the pool, live or not.
   */
  datatype State = State(koas: map<nat, Koa>, cache: map<nat, nat>, fds: map<int, nat>, held: multiset<nat>,
                         cells: map<nat, seq<int>>)

  /** Every KOA is an object of the pool, and no count exceeds the number of cells. */
  ghost predicate Sized(s: State) {
    && (forall id :: id in s.cells ==> |s.cells[id]| == TXC_MAX_NUM_FDREFS_PER_KOA)
    && (forall id :: id in s.koas ==> id in s.cells && s.koas[id].count <= TXC_MAX_NUM_FDREFS_PER_KOA)
  }

  /** The cache is indexed by the inode number as an unsigned int. */
  function Key(inode: nat): nat {
    inode % UINT_RANGE
  }

  /** Small inode numbers have keys of their own, numbers 2^32 apart share one. */
  lemma KeysClash(a: nat, b: nat)
    ensures a < 0x1_0000_0000 && b < 0x1_0000_0000 ==> (Key(a) == Key(b) <==> a == b)
    ensures Key(a + 0x1_0000_0000 * b) == Key(a)
  {
  }

  // ---------------------------------------------------------------- the operations of koa.c

  function Create(s: State, id: nat, isFile: bool, inode: nat): State {
    s.(koas := s.koas[id := Koa(isFile, inode, 0, 0)])
  }

  /** The first attach inserts a file into the cache; a failing insert goes unnoticed. */
  function Gain(s: State, id: nat): State
    requires id in s.koas
  {
    var k := s.koas[id].(refcnt := s.koas[id].refcnt + 1);
    var insert := k.refcnt == 1 && k.isFile && Key(k.inode) !in s.cache;
    s.(koas := s.koas[id := k], cache := if insert then s.cache[Key(k.inode) := id] else s.cache)
  }

  /** The last detach removes a file from the cache and destroys the KOA. */
  function Lose(s: State, id: nat): State
    requires id in s.koas && s.koas[id].refcnt > 0
  {
    var k := s.koas[id].(refcnt := s.koas[id].refcnt - 1);
    if k.refcnt > 0 then s.(koas := s.koas[id := k])
    else s.(koas := s.koas - {id}, cache := if k.isFile then s.cache - {Key(k.inode)} else s.cache)
  }

  /** The descriptor is written behind the listed ones. */
  function List(s: State, id: nat, fd: nat): State
    requires id in s.koas && id in s.cells && s.koas[id].count < |s.cells[id]|
  {
    var k := s.koas[id];
    s.(koas := s.koas[id := k.(count := k.count + 1)], cells := s.cells[id := s.cells[id][k.count := fd]])
  }

  /** The search of txc_koa_detach_fd: the first listed cell with the descriptor, or `count`. */
  function IndexOf(cells: seq<int>, count: nat, fd: int): (i: nat)
    requires count <= |cells|
    ensures i <= count && (i < count ==> cells[i] == fd)
    ensures forall j :: 0 <= j < i ==> cells[j] != fd
    decreases count
  {
    if count == 0 then 0
    else
      var i := IndexOf(cells, count - 1, fd);
      if i < count - 1 || cells[count - 1] == fd then i else count
  }

  /** The cell behind the listed ones; behind the last cell is the count itself. */
  function Past(cells: seq<int>, count: nat): int {
    if count < |cells| then cells[count] else count
  }

  /** The cell of the removed descriptor is filled from the cell behind the list, not from its end. */
  function Unlist(s: State, id: nat, i: nat): State
    requires id in s.koas && id in s.cells && i < s.koas[id].count && i < |s.cells[id]|
  {
    var k := s.koas[id];
    s.(koas := s.koas[id := k.(count := k.count - 1)],
       cells := s.cells[id := s.cells[id][i := Past(s.cells[id], k.count)]])
  }

  function AttachFd(s: State, id: nat, fd: nat): State
    requires id in s.koas && id in s.cells && s.koas[id].count < |s.cells[id]|
  {
    List(Gain(s, id), id, fd).(fds := s.fds[fd := id])
  }

  /** The map entry goes first; if the descriptor is not listed the call fails and keeps the count. */
  function DetachFdOf(s: State, fd: nat): State
    requires Sized(s) && fd in s.fds && s.fds[fd] in s.koas && s.koas[s.fds[fd]].refcnt > 0
  {
    var id := s.fds[fd];
    var i := IndexOf(s.cells[id], s.koas[id].count, fd);
    if i == s.koas[id].count then s.(fds := s.fds - {fd})
    else Lose(Unlist(s, id, i), id).(fds := s.fds - {fd})
  }

  function Attach(s: State, id: nat): State
    requires id in s.koas
  {
    Gain(s, id).(held := s.held + multiset{id})
  }

  // ---------------------------------------------------------------- invariants

  /** The cache holds exactly the files with references, each under its key. */
  ghost predicate Exact(s: State) {
    forall key: nat, id: nat ::
      (key in s.cache && s.cache[key] == id) <==>
      (id in s.koas && s.koas[id].isFile && s.koas[id].refcnt >= 1 && Key(s.koas[id].inode) == key)
  }

  function FdsOf(fds: map<int, nat>, id: nat): set<int> {
    set fd | fd in fds && fds[fd] == id
  }

  ghost predicate CountedAt(s: State, id: nat) {
    (if id in s.koas then s.koas[id].refcnt else 0) == |FdsOf(s.fds, id)| + s.held[id]
  }

  /** A reference count is the number of descriptors and other attachments. */
  ghost predicate Counted(s: State) {
    forall id: nat :: CountedAt(s, id)
  }

  ghost predicate NoneUnused(s: State) {
    forall id :: id in s.koas ==> s.koas[id].refcnt > 0
  }

  predicate Listed(s: State, id: nat, fd: int)
    requires Sized(s) && id in s.koas
  {
    fd in s.cells[id][..s.koas[id].count]
  }

  ghost predicate ListedAt(s: State, id: nat)
    requires Sized(s) && id in s.koas
  {
    var cells, n := s.cells[id], s.koas[id].count;
    && (forall i :: 0 <= i < n ==> cells[i] in s.fds && s.fds[cells[i]] == id)
    && (forall i, j :: 0 <= i < j < n ==> cells[i] != cells[j])
    && (forall fd: int :: fd in s.fds && s.fds[fd] == id ==> Listed(s, id, fd))
  }

  /** Every KOA lists exactly the descriptors mapped to it, each once. */
  ghost predicate AllListed(s: State)
    requires Sized(s)
  {
    forall id :: id in s.koas ==> ListedAt(s, id)
  }

  ghost predicate Inv(s: State) {
    Sized(s) && Exact(s) && Counted(s) && NoneUnused(s) && AllListed(s)
  }

  /** One KOA per key: two live files in the cache have different inode numbers. */
  lemma OneKoaPerInode(s: State, a: nat, b: nat)
    requires Inv(s) && a in s.koas && b in s.koas && s.koas[a].isFile && s.koas[b].isFile
    requires Key(s.koas[a].inode) == Key(s.koas[b].inode)
    ensures a == b
  {
    assert s.cache[Key(s.koas[a].inode)] == a && s.cache[Key(s.koas[b].inode)] == b;
  }

  lemma FdsOfUpdate(fds: map<int, nat>, fd: int, id: nat, other: nat)
    requires fd !in fds
    ensures FdsOf(fds[fd := id], other) == if other == id then FdsOf(fds, other) + {fd} else FdsOf(fds, other)
    ensures FdsOf(fds[fd := id] - {fd}, other) == FdsOf(fds, other)
  {
  }

  // ---------------------------------------------------------------- what the calls do

  datatype Op =
    | Open(fd: nat, inode: nat, id: nat)        // x_open: look the inode up, else create
    | MakeFile(fd: nat, inode: nat, id: nat)    // x_create: always create
    | MakeOther(fd: nat, id: nat)               // pipes and sockets
    | Hold(inode: nat, id: nat)                 // x_rename: look the inode up, else create; no descriptor
    | DetachFd(fd: nat)
    | Detach(id: nat)

  predicate Free(s: State, id: nat) {
    id !in s.koas && id in s.cells
  }

  predicate Resolvable(s: State, inode: nat, id: nat) {
    Key(inode) in s.cache || Free(s, id)
  }

  /**
   `id` is a free object of the pool if one is needed, a KOA has at most eight descriptors, and
   only what is attached is detached.
   */
  ghost predicate Enabled(s: State, op: Op) {
    Sized(s) &&
    match op
    case Open(fd, inode, id) =>
      && fd !in s.fds && Resolvable(s, inode, id)
      && (Key(inode) in s.cache && s.cache[Key(inode)] in s.koas ==>
            s.koas[s.cache[Key(inode)]].count < TXC_MAX_NUM_FDREFS_PER_KOA)
    case MakeFile(fd, _, id) => fd !in s.fds && Free(s, id)
    case MakeOther(fd, id) => fd !in s.fds && Free(s, id)
    case Hold(inode, id) => Resolvable(s, inode, id)
    case DetachFd(fd) => fd in s.fds && s.fds[fd] in s.koas && s.koas[s.fds[fd]].refcnt > 0
    case Detach(id) => id in s.koas && s.koas[id].refcnt > 0 && id in s.held
  }

  /** The KOA found in the cache, or the created one. */
  function Resolve(s: State, inode: nat, id: nat): (State, nat) {
    if Key(inode) in s.cache then (s, s.cache[Key(inode)]) else (Create(s, id, true, inode), id)
  }

  ghost function Apply(s: State, op: Op): State
    requires Enabled(s, op)
  {
    match op
    case Open(fd, inode, id) =>
      var (s1, koa) := Resolve(s, inode, id);
      if koa in s1.koas then AttachFd(s1, koa, fd) else s1
    case MakeFile(fd, inode, id) => AttachFd(Create(s, id, true, inode), id, fd)
    case MakeOther(fd, id) => AttachFd(Create(s, id, false, 0), id, fd)
    case Hold(inode, id) =>
      var (s1, koa) := Resolve(s, inode, id);
      if koa in s1.koas then Attach(s1, koa) else s1
    case DetachFd(fd) => DetachFdOf(s, fd)
    case Detach(id) => Lose(s, id).(held := s.held - multiset{id})
  }

  lemma NewKoaIsUnknown(s: State, id: nat)
    requires Inv(s) && id !in s.koas
    ensures |FdsOf(s.fds, id)| == 0 && s.held[id] == 0
    ensures forall key :: key in s.cache ==> s.cache[key] != id
    ensures forall fd :: fd in s.fds ==> s.fds[fd] != id
  {
    assert CountedAt(s, id);
    forall fd | fd in s.fds ensures s.fds[fd] != id {
      assert fd in FdsOf(s.fds, id) <==> s.fds[fd] == id;
    }
  }

  /** Creating a KOA and attaching to it keeps the cache exact if and only if the key was not in use. */
  lemma CreateExactIff(s: State, id: nat, isFile: bool, inode: nat)
    requires Inv(s) && id !in s.koas
    ensures Exact(Gain(Create(s, id, isFile, inode), id)) <==> !isFile || Key(inode) !in s.cache
    ensures NoneUnused(Gain(Create(s, id, isFile, inode), id))
  {
    var t := Gain(Create(s, id, isFile, inode), id);
    NewKoaIsUnknown(s, id);
    if isFile && Key(inode) in s.cache {
      assert t.koas[id].refcnt == 1 && t.cache[Key(inode)] != id;
    } else {
      forall key: nat, k: nat
        ensures (key in t.cache && t.cache[key] == k) <==>
                (k in t.koas && t.koas[k].isFile && t.koas[k].refcnt >= 1 && Key(t.koas[k].inode) == key)
      {
      }
    }
  }

  lemma GainKeepsExact(s: State, id: nat)
    requires Inv(s) && id in s.koas
    ensures Exact(Gain(s, id)) && NoneUnused(Gain(s, id))
  {
  }

  lemma LoseKeepsExact(s: State, id: nat)
    requires Inv(s) && id in s.koas
    ensures Exact(Lose(s, id)) && NoneUnused(Lose(s, id))
  {
    var t := Lose(s, id);
    forall key: nat, k: nat
      ensures (key in t.cache && t.cache[key] == k) <==>
              (k in t.koas && t.koas[k].isFile && t.koas[k].refcnt >= 1 && Key(t.koas[k].inode) == key)
    {
      if k in s.koas && s.koas[k].isFile && s.koas[id].isFile && Key(s.koas[k].inode) == Key(s.koas[id].inode) {
        OneKoaPerInode(s, k, id);
      }
    }
  }

  lemma CreateCounts(s: State, id: nat, isFile: bool, inode: nat)
    requires Counted(s) && id !in s.koas
    ensures Counted(Create(s, id, isFile, inode))
  {
    forall k: nat ensures CountedAt(Create(s, id, isFile, inode), k) { assert CountedAt(s, k); }
  }

  lemma AttachCounts(s: State, id: nat)
    requires Counted(s) && id in s.koas
    ensures Counted(Attach(s, id))
  {
    forall k: nat ensures CountedAt(Attach(s, id), k) { assert CountedAt(s, k); }
  }

  lemma AttachFdCounts(s: State, id: nat, fd: nat)
    requires Counted(s) && Sized(s) && id in s.koas && s.koas[id].count < TXC_MAX_NUM_FDREFS_PER_KOA && fd !in s.fds
    ensures Counted(AttachFd(s, id, fd))
  {
    forall k: nat ensures CountedAt(AttachFd(s, id, fd), k) {
      assert CountedAt(s, k);
      FdsOfUpdate(s.fds, fd, id, k);
    }
  }

  /** The descriptor is among those its KOA lists. */
  ghost predicate Found(s: State, fd: nat) {
    Sized(s) && fd in s.fds && s.fds[fd] in s.koas && Listed(s, s.fds[fd], fd)
  }

  lemma FoundIsIndexed(s: State, fd: nat)
    requires Enabled(s, DetachFd(fd))
    ensures var id := s.fds[fd];
            Found(s, fd) <==> IndexOf(s.cells[id], s.koas[id].count, fd) < s.koas[id].count
  {
    var id := s.fds[fd];
    var i, n := IndexOf(s.cells[id], s.koas[id].count, fd), s.koas[id].count;
    if i < n {
      assert s.cells[id][..n][i] == fd;
    }
  }

  lemma DetachFdCountsIff(s: State, fd: nat)
    requires Counted(s) && Enabled(s, DetachFd(fd))
    ensures Counted(Apply(s, DetachFd(fd))) <==> Found(s, fd)
  {
    var id, t := s.fds[fd], Apply(s, DetachFd(fd));
    var rest := s.fds - {fd};
    assert rest[fd := id] == s.fds;
    FoundIsIndexed(s, fd);
    if Found(s, fd) {
      forall k: nat ensures CountedAt(t, k) {
        assert CountedAt(s, k);
        FdsOfUpdate(rest, fd, id, k);
      }
    } else {
      FdsOfUpdate(rest, fd, id, id);
      assert CountedAt(s, id) && !CountedAt(t, id);
    }
  }

  lemma DetachCounts(s: State, id: nat)
    requires Counted(s) && Enabled(s, Detach(id))
    ensures Counted(Apply(s, Detach(id)))
  {
    forall k: nat ensures CountedAt(Apply(s, Detach(id)), k) { assert CountedAt(s, k); }
  }

  /** Reference counts follow every operation except a detach that does not find its descriptor. */
  lemma StepKeepsCountsIff(s: State, op: Op)
    requires Counted(s) && Enabled(s, op)
    ensures Counted(Apply(s, op)) <==> (op.DetachFd? ==> Found(s, op.fd))
  {
    match op
    case Open(fd, inode, id) =>
      var (s1, koa) := Resolve(s, inode, id);
      if Key(inode) !in s.cache { CreateCounts(s, id, true, inode); }
      if koa in s1.koas { AttachFdCounts(s1, koa, fd); }
    case MakeFile(fd, inode, id) =>
      CreateCounts(s, id, true, inode);
      AttachFdCounts(Create(s, id, true, inode), id, fd);
    case MakeOther(fd, id) =>
      CreateCounts(s, id, false, 0);
      AttachFdCounts(Create(s, id, false, 0), id, fd);
    case Hold(inode, id) =>
      var (s1, koa) := Resolve(s, inode, id);
      if Key(inode) !in s.cache { CreateCounts(s, id, true, inode); }
      if koa in s1.koas { AttachCounts(s1, koa); }
    case DetachFd(fd) => DetachFdCountsIff(s, fd);
    case Detach(id) => DetachCounts(s, id);
  }

  lemma CachedIsLive(s: State, inode: nat)
    requires Inv(s)
    ensures Key(inode) in s.cache ==> s.cache[Key(inode)] in s.koas
  {
  }

  /** The descriptor is the last one listed, or the cell behind the list happens to equal the last one. */
  predicate KeepsList(s: State, fd: nat)
    requires fd in s.fds && s.fds[fd] in s.koas && s.fds[fd] in s.cells
    requires s.koas[s.fds[fd]].count <= |s.cells[s.fds[fd]]|
  {
    var cells, n := s.cells[s.fds[fd]], s.koas[s.fds[fd]].count;
    n > 0 && (cells[n - 1] == fd || cells[n - 1] == Past(cells, n))
  }

  /** x_create makes a new KOA without looking its inode up; a detach fills the gap from behind the list. */
  ghost predicate Safe(s: State, op: Op)
    requires Enabled(s, op)
  {
    (op.MakeFile? ==> Key(op.inode) !in s.cache) && (op.DetachFd? ==> KeepsList(s, op.fd))
  }

  ghost predicate SameKoa(s: State, t: State, id: nat) {
    && (id in s.koas <==> id in t.koas)
    && (id in s.koas ==> s.koas[id] == t.koas[id].(count := s.koas[id].count))
  }

  /** Descriptors and attachments do not matter for the cache. */
  lemma CacheOnly(s: State, t: State)
    requires s.cache == t.cache && forall id: nat :: SameKoa(s, t, id)
    ensures (Exact(s) <==> Exact(t)) && (NoneUnused(s) <==> NoneUnused(t))
  {
    forall id: nat ensures SameKoa(t, s, id) { assert SameKoa(s, t, id); }
    SameKoasExact(s, t);
    SameKoasExact(t, s);
  }

  lemma SameKoasExact(s: State, t: State)
    requires s.cache == t.cache && forall id: nat :: SameKoa(s, t, id)
    ensures Exact(s) ==> Exact(t)
    ensures NoneUnused(s) ==> NoneUnused(t)
  {
    forall id | id in t.koas && NoneUnused(s) ensures t.koas[id].refcnt > 0 { assert SameKoa(s, t, id); }
    forall key: nat, id: nat | Exact(s)
      ensures (key in t.cache && t.cache[key] == id) <==>
              (id in t.koas && t.koas[id].isFile && t.koas[id].refcnt >= 1 && Key(t.koas[id].inode) == key)
    {
      assert SameKoa(s, t, id);
    }
  }

  // ---------------------------------------------------------------- the lists of descriptors

  /** What is listed by a KOA depends on its own cells and descriptors. */
  lemma ListUntouched(s: State, t: State, id: nat)
    requires Sized(s) && Sized(t) && id in s.koas && id in t.koas && ListedAt(s, id)
    requires t.cells[id] == s.cells[id] && t.koas[id].count == s.koas[id].count
    requires forall fd :: (fd in s.fds && s.fds[fd] == id) <==> (fd in t.fds && t.fds[fd] == id)
    ensures ListedAt(t, id)
  {
    forall fd: int | fd in t.fds && t.fds[fd] == id ensures Listed(t, id, fd) {
      assert Listed(s, id, fd);
    }
  }

  /** A new KOA lists nothing, and nothing is mapped to it. */
  lemma CreateLists(s: State, id: nat, isFile: bool, inode: nat)
    requires Inv(s) && Free(s, id)
    ensures Sized(Create(s, id, isFile, inode)) && AllListed(Create(s, id, isFile, inode))
  {
    var t := Create(s, id, isFile, inode);
    NewKoaIsUnknown(s, id);
    forall k | k in t.koas ensures ListedAt(t, k) {
      if k != id { ListUntouched(s, t, k); }
    }
  }

  lemma AttachFdLists(s: State, id: nat, fd: nat)
    requires Sized(s) && AllListed(s) && id in s.koas && fd !in s.fds
    requires s.koas[id].count < TXC_MAX_NUM_FDREFS_PER_KOA
    ensures Sized(AttachFd(s, id, fd)) && AllListed(AttachFd(s, id, fd))
  {
    var t := AttachFd(s, id, fd);
    forall k | k in t.koas ensures ListedAt(t, k) {
      assert ListedAt(s, k);
      if k == id { AppendedIsListed(s, id, fd); } else { ListUntouched(s, t, k); }
    }
  }

  lemma AppendedIsListed(s: State, id: nat, fd: nat)
    requires Sized(s) && id in s.koas && ListedAt(s, id) && fd !in s.fds
    requires s.koas[id].count < TXC_MAX_NUM_FDREFS_PER_KOA && Sized(AttachFd(s, id, fd))
    ensures ListedAt(AttachFd(s, id, fd), id)
  {
    var t, n := AttachFd(s, id, fd), s.koas[id].count;
    assert t.cells[id][..n + 1] == s.cells[id][..n] + [fd];
    forall f: int | f in t.fds && t.fds[f] == id ensures Listed(t, id, f) {
      assert f == fd || Listed(s, id, f);
    }
  }

  lemma AttachLists(s: State, id: nat)
    requires Sized(s) && AllListed(s) && id in s.koas
    ensures Sized(Attach(s, id)) && AllListed(Attach(s, id))
  {
    forall k | k in s.koas ensures ListedAt(Attach(s, id), k) { ListUntouched(s, Attach(s, id), k); }
  }

  lemma DetachLists(s: State, id: nat)
    requires Sized(s) && AllListed(s) && Enabled(s, Detach(id))
    ensures Sized(Apply(s, Detach(id))) && AllListed(Apply(s, Detach(id)))
  {
    var t := Apply(s, Detach(id));
    forall k | k in t.koas ensures ListedAt(t, k) {
      assert k in s.koas && t.koas[k].count == s.koas[k].count && ListedAt(s, k);
      ListUntouched(s, t, k);
    }
  }

  /** A mapped descriptor is found; whether the rest of the list survives depends on the filled gap. */
  lemma RemovedListIff(s: State, fd: nat, t: State)
    requires Inv(s) && Enabled(s, DetachFd(fd)) && t == Apply(s, DetachFd(fd)) && Sized(t)
    ensures Found(s, fd)
    ensures s.fds[fd] in t.koas ==> (ListedAt(t, s.fds[fd]) <==> KeepsList(s, fd))
  {
    var id := s.fds[fd];
    var cells, n := s.cells[id], s.koas[id].count;
    assert ListedAt(s, id) && Listed(s, id, fd);
    FoundIsIndexed(s, fd);
    var i := IndexOf(cells, n, fd);
    if id in t.koas {
      assert t.cells[id] == cells[i := Past(cells, n)] && t.koas[id].count == n - 1;
      if KeepsList(s, fd) { GapIsFilled(s, fd, t, i); } else { LastIsLost(s, fd, t, i); }
    }
  }

  lemma GapIsFilled(s: State, fd: nat, t: State, i: nat)
    requires Sized(s) && Sized(t) && fd in s.fds && s.fds[fd] in s.koas && s.fds[fd] in t.koas
    requires ListedAt(s, s.fds[fd]) && KeepsList(s, fd) && t.fds == s.fds - {fd}
    requires var (id, n) := (s.fds[fd], s.koas[s.fds[fd]].count);
             && i < n && s.cells[id][i] == fd && t.koas[id].count == n - 1
             && t.cells[id] == s.cells[id][i := Past(s.cells[id], n)]
    ensures ListedAt(t, s.fds[fd])
  {
    var id, n := s.fds[fd], s.koas[s.fds[fd]].count;
    var before, after := s.cells[id], t.cells[id];
    assert forall k :: 0 <= k < n - 1 ==> after[k] == if k == i then before[n - 1] else before[k];
    forall f: int | f in t.fds && t.fds[f] == id ensures Listed(t, id, f) {
      assert Listed(s, id, f);
      var k :| 0 <= k < n && before[k] == f;
      assert after[..n - 1][if k == n - 1 then i else k] == f;
    }
  }

  lemma LastIsLost(s: State, fd: nat, t: State, i: nat)
    requires Sized(s) && Sized(t) && fd in s.fds && s.fds[fd] in s.koas && s.fds[fd] in t.koas
    requires ListedAt(s, s.fds[fd]) && !KeepsList(s, fd) && t.fds == s.fds - {fd}
    requires var (id, n) := (s.fds[fd], s.koas[s.fds[fd]].count);
             && i < n && s.cells[id][i] == fd && t.koas[id].count == n - 1
             && t.cells[id] == s.cells[id][i := Past(s.cells[id], n)]
    ensures !ListedAt(t, s.fds[fd])
  {
    var id, n := s.fds[fd], s.koas[s.fds[fd]].count;
    var last := s.cells[id][n - 1];
    assert last in t.fds && t.fds[last] == id;
    assert !Listed(t, id, last);
  }

  lemma DetachFdListsIff(s: State, fd: nat)
    requires Inv(s) && Enabled(s, DetachFd(fd))
    ensures Found(s, fd) && Sized(Apply(s, DetachFd(fd)))
    ensures AllListed(Apply(s, DetachFd(fd))) <==> KeepsList(s, fd)
  {
    var id, t := s.fds[fd], Apply(s, DetachFd(fd));
    RemovedListIff(s, fd, t);
    forall k | k in t.koas && k != id ensures ListedAt(t, k) {
      ListUntouched(s, t, k);
    }
    if id !in t.koas { OnlyOneListed(s, fd); }
  }

  /** The last reference is the only descriptor. */
  lemma OnlyOneListed(s: State, fd: nat)
    requires Inv(s) && fd in s.fds && s.fds[fd] in s.koas && s.koas[s.fds[fd]].refcnt == 1
    ensures KeepsList(s, fd)
  {
    var id := s.fds[fd];
    var cells, n, all := s.cells[id], s.koas[id].count, FdsOf(s.fds, id);
    assert CountedAt(s, id) && ListedAt(s, id) && Listed(s, id, fd);
    assert fd in all && |all| == 1;
    assert all == {fd} by {
      assert |all - {fd}| == 0;
    }
    assert cells[n - 1] in all;
  }

  lemma ResolveKeepsExact(s: State, inode: nat, id: nat)
    requires Inv(s) && Resolvable(s, inode, id)
    ensures var (s1, koa) := Resolve(s, inode, id);
            && koa in s1.koas && Exact(Gain(s1, koa)) && NoneUnused(Gain(s1, koa))
            && Sized(s1) && AllListed(s1)
  {
    CachedIsLive(s, inode);
    if Key(inode) in s.cache {
      GainKeepsExact(s, s.cache[Key(inode)]);
    } else {
      CreateExactIff(s, id, true, inode);
      CreateLists(s, id, true, inode);
    }
  }

  lemma AttachStep(s: State, op: Op, base: State, id: nat, fd: nat)
    requires Sized(base) && AllListed(base) && id in base.koas && fd !in base.fds
    requires base.koas[id].count < TXC_MAX_NUM_FDREFS_PER_KOA
    requires Inv(s) && Enabled(s, op) && !op.DetachFd? && Apply(s, op) == AttachFd(base, id, fd)
    requires NoneUnused(Gain(base, id))
    ensures Inv(Apply(s, op)) <==> Exact(Gain(base, id))
  {
    StepKeepsCountsIff(s, op);
    AttachFdLists(base, id, fd);
    forall k: nat ensures SameKoa(Gain(base, id), Apply(s, op), k) { }
    CacheOnly(Gain(base, id), Apply(s, op));
  }

  lemma OpenStep(s: State, op: Op)
    requires Inv(s) && Enabled(s, op) && op.Open?
    ensures Inv(Apply(s, op))
  {
    var (s1, koa) := Resolve(s, op.inode, op.id);
    ResolveKeepsExact(s, op.inode, op.id);
    AttachStep(s, op, s1, koa, op.fd);
  }

  lemma HoldStep(s: State, op: Op)
    requires Inv(s) && Enabled(s, op) && op.Hold?
    ensures Inv(Apply(s, op))
  {
    var (s1, koa) := Resolve(s, op.inode, op.id);
    StepKeepsCountsIff(s, op);
    ResolveKeepsExact(s, op.inode, op.id);
    AttachLists(s1, koa);
    CacheOnly(Gain(s1, koa), Apply(s, op));
  }

  lemma DetachFdStep(s: State, op: Op)
    requires Inv(s) && Enabled(s, op) && op.DetachFd?
    ensures Inv(Apply(s, op)) <==> KeepsList(s, op.fd)
  {
    var id, t := s.fds[op.fd], Apply(s, op);
    StepKeepsCountsIff(s, op);
    DetachFdListsIff(s, op.fd);
    FoundIsIndexed(s, op.fd);
    LoseKeepsExact(s, id);
    forall k: nat ensures SameKoa(Lose(s, id), t, k) { }
    CacheOnly(Lose(s, id), t);
  }

  lemma DetachStep(s: State, op: Op)
    requires Inv(s) && Enabled(s, op) && op.Detach?
    ensures Inv(Apply(s, op))
  {
    StepKeepsCountsIff(s, op);
    DetachLists(s, op.id);
    LoseKeepsExact(s, op.id);
    CacheOnly(Lose(s, op.id), Apply(s, op));
  }

  /**
   The invariant survives a step if and only if x_create meets no cached inode and a detach
   removes the last descriptor of its list, or fills the gap with it by chance.
   */
  lemma StepKeepsInvIff(s: State, op: Op)
    requires Inv(s) && Enabled(s, op)
    ensures Inv(Apply(s, op)) <==> Safe(s, op)
  {
    match op
    case Open(_, _, _) => OpenStep(s, op);
    case MakeFile(fd, inode, id) =>
      CreateLists(s, id, true, inode);
      CreateExactIff(s, id, true, inode);
      AttachStep(s, op, Create(s, id, true, inode), id, fd);
    case MakeOther(fd, id) =>
      CreateLists(s, id, false, 0);
      CreateExactIff(s, id, false, 0);
      AttachStep(s, op, Create(s, id, false, 0), id, fd);
    case Hold(_, _) => HoldStep(s, op);
    case DetachFd(_) => DetachFdStep(s, op);
    case Detach(_) => DetachStep(s, op);
  }

  lemma DetachOutcome(s: State, fd: nat)
    requires Enabled(s, DetachFd(fd))
    ensures Inv(s) ==> Found(s, fd) && (Inv(Apply(s, DetachFd(fd))) <==> KeepsList(s, fd))
  {
    if Inv(s) {
      StepKeepsInvIff(s, DetachFd(fd));
      DetachFdListsIff(s, fd);
    }
  }

  ghost predicate SafeRun(s: State, ops: seq<Op>)
    decreases |ops|
  {
    ops == [] || (Enabled(s, ops[0]) && Safe(s, ops[0]) && SafeRun(Apply(s, ops[0]), ops[1..]))
  }

  ghost function Run(s: State, ops: seq<Op>): State
    requires SafeRun(s, ops)
    decreases |ops|
  {
    if ops == [] then s else Run(Apply(s, ops[0]), ops[1..])
  }

  /** Over any run of safe steps the cache, the counts and the lists of descriptors are right. */
  lemma {:induction false} RunKeepsInv(s: State, ops: seq<Op>)
    requires Inv(s) && SafeRun(s, ops)
    ensures Inv(Run(s, ops))
    decreases |ops|
  {
    if ops != [] {
      StepKeepsInvIff(s, ops[0]);
      RunKeepsInv(Apply(s, ops[0]), ops[1..]);
    }
  }

  /** One object in the pool, a file with `n` references. */
  function OneFile(inode: nat, id: nat, n: nat, fds: map<int, nat>, cells: seq<int>): State {
    State(map[id := Koa(true, inode, n, n)], map[Key(inode) := id], fds, multiset{}, map[id := cells])
  }

  lemma OpenedOnce(inode: nat, id: nat)
    ensures var s := State(map[], map[], map[], multiset{}, map[id := [0, 0, 0, 0, 0, 0, 0, 0]]);
            && Inv(s) && Enabled(s, Open(3, inode, id))
            && Apply(s, Open(3, inode, id)) == OneFile(inode, id, 1, map[3 := id], [3, 0, 0, 0, 0, 0, 0, 0])
  {
    assert [0, 0, 0, 0, 0, 0, 0, 0][0 := 3] == [3, 0, 0, 0, 0, 0, 0, 0];
  }

  lemma OpenedTwice(inode: nat, id: nat)
    ensures var s := OneFile(inode, id, 1, map[3 := id], [3, 0, 0, 0, 0, 0, 0, 0]);
            && Enabled(s, Open(4, inode, id))
            && Apply(s, Open(4, inode, id)) == OneFile(inode, id, 2, map[3 := id, 4 := id], [3, 4, 0, 0, 0, 0, 0, 0])
  {
    assert [3, 0, 0, 0, 0, 0, 0, 0][1 := 4] == [3, 4, 0, 0, 0, 0, 0, 0];
  }

  lemma ClosedOnce(inode: nat, id: nat)
    ensures var s := OneFile(inode, id, 2, map[3 := id, 4 := id], [3, 4, 0, 0, 0, 0, 0, 0]);
            && Enabled(s, DetachFd(3))
            && Apply(s, DetachFd(3)) == OneFile(inode, id, 1, map[4 := id], [0, 4, 0, 0, 0, 0, 0, 0])
  {
    assert IndexOf([3, 4, 0, 0, 0, 0, 0, 0], 2, 3) == 0;
    assert [3, 4, 0, 0, 0, 0, 0, 0][0 := 0] == [0, 4, 0, 0, 0, 0, 0, 0];
    assert map[3 := id, 4 := id] - {3} == map[4 := id];
  }

  lemma ClosedTwice(inode: nat, id: nat)
    ensures var s := OneFile(inode, id, 1, map[4 := id], [0, 4, 0, 0, 0, 0, 0, 0]);
            && Enabled(s, DetachFd(4)) && !Found(s, 4)
            && Apply(s, DetachFd(4)) == OneFile(inode, id, 1, map[], [0, 4, 0, 0, 0, 0, 0, 0])
  {
    assert map[4 := id] - {4} == map[];
    FoundIsIndexed(OneFile(inode, id, 1, map[4 := id], [0, 4, 0, 0, 0, 0, 0, 0]), 4);
  }

  /**
   A file opened twice, with descriptors 3 and 4 on cells of zeros, and closed in that order:
   the second close does not find its descriptor, and the KOA keeps a reference for good.
   */
  lemma ClosedInOrderOfOpening(inode: nat, id: nat)
    ensures var s := State(map[], map[], map[], multiset{}, map[id := [0, 0, 0, 0, 0, 0, 0, 0]]);
            Inv(s) && Enabled(s, Open(3, inode, id))
            && var s1 := Apply(s, Open(3, inode, id));
               Enabled(s1, Open(4, inode, id))
               && var s2 := Apply(s1, Open(4, inode, id));
                  Enabled(s2, DetachFd(3))
                  && var s3 := Apply(s2, DetachFd(3));
                     Enabled(s3, DetachFd(4)) && !Found(s3, 4)
                     && var s4 := Apply(s3, DetachFd(4));
                        s4.fds == map[] && s4.held == multiset{} && s4.koas == map[id := Koa(true, inode, 1, 1)]
  {
    OpenedOnce(inode, id);
    OpenedTwice(inode, id);
    ClosedOnce(inode, id);
    ClosedTwice(inode, id);
  }

  /** What x_create leaves: one more KOA with one descriptor, cached if the inode was not. */
  lemma MakesKoa(s: State, fd: nat, inode: nat, id: nat)
    requires Sized(s) && Free(s, id) && fd !in s.fds
    ensures var t := Apply(s, MakeFile(fd, inode, id));
            && Sized(t) && t.koas == s.koas[id := Koa(true, inode, 1, 1)] && t.fds == s.fds[fd := id]
            && t.cache == (if Key(inode) in s.cache then s.cache else s.cache[Key(inode) := id])
            && t.cells == s.cells[id := s.cells[id][0 := fd]] && t.held == s.held
  {
  }

  /** Closing the only descriptor of a file KOA removes the cache entry of its key, whoever has put it there. */
  lemma LastCloseClearsKey(s: State, fd: nat, inode: nat, id: nat)
    requires Sized(s) && fd in s.fds && s.fds[fd] == id
    requires id in s.koas && s.koas[id] == Koa(true, inode, 1, 1) && s.cells[id][0] == fd
    ensures var t := Apply(s, DetachFd(fd));
            t.koas == s.koas - {id} && t.cache == s.cache - {Key(inode)}
  {
    assert IndexOf(s.cells[id], 1, fd) == 0;
  }

  /** A second KOA for a cached inode is invisible, and its last detach hides the first one. */
  lemma SecondKoaHidesTheFirst(s: State, inode: nat, fd1: nat, fd2: nat, id1: nat, id2: nat)
    requires Inv(s) && Key(inode) !in s.cache && id1 != id2 && fd1 != fd2
    requires Free(s, id1) && Free(s, id2) && fd1 !in s.fds && fd2 !in s.fds
    ensures Enabled(s, MakeFile(fd1, inode, id1))
    ensures var s1 := Apply(s, MakeFile(fd1, inode, id1));
            Enabled(s1, MakeFile(fd2, inode, id2))
            && var s2 := Apply(s1, MakeFile(fd2, inode, id2));
               s2.cache == s1.cache && id2 in s2.koas && s2.koas[id2].refcnt == 1 && Enabled(s2, DetachFd(fd2))
               && var s3 := Apply(s2, DetachFd(fd2));
                  id1 in s3.koas && s3.koas[id1].refcnt == 1 && Key(inode) !in s3.cache
  {
    MakesKoa(s, fd1, inode, id1);
    var s1 := Apply(s, MakeFile(fd1, inode, id1));
    MakesKoa(s1, fd2, inode, id2);
    LastCloseClearsKey(Apply(s1, MakeFile(fd2, inode, id2)), fd2, inode, id2);
  }

  /** Inode numbers that agree in 32 bits are taken for the same file. */
  lemma FoundFileIsRightIff(s: State, inode: nat)
    requires Inv(s) && Key(inode) in s.cache
    ensures s.cache[Key(inode)] in s.koas
    ensures s.koas[s.cache[Key(inode)]].inode == inode <==>
            exists id :: id in s.koas && s.koas[id].isFile && s.koas[id].inode == inode
  {
    CachedIsLive(s, inode);
    var a := s.cache[Key(inode)];
    forall id | id in s.koas && s.koas[id].isFile && s.koas[id].inode == inode
      ensures id == a
    {
      OneKoaPerInode(s, id, a);
    }
  }

  // ---------------------------------------------------------------- what the calls achieve

  /**
   The file with this inode has a KOA that the cache knows, with one more reference and `listed`
   more descriptors: the one it had, or else the new one at `id`. No other KOA has changed.
   */
  ghost predicate FoundOrMade(s: State, t: State, inode: nat, id: nat, listed: nat) {
    if Key(inode) in s.cache then
      var k := s.cache[Key(inode)];
      && k in s.koas && s.koas[k].isFile && t.cache == s.cache
      && t.koas == s.koas[k := Koa(true, s.koas[k].inode, s.koas[k].refcnt + 1, s.koas[k].count + listed)]
    else
      t.cache == s.cache[Key(inode) := id] && t.koas == s.koas[id := Koa(true, inode, 1, listed)]
  }

  /** The descriptor leads to the KOA at `k` and stands behind those it lists already. */
  ghost predicate FdAttached(s: State, t: State, fd: nat, k: nat) {
    && t.fds == s.fds[fd := k] && t.held == s.held && k in s.cells
    && var n := if k in s.koas then s.koas[k].count else 0;
       n < |s.cells[k]| && t.cells == s.cells[k := s.cells[k][n := fd]]
  }

  /** x_open: the descriptor leads to the KOA that the cache has for the inode. */
  lemma OpenAttaches(s: State, fd: nat, inode: nat, id: nat)
    requires Inv(s) && Enabled(s, Open(fd, inode, id))
    ensures var t := Apply(s, Open(fd, inode, id));
            FoundOrMade(s, t, inode, id, 1) && FdAttached(s, t, fd, t.cache[Key(inode)])
  {
    CachedIsLive(s, inode);
  }

  /** x_rename: the KOA that the cache has for the inode is held. */
  lemma HoldAttaches(s: State, inode: nat, id: nat)
    requires Inv(s) && Enabled(s, Hold(inode, id))
    ensures var t := Apply(s, Hold(inode, id));
            && FoundOrMade(s, t, inode, id, 0) && t.held == s.held + multiset{t.cache[Key(inode)]}
            && t.fds == s.fds && t.cells == s.cells
  {
    CachedIsLive(s, inode);
  }

  /** Pipes and sockets get a KOA of their own that the cache never sees. */
  lemma MakeOtherAttaches(s: State, fd: nat, id: nat)
    requires Enabled(s, MakeOther(fd, id))
    ensures var t := Apply(s, MakeOther(fd, id));
            && t.koas == s.koas[id := Koa(false, 0, 1, 1)] && t.cache == s.cache && FdAttached(s, t, fd, id)
  {
  }

  /** One reference less: the KOA goes with its last one, and with it the cache entry of a file. */
  ghost predicate Dropped(s: State, t: State, k: nat, unlisted: nat) {
    && k in s.koas && unlisted <= s.koas[k].count
    && (if s.koas[k].refcnt > 1 then
          && t.cache == s.cache
          && t.koas == s.koas[k := Koa(s.koas[k].isFile, s.koas[k].inode, s.koas[k].refcnt - 1,
                                       s.koas[k].count - unlisted)]
        else
          && t.koas == s.koas - {k}
          && t.cache == if s.koas[k].isFile then s.cache - {Key(s.koas[k].inode)} else s.cache)
  }

  /** A detach of a listed descriptor drops one reference, of another one none; the mapping goes in both cases. */
  lemma DetachFdDrops(s: State, fd: nat)
    requires Enabled(s, DetachFd(fd))
    ensures var (k, t) := (s.fds[fd], Apply(s, DetachFd(fd)));
            && t.fds == s.fds - {fd} && t.held == s.held
            && (if Found(s, fd) then Dropped(s, t, k, 1) && t.cells.Keys == s.cells.Keys
                else t.koas == s.koas && t.cache == s.cache && t.cells == s.cells)
            && forall i :: i in s.cells && i != k ==> i in t.cells && t.cells[i] == s.cells[i]
  {
    FoundIsIndexed(s, fd);
  }

  lemma DetachDrops(s: State, id: nat)
    requires Enabled(s, Detach(id))
    ensures var t := Apply(s, Detach(id));
            && Dropped(s, t, id, 0) && t.fds == s.fds && t.held == s.held - multiset{id} && t.cells == s.cells
  {
  }

  // ---------------------------------------------------------------- the manager

  /** txc_koamgr_t: the KOA objects with their cells, the descriptor map and the hash table behind the cache. */
  class KoaManager {
    var koas: map<nat, Koa>
    var cells: map<nat, seq<int>>
    var fds: map<int, nat>
    const hashTable: Table
    ghost var held: multiset<nat>

    ghost predicate Valid()
      reads this, hashTable, hashTable.repr, hashTable.tbl
    {
      hashTable.Valid() && this !in hashTable.repr
    }

    ghost function Abstract(): State
      reads this, hashTable
    {
      State(koas, hashTable.contents, fds, held, cells)
    }

    /** The objects of the pool come with whatever their cells hold. */
    constructor (tableSize: nat, cells: map<nat, seq<int>>)
      requires 0 < tableSize
      ensures Valid() && Abstract() == State(map[], map[], map[], multiset{}, cells) && fresh(hashTable.repr)
    {
      koas, fds, held, this.cells := map[], map[], multiset{}, cells;
      hashTable := new Table(tableSize);
    }

    method LookupInode(inode: nat) returns (koa: Option<nat>)
      requires Valid()
      ensures koa == MapFind(Abstract().cache, Key(inode))
    {
      koa := hashTable.Lookup(Key(inode));
    }

    /** txc_koa_create; the address comes from the pool. */
    method CreateKoa(id: nat, isFile: bool, inode: nat)
      requires Valid() && id !in koas
      modifies this`koas
      ensures Valid() && Abstract() == Create(old(Abstract()), id, isFile, inode)
    {
      koas := koas[id := Koa(isFile, inode, 0, 0)];
    }

    /** The descriptor half of txc_koa_attach_fd: map it and write it behind the listed ones. */
    method ListDescriptor(id: nat, fd: nat)
      requires Valid() && id in koas && id in cells && koas[id].count < |cells[id]|
      modifies this
      ensures Valid() && Abstract() == List(old(Abstract()), id, fd).(fds := old(fds)[fd := id])
    {
      fds := fds[fd := id];
      cells := cells[id := cells[id][koas[id].count := fd]];
      koas := koas[id := koas[id].(count := koas[id].count + 1)];
    }

    /** The search for the descriptor among the listed ones. */
    method FindListed(id: nat, fd: int) returns (index: int)
      requires id in koas && id in cells && koas[id].count <= |cells[id]|
      ensures var i := IndexOf(cells[id], koas[id].count, fd);
              index == if i == koas[id].count then -1 else i
    {
      var n := koas[id].count;
      for i := 0 to n
        invariant forall j :: 0 <= j < i ==> cells[id][j] != fd
      {
        if cells[id][i] == fd {
          return i;
        }
      }
      return -1;
    }

    /** The counting half of txc_koa_attach and txc_koa_attach_fd. */
    method IncRef(id: nat)
      requires Valid() && id in koas
      modifies this`koas, hashTable.repr
      ensures Valid() && fresh(hashTable.repr - old(hashTable.repr))
      ensures Abstract() == Gain(old(Abstract()), id)
    {
      koas := koas[id := koas[id].(refcnt := koas[id].refcnt + 1)];
      var firstAttach := koas[id].refcnt == 1;
      if firstAttach {
        if koas[id].isFile {
          var _ := hashTable.Add(Key(koas[id].inode), id);
        }
      }
    }

    /** The counting half of txc_koa_detach and txc_koa_detach_fd. */
    method DecRef(id: nat)
      requires Valid() && id in koas && koas[id].refcnt > 0
      modifies this`koas, hashTable.repr
      ensures Valid() && fresh(hashTable.repr - old(hashTable.repr))
      ensures Abstract() == Lose(old(Abstract()), id)
    {
      koas := koas[id := koas[id].(refcnt := koas[id].refcnt - 1)];
      var lastDetach := koas[id].refcnt == 0;
      if lastDetach {
        if koas[id].isFile {
          var _ := hashTable.Remove(Key(koas[id].inode));
        }
        koas := koas - {id};
      }
    }

    /** What x_open and x_rename do before they attach. */
    method FindOrCreate(inode: nat, id: nat) returns (koa: nat)
      requires Valid() && Resolvable(Abstract(), inode, id)
      modifies this`koas
      ensures Valid() && (Abstract(), koa) == Resolve(old(Abstract()), inode, id)
    {
      var found := LookupInode(inode);
      if found.Some? {
        return found.value;
      }
      CreateKoa(id, true, inode);
      return id;
    }

    /** x_open: attach a descriptor to the KOA of the inode. */
    method OpenFile(fd: nat, inode: nat, id: nat)
      requires Valid() && Inv(Abstract()) && Enabled(Abstract(), Open(fd, inode, id))
      modifies this, hashTable.repr
      ensures Valid() && fresh(hashTable.repr - old(hashTable.repr))
      ensures Abstract() == Apply(old(Abstract()), Open(fd, inode, id))
      ensures Inv(Abstract()) && FoundOrMade(old(Abstract()), Abstract(), inode, id, 1)
      ensures FdAttached(old(Abstract()), Abstract(), fd, Abstract().cache[Key(inode)])
    {
      OpenAttaches(Abstract(), fd, inode, id);
      ghost var t := Apply(Abstract(), Open(fd, inode, id));
      StepKeepsInvIff(Abstract(), Open(fd, inode, id));
      CachedIsLive(Abstract(), inode);
      var koa := FindOrCreate(inode, id);
      IncRef(koa);
      ListDescriptor(koa, fd);
      assert Abstract() == t;
    }

    /** x_create: attach a descriptor to a new KOA; the cache is not asked. */
    method MakeFileKoa(fd: nat, inode: nat, id: nat)
      requires Valid() && Inv(Abstract()) && Enabled(Abstract(), MakeFile(fd, inode, id))
      modifies this, hashTable.repr
      ensures Valid() && fresh(hashTable.repr - old(hashTable.repr))
      ensures Abstract() == Apply(old(Abstract()), MakeFile(fd, inode, id))
      ensures Inv(Abstract()) <==> Key(inode) !in old(Abstract()).cache
    {
      ghost var t := Apply(Abstract(), MakeFile(fd, inode, id));
      StepKeepsInvIff(Abstract(), MakeFile(fd, inode, id));
      CreateKoa(id, true, inode);
      IncRef(id);
      ListDescriptor(id, fd);
      assert Abstract() == t;
    }

    /** A pipe or a socket. */
    method MakeOtherKoa(fd: nat, id: nat)
      requires Valid() && Inv(Abstract()) && Enabled(Abstract(), MakeOther(fd, id))
      modifies this, hashTable.repr
      ensures Valid() && fresh(hashTable.repr - old(hashTable.repr))
      ensures Abstract() == Apply(old(Abstract()), MakeOther(fd, id))
      ensures Inv(Abstract())
    {
      ghost var t := Apply(Abstract(), MakeOther(fd, id));
      StepKeepsInvIff(Abstract(), MakeOther(fd, id));
      CreateKoa(id, false, 0);
      IncRef(id);
      ListDescriptor(id, fd);
      assert Abstract() == t;
    }

    /** x_rename: attach to the KOA of the inode. */
    method HoldFile(inode: nat, id: nat)
      requires Valid() && Inv(Abstract()) && Enabled(Abstract(), Hold(inode, id))
      modifies this, hashTable.repr
      ensures Valid() && fresh(hashTable.repr - old(hashTable.repr))
      ensures Abstract() == Apply(old(Abstract()), Hold(inode, id))
      ensures Inv(Abstract()) && FoundOrMade(old(Abstract()), Abstract(), inode, id, 0)
      ensures Abstract().held == old(Abstract()).held + multiset{Abstract().cache[Key(inode)]} && fds == old(fds)
    {
      HoldAttaches(Abstract(), inode, id);
      ghost var t := Apply(Abstract(), Hold(inode, id));
      StepKeepsInvIff(Abstract(), Hold(inode, id));
      CachedIsLive(Abstract(), inode);
      var koa := FindOrCreate(inode, id);
      IncRef(koa);
      held := held + multiset{koa};
      assert Abstract() == t;
    }

    /** The cell of the descriptor is filled from the one behind the list. */
    method FillGap(id: nat, index: nat)
      requires Valid() && id in koas && id in cells && index < koas[id].count <= |cells[id]|
      modifies this
      ensures Valid() && Abstract() == Unlist(old(Abstract()), id, index)
    {
      var n := koas[id].count;
      cells := cells[id := cells[id][index := Past(cells[id], n)]];
      koas := koas[id := koas[id].(count := n - 1)];
    }

    /** txc_koa_detach_fd of a mapped descriptor; `found` is false if the KOA does not list it. */
    method DetachDescriptor(fd: nat) returns (found: bool)
      requires Valid() && Enabled(Abstract(), DetachFd(fd))
      modifies this, hashTable.repr
      ensures Valid() && fresh(hashTable.repr - old(hashTable.repr))
      ensures Abstract() == Apply(old(Abstract()), DetachFd(fd))
      ensures found <==> Found(old(Abstract()), fd)
      ensures old(Inv(Abstract())) ==> found && (Inv(Abstract()) <==> KeepsList(old(Abstract()), fd))
    {
      ghost var s := Abstract();
      DetachOutcome(s, fd);
      found := DetachMapped(fd);
      assert Abstract() == Apply(s, DetachFd(fd));
    }

    method DetachMapped(fd: nat) returns (found: bool)
      requires Valid() && Enabled(Abstract(), DetachFd(fd))
      modifies this, hashTable.repr
      ensures Valid() && fresh(hashTable.repr - old(hashTable.repr))
      ensures Abstract() == DetachFdOf(old(Abstract()), fd)
      ensures found <==> Found(old(Abstract()), fd)
    {
      FoundIsIndexed(Abstract(), fd);
      var id := fds[fd];
      fds := fds - {fd};
      var index := FindListed(id, fd);
      if index < 0 {
        return false;
      }
      FillGap(id, index);
      DecRef(id);
      return true;
    }

    /** txc_koa_detach. */
    method DetachKoa(id: nat)
      requires Valid() && Inv(Abstract()) && Enabled(Abstract(), Detach(id))
      modifies this, hashTable.repr
      ensures Valid() && fresh(hashTable.repr - old(hashTable.repr))
      ensures Abstract() == Apply(old(Abstract()), Detach(id))
      ensures Inv(Abstract())
    {
      ghost var t := Apply(Abstract(), Detach(id));
      StepKeepsInvIff(Abstract(), Detach(id));
      DecRef(id);
      held := held - multiset{id};
      assert Abstract() == t;
    }
  }
}
