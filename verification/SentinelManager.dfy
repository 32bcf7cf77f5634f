/**
 The sentinel manager's in-place code (src/core/sentinel.c): the growable sentinel list,
 its bubble sort, the try-acquire, and the release that commit, abort and retry share.
 Every method is tied to the steps of module Sentinels.
 */
module SentinelManager {
  import opened Options
  import opened Sentinels
  import opened SentinelLists

  const TXC_SENTINEL_LIST_SIZE: nat := 32

  // ---------------------------------------------------------------- the canonical order

  /** Insertion seen from the last entry. */
  lemma InsertLast(e: Entry, front: seq<Entry>, last: Entry)
    ensures Insert(e, front + [last]) == if last.id > e.id then Insert(e, front) + [last] else front + [last] + [e]
  {
    assert (front + [last])[..|front|] == front;
  }

  /** The larger of two entries stays behind the last one, wherever the smaller one goes. */
  lemma LargerBehindLast(a: Entry, b: Entry, front: seq<Entry>, last: Entry)
    requires a.id < b.id && last.id <= b.id
    ensures var list := front + [last];
            && Insert(a, Insert(b, list)) == Insert(a, list) + [b]
            && Insert(b, Insert(a, list)) == Insert(a, list) + [b]
  {
    var list := front + [last];
    InsertLast(b, front, last);
    InsertLast(a, list, b);
    InsertLast(a, front, last);
    if last.id > a.id { InsertLast(b, Insert(a, front), last); } else { InsertLast(b, list, a); }
  }

  lemma {:induction false} InsertCommutes(a: Entry, b: Entry, list: seq<Entry>)
    requires a.id != b.id
    ensures Insert(a, Insert(b, list)) == Insert(b, Insert(a, list))
  {
    if list == [] {
      InsertLast(a, [], b);
      InsertLast(b, [], a);
      assert [] + [a] == [a] && [] + [b] == [b];
    } else {
      var front, last := list[..|list| - 1], list[|list| - 1];
      assert list == front + [last];
      if last.id > a.id && last.id > b.id {
        InsertLast(a, front, last);
        InsertLast(b, front, last);
        InsertCommutes(a, b, front);
        InsertLast(a, Insert(b, front), last);
        InsertLast(b, Insert(a, front), last);
      } else if a.id < b.id {
        LargerBehindLast(a, b, front, last);
      } else {
        LargerBehindLast(b, a, front, last);
      }
    }
  }

  lemma SortOfAppended(front: seq<Entry>, e: Entry)
    ensures SortById(front + [e]) == Insert(e, SortById(front))
  {
    assert (front + [e])[..|front|] == front;
  }

  /** Exchanging two neighbours with different ids does not change the canonical order. */
  lemma {:induction false} SwapKeepsSort(list: seq<Entry>, i: nat)
    requires i + 1 < |list| && list[i].id != list[i + 1].id
    ensures SortById(list[i := list[i + 1]][i + 1 := list[i]]) == SortById(list)
  {
    var n := |list| - 1;
    var after := list[i := list[i + 1]][i + 1 := list[i]];
    if i + 1 < n {
      SwapKeepsSort(list[..n], i);
      assert after[..n] == list[..n][i := list[i + 1]][i + 1 := list[i]];
    } else {
      var front, a, b := list[..i], list[i], list[i + 1];
      assert list == front + [a] + [b] && after == front + [b] + [a];
      SortOfAppended(front, a);
      SortOfAppended(front + [a], b);
      SortOfAppended(front, b);
      SortOfAppended(front + [b], a);
      InsertCommutes(a, b, SortById(front));
    }
  }

  lemma {:induction false} SortedIsFixed(list: seq<Entry>)
    requires Sorted(list)
    ensures SortById(list) == list
  {
    if list != [] {
      var n := |list| - 1;
      SortedIsFixed(list[..n]);
      assert list == list[..n] + [list[n]];
    }
  }

  // ---------------------------------------------------------------- the list

  class SentinelList {
    var entries: array<Entry>
    var numEntries: nat

    ghost predicate Valid()
      reads this
    {
      0 < entries.Length && numEntries <= entries.Length
    }

    ghost function Contents(): seq<Entry>
      requires Valid()
      reads this, entries
    {
      entries[..numEntries]
    }

    constructor ()
      ensures Valid() && fresh(entries) && Contents() == []
    {
      entries := new Entry[TXC_SENTINEL_LIST_SIZE];
      numEntries := 0;
    }

    /** enlist_sentinel: append, doubling the array when it is full. */
    method Enlist(id: nat, acquired: bool, retry: bool)
      requires Valid()
      modifies this, entries
      ensures Valid() && (entries == old(entries) || fresh(entries))
      ensures Contents() == old(Contents()) + [Entry(id, acquired, retry)]
    {
      if numEntries == entries.Length {
        var bigger := new Entry[2 * entries.Length];
        forall i | 0 <= i < numEntries {
          bigger[i] := entries[i];
        }
        entries := bigger;
      }
      entries[numEntries] := Entry(id, acquired, retry);
      numEntries := numEntries + 1;
    }

    /** sentinel_list_sort: bubble sort whose bound shrinks by one in every pass. */
    method Sort()
      requires Valid()
      modifies entries
      ensures Contents() == SortById(old(Contents()))
    {
      ghost var goal := SortById(Contents());
      var n: int := numEntries;
      var swapped := true;
      while swapped
        invariant SortById(Contents()) == goal
        invariant n <= numEntries && (swapped ==> 0 <= n)
        invariant 0 <= n ==> Settled(Contents(), n)
        invariant !swapped ==> Sorted(Contents())
        decreases n
      {
        var i;
        swapped, i := Pass(n, goal);
        PassEnds(Contents(), i, n);
        n := n - 1;
      }
      SortedIsFixed(Contents());
    }

    /** One pass of the sort below bound `n`; it brings the largest entry to place n-1. */
    method Pass(n: nat, ghost goal: seq<Entry>) returns (swapped: bool, i: nat)
      requires Valid() && InPass(Contents(), 0, n) && SortById(Contents()) == goal
      modifies entries
      ensures InPass(Contents(), i, n) && n - 1 <= i && SortById(Contents()) == goal
      ensures !swapped ==> SortedTo(Contents(), i)
      ensures swapped ==> 2 <= n
    {
      swapped, i := false, 0;
      while i < n - 1
        invariant SortById(Contents()) == goal
        invariant InPass(Contents(), i, n)
        invariant !swapped ==> SortedTo(Contents(), i)
        invariant swapped ==> 2 <= n
      {
        var exchanged := CompareExchange(i, n, goal);
        swapped, i := swapped || exchanged, i + 1;
      }
    }

    /** The body of the inner loop. */
    method CompareExchange(i: nat, n: nat, ghost goal: seq<Entry>) returns (exchanged: bool)
      requires Valid() && i + 1 < n <= numEntries
      requires InPass(Contents(), i, n) && SortById(Contents()) == goal
      modifies entries
      ensures InPass(Contents(), i + 1, n) && SortById(Contents()) == goal
      ensures !exchanged && SortedTo(old(Contents()), i) ==> SortedTo(Contents(), i + 1)
    {
      ghost var before := Contents();
      exchanged := entries[i].id > entries[i + 1].id;
      if exchanged {
        SwapKeepsSort(before, i);
        SwapSettles(before, i, n);
        entries[i], entries[i + 1] := entries[i + 1], entries[i];
        assert Contents() == before[i := before[i + 1]][i + 1 := before[i]];
      }
    }

    /** txc_sentinel_list_init. */
    method Reset()
      requires Valid()
      modifies this`numEntries
      ensures Valid() && Contents() == []
    {
      numEntries := 0;
    }
  }

  /** From place `n` on every entry is at least as large as all the entries before it. */
  ghost predicate Settled(list: seq<Entry>, n: nat) {
    forall j, k :: 0 <= j < k < |list| && n <= k ==> list[j].id <= list[k].id
  }

  ghost predicate SortedTo(list: seq<Entry>, i: nat) {
    forall j, k :: 0 <= j < k <= i && k < |list| ==> list[j].id <= list[k].id
  }

  /** A pass has reached place `i`: it carries the largest id of the places up to `i`. */
  ghost predicate InPass(list: seq<Entry>, i: nat, n: nat) {
    && n <= |list| && Settled(list, n) && (i < n || n == 0 == i)
    && forall j :: 0 <= j < i < |list| ==> list[j].id <= list[i].id
  }

  /** An exchange moves the largest entry one place up and leaves the settled places alone. */
  lemma SwapSettles(list: seq<Entry>, i: nat, n: nat)
    requires i + 1 < n && InPass(list, i, n) && list[i].id > list[i + 1].id
    ensures InPass(list[i := list[i + 1]][i + 1 := list[i]], i + 1, n)
  {
    var after := list[i := list[i + 1]][i + 1 := list[i]];
    forall j, k | 0 <= j < k < |after| && n <= k ensures after[j].id <= after[k].id {
      assert after[k] == list[k];
      assert list[i].id <= list[k].id && list[i + 1].id <= list[k].id && list[j].id <= list[k].id;
    }
  }

  lemma PassEnds(list: seq<Entry>, i: nat, n: nat)
    requires InPass(list, i, n) && n - 1 <= i
    ensures 0 < n ==> Settled(list, n - 1)
    ensures SortedTo(list, i) ==> Sorted(list)
  {
  }

  // ---------------------------------------------------------------- releasing a list

  /** The pool after the first `i` entries of the list have been released. */
  function ReleaseAll(sents: seq<Sentinel>, list: seq<Entry>, completing: bool, i: nat): (r: seq<Sentinel>)
    requires i <= |list| && forall j :: 0 <= j < |list| ==> list[j].id < |sents|
    ensures |r| == |sents|
  {
    if i == 0 then sents
    else
      var r := ReleaseAll(sents, list, completing, i - 1);
      r[list[i - 1].id := ReleaseEntry(r[list[i - 1].id], list[i - 1], completing)]
  }

  /** sentinel_list_release. */
  method ListRelease(sents: array<Sentinel>, list: SentinelList, completing: bool)
    requires list.Valid() && forall j :: 0 <= j < list.numEntries ==> list.entries[j].id < sents.Length
    modifies sents
    ensures sents[..] == ReleaseAll(old(sents[..]), list.Contents(), completing, |list.Contents()|)
  {
    for i := 0 to list.numEntries
      invariant sents[..] == ReleaseAll(old(sents[..]), list.Contents(), completing, i)
    {
      var entry := list.entries[i];
      if entry.acquired {
        sents[entry.id] := sents[entry.id].(owner := None);
        sents[entry.id] := sents[entry.id].(mutex := None);
      }
      if completing {
        sents[entry.id] := sents[entry.id].(refcnt := sents[entry.id].refcnt - 1);
      } else if !entry.retry {
        sents[entry.id] := sents[entry.id].(refcnt := sents[entry.id].refcnt - 1);
      }
    }
  }

  /** What the release of a list without duplicates leaves of each sentinel. */
  lemma {:induction false} ReleasedAt(sents: seq<Sentinel>, list: seq<Entry>, completing: bool, i: nat, id: nat)
    requires i <= |list| && Distinct(list) && id < |sents|
    requires forall j :: 0 <= j < |list| ==> list[j].id < |sents|
    ensures forall j :: 0 <= j < i && list[j].id == id ==>
              var s := ReleaseAll(sents, list, completing, i)[id];
              && s.koa == sents[id].koa
              && s.refcnt == (if completing || !list[j].retry then sents[id].refcnt - 1 else sents[id].refcnt)
              && (if list[j].acquired then s.mutex.None? && s.owner.None?
                  else s.mutex == sents[id].mutex && s.owner == sents[id].owner)
    ensures (forall j :: 0 <= j < i ==> list[j].id != id) ==> ReleaseAll(sents, list, completing, i)[id] == sents[id]
  {
    if i > 0 { ReleasedAt(sents, list, completing, i - 1, id); }
  }

  // ---------------------------------------------------------------- the descriptor

  class Descriptor {
    const tid: nat
    const list: SentinelList
    const preacquire: SentinelList
    var undoRegistered: bool
    var commitRegistered: bool

    ghost predicate Valid()
      reads this, list, preacquire
    {
      list.Valid() && preacquire.Valid() && list != preacquire && list.entries != preacquire.entries
    }

    /** The descriptor as module Sentinels sees it; the phase is the place in the code. */
    ghost function View(phase: Phase): Desc
      requires Valid()
      reads this, list, preacquire, list.entries, preacquire.entries
    {
      Desc(phase, list.Contents(), preacquire.Contents(), undoRegistered, commitRegistered)
    }

    constructor (tid: nat)
      ensures Valid() && fresh(list) && fresh(preacquire) && fresh(list.entries) && fresh(preacquire.entries)
      ensures this.tid == tid && View(Idle) == Desc(Idle, [], [], false, false)
    {
      this.tid := tid;
      list := new SentinelList();
      preacquire := new SentinelList();
      undoRegistered, commitRegistered := false, false;
    }

    /** What a try-acquire of a sentinel leaves that the caller did not own. */
    ghost predicate Enlisted(before: Sentinel, after: Sentinel, log: seq<Entry>, id: nat, retry: bool, busy: bool)
      requires Valid()
      reads this, list, preacquire, list.entries
    {
      && (busy <==> before.mutex.Some?)
      && list.Contents() == log + [Entry(id, !busy, retry)] && undoRegistered && commitRegistered
      && after.refcnt == before.refcnt + 1 && after.koa == before.koa
      && (if busy then after.mutex == before.mutex && after.owner == before.owner
          else after.mutex == after.owner == Some(tid))
    }

    /**
     txc_sentinel_tryacquire in a retryable transaction. Failed attempts of the spin loop
     change nothing; `sents` is the pool at the last attempt.
     */
    method TryAcquire(sents: array<Sentinel>, id: nat, retry: bool) returns (busy: bool)
      requires Valid() && Enabled(tid, TryLock(id, retry), View(Running), sents[..])
      modifies this, list, list.entries, sents
      ensures Valid() && preacquire.Contents() == old(preacquire.Contents())
      ensures busy <==> old(sents[id].owner) != Some(tid) && old(sents[id].mutex).Some?
      ensures old(sents[id].owner) != Some(tid) ==>
                Enlisted(old(sents[id]), sents[id], old(list.Contents()), id, retry, busy)
      ensures forall k :: 0 <= k < sents.Length && k != id ==> sents[k] == old(sents[k])
      ensures old(sents[id].owner) == Some(tid) ==>
                !busy && View(Running) == old(View(Running)) && sents[..] == old(sents[..])
      ensures old(sents[id].owner) != Some(tid) ==>
                var act := TryLock(id, retry);
                var (desc0, sents0) := (old(View(Running)), old(sents[..]));
                var desc1 := NextDesc(tid, act, desc0, sents0);
                var sents1 := sents0[id := NextSentinel(tid, act, desc0, sents0)];
                var desc2 := NextDesc(tid, Enlist, desc1, sents1);
                && View(desc2.phase) == desc2
                && sents[..] == sents1[id := NextSentinel(tid, Enlist, desc1, sents1)]
                && desc2.phase == if busy then Compensating(Abort(BusySentinel)) else Running
    {
      busy := false;
      if sents[id].owner != Some(tid) {
        undoRegistered := true;
        commitRegistered := true;
        if sents[id].mutex == None {
          sents[id] := sents[id].(mutex := Some(tid));
          sents[id] := sents[id].(refcnt := sents[id].refcnt + 1);
          sents[id] := sents[id].(owner := Some(tid));
          list.Enlist(id, true, retry);
        } else {
          sents[id] := sents[id].(refcnt := sents[id].refcnt + 1);
          list.Enlist(id, false, retry);
          busy := true;
        }
      }
    }

    /** sentinelmgr_transaction_on_complete. */
    method OnComplete(sents: array<Sentinel>)
      requires Valid() && Below(list.Contents(), sents.Length)
      modifies this, list, sents
      ensures Valid() && View(Idle) == Desc(Idle, [], old(preacquire.Contents()), false, false)
      ensures sents[..] == ReleaseAll(old(sents[..]), old(list.Contents()), true, |old(list.Contents())|)
    {
      ListRelease(sents, list, true);
      list.Reset();
      undoRegistered := false;
      commitRegistered := false;
    }

    /** What is to be acquired again, in the canonical order. */
    method Remember()
      requires Valid()
      modifies preacquire, preacquire.entries
      ensures Valid() && list.Contents() == old(list.Contents())
      ensures preacquire.Contents() == SortById(Retained(list.Contents()))
    {
      preacquire.Reset();
      assert list.Contents()[..0] == [];
      for i := 0 to list.numEntries
        invariant Valid() && list.Contents() == old(list.Contents())
        invariant preacquire.entries == old(preacquire.entries) || fresh(preacquire.entries)
        invariant preacquire.Contents() == Retained(list.Contents()[..i])
      {
        var entry := list.entries[i];
        assert list.Contents()[..i + 1][..i] == list.Contents()[..i];
        if entry.retry {
          preacquire.Enlist(entry.id, false, false);
        }
      }
      assert list.Contents()[..list.numEntries] == list.Contents();
      preacquire.Sort();
    }

    /** sentinelmgr_transaction_before_retry up to the backoff before the blocking acquisition. */
    method BeforeRetry(sents: array<Sentinel>)
      requires Valid() && Below(list.Contents(), sents.Length)
      modifies this, list, preacquire, preacquire.entries, sents
      ensures Valid()
      ensures View(Acquiring(0)) == Desc(Acquiring(0), [], SortById(Retained(old(list.Contents()))), false, false)
      ensures sents[..] == ReleaseAll(old(sents[..]), old(list.Contents()), false, |old(list.Contents())|)
    {
      Remember();
      ListRelease(sents, list, false);
      list.Reset();
      undoRegistered := false;
      commitRegistered := false;
    }
  }

  // ---------------------------------------------------------------- loops and steps agree

  /** The release steps of descriptor `d`, as many as its list is long, then the end of the phase. */
  function ReleaseRun(d: nat, k: nat): seq<Step> {
    if k == 0 then [TxStep(d, Released)] else [TxStep(d, Release)] + ReleaseRun(d, k - 1)
  }

  /** One release step, in terms of the rest of the list. */
  lemma ReleaseStepIs(st: State, d: nat)
    requires CanStep(st, TxStep(d, Release))
    ensures var desc := st.descs[d];
            var i, e := desc.phase.next, desc.list[desc.phase.next];
            Next(st, TxStep(d, Release)) ==
            State(st.sents[e.id := ReleaseEntry(st.sents[e.id], e, Completes(desc.phase.how))],
                  st.descs[d := desc.(phase := Releasing(desc.phase.how, i + 1))])
  {
  }

  /** What a descriptor is left with when its list has been released. */
  function AfterRelease(desc: Desc): Desc
    requires desc.phase.Releasing?
  {
    Desc(if Completes(desc.phase.how) then Idle else Acquiring(0), [], desc.preacquire, false, false)
  }

  lemma ReleaseRunFirst(d: nat, k: nat)
    requires k > 0
    ensures ReleaseRun(d, k)[0] == TxStep(d, Release) && ReleaseRun(d, k)[1..] == ReleaseRun(d, k - 1)
  {
  }

  lemma {:induction false} ReleaseRunFrom(st: State, d: nat, rest: seq<Entry>, completing: bool, run: seq<Step>,
                                          done: Desc, end: State)
    requires d < |st.descs| && st.descs[d].phase.Releasing? && st.descs[d].phase.next <= |st.descs[d].list|
    requires rest == st.descs[d].list[st.descs[d].phase.next..] && done == AfterRelease(st.descs[d])
    requires completing == Completes(st.descs[d].phase.how) && run == ReleaseRun(d, |rest|)
    requires forall j :: 0 <= j < |rest| ==> rest[j].id < |st.sents|
    requires end == State(ReleaseAll(st.sents, rest, completing, |rest|), st.descs[d := done])
    ensures Legal(st, run) && Final(st, run) == end
    decreases |rest|
  {
    if rest != [] {
      var st' := Next(st, TxStep(d, Release));
      ReleaseStepIs(st, d);
      ReleaseFirst(st.sents, rest, completing, |rest|);
      ReleaseRunFirst(d, |rest|);
      assert st'.descs[d].list[st'.descs[d].phase.next..] == rest[1..];
      assert st'.descs[d := done] == st.descs[d := done];
      ReleaseRunFrom(st', d, rest[1..], completing, run[1..], done, end);
    } else {
      assert Next(st, TxStep(d, Released)) == end && run[1..] == [];
    }
  }

  /** Run without interference, the release steps do to the pool what the loop does. */
  lemma ReleaseRunIsLoop(st: State, d: nat, k: nat)
    requires d < |st.descs| && st.descs[d].phase.Releasing? && st.descs[d].phase.next + k == |st.descs[d].list|
    requires forall j :: 0 <= j < |st.descs[d].list| ==> st.descs[d].list[j].id < |st.sents|
    ensures var desc := st.descs[d];
            && Legal(st, ReleaseRun(d, k))
            && Final(st, ReleaseRun(d, k)) ==
                 State(ReleaseAll(st.sents, desc.list[desc.phase.next..], Completes(desc.phase.how), k),
                       st.descs[d := AfterRelease(desc)])
  {
    var desc := st.descs[d];
    var rest, done := desc.list[desc.phase.next..], AfterRelease(desc);
    ReleaseRunFrom(st, d, rest, Completes(desc.phase.how), ReleaseRun(d, k), done,
                   State(ReleaseAll(st.sents, rest, Completes(desc.phase.how), k), st.descs[d := done]));
  }

  /** Releasing a list is releasing its first entry and then the others. */
  lemma {:induction false} ReleaseFirst(sents: seq<Sentinel>, list: seq<Entry>, completing: bool, i: nat)
    requires 0 < i <= |list| && forall j :: 0 <= j < |list| ==> list[j].id < |sents|
    ensures ReleaseAll(sents, list, completing, i) ==
            ReleaseAll(sents[list[0].id := ReleaseEntry(sents[list[0].id], list[0], completing)],
                       list[1..], completing, i - 1)
  {
    if i > 1 { ReleaseFirst(sents, list, completing, i - 1); }
  }
}
