/**
 What the steps of the sentinel protocol achieve: who wins a try-lock, what it leaves in list
 and pool, where an instance ends, and what a restarted body owns.
 */
module SentinelOutcomes {
  import opened Options
  import opened Sentinels
  import opened SentinelLists
  import opened SentinelInvariant

  /** Between the two states only descriptor `d` and sentinel `id` may differ. */
  ghost predicate OnlyTouches(before: State, after: State, d: nat, id: nat) {
    && |after.sents| == |before.sents| && |after.descs| == |before.descs|
    && (forall k: nat :: k < |before.sents| && k != id ==> after.sents[k] == before.sents[k])
    && (forall e: nat :: e < |before.descs| && e != d ==> after.descs[e] == before.descs[e])
  }

  /**
   txc_sentinel_tryacquire, both of its steps: it is refused exactly if somebody is inside the
   mutex, and either way the sentinel is enlisted with one more reference.
   */
  lemma TryLockOutcome(st: State, d: nat, id: nat, retry: bool)
    requires CanStep(st, TxStep(d, TryLock(id, retry))) && st.sents[id].owner != Some(d)
    ensures var st1 := Next(st, TxStep(d, TryLock(id, retry)));
            && CanStep(st1, TxStep(d, Enlist))
            && var st2 := Next(st1, TxStep(d, Enlist));
               var (s, s1, s2) := (st.sents[id], st1.sents[id], st2.sents[id]);
               var busy := s.mutex.Some?;
               && OnlyTouches(st, st1, d, id) && OnlyTouches(st, st2, d, id)
               && s1 == (if busy then s else s.(mutex := Some(d)))
               && s2.refcnt == s.refcnt + 1 && s2.koa == s.koa
               && (if busy then s2.mutex == s.mutex && s2.owner == s.owner
                   else s2.mutex == s2.owner == Some(d))
               && st2.descs[d] == Desc(if busy then Compensating(Abort(BusySentinel)) else Running,
                                       st.descs[d].list + [Entry(id, !busy, retry)], st.descs[d].preacquire, true, true)
  {
  }

  /** A sentinel the caller owns already is not touched. */
  lemma TryLockOfOwned(st: State, d: nat, id: nat, retry: bool)
    requires CanStep(st, TxStep(d, TryLock(id, retry))) && st.sents[id].owner == Some(d)
    ensures Next(st, TxStep(d, TryLock(id, retry))) == st
  {
  }

  /** A sentinel from the pool gets its object's reference and is free to be locked. */
  lemma CreateOutcome(st: State, id: nat)
    requires Inv(st) && CanStep(st, CreateKoa(id))
    ensures var st1 := Next(st, CreateKoa(id));
            && OnlyTouches(st, st1, |st.descs|, id) && st1.sents[id] == Sentinel(true, 1, None, None)
            && forall d: nat, retry: bool :: d < |st.descs| && st.descs[d].phase.Running? ==>
                 CanStep(st1, TxStep(d, TryLock(id, retry)))
  {
    assert SentOk(st, id);
    RecordedAgrees(st, id);
    NamersZero(st.descs, id);
    forall d: nat | d < |st.descs| ensures !Holds(st.descs[d], id) {
      UnnamedIsUnowned(st.descs[d], id);
      assert Agrees(st.sents[id], id, d, st.descs[d]);
      assert !Names(st.descs[d], id) && !Pending(st.descs[d], id);
    }
  }

  /** The object's reference is dropped; the sentinel can be used again at once if and only if nobody names it. */
  lemma DetachOutcome(st: State, id: nat)
    requires Inv(st) && CanStep(st, DetachKoa(id))
    ensures var (s, st1) := (st.sents[id], Next(st, DetachKoa(id)));
            && OnlyTouches(st, st1, |st.descs|, id)
            && st1.sents[id] == Sentinel(false, s.refcnt - 1, s.mutex, s.owner)
            && (CanStep(st1, CreateKoa(id)) <==> forall d :: 0 <= d < |st.descs| ==> !Names(st.descs[d], id))
  {
    assert SentOk(st, id);
    NamersZero(st.descs, id);
  }

  /** A transaction that touches no sentinel has nothing to release, however it ends. */
  lemma UntouchedTransaction(st: State, d: nat, how: Ending)
    requires Inv(st) && CanStep(st, TxStep(d, Begin))
    ensures var st1 := Next(st, TxStep(d, Begin));
            && st1 == st.(descs := st.descs[d := Desc(Running, [], st.descs[d].preacquire, false, false)])
            && CanStep(st1, TxStep(d, End(how)))
            && var st2 := Next(st1, TxStep(d, End(how)));
               CanStep(st2, TxStep(d, Compensated))
               && Next(st2, TxStep(d, Compensated)) ==
                  st1.(descs := st1.descs[d := st1.descs[d].(phase := if how == Commit || how == Abort(UserAbort)
                                                                      then Idle else Restarting)])
  {
    assert DescOk(st.descs[d], |st.sents|);
  }

  /**
   The passage to level 2 of a registered instance: the release begins, and an instance that is
   to run again remembers what its try-locks have marked, in the order of the ids.
   */
  lemma CompensatedOutcome(st: State, d: nat)
    requires Inv(st) && CanStep(st, TxStep(d, Compensated))
    requires st.descs[d].undoRegistered && st.descs[d].commitRegistered
    ensures var (desc, st1) := (st.descs[d], Next(st, TxStep(d, Compensated)));
            var pre := st1.descs[d].preacquire;
            && st1.sents == st.sents && OnlyTouches(st, st1, d, |st.sents|)
            && st1.descs[d] == desc.(phase := Releasing(desc.phase.how, 0), preacquire := pre)
            && (if desc.phase.how == Commit || desc.phase.how == Abort(UserAbort) then pre == desc.preacquire
                else StrictlySorted(pre) && forall id: nat :: Has(pre, id) <==> HasRetry(desc.list, id))
  {
    assert DescOk(st.descs[d], |st.sents|);
    PreacquireIs(st.descs[d].list);
  }

  /** One entry is released: lock and owner if it was won, the reference unless it is carried over. */
  lemma ReleaseOutcome(st: State, d: nat)
    requires CanStep(st, TxStep(d, Release))
    ensures var (desc, st1) := (st.descs[d], Next(st, TxStep(d, Release)));
            var e := desc.list[desc.phase.next];
            var (s, s1) := (st.sents[e.id], st1.sents[e.id]);
            var ends := desc.phase.how == Commit || desc.phase.how == Abort(UserAbort);
            && OnlyTouches(st, st1, d, e.id) && s1.koa == s.koa
            && s1.refcnt == s.refcnt - (if ends || !e.retry then 1 else 0)
            && (if e.acquired then s1.mutex.None? && s1.owner.None? else s1.mutex == s.mutex && s1.owner == s.owner)
            && st1.descs[d] == desc.(phase := Releasing(desc.phase.how, desc.phase.next + 1))
  {
  }

  /** When everything is released, only a commit and a user abort end the transaction. */
  lemma EndsOrRestarts(st: State, d: nat)
    requires CanStep(st, TxStep(d, Released))
    ensures var (desc, st1) := (st.descs[d], Next(st, TxStep(d, Released)));
            && st1.sents == st.sents && OnlyTouches(st, st1, d, |st.sents|)
            && st1.descs[d] == Desc(if desc.phase.how == Commit || desc.phase.how == Abort(UserAbort)
                                    then Idle else Acquiring(0), [], desc.preacquire, false, false)
  {
  }

  /** One more remembered sentinel is locked and owned, with the reference that was carried over. */
  lemma AcquireOutcome(st: State, d: nat)
    requires CanStep(st, TxStep(d, Acquire))
    ensures var desc := st.descs[d];
            var i, id := desc.phase.next, desc.preacquire[desc.phase.next].id;
            var st1 := Next(st, TxStep(d, Acquire));
            && OnlyTouches(st, st1, d, id)
            && st1.sents[id] == Sentinel(st.sents[id].koa, st.sents[id].refcnt, Some(d), Some(d))
            && st1.descs[d] == desc.(phase := Acquiring(i + 1), list := desc.list + [Entry(id, true, true)])
  {
  }

  /** With everything acquired the body starts again, registered exactly if it owns something. */
  lemma RestartOutcome(st: State, d: nat)
    requires CanStep(st, TxStep(d, Acquired))
    ensures var (desc, st1) := (st.descs[d], Next(st, TxStep(d, Acquired)));
            && st1 == st.(descs := st.descs[d := desc.(phase := Restarting)])
            && CanStep(st1, TxStep(d, Restart))
            && var owns := desc.list != [];
               Next(st1, TxStep(d, Restart)) ==
               st.(descs := st.descs[d := Desc(Running, desc.list, desc.preacquire, owns, owns)])
  {
  }

  // ---------------------------------------------------------------- what a restarted body owns

  /** On its way to a restart the descriptor remembers what `list` has marked. */
  ghost predicate Remembers(desc: Desc, list: seq<Entry>) {
    var marked := SortById(Retained(list));
    match desc.phase
    case Compensating(how) => !Completes(how) && desc.undoRegistered && desc.list == list
    case Releasing(how, _) => !Completes(how) && desc.preacquire == marked
    case Acquiring(_) => desc.preacquire == marked
    case Restarting =>
      |desc.list| == |marked| && forall j :: 0 <= j < |marked| ==> desc.list[j] == Entry(marked[j].id, true, true)
    case _ => false
  }

  lemma StepRemembers(st: State, step: Step, d: nat, list: seq<Entry>)
    requires Inv(st) && CanStep(st, step) && d < |st.descs| && Remembers(st.descs[d], list)
    requires step != TxStep(d, Restart)
    ensures Remembers(Next(st, step).descs[d], list)
  {
    assert DescOk(st.descs[d], |st.sents|);
  }

  lemma {:induction false} RunRemembers(st: State, run: seq<Step>, d: nat, list: seq<Entry>)
    requires Inv(st) && Legal(st, run) && d < |st.descs| && Remembers(st.descs[d], list)
    requires TxStep(d, Restart) !in run
    ensures d < |Final(st, run).descs| && Remembers(Final(st, run).descs[d], list)
    decreases |run|
  {
    if run != [] {
      assert run[0] in run && forall s :: s in run[1..] ==> s in run;
      StepRemembers(st, run[0], d, list);
      StepKeepsInv(st, run[0]);
      RunRemembers(Next(st, run[0]), run[1..], d, list);
    }
  }

  lemma OwnsMarked(desc: Desc, list: seq<Entry>, id: nat)
    requires desc.phase.Restarting? && Remembers(desc, list) && Distinct(list)
    ensures Owns(desc, id) <==> HasRetry(list, id)
  {
    var marked := SortById(Retained(list));
    PreacquireIs(list);
    assert Has(marked, id) <==> HasRetry(list, id);
    if e :| e in desc.list && e.id == id && e.acquired {
      var j :| 0 <= j < |desc.list| && desc.list[j] == e;
      assert marked[j] in marked;
    }
    if e :| e in marked && e.id == id {
      var j :| 0 <= j < |marked| && marked[j] == e;
      assert desc.list[j] in desc.list;
    }
  }

  /**
   An aborted instance that is to run again comes, whatever the others do, to its restart with
   exactly those sentinels that its try-locks have marked, won or lost, and is inside their
   mutexes.
   */
  lemma RestartOwnsMarked(st: State, run: seq<Step>, d: nat, id: nat)
    requires Inv(st) && Legal(st, run) && d < |st.descs| && TxStep(d, Restart) !in run
    requires st.descs[d].phase.Compensating? && st.descs[d].undoRegistered && !Completes(st.descs[d].phase.how)
    requires d < |Final(st, run).descs| && Final(st, run).descs[d].phase.Restarting?
    ensures var fin := Final(st, run);
            && (Owns(fin.descs[d], id) <==> HasRetry(st.descs[d].list, id))
            && (id < |fin.sents| && Owns(fin.descs[d], id) ==>
                  fin.sents[id].owner == Some(d) && fin.sents[id].mutex == Some(d))
  {
    var list := st.descs[d].list;
    assert DescOk(st.descs[d], |st.sents|);
    RunRemembers(st, run, d, list);
    RunKeepsInv(st, run);
    var fin := Final(st, run);
    OwnsMarked(fin.descs[d], list, id);
    if id < |fin.sents| { assert SentOk(fin, id) && Agrees(fin.sents[id], id, d, fin.descs[d]); }
  }
}
