/** What the sentinel protocol guarantees in every reachable state and over every run. */
module SentinelTheorems {
  import opened Options
  import opened Sentinels
  import opened SentinelLists
  import opened SentinelInvariant

  // ---------------------------------------------------------------- exclusion and references

  /** A sentinel has at most one owner, and the owner is the one inside its mutex. */
  lemma MutualExclusion(st: State, id: nat, d: nat, e: nat)
    requires Inv(st) && id < |st.sents| && d < |st.descs| && e < |st.descs|
    ensures Owns(st.descs[d], id) ==> st.sents[id].owner == Some(d) && st.sents[id].mutex == Some(d)
    ensures Holds(st.descs[d], id) && Holds(st.descs[e], id) ==> d == e
  {
    assert SentOk(st, id);
  }

  /** In every reachable state the reference count is exact. */
  lemma RefcountExact(n: nat, m: nat, run: seq<Step>, id: nat)
    requires Legal(Init(n, m), run) && id < |Final(Init(n, m), run).sents|
    ensures var st := Final(Init(n, m), run);
            st.sents[id].refcnt == Bit(st.sents[id].koa) + Namers(st.descs, id)
  {
    ReachableInv(n, m, run);
    assert SentOk(Final(Init(n, m), run), id);
  }

  /** A sentinel is back in the pool exactly when no object and no descriptor refers to it. */
  lemma InPoolIffUnreferenced(st: State, id: nat)
    requires Inv(st) && id < |st.sents|
    ensures st.sents[id].refcnt == 0 <==>
            !st.sents[id].koa && forall d :: 0 <= d < |st.descs| ==> !Names(st.descs[d], id)
    ensures st.sents[id].refcnt == 0 ==> st.sents[id].owner.None? && st.sents[id].mutex.None?
                                         && forall d :: 0 <= d < |st.descs| ==> !Owns(st.descs[d], id)
    ensures 0 <= st.sents[id].refcnt
  {
    assert SentOk(st, id);
    RecordedAgrees(st, id);
    NamersZero(st.descs, id);
    forall d: nat | d < |st.descs| ensures Owns(st.descs[d], id) ==> Names(st.descs[d], id) {
      UnnamedIsUnowned(st.descs[d], id);
    }
  }

  /** A remembered sentinel is never recycled between the rollback and its re-acquisition. */
  lemma CarriedReferenceKeepsSentinel(st: State, d: nat, k: nat)
    requires Inv(st) && d < |st.descs|
    requires st.descs[d].phase.Acquiring? && st.descs[d].phase.next <= k < |st.descs[d].preacquire|
    ensures st.descs[d].preacquire[k].id < |st.sents|
    ensures st.sents[st.descs[d].preacquire[k].id].refcnt > 0
    ensures !CanStep(st, CreateKoa(st.descs[d].preacquire[k].id))
  {
    var desc := st.descs[d];
    assert DescOk(desc, |st.sents|);
    var e := desc.preacquire[k];
    assert e in desc.preacquire;
    assert desc.preacquire[desc.phase.next..][k - desc.phase.next] == e;
    assert e in desc.preacquire[desc.phase.next..];
    assert Names(desc, e.id);
    InPoolIffUnreferenced(st, e.id);
  }

  /** Outside a transaction a descriptor owns, holds and references nothing: no leak. */
  lemma IdleHoldsNothing(n: nat, m: nat, run: seq<Step>, d: nat, id: nat)
    requires Legal(Init(n, m), run) && d < |Final(Init(n, m), run).descs|
    requires Final(Init(n, m), run).descs[d].phase.Idle?
    ensures var desc := Final(Init(n, m), run).descs[d];
            desc.list == [] && !Names(desc, id) && !Holds(desc, id)
  {
    ReachableInv(n, m, run);
    var st := Final(Init(n, m), run);
    assert DescOk(st.descs[d], |st.sents|);
  }

  /**
   A body that starts with preacquired sentinels has both manager actions registered, so a
   commit, or an abort the failure manager raises at once, releases them.
   */
  lemma PreacquiredAreReleased(st: State, d: nat, how: Ending)
    requires Inv(st) && CanStep(st, TxStep(d, Restart))
    ensures var st1 := Next(st, TxStep(d, Restart));
            && st1.descs[d].list == st.descs[d].list
            && CanStep(st1, TxStep(d, End(how)))
            && var st2 := Next(st1, TxStep(d, End(how)));
               && CanStep(st2, TxStep(d, Compensated))
               && var desc := Next(st2, TxStep(d, Compensated)).descs[d];
                  if desc.list != [] then desc.phase == Releasing(how, 0)
                  else desc.phase == if Completes(how) then Idle else Restarting
  {
  }

  /**
   Detaching on a retry from an entry that will be re-acquired (the quick fix suggested in
   the comment at sentinel.c:496) would break the reference count.
   */
  lemma DetachOnRetryBreaksCount(st: State, d: nat, how: Ending)
    requires Inv(st) && CanStep(st, TxStep(d, Release)) && st.descs[d].phase.how == how && !Completes(how)
    requires st.descs[d].list[st.descs[d].phase.next].retry
    ensures var e := st.descs[d].list[st.descs[d].phase.next];
            var st' := Next(st, TxStep(d, Release));
            !Inv(st'.(sents := st'.sents[e.id := ReleaseEntry(st.sents[e.id], e, true)]))
  {
    var e := st.descs[d].list[st.descs[d].phase.next];
    var st' := Next(st, TxStep(d, Release));
    StepKeepsInv(st, TxStep(d, Release));
    assert SentOk(st', e.id);
    var bad := st'.(sents := st'.sents[e.id := ReleaseEntry(st.sents[e.id], e, true)]);
    assert bad.sents[e.id].refcnt == st'.sents[e.id].refcnt - 1;
    assert !SentOk(bad, e.id);
  }

  // ---------------------------------------------------------------- two-phase isolation

  /** The body or its compensation (levels 0 and 1) is still running. */
  predicate Active(desc: Desc) {
    desc.phase.Running? || desc.phase.Locked? || desc.phase.Refused? || desc.phase.Compensating?
  }

  /** Descriptor `d` does not pass from level 1 to level 2 in this run. */
  predicate NotCompensated(run: seq<Step>, d: nat) {
    TxStep(d, Compensated) !in run
  }

  lemma StepKeepsOwner(st: State, step: Step, d: nat, id: nat)
    requires Inv(st) && CanStep(st, step) && d < |st.descs| && id < |st.sents|
    requires Active(st.descs[d]) && Owns(st.descs[d], id) && step != TxStep(d, Compensated)
    ensures Active(Next(st, step).descs[d]) && Owns(Next(st, step).descs[d], id)
  {
    if step.TxStep? && step.d == d && step.act == Enlist {
      var desc := st.descs[d];
      HasAppended(desc.list, Entry(desc.phase.id, desc.phase.Locked?, desc.phase.retry));
    }
  }

  /**
   From acquisition until every level 0 and 1 action of the instance has run, the sentinel
   stays with its owner, whatever the other descriptors do.
   */
  lemma {:induction false} IsolatedThroughCompensation(st: State, run: seq<Step>, d: nat, id: nat)
    requires Inv(st) && Legal(st, run) && d < |st.descs| && id < |st.sents|
    requires Active(st.descs[d]) && Owns(st.descs[d], id) && NotCompensated(run, d)
    ensures var fin := Final(st, run);
            && |fin.descs| == |st.descs| && |fin.sents| == |st.sents|
            && Active(fin.descs[d]) && Owns(fin.descs[d], id)
            && fin.sents[id].owner == Some(d) && fin.sents[id].mutex == Some(d)
            && forall e: nat :: e < |fin.descs| && e != d ==> !Holds(fin.descs[e], id)
    decreases |run|
  {
    if run == [] {
      assert SentOk(st, id);
    } else {
      assert run[0] in run && forall s :: s in run[1..] ==> s in run;
      StepKeepsOwner(st, run[0], d, id);
      StepKeepsInv(st, run[0]);
      IsolatedThroughCompensation(Next(st, run[0]), run[1..], d, id);
    }
  }

  // ---------------------------------------------------------------- waiting

  /** The descriptor is at the blocking lock of sentinel_list_acquire. */
  predicate Waiting(desc: Desc) {
    desc.phase.Acquiring? && desc.phase.next < |desc.preacquire|
  }

  function Wanted(desc: Desc): nat
    requires Waiting(desc)
  {
    desc.preacquire[desc.phase.next].id
  }

  /** `d` is blocked on a sentinel that `e` has locked. */
  ghost predicate WaitsFor(st: State, d: nat, e: nat) {
    && d < |st.descs| && e < |st.descs| && Waiting(st.descs[d])
    && Wanted(st.descs[d]) < |st.sents| && st.sents[Wanted(st.descs[d])].mutex == Some(e)
  }

  /** A blocked descriptor owns exactly the strictly smaller prefix of its canonical list. */
  lemma BlockedOwnsPrefix(st: State, d: nat, id: nat)
    requires Inv(st) && d < |st.descs| && Waiting(st.descs[d])
    ensures var desc := st.descs[d];
            && StrictlySorted(desc.preacquire)
            && (Holds(desc, id) <==> Has(desc.preacquire[..desc.phase.next], id))
            && (Holds(desc, id) ==> id < Wanted(desc))
  {
    var desc := st.descs[d];
    var i := desc.phase.next;
    assert DescOk(desc, |st.sents|);
    if e :| e in desc.list && e.id == id && e.acquired {
      var j :| 0 <= j < i && desc.list[j] == e;
      assert desc.preacquire[..i][j].id == id;
      assert desc.preacquire[j] in desc.preacquire[..i];
    }
    if e :| e in desc.preacquire[..i] && e.id == id {
      var j :| 0 <= j < i && desc.preacquire[j] == e;
      assert desc.list[j] in desc.list && desc.list[j].acquired;
    }
  }

  lemma WaitAscends(st: State, d: nat, e: nat)
    requires Inv(st) && WaitsFor(st, d, e)
    ensures Waiting(st.descs[e]) ==> Wanted(st.descs[d]) < Wanted(st.descs[e])
  {
    var id := Wanted(st.descs[d]);
    assert SentOk(st, id);
    if Waiting(st.descs[e]) { BlockedOwnsPrefix(st, e, id); }
  }

  ghost predicate WaitChain(st: State, chain: seq<nat>) {
    forall k :: 0 <= k < |chain| - 1 ==> WaitsFor(st, chain[k], chain[k + 1])
  }

  lemma {:induction false} ChainAscends(st: State, chain: seq<nat>, k: nat)
    requires Inv(st) && WaitChain(st, chain) && k < |chain| - 1
    ensures WaitsFor(st, chain[0], chain[1]) && WaitsFor(st, chain[k], chain[k + 1])
    ensures Wanted(st.descs[chain[0]]) <= Wanted(st.descs[chain[k]])
  {
    assert WaitsFor(st, chain[0], chain[0 + 1]);
    if k > 0 {
      ChainAscends(st, chain, k - 1);
      assert WaitsFor(st, chain[k], chain[k + 1]);
      WaitAscends(st, chain[k - 1], chain[k]);
    }
  }

  /** Deadlock freedom: no chain of waits, of any length, leads back to its start. */
  lemma NoWaitCycle(st: State, chain: seq<nat>)
    requires Inv(st) && WaitChain(st, chain) && |chain| >= 2
    ensures chain[0] != chain[|chain| - 1]
  {
    var k := |chain| - 2;
    ChainAscends(st, chain, k);
    WaitAscends(st, chain[k], chain[k + 1]);
  }

  // ---------------------------------------------------------------- completion

  /** The step that brings a descriptor closer to the end of its transaction. */
  function Finishing(desc: Desc): Act {
    match desc.phase
    case Idle => Begin
    case Running => End(Commit)
    case Locked(_, _) => Enlist
    case Refused(_, _) => Enlist
    case Compensating(_) => Compensated
    case Releasing(_, i) => if i < |desc.list| then Release else Released
    case Acquiring(i) => if i < |desc.preacquire| then Acquire else Acquired
    case Restarting => Restart
  }

  /** How many finishing steps are left, at most. */
  function Work(desc: Desc): int {
    var n := |desc.list|;
    match desc.phase
    case Idle => 0
    case Running => n + 3
    case Locked(_, _) => n + 5
    case Refused(_, _) => 3 * n + 12
    case Compensating(how) => if Completes(how) then n + 2 else 3 * n + 8
    case Releasing(how, i) => if Completes(how) then n - i + 1 else n - i + 2 * |desc.preacquire| + 6
    case Acquiring(i) => 2 * |desc.preacquire| - i + 5
    case Restarting => n + 4
  }

  ghost function TotalWork(descs: seq<Desc>): int {
    if descs == [] then 0 else TotalWork(descs[..|descs| - 1]) + Work(descs[|descs| - 1])
  }

  lemma {:induction false} TotalWorkUpdate(descs: seq<Desc>, d: nat, desc: Desc)
    requires d < |descs|
    ensures TotalWork(descs[d := desc]) == TotalWork(descs) - Work(descs[d]) + Work(desc)
  {
    var n := |descs| - 1;
    var after := descs[d := desc];
    if d == n {
      assert after[..n] == descs[..n];
    } else {
      TotalWorkUpdate(descs[..n], d, desc);
      assert after[..n] == descs[..n][d := desc];
    }
  }

  lemma {:induction false} TotalWorkNonNegative(descs: seq<Desc>, m: nat)
    requires forall d :: 0 <= d < |descs| ==> DescOk(descs[d], m)
    ensures 0 <= TotalWork(descs)
  {
    if descs != [] { TotalWorkNonNegative(descs[..|descs| - 1], m); }
  }

  lemma FinishingEnabled(st: State, d: nat)
    requires Inv(st) && d < |st.descs| && !st.descs[d].phase.Idle?
    requires Waiting(st.descs[d]) ==> forall e: nat :: !WaitsFor(st, d, e)
    ensures CanStep(st, TxStep(d, Finishing(st.descs[d])))
  {
    var desc := st.descs[d];
    assert DescOk(desc, |st.sents|);
    if Waiting(desc) {
      assert desc.preacquire[desc.phase.next] in desc.preacquire;
      var s := st.sents[Wanted(desc)];
      assert SentOk(st, Wanted(desc));
      assert s.mutex.Some? ==> WaitsFor(st, d, s.mutex.value);
    }
    if desc.phase.Releasing? && desc.phase.next < |desc.list| {
      assert desc.list[desc.phase.next] in desc.list;
    }
  }

  lemma FinishingShrinks(d: nat, desc: Desc, sents: seq<Sentinel>)
    requires !desc.phase.Idle? && Enabled(d, Finishing(desc), desc, sents)
    requires desc.phase.Acquiring? ==> desc.phase.next == |desc.list|
    ensures Work(NextDesc(d, Finishing(desc), desc, sents)) < Work(desc)
  {
    if desc.phase.Compensating? { PreacquireShorter(desc.list); }
  }

  /** A descriptor that is not blocked can always take its finishing step, and gets closer. */
  lemma FinishingProgresses(st: State, d: nat)
    requires Inv(st) && d < |st.descs| && !st.descs[d].phase.Idle?
    requires Waiting(st.descs[d]) ==> forall e: nat :: !WaitsFor(st, d, e)
    ensures CanStep(st, TxStep(d, Finishing(st.descs[d])))
    ensures Work(Next(st, TxStep(d, Finishing(st.descs[d]))).descs[d]) < Work(st.descs[d])
  {
    FinishingEnabled(st, d);
    assert DescOk(st.descs[d], |st.sents|);
    FinishingShrinks(d, st.descs[d], st.sents);
  }

  /** Only sentinel_list_acquire waits: any other descriptor can move, whatever is locked. */
  lemma OnlyReacquisitionWaits(st: State, d: nat)
    requires Inv(st) && d < |st.descs| && !st.descs[d].phase.Idle? && !Waiting(st.descs[d])
    ensures CanStep(st, TxStep(d, Finishing(st.descs[d])))
  {
    FinishingProgresses(st, d);
  }

  /** Following the waits from any descriptor ends at one that can move. */
  lemma {:induction false} Unblocked(st: State, d: nat) returns (e: nat)
    requires Inv(st) && d < |st.descs| && !st.descs[d].phase.Idle?
    ensures e < |st.descs| && !st.descs[e].phase.Idle?
    ensures Waiting(st.descs[e]) ==> forall f: nat :: !WaitsFor(st, e, f)
    decreases if Waiting(st.descs[d]) then |st.sents| - Wanted(st.descs[d]) else 0
  {
    e := d;
    if f: nat :| WaitsFor(st, d, f) {
      assert SentOk(st, Wanted(st.descs[d])) && DescOk(st.descs[f], |st.sents|);
      WaitAscends(st, d, f);
      if Waiting(st.descs[f]) {
        assert DescOk(st.descs[f], |st.sents|);
        assert st.descs[f].preacquire[st.descs[f].phase.next] in st.descs[f].preacquire;
      }
      e := Unblocked(st, f);
    }
  }

  predicate AllIdle(st: State) {
    forall d :: 0 <= d < |st.descs| ==> st.descs[d].phase.Idle?
  }

  /**
   No reachable state is a dead end: from every one of them the transactions can all be
   brought to completion, with every lock given back and every sentinel whose object is
   gone returned to the pool.
   */
  lemma {:induction false} CanAlwaysFinish(st: State) returns (run: seq<Step>)
    requires Inv(st)
    ensures Legal(st, run) && AllIdle(Final(st, run)) && Inv(Final(st, run))
    ensures forall id: nat :: id < |Final(st, run).sents| ==>
              var s := Final(st, run).sents[id];
              s.mutex.None? && s.owner.None? && s.refcnt == Bit(s.koa)
    decreases TotalWork(st.descs)
  {
    if AllIdle(st) {
      run := [];
      forall id: nat | id < |st.sents|
        ensures var s := st.sents[id]; s.mutex.None? && s.owner.None? && s.refcnt == Bit(s.koa)
      {
        RecordedAgrees(st, id);
        assert SentOk(st, id);
        forall d: nat | d < |st.descs| ensures !Names(st.descs[d], id) && !Holds(st.descs[d], id) {
          assert DescOk(st.descs[d], |st.sents|);
        }
        NamersZero(st.descs, id);
      }
    } else {
      var d: nat :| d < |st.descs| && !st.descs[d].phase.Idle?;
      var e := Unblocked(st, d);
      var step := TxStep(e, Finishing(st.descs[e]));
      FinishingProgresses(st, e);
      TotalWorkUpdate(st.descs, e, Next(st, step).descs[e]);
      TotalWorkNonNegative(st.descs, |st.sents|);
      StepKeepsInv(st, step);
      var rest := CanAlwaysFinish(Next(st, step));
      run := [step] + rest;
      assert run[1..] == rest;
    }
  }
}
