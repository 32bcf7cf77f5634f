/** Every step of every descriptor keeps the invariant of the sentinel protocol. */
module SentinelInvariant {
  import opened Options
  import opened Sentinels
  import opened SentinelLists

  lemma {:induction false} NamersUpdate(descs: seq<Desc>, d: nat, desc: Desc, id: nat)
    requires d < |descs|
    ensures Namers(descs[d := desc], id) == Namers(descs, id) - Bit(Names(descs[d], id)) + Bit(Names(desc, id))
  {
    var n := |descs| - 1;
    var after := descs[d := desc];
    if d == n {
      assert after[..n] == descs[..n];
    } else {
      NamersUpdate(descs[..n], d, desc, id);
      assert after[..n] == descs[..n][d := desc];
    }
  }

  lemma {:induction false} NamersZero(descs: seq<Desc>, id: nat)
    ensures Namers(descs, id) == 0 <==> forall d :: 0 <= d < |descs| ==> !Names(descs[d], id)
  {
    var n := |descs| - 1;
    if descs != [] {
      NamersZero(descs[..n], id);
      assert forall d :: 0 <= d < n ==> descs[..n][d] == descs[d];
    }
  }

  /** What a step of descriptor `d` owes on the one sentinel `id` it works on. */
  ghost predicate Local(d: nat, desc: Desc, desc': Desc, id: nat, s: Sentinel, s': Sentinel) {
    && s'.koa == s.koa
    && s'.refcnt == s.refcnt - Bit(Names(desc, id)) + Bit(Names(desc', id))
    && (s'.mutex == s.mutex || s.mutex.None? || s.mutex == Some(d))
    && (s'.mutex == s.mutex || s'.mutex.None? || s'.mutex == Some(d))
    && (s'.owner == s.owner || s.owner.None? || s.owner == Some(d))
    && (s'.owner == s.owner || s'.owner.None? || s'.owner == Some(d))
    && (s'.mutex == Some(d) <==> Holds(desc', id))
    && (s'.owner == Some(d) <==> Owns(desc', id))
    && (Pending(desc', id) ==> s.koa)
  }

  /** On the other sentinels the step changes nothing that the invariant counts. */
  ghost predicate Same(desc: Desc, desc': Desc, id: nat) {
    && (Names(desc, id) <==> Names(desc', id))
    && (Holds(desc, id) <==> Holds(desc', id))
    && (Owns(desc, id) <==> Owns(desc', id))
    && (Pending(desc', id) ==> Pending(desc, id))
  }

  /** Whoever is recorded in a sentinel is the descriptor that holds or owns it. */
  lemma RecordedAgrees(st: State, id: nat)
    requires id < |st.sents| && SentOk(st, id)
    ensures var s := st.sents[id];
            && (s.mutex.Some? ==> Holds(st.descs[s.mutex.value], id))
            && (s.owner.Some? ==> Owns(st.descs[s.owner.value], id))
  {
    var s := st.sents[id];
    assert s.mutex.Some? ==> Agrees(s, id, s.mutex.value, st.descs[s.mutex.value]);
    assert s.owner.Some? ==> Agrees(s, id, s.owner.value, st.descs[s.owner.value]);
  }

  lemma KeepSent(st: State, d: nat, desc': Desc, id: nat, s': Sentinel)
    requires Inv(st) && d < |st.descs| && id < |st.sents|
    requires Local(d, st.descs[d], desc', id, st.sents[id], s')
    ensures SentOk(State(st.sents[id := s'], st.descs[d := desc']), id)
  {
    assert SentOk(st, id);
    NamersUpdate(st.descs, d, desc', id);
  }

  lemma KeepOther(st: State, sents': seq<Sentinel>, d: nat, desc': Desc, id: nat)
    requires Inv(st) && d < |st.descs| && id < |st.sents| == |sents'|
    requires sents'[id] == st.sents[id] && Same(st.descs[d], desc', id)
    ensures SentOk(State(sents', st.descs[d := desc']), id)
  {
    assert SentOk(st, id);
    NamersUpdate(st.descs, d, desc', id);
  }

  /** One descriptor and one sentinel change: local obligations suffice for the invariant. */
  lemma Frame(st: State, d: nat, desc': Desc, id: nat, s': Sentinel)
    requires Inv(st) && d < |st.descs| && id < |st.sents|
    requires DescOk(desc', |st.sents|)
    requires Local(d, st.descs[d], desc', id, st.sents[id], s')
    requires forall k: nat :: k != id ==> Same(st.descs[d], desc', k)
    ensures Inv(State(st.sents[id := s'], st.descs[d := desc']))
  {
    var st' := State(st.sents[id := s'], st.descs[d := desc']);
    forall k: nat | k < |st.sents| ensures SentOk(st', k) {
      if k == id { KeepSent(st, d, desc', id, s'); } else { KeepOther(st, st'.sents, d, desc', k); }
    }
  }

  /** Only a descriptor changes. */
  lemma FrameDesc(st: State, d: nat, desc': Desc)
    requires Inv(st) && d < |st.descs|
    requires DescOk(desc', |st.sents|)
    requires forall k: nat :: Same(st.descs[d], desc', k)
    ensures Inv(State(st.sents, st.descs[d := desc']))
  {
    var st' := State(st.sents, st.descs[d := desc']);
    forall k: nat | k < |st.sents| ensures SentOk(st', k) {
      KeepOther(st, st.sents, d, desc', k);
    }
  }

  lemma OwnedIfEnlisted(list: seq<Entry>, id: nat)
    requires AllAcquired(list)
    ensures Has(list, id) ==> HasAcquired(list, id)
  {
  }

  lemma KeepTryLock(st: State, d: nat, id: nat, retry: bool)
    requires Inv(st) && CanStep(st, TxStep(d, TryLock(id, retry)))
    ensures Inv(Next(st, TxStep(d, TryLock(id, retry))))
  {
    var desc := st.descs[d];
    var act := TryLock(id, retry);
    assert SentOk(st, id) && DescOk(desc, |st.sents|);
    if st.sents[id].owner == Some(d) {
      assert Next(st, TxStep(d, act)) == st;
    } else {
      // Everything enlisted is owned, so the sentinel is not enlisted yet.
      OwnedIfEnlisted(desc.list, id);
      Frame(st, d, NextDesc(d, act, desc, st.sents), id, NextSentinel(d, act, desc, st.sents));
    }
  }

  lemma KeepEnlist(st: State, d: nat)
    requires Inv(st) && CanStep(st, TxStep(d, Enlist))
    ensures Inv(Next(st, TxStep(d, Enlist)))
  {
    var desc := st.descs[d];
    var id := desc.phase.id;
    var desc' := NextDesc(d, Enlist, desc, st.sents);
    assert SentOk(st, id) && DescOk(desc, |st.sents|);
    var e := Entry(id, desc.phase.Locked?, desc.phase.retry);
    assert desc'.list == desc.list + [e];
    HasAppended(desc.list, e);
    forall i | 0 <= i < |desc.list| ensures desc.list[i].id != id {
      assert desc.list[i] in desc.list;
    }
    RecordedAgrees(st, id);
    Frame(st, d, desc', id, NextSentinel(d, Enlist, desc, st.sents));
  }

  lemma KeepCompensated(st: State, d: nat)
    requires Inv(st) && CanStep(st, TxStep(d, Compensated))
    ensures Inv(Next(st, TxStep(d, Compensated)))
  {
    var desc := st.descs[d];
    var desc' := NextDesc(d, Compensated, desc, st.sents);
    assert DescOk(desc, |st.sents|);
    assert desc.list[0..] == desc.list && desc.list[..0] == [];
    FrameDesc(st, d, desc');
  }

  lemma KeepRelease(st: State, d: nat)
    requires Inv(st) && CanStep(st, TxStep(d, Release))
    ensures Inv(Next(st, TxStep(d, Release)))
  {
    var desc := st.descs[d];
    var i := desc.phase.next;
    var e := desc.list[i];
    var desc' := NextDesc(d, Release, desc, st.sents);
    assert SentOk(st, e.id) && DescOk(desc, |st.sents|);
    ReleaseNames(desc, desc', i);
    OnceInRest(desc.list, i);
    Frame(st, d, desc', e.id, NextSentinel(d, Release, desc, st.sents));
  }

  lemma ReleaseNames(desc: Desc, desc': Desc, i: nat)
    requires desc.phase.Releasing? && desc.phase.next == i < |desc.list|
    requires desc' == desc.(phase := Releasing(desc.phase.how, i + 1))
    ensures forall k: nat :: k != desc.list[i].id ==> Same(desc, desc', k)
    ensures var e := desc.list[i];
            && Names(desc, e.id)
            && (Names(desc', e.id) <==>
                  Has(desc.list[i + 1..], e.id)
                  || (!Completes(desc.phase.how) && (e.retry || HasRetry(desc.list[..i], e.id))))
            && (Owns(desc, e.id) <==> e.acquired || HasAcquired(desc.list[i + 1..], e.id))
  {
    var e := desc.list[i];
    assert desc.list[i..] == [e] + desc.list[i + 1..];
    assert desc.list[..i + 1] == desc.list[..i] + [e];
    HasPrepended(e, desc.list[i + 1..]);
    HasAppended(desc.list[..i], e);
  }

  /** In a duplicate-free list the sentinel of entry `i` is named nowhere else. */
  lemma OnceInRest(list: seq<Entry>, i: nat)
    requires Distinct(list) && i < |list|
    ensures !Has(list[i + 1..], list[i].id) && !Has(list[..i], list[i].id)
  {
    forall e | e in list[i + 1..] ensures e.id != list[i].id {
      var j :| i + 1 <= j < |list| && list[j] == e;
    }
    forall e | e in list[..i] ensures e.id != list[i].id {
      var j :| 0 <= j < i && list[j] == e;
    }
  }

  /** The end of the release phase: what is still named is what has been remembered. */
  lemma ReleasedSame(d: nat, desc: Desc, sents: seq<Sentinel>, k: nat)
    requires Enabled(d, Released, desc, sents) && DescOk(desc, |sents|)
    ensures Same(desc, NextDesc(d, Released, desc, sents), k)
  {
    var l, pre := desc.list, desc.preacquire;
    assert l[|l|..] == [] && l[..|l|] == l && pre[0..] == pre;
    if !Completes(desc.phase.how) { PreacquireHas(l, pre, k); }
    EmptyHasNothing(k);
  }

  lemma PreacquireHas(list: seq<Entry>, pre: seq<Entry>, k: nat)
    requires Distinct(list) && pre == SortById(Retained(list))
    ensures Has(pre, k) <==> HasRetry(list, k)
  {
    PreacquireIs(list);
  }

  lemma EmptyHasNothing(k: nat)
    ensures !Has([], k) && !HasAcquired([], k) && !HasRetry([], k)
  {
  }

  lemma ReleasedDescOk(d: nat, desc: Desc, sents: seq<Sentinel>)
    requires Enabled(d, Released, desc, sents) && DescOk(desc, |sents|)
    ensures DescOk(NextDesc(d, Released, desc, sents), |sents|)
  {
    PreacquireIs(desc.list);
  }

  lemma KeepReleased(st: State, d: nat)
    requires Inv(st) && CanStep(st, TxStep(d, Released))
    ensures Inv(Next(st, TxStep(d, Released)))
  {
    var desc := st.descs[d];
    forall k: nat ensures Same(desc, NextDesc(d, Released, desc, st.sents), k) {
      ReleasedSame(d, desc, st.sents, k);
    }
    ReleasedDescOk(d, desc, st.sents);
    FrameDesc(st, d, NextDesc(d, Released, desc, st.sents));
  }

  /** One more sentinel is acquired again. */
  ghost predicate Reacquires(desc: Desc, desc': Desc, i: nat) {
    && desc.phase == Acquiring(i) && i < |desc.preacquire|
    && desc' == desc.(phase := Acquiring(i + 1), list := desc.list + [Entry(desc.preacquire[i].id, true, true)])
  }

  lemma AcquireDescOk(desc: Desc, desc': Desc, i: nat, m: nat)
    requires Reacquires(desc, desc', i) && DescOk(desc, m)
    ensures DescOk(desc', m)
  {
    var pre, l := desc.preacquire, desc'.list;
    assert pre[i] in pre;
    forall j | 0 <= j < i + 1 ensures l[j] == Entry(pre[j].id, true, true) { }
    forall x | x in l ensures x.id < m {
      if x in desc.list { }
    }
  }

  lemma AcquireNames(desc: Desc, desc': Desc, i: nat, m: nat)
    requires Reacquires(desc, desc', i) && DescOk(desc, m)
    ensures forall k: nat :: k != desc.preacquire[i].id ==> Same(desc, desc', k)
    ensures var id := desc.preacquire[i].id;
            Names(desc, id) && Names(desc', id) && Owns(desc', id) && !Pending(desc', id)
  {
    var pre := desc.preacquire;
    assert pre[i..] == [pre[i]] + pre[i + 1..];
    HasPrepended(pre[i], pre[i + 1..]);
    HasAppended(desc.list, Entry(pre[i].id, true, true));
  }

  lemma KeepAcquire(st: State, d: nat)
    requires Inv(st) && CanStep(st, TxStep(d, Acquire))
    ensures Inv(Next(st, TxStep(d, Acquire)))
  {
    var desc := st.descs[d];
    var i := desc.phase.next;
    var id := desc.preacquire[i].id;
    var desc' := NextDesc(d, Acquire, desc, st.sents);
    assert SentOk(st, id) && DescOk(desc, |st.sents|);
    AcquireDescOk(desc, desc', i, |st.sents|);
    AcquireNames(desc, desc', i, |st.sents|);
    RecordedAgrees(st, id);
    Frame(st, d, desc', id, NextSentinel(d, Acquire, desc, st.sents));
  }

  lemma KeepAcquired(st: State, d: nat)
    requires Inv(st) && CanStep(st, TxStep(d, Acquired))
    ensures Inv(Next(st, TxStep(d, Acquired)))
  {
    var desc := st.descs[d];
    assert DescOk(desc, |st.sents|);
    assert desc.preacquire[|desc.preacquire|..] == [];
    FrameDesc(st, d, NextDesc(d, Acquired, desc, st.sents));
  }

  lemma KeepCreateKoa(st: State, id: nat)
    requires Inv(st) && CanStep(st, CreateKoa(id))
    ensures Inv(Next(st, CreateKoa(id)))
  {
    assert SentOk(st, id);
    NamersZero(st.descs, id);
    forall d: nat | d < |st.descs| ensures !Owns(st.descs[d], id) {
      UnnamedIsUnowned(st.descs[d], id);
    }
    var st' := Next(st, CreateKoa(id));
    forall k: nat | k < |st.sents| ensures SentOk(st', k) {
      assert SentOk(st, k);
    }
  }

  /** Ownership is always backed by a counted reference. */
  lemma UnnamedIsUnowned(desc: Desc, id: nat)
    ensures Owns(desc, id) ==> Names(desc, id)
  {
  }

  lemma KeepDetachKoa(st: State, id: nat)
    requires Inv(st) && CanStep(st, DetachKoa(id))
    ensures Inv(Next(st, DetachKoa(id)))
  {
    var st' := Next(st, DetachKoa(id));
    forall k: nat | k < |st.sents| ensures SentOk(st', k) {
      assert SentOk(st, k);
    }
  }

  /** Every step keeps the invariant. */
  lemma StepKeepsInv(st: State, step: Step)
    requires Inv(st) && CanStep(st, step)
    ensures Inv(Next(st, step))
  {
    match step
    case CreateKoa(id) => KeepCreateKoa(st, id);
    case DetachKoa(id) => KeepDetachKoa(st, id);
    case TxStep(d, act) =>
      var desc := st.descs[d];
      assert DescOk(desc, |st.sents|);
      match act
      case TryLock(id, retry) => KeepTryLock(st, d, id, retry);
      case Enlist => KeepEnlist(st, d);
      case Compensated => KeepCompensated(st, d);
      case Release => KeepRelease(st, d);
      case Released => KeepReleased(st, d);
      case Acquire => KeepAcquire(st, d);
      case Acquired => KeepAcquired(st, d);
      case Begin => FrameDesc(st, d, NextDesc(d, act, desc, st.sents));
      case End(_) => FrameDesc(st, d, NextDesc(d, act, desc, st.sents));
      case Restart => FrameDesc(st, d, NextDesc(d, act, desc, st.sents));
  }

  lemma InitInv(n: nat, m: nat)
    ensures Inv(Init(n, m))
  {
    var st := Init(n, m);
    forall id: nat | id < m ensures SentOk(st, id) {
      NamersZero(st.descs, id);
    }
  }

  /** Every reachable state satisfies the invariant, for any number of descriptors and sentinels. */
  lemma {:induction false} RunKeepsInv(st: State, run: seq<Step>)
    requires Inv(st) && Legal(st, run)
    ensures Inv(Final(st, run))
    decreases |run|
  {
    if run != [] {
      StepKeepsInv(st, run[0]);
      RunKeepsInv(Next(st, run[0]), run[1..]);
    }
  }

  lemma ReachableInv(n: nat, m: nat, run: seq<Step>)
    requires Legal(Init(n, m), run)
    ensures Inv(Final(Init(n, m), run))
  {
    InitInv(n, m);
    RunKeepsInv(Init(n, m), run);
  }
}
