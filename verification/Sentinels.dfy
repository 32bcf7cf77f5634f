/**
 The sentinel protocol as a step system (src/core/sentinel.c, src/core/tx.c).

 A sentinel is a revocable lock for one kernel object. N transaction descriptors share a
 pool of sentinels; every step below is one critical section of the library, so the steps
 of different descriptors interleave freely. A running transaction only try-locks. When
 that fails it rolls back, releases what it owns and re-acquires the remembered sentinels
 in the order of their ids, and this is the only place where it may block.
 */
module Sentinels {
  import opened Options

  datatype AbortReason = TmConflict | UserAbort | UserRetry | BusySentinel | Inconsistency | BusyTxLock

  /** How an instance of a transaction ends. */
  datatype Ending = Commit | Abort(reason: AbortReason)

  /** Commit and user abort complete the transaction, every other abort restarts it. */
  predicate Completes(how: Ending) {
    how.Commit? || how.reason.UserAbort?
  }

  /** TXC_SENTINEL_ACQUIRED and TXC_SENTINEL_ACQUIREONRETRY as two flags. */
  datatype Entry = Entry(id: nat, acquired: bool, retry: bool)

  /**
   A slot of the sentinel pool. `koa` says that a live kernel object refers to it. `mutex`
   is the descriptor inside the lock, `owner` the owner field, which is written separately.
   */
  datatype Sentinel = Sentinel(koa: bool, refcnt: int, mutex: Option<nat>, owner: Option<nat>)

  datatype Phase =
    | Idle
    | Running
    | Locked(id: nat, retry: bool)        // the try-lock succeeded, nothing is enlisted yet
    | Refused(id: nat, retry: bool)       // the try-lock failed, nothing is enlisted yet
    | Compensating(how: Ending)           // actions of the levels 0 and 1 are running
    | Releasing(how: Ending, next: nat)   // level 2: entries below `next` are released
    | Acquiring(next: nat)                // level 2 of a retry: entries below `next` are acquired
    | Restarting                          // the undo list is done, the body has not begun

  datatype Desc = Desc(phase: Phase, list: seq<Entry>, preacquire: seq<Entry>,
                       undoRegistered: bool, commitRegistered: bool)

  datatype State = State(sents: seq<Sentinel>, descs: seq<Desc>)

  datatype Act =
    | Begin | TryLock(id: nat, retry: bool) | Enlist | End(how: Ending) | Compensated
    | Release | Released | Acquire | Acquired | Restart

  datatype Step = TxStep(d: nat, act: Act) | CreateKoa(id: nat) | DetachKoa(id: nat)

  // ---------------------------------------------------------------- lists of sentinels

  ghost predicate Has(list: seq<Entry>, id: nat) {
    exists e :: e in list && e.id == id
  }

  ghost predicate HasAcquired(list: seq<Entry>, id: nat) {
    exists e :: e in list && e.id == id && e.acquired
  }

  ghost predicate HasRetry(list: seq<Entry>, id: nat) {
    exists e :: e in list && e.id == id && e.retry
  }

  ghost predicate Distinct(list: seq<Entry>) {
    forall i, j :: 0 <= i < j < |list| ==> list[i].id != list[j].id
  }

  ghost predicate StrictlySorted(list: seq<Entry>) {
    forall i, j :: 0 <= i < j < |list| ==> list[i].id < list[j].id
  }

  ghost predicate Sorted(list: seq<Entry>) {
    forall i, j :: 0 <= i < j < |list| ==> list[i].id <= list[j].id
  }

  ghost predicate Below(list: seq<Entry>, m: nat) {
    forall e :: e in list ==> e.id < m
  }

  ghost predicate AllAcquired(list: seq<Entry>) {
    forall e :: e in list ==> e.acquired
  }

  /** The entries to acquire again, as the loop of before_retry enlists them. */
  function Retained(list: seq<Entry>): seq<Entry> {
    if list == [] then []
    else
      var n := |list| - 1;
      Retained(list[..n]) + if list[n].retry then [Entry(list[n].id, false, false)] else []
  }

  /** Insertion behind every entry whose id is not larger. */
  function Insert(e: Entry, list: seq<Entry>): seq<Entry> {
    var n := |list| - 1;
    if list == [] || list[n].id <= e.id then list + [e] else Insert(e, list[..n]) + [list[n]]
  }

  /** The canonical order: a stable sort by sentinel id. */
  function SortById(list: seq<Entry>): seq<Entry> {
    if list == [] then [] else Insert(list[|list| - 1], SortById(list[..|list| - 1]))
  }

  // ---------------------------------------------------------------- one descriptor's steps

  /** When a descriptor's step may happen; only acquisition in a retry waits for another one. */
  predicate Enabled(d: nat, act: Act, desc: Desc, sents: seq<Sentinel>) {
    match act
    case Begin => desc.phase.Idle?
    case TryLock(id, _) => desc.phase.Running? && id < |sents| && sents[id].koa
    case Enlist => (desc.phase.Locked? || desc.phase.Refused?) && desc.phase.id < |sents|
    case End(_) => desc.phase.Running?
    case Compensated => desc.phase.Compensating?
    case Release => desc.phase.Releasing? && desc.phase.next < |desc.list|
                    && desc.list[desc.phase.next].id < |sents|
    case Released => desc.phase.Releasing? && desc.phase.next == |desc.list|
    case Acquire => desc.phase.Acquiring? && desc.phase.next < |desc.preacquire|
                    && desc.preacquire[desc.phase.next].id < |sents|
                    && sents[desc.preacquire[desc.phase.next].id].mutex.None?
    case Acquired => desc.phase.Acquiring? && desc.phase.next == |desc.preacquire|
    case Restart => desc.phase.Restarting?
  }

  /** The sentinel a step works on, if any. */
  function Touched(act: Act, desc: Desc, sents: seq<Sentinel>): (o: Option<nat>)
    requires exists d :: Enabled(d, act, desc, sents)
    ensures o.Some? ==> o.value < |sents|
  {
    match act
    case TryLock(id, _) => Some(id)
    case Enlist => Some(desc.phase.id)
    case Release => Some(desc.list[desc.phase.next].id)
    case Acquire => Some(desc.preacquire[desc.phase.next].id)
    case _ => None
  }

  /** sentinel_list_release, loop body: give the lock back, then drop the reference or carry it. */
  function ReleaseEntry(s: Sentinel, e: Entry, completing: bool): Sentinel {
    var unlocked := if e.acquired then s.(mutex := None, owner := None) else s;
    if completing || !e.retry then unlocked.(refcnt := unlocked.refcnt - 1) else unlocked
  }

  /** The new value of the sentinel the step works on. */
  function NextSentinel(d: nat, act: Act, desc: Desc, sents: seq<Sentinel>): Sentinel
    requires Enabled(d, act, desc, sents) && Touched(act, desc, sents).Some?
  {
    var s := sents[Touched(act, desc, sents).value];
    match act
    case TryLock(_, _) => if s.owner != Some(d) && s.mutex.None? then s.(mutex := Some(d)) else s
    case Enlist =>
      var t := s.(refcnt := s.refcnt + 1);
      if desc.phase.Locked? then t.(owner := Some(d)) else t
    case Release => ReleaseEntry(s, desc.list[desc.phase.next], Completes(desc.phase.how))
    case Acquire => s.(mutex := Some(d), owner := Some(d))
    case _ => s
  }

  function NextDesc(d: nat, act: Act, desc: Desc, sents: seq<Sentinel>): Desc
    requires Enabled(d, act, desc, sents)
  {
    match act
    case Begin => Started(desc)
    case TryLock(id, retry) =>
      if sents[id].owner == Some(d) then desc
      else desc.(phase := if sents[id].mutex.None? then Locked(id, retry) else Refused(id, retry),
                 undoRegistered := true, commitRegistered := true)
    case Enlist =>
      var won := desc.phase.Locked?;
      desc.(phase := if won then Running else Compensating(Abort(BusySentinel)),
            list := desc.list + [Entry(desc.phase.id, won, desc.phase.retry)])
    case End(how) => desc.(phase := Compensating(how))
    case Compensated =>
      var how := desc.phase.how;
      if if how.Commit? then desc.commitRegistered else desc.undoRegistered then
        desc.(phase := Releasing(how, 0),
              preacquire := if Completes(how) then desc.preacquire else SortById(Retained(desc.list)))
      else
        desc.(phase := if Completes(how) then Idle else Restarting,
              undoRegistered := false, commitRegistered := false)
    case Release => desc.(phase := Releasing(desc.phase.how, desc.phase.next + 1))
    case Released =>
      desc.(phase := if Completes(desc.phase.how) then Idle else Acquiring(0), list := [],
            undoRegistered := false, commitRegistered := false)
    case Acquire =>
      desc.(phase := Acquiring(desc.phase.next + 1),
            list := desc.list + [Entry(desc.preacquire[desc.phase.next].id, true, true)])
    case Acquired => desc.(phase := Restarting)
    case Restart => Started(desc)
  }

  /** txc_tx_post_begin: a non-empty list registers both actions of the sentinel manager. */
  function Started(desc: Desc): Desc {
    desc.(phase := Running, undoRegistered := desc.list != [], commitRegistered := desc.list != [])
  }

  // ---------------------------------------------------------------- the whole system

  /** Inside txc_sentinel_tryacquire the caller holds the lock that keeps the object attached. */
  predicate Pending(desc: Desc, id: nat) {
    (desc.phase.Locked? || desc.phase.Refused?) && desc.phase.id == id
  }

  predicate CanStep(st: State, step: Step) {
    match step
    case TxStep(d, act) => d < |st.descs| && Enabled(d, act, st.descs[d], st.sents)
    case CreateKoa(id) => id < |st.sents| && st.sents[id].refcnt == 0
    case DetachKoa(id) => id < |st.sents| && st.sents[id].koa
                          && forall d :: 0 <= d < |st.descs| ==> !Pending(st.descs[d], id)
  }

  function Next(st: State, step: Step): State
    requires CanStep(st, step)
  {
    match step
    case TxStep(d, act) =>
      var desc := st.descs[d];
      State(match Touched(act, desc, st.sents)
            case None => st.sents
            case Some(id) => st.sents[id := NextSentinel(d, act, desc, st.sents)],
            st.descs[d := NextDesc(d, act, desc, st.sents)])
    case CreateKoa(id) => st.(sents := st.sents[id := st.sents[id].(koa := true, refcnt := 1, owner := None)])
    case DetachKoa(id) =>
      st.(sents := st.sents[id := st.sents[id].(koa := false, refcnt := st.sents[id].refcnt - 1)])
  }

  function Init(n: nat, m: nat): State {
    State(seq(m, _ => Sentinel(false, 0, None, None)), seq(n, _ => Desc(Idle, [], [], false, false)))
  }

  /** A run: every step is allowed in the state the previous ones lead to. */
  predicate Legal(st: State, run: seq<Step>)
    decreases |run|
  {
    run == [] || (CanStep(st, run[0]) && Legal(Next(st, run[0]), run[1..]))
  }

  function Final(st: State, run: seq<Step>): State
    requires Legal(st, run)
    decreases |run|
  {
    if run == [] then st else Final(Next(st, run[0]), run[1..])
  }

  // ---------------------------------------------------------------- the invariant

  /** The descriptor holds a counted reference to the sentinel. */
  ghost predicate Names(desc: Desc, id: nat) {
    match desc.phase
    case Releasing(how, i) =>
      i <= |desc.list| && (Has(desc.list[i..], id) || (!Completes(how) && HasRetry(desc.list[..i], id)))
    case Acquiring(i) => Has(desc.list, id) || (i <= |desc.preacquire| && Has(desc.preacquire[i..], id))
    case _ => Has(desc.list, id)
  }

  /** The descriptor is recorded as the owner of the sentinel. */
  ghost predicate Owns(desc: Desc, id: nat) {
    match desc.phase
    case Releasing(_, i) => i <= |desc.list| && HasAcquired(desc.list[i..], id)
    case _ => HasAcquired(desc.list, id)
  }

  /** The descriptor is inside the sentinel's mutex. */
  ghost predicate Holds(desc: Desc, id: nat) {
    Owns(desc, id) || (desc.phase.Locked? && desc.phase.id == id)
  }

  function Bit(b: bool): nat {
    if b then 1 else 0
  }

  /** How many descriptors hold a reference. */
  ghost function Namers(descs: seq<Desc>, id: nat): nat {
    if descs == [] then 0
    else Namers(descs[..|descs| - 1], id) + Bit(Names(descs[|descs| - 1], id))
  }

  ghost predicate DescOk(desc: Desc, m: nat) {
    && Distinct(desc.list) && Below(desc.list, m)
    && match desc.phase
       case Idle => desc.list == []
       case Running =>
         AllAcquired(desc.list) && (desc.list != [] ==> desc.undoRegistered && desc.commitRegistered)
       case Locked(id, _) =>
         AllAcquired(desc.list) && id < m && !Has(desc.list, id) && desc.undoRegistered && desc.commitRegistered
       case Refused(id, _) =>
         AllAcquired(desc.list) && id < m && !Has(desc.list, id) && desc.undoRegistered && desc.commitRegistered
       case Compensating(_) => desc.list != [] ==> desc.undoRegistered && desc.commitRegistered
       case Releasing(how, i) =>
         i <= |desc.list| && (!Completes(how) ==> desc.preacquire == SortById(Retained(desc.list)))
       case Acquiring(i) =>
         && i == |desc.list| <= |desc.preacquire|
         && StrictlySorted(desc.preacquire) && Below(desc.preacquire, m)
         && forall j :: 0 <= j < i ==> desc.list[j] == Entry(desc.preacquire[j].id, true, true)
       case Restarting => AllAcquired(desc.list)
  }

  /** Lock and owner field of sentinel `id` agree with descriptor `d`. */
  ghost predicate Agrees(s: Sentinel, id: nat, d: nat, desc: Desc) {
    && (s.mutex == Some(d) <==> Holds(desc, id))
    && (s.owner == Some(d) <==> Owns(desc, id))
    && (Pending(desc, id) ==> s.koa)
  }

  /** Reference count, lock and owner field of a sentinel agree with the descriptors. */
  ghost predicate SentOk(st: State, id: nat)
    requires id < |st.sents|
  {
    var s := st.sents[id];
    && s.refcnt == Bit(s.koa) + Namers(st.descs, id)
    && (s.mutex.Some? ==> s.mutex.value < |st.descs|)
    && (s.owner.Some? ==> s.owner.value < |st.descs|)
    && (forall d: nat :: d < |st.descs| ==> Agrees(s, id, d, st.descs[d]))
  }

  ghost predicate Inv(st: State) {
    && (forall d :: 0 <= d < |st.descs| ==> DescOk(st.descs[d], |st.sents|))
    && (forall id: nat :: id < |st.sents| ==> SentOk(st, id))
  }
}
