/**
 The action lists of a transaction (src/core/tx.c) and the sentinel protocol together: while
 a descriptor runs its actions, the others go on, and its sentinels are released by actions
 of the sentinel manager. That these come last is not assumed here, it follows from the
 order of execution in module TxActions.
 */
module SentinelSchedule {
  import opened Options
  import opened Sentinels
  import opened SentinelInvariant
  import opened SentinelTheorems
  import opened TxActions

  /** An action of the sentinel manager, or of the statistics behind it. */
  predicate IsLate<A>(es: seq<Action<A>>, i: nat)
    requires i < |es|
  {
    es[i].order >= SENTINELMGR_ACTION_ORDER
  }

  /** All steps taken while the actions ran, `parts[p]` while the p-th one did. */
  function Flat(parts: seq<seq<Step>>): seq<Step> {
    if parts == [] then [] else Flat(parts[..|parts| - 1]) + parts[|parts| - 1]
  }

  /** The p-th action is the first one that is not of the levels 0 and 1. */
  predicate FirstLate<A>(es: seq<Action<A>>, t: seq<nat>, p: nat)
    requires InRange(t, |es|) && p < |t|
  {
    IsLate(es, t[p]) && forall q :: 0 <= q < p ==> !IsLate(es, t[q])
  }

  /** All the steps are other descriptors' or objects'. */
  predicate NotOf(run: seq<Step>, d: nat) {
    forall k :: 0 <= k < |run| ==> !(run[k].TxStep? && run[k].d == d)
  }

  /**
   The steps are those of a descriptor running its list: actions of the levels 0 and 1 take no
   step of its sentinel protocol, and the first of level 2 begins with the passage to it.
   */
  ghost predicate Runs<A>(es: seq<Action<A>>, undo: bool, d: nat, parts: seq<seq<Step>>) {
    var t := Schedule(es, undo);
    && InRange(t, |es|) && |parts| == |t|
    && (forall p :: 0 <= p < |t| && !IsLate(es, t[p]) ==> NotOf(parts[p], d))
    && (forall p :: 0 <= p < |t| && FirstLate(es, t, p) && es[t[p]].order == SENTINELMGR_ACTION_ORDER ==>
          parts[p] != [] && parts[p][0] == TxStep(d, Compensated))
  }

  /** If action p is of level 0 or 1, so are those before it. */
  lemma NoneBefore<A>(es: seq<Action<A>>, undo: bool, d: nat, parts: seq<seq<Step>>, p: nat, q: nat)
    requires NonNegative(es) && Runs(es, undo, d, parts) && q <= p < |parts|
    requires !IsLate(es, Schedule(es, undo)[p])
    ensures NotOf(parts[q], d)
  {
    var t := Schedule(es, undo);
    if IsLate(es, t[q]) {
      SentinelReleaseAfterCompensation(es, undo, p, q);
    }
  }

  lemma {:induction false} FlatNotOf(parts: seq<seq<Step>>, d: nat)
    requires forall p :: 0 <= p < |parts| ==> NotOf(parts[p], d)
    ensures NotOf(Flat(parts), d)
  {
    if parts != [] { FlatNotOf(parts[..|parts| - 1], d); }
  }

  lemma {:induction false} FlatSplits(parts: seq<seq<Step>>, k: nat)
    requires k <= |parts|
    ensures Flat(parts[..k]) <= Flat(parts)
    decreases |parts|
  {
    if k < |parts| {
      FlatSplits(parts[..|parts| - 1], k);
      assert parts[..|parts| - 1][..k] == parts[..k];
    } else {
      assert parts[..k] == parts;
    }
  }

  lemma {:induction false} LegalPrefix(st: State, run: seq<Step>, n: nat)
    requires Legal(st, run) && n <= |run|
    ensures Legal(st, run[..n])
    decreases n
  {
    if n > 0 {
      LegalPrefix(Next(st, run[0]), run[1..], n - 1);
      assert run[..n][1..] == run[1..][..n - 1];
    }
  }

  /** What the others do leaves a descriptor as it is. */
  lemma {:induction false} OthersKeepDesc(st: State, run: seq<Step>, d: nat)
    requires Legal(st, run) && NotOf(run, d) && d < |st.descs|
    ensures |Final(st, run).descs| == |st.descs| && Final(st, run).descs[d] == st.descs[d]
    decreases |run|
  {
    if run != [] {
      assert !(run[0].TxStep? && run[0].d == d);
      OthersKeepDesc(Next(st, run[0]), run[1..], d);
    }
  }

  lemma UpToIsNotOf<A>(es: seq<Action<A>>, undo: bool, d: nat, parts: seq<seq<Step>>, p: nat)
    requires NonNegative(es) && Runs(es, undo, d, parts) && p < |parts|
    requires !IsLate(es, Schedule(es, undo)[p])
    ensures NotOf(Flat(parts[..p + 1]), d)
  {
    var first := parts[..p + 1];
    forall q | 0 <= q < |first| ensures NotOf(first[q], d) {
      NoneBefore(es, undo, d, parts, p, q);
    }
    FlatNotOf(first, d);
  }

  /**
   Until the last action of the levels 0 and 1 of a commit or an abort has run, at every moment,
   the descriptor has not left its phase and is the one inside the mutex of what it owns, and
   nobody else is.
   */
  lemma IsolatedWhileActionsRun<A>(st: State, es: seq<Action<A>>, undo: bool, d: nat, id: nat,
                                   parts: seq<seq<Step>>, p: nat, n: nat)
    requires Inv(st) && d < |st.descs| && id < |st.sents| && Owns(st.descs[d], id)
    requires st.descs[d].phase.Compensating? && NonNegative(es) && Runs(es, undo, d, parts)
    requires Legal(st, Flat(parts)) && p < |parts| && !IsLate(es, Schedule(es, undo)[p])
    requires n <= |Flat(parts[..p + 1])|
    ensures n <= |Flat(parts)| && Legal(st, Flat(parts)[..n])
    ensures var fin := Final(st, Flat(parts)[..n]);
            && |fin.descs| == |st.descs| && |fin.sents| == |st.sents| && fin.descs[d] == st.descs[d]
            && fin.sents[id].owner == Some(d) && fin.sents[id].mutex == Some(d)
            && forall e: nat :: e < |fin.descs| && e != d ==> !Holds(fin.descs[e], id)
  {
    var all, some := Flat(parts), Flat(parts[..p + 1]);
    FlatSplits(parts, p + 1);
    UpToIsNotOf(es, undo, d, parts, p);
    var run := all[..n];
    LegalPrefix(st, all, n);
    assert NotOf(run, d) by {
      forall k | 0 <= k < n ensures !(run[k].TxStep? && run[k].d == d) { assert run[k] == some[k]; }
    }
    OthersKeepDesc(st, run, d);
    IsolatedThroughCompensation(st, run, d, id);
  }

  /** The actions of level 2 and above are the last ones. */
  lemma {:induction false} LateComeLast<A>(es: seq<Action<A>>, undo: bool, n: nat) returns (q: nat)
    requires NonNegative(es) && InRange(Schedule(es, undo), |es|) && n <= |Schedule(es, undo)|
    ensures q <= n
    ensures forall p :: 0 <= p < n ==> (IsLate(es, Schedule(es, undo)[p]) <==> q <= p)
  {
    if n == 0 {
      q := 0;
    } else {
      var t := Schedule(es, undo);
      q := LateComeLast(es, undo, n - 1);
      if q < n - 1 && !IsLate(es, t[n - 1]) {
        SentinelReleaseAfterCompensation(es, undo, n - 1, q);
      } else if q == n - 1 && !IsLate(es, t[n - 1]) {
        q := n;
      }
    }
  }

  /**
   The passage to the release of the sentinels is where the first action of the manager begins:
   all actions before it are of the levels 0 and 1, all from it on of level 2 and above, and up to
   it the descriptor has not moved.
   */
  lemma CompensatedAtFirstLate<A>(st: State, es: seq<Action<A>>, undo: bool, d: nat, parts: seq<seq<Step>>)
    returns (q: nat)
    requires d < |st.descs| && NonNegative(es) && Runs(es, undo, d, parts) && Legal(st, Flat(parts))
    ensures q <= |parts|
    ensures forall p :: 0 <= p < |parts| ==> (IsLate(es, Schedule(es, undo)[p]) <==> q <= p)
    ensures q < |parts| && es[Schedule(es, undo)[q]].order == SENTINELMGR_ACTION_ORDER ==>
              parts[q] != [] && parts[q][0] == TxStep(d, Compensated)
    ensures Legal(st, Flat(parts[..q]))
    ensures |Final(st, Flat(parts[..q])).descs| == |st.descs| && Final(st, Flat(parts[..q])).descs[d] == st.descs[d]
  {
    q := LateComeLast(es, undo, |parts|);
    if q < |parts| { assert FirstLate(es, Schedule(es, undo), q); }
    FlatSplits(parts, q);
    LegalPrefix(st, Flat(parts), |Flat(parts[..q])|);
    assert Flat(parts)[..|Flat(parts[..q])|] == Flat(parts[..q]);
    if q > 0 { UpToIsNotOf(es, undo, d, parts, q - 1); }
    OthersKeepDesc(st, Flat(parts[..q]), d);
  }
}
