/**
 Commit and undo action lists of a transaction descriptor (src/core/tx.c).

 Every in-place xCall registers actions with a numeric order level. Commit runs level
 after level in registration order; undo runs level after level in reverse registration
 order. The functions below describe the order of execution, the lemmas say what that
 order is, and the methods are the two nested loops of the library.
 */
module TxActions {
  import opened Options

  /** One list entry: the closure (function and argument), the optional error cell, the level. */
  datatype Action<A> = Action(args: A, errorCell: Option<nat>, order: int)

  /** What a pass over an action list has produced so far. */
  datatype Outcome<S> = Outcome(state: S, cells: map<nat, int>, firstError: int)

  const TXC_ACTION_LIST_SIZE: nat := 32
  const REGULAR_ACTION_ORDER := 0
  const KOA_DESTROY_ACTION_ORDER := 1
  const SENTINELMGR_ACTION_ORDER := 2

  // ---------------------------------------------------------------- execution order

  /** Indices below `i` whose action has level `k`, in registration order. */
  function LevelUp<A>(es: seq<Action<A>>, k: int, i: nat): seq<nat>
    requires i <= |es|
  {
    if i == 0 then []
    else LevelUp(es, k, i - 1) + if es[i - 1].order == k then [i - 1] else []
  }

  /** Indices from `i` on whose action has level `k`, last registered first. */
  function LevelDown<A>(es: seq<Action<A>>, k: int, i: nat): seq<nat>
    requires i <= |es|
    decreases |es| - i
  {
    if i == |es| then []
    else LevelDown(es, k, i + 1) + if es[i].order == k then [i] else []
  }

  /** One whole level, in the order commit (`undo` false) or rollback (`undo` true) runs it. */
  function Level<A>(es: seq<Action<A>>, undo: bool, k: int): seq<nat> {
    if undo then LevelDown(es, k, 0) else LevelUp(es, k, |es|)
  }

  /** The levels 0 .. k-1, one after the other. */
  function Levels<A>(es: seq<Action<A>>, undo: bool, k: nat): seq<nat> {
    if k == 0 then [] else Levels(es, undo, k - 1) + Level(es, undo, k - 1)
  }

  predicate NonNegative<A>(es: seq<Action<A>>) {
    forall i :: 0 <= i < |es| ==> 0 <= es[i].order
  }

  /** One more than the highest level, so that Levels(es, undo, Top(es)) runs everything. */
  function Top<A>(es: seq<Action<A>>): (k: nat)
    ensures forall i :: 0 <= i < |es| ==> es[i].order < k
  {
    if es == [] then 0
    else
      var k := Top(es[..|es| - 1]);
      var o := es[|es| - 1].order;
      if o < k then k else o + 1
  }

  /** The indices of `es` in the order in which the generic action runs them. */
  function Schedule<A>(es: seq<Action<A>>, undo: bool): seq<nat> {
    Levels(es, undo, Top(es))
  }

  predicate InRange(t: seq<nat>, n: nat) {
    forall p :: 0 <= p < |t| ==> t[p] < n
  }

  /** Action `i` has to run before action `j`: lower level first, ties by registration. */
  predicate Before<A>(es: seq<Action<A>>, undo: bool, i: nat, j: nat)
    requires i < |es| && j < |es|
  {
    es[i].order < es[j].order || (es[i].order == es[j].order && if undo then j < i else i < j)
  }

  /** `t` names actions of `es` only, each at most once, in the required order. */
  ghost predicate Ordered<A>(es: seq<Action<A>>, undo: bool, t: seq<nat>) {
    && InRange(t, |es|)
    && forall p, q :: 0 <= p < q < |t| ==> Before(es, undo, t[p], t[q])
  }

  /** `t` names exactly the actions of level `k` with index from `lo` up to `hi`. */
  ghost predicate NamesLevel<A>(es: seq<Action<A>>, k: int, lo: nat, hi: nat, t: seq<nat>)
    requires hi <= |es|
  {
    && (forall p :: 0 <= p < |t| ==> lo <= t[p] < hi)
    && (forall j: nat :: j in t ==> j < hi && es[j].order == k)
    && (forall j: nat :: lo <= j < hi && es[j].order == k ==> j in t)
  }

  ghost predicate Monotone(down: bool, t: seq<nat>) {
    forall p, q :: 0 <= p < q < |t| ==> if down then t[q] < t[p] else t[p] < t[q]
  }

  /** One more index at the end of a level, from below or from above. */
  lemma Extend<A>(es: seq<Action<A>>, undo: bool, k: int, lo: nat, hi: nat, t: seq<nat>, i: nat, r: seq<nat>)
    requires lo <= hi <= |es| && i < |es| && NamesLevel(es, k, lo, hi, t) && Monotone(undo, t)
    requires if undo then i == lo - 1 else i == hi
    requires r == t + if es[i].order == k then [i] else []
    ensures Monotone(undo, r) && NamesLevel(es, k, if undo then i else lo, if undo then hi else i + 1, r)
  {
    if es[i].order == k {
      assert r[|t|] == i;
      forall j: nat ensures j in r <==> j in t || j == i { }
      forall p, q | 0 <= p < q < |r| ensures if undo then r[q] < r[p] else r[p] < r[q] {
        assert r[p] == t[p] && lo <= t[p] < hi;
        assert q < |t| ==> r[q] == t[q];
      }
    } else {
      assert r == t;
    }
  }

  lemma {:induction false} LevelUpIs<A>(es: seq<Action<A>>, k: int, i: nat)
    requires i <= |es|
    ensures NamesLevel(es, k, 0, i, LevelUp(es, k, i)) && Monotone(false, LevelUp(es, k, i))
  {
    if i > 0 {
      LevelUpIs(es, k, i - 1);
      Extend(es, false, k, 0, i - 1, LevelUp(es, k, i - 1), i - 1, LevelUp(es, k, i));
    }
  }

  lemma {:induction false} LevelDownIs<A>(es: seq<Action<A>>, k: int, i: nat)
    requires i <= |es|
    ensures NamesLevel(es, k, i, |es|, LevelDown(es, k, i)) && Monotone(true, LevelDown(es, k, i))
    decreases |es| - i
  {
    if i < |es| {
      LevelDownIs(es, k, i + 1);
      Extend(es, true, k, i + 1, |es|, LevelDown(es, k, i + 1), i, LevelDown(es, k, i));
    }
  }

  lemma LevelIs<A>(es: seq<Action<A>>, undo: bool, k: int)
    ensures NamesLevel(es, k, 0, |es|, Level(es, undo, k)) && Ordered(es, undo, Level(es, undo, k))
  {
    if undo { LevelDownIs(es, k, 0); } else { LevelUpIs(es, k, |es|); }
    LevelOrdered(es, undo, k, Level(es, undo, k));
  }

  lemma LevelOrdered<A>(es: seq<Action<A>>, undo: bool, k: int, t: seq<nat>)
    requires NamesLevel(es, k, 0, |es|, t) && Monotone(undo, t)
    ensures Ordered(es, undo, t)
  {
    forall p | 0 <= p < |t| ensures t[p] < |es| { }
    forall p, q | 0 <= p < q < |t| ensures Before(es, undo, t[p], t[q]) {
      assert t[p] in t && t[q] in t;
    }
  }

  /** All actions named by `t` are on levels below `k`. */
  ghost predicate AllBelow<A>(es: seq<Action<A>>, t: seq<nat>, k: int) {
    InRange(t, |es|) && forall p :: 0 <= p < |t| ==> es[t[p]].order < k
  }

  ghost predicate AllOn<A>(es: seq<Action<A>>, t: seq<nat>, k: int) {
    InRange(t, |es|) && forall p :: 0 <= p < |t| ==> es[t[p]].order == k
  }

  /** A level behind the lower ones. */
  lemma OrderedConcat<A>(es: seq<Action<A>>, undo: bool, a: seq<nat>, b: seq<nat>, t: seq<nat>, k: int)
    requires Ordered(es, undo, a) && Ordered(es, undo, b) && AllBelow(es, a, k - 1) && AllOn(es, b, k - 1)
    requires t == a + b
    ensures Ordered(es, undo, t) && AllBelow(es, t, k)
  {
    forall p, q | 0 <= p < q < |t| ensures Before(es, undo, t[p], t[q]) {
      if q < |a| {
        assert t[p] == a[p] && t[q] == a[q];
      } else if |a| <= p {
        assert t[p] == b[p - |a|] && t[q] == b[q - |a|];
      } else {
        assert t[p] == a[p] && t[q] == b[q - |a|];
      }
    }
  }

  lemma LevelAllOn<A>(es: seq<Action<A>>, undo: bool, k: int)
    ensures Ordered(es, undo, Level(es, undo, k)) && AllOn(es, Level(es, undo, k), k)
  {
    var t := Level(es, undo, k);
    LevelIs(es, undo, k);
    forall p | 0 <= p < |t| ensures t[p] < |es| && es[t[p]].order == k { assert t[p] in t; }
  }

  lemma {:induction false} LevelsOrdered<A>(es: seq<Action<A>>, undo: bool, k: nat)
    ensures Ordered(es, undo, Levels(es, undo, k)) && AllBelow(es, Levels(es, undo, k), k)
  {
    if k == 0 {
      assert Levels(es, undo, k) == [];
    } else {
      var lower, top := Levels(es, undo, k - 1), Level(es, undo, k - 1);
      LevelsOrdered(es, undo, k - 1);
      LevelAllOn(es, undo, k - 1);
      OrderedConcat(es, undo, lower, top, Levels(es, undo, k), k);
    }
  }

  /** Action `j` is on one of the levels below `k`. */
  predicate OnLevelBelow<A>(es: seq<Action<A>>, k: int, j: nat) {
    j < |es| && 0 <= es[j].order < k
  }

  predicate IsOnLevel<A>(es: seq<Action<A>>, k: int, j: nat) {
    j < |es| && es[j].order == k
  }

  lemma InConcat(a: seq<nat>, b: seq<nat>, all: seq<nat>, j: nat)
    requires all == a + b
    ensures j in all <==> j in a || j in b
  {
  }

  lemma LevelHas<A>(es: seq<Action<A>>, undo: bool, k: int, j: nat)
    ensures j in Level(es, undo, k) <==> IsOnLevel(es, k, j)
  {
    LevelIs(es, undo, k);
  }

  lemma {:induction false} LevelsHave<A>(es: seq<Action<A>>, undo: bool, k: nat, j: nat)
    ensures j in Levels(es, undo, k) <==> OnLevelBelow(es, k, j)
  {
    if k > 0 {
      var lower, top := Levels(es, undo, k - 1), Level(es, undo, k - 1);
      LevelsHave(es, undo, k - 1, j);
      LevelHas(es, undo, k - 1, j);
      InConcat(lower, top, Levels(es, undo, k), j);
      assert j in Levels(es, undo, k) <==> OnLevelBelow(es, k - 1, j) || IsOnLevel(es, k - 1, j);
    }
  }

  /** The first k levels run exactly the actions with order 0 .. k-1, in the required order. */
  lemma LevelsAre<A>(es: seq<Action<A>>, undo: bool, k: nat)
    ensures Ordered(es, undo, Levels(es, undo, k))
    ensures forall j: nat :: j in Levels(es, undo, k) <==> j < |es| && 0 <= es[j].order < k
  {
    LevelsOrdered(es, undo, k);
    forall j: nat ensures j in Levels(es, undo, k) <==> j < |es| && 0 <= es[j].order < k {
      LevelsHave(es, undo, k, j);
      assert OnLevelBelow(es, k, j) <==> j < |es| && 0 <= es[j].order < k;
    }
  }

  // ---------------------------------------------------------------- counting

  ghost predicate Distinct(t: seq<nat>) {
    forall p, q :: 0 <= p < q < |t| ==> t[p] != t[q]
  }

  /** Taking one number out of a list without repetitions. */
  lemma Remove(t: seq<nat>, p: nat) returns (r: seq<nat>)
    requires Distinct(t) && p < |t|
    ensures |r| == |t| - 1 && Distinct(r)
    ensures forall j: nat :: j in r <==> j in t && j != t[p]
  {
    r := t[..p] + t[p + 1..];
    assert forall q :: 0 <= q < |r| ==> r[q] == t[if q < p then q else q + 1];
    forall j: nat | j in t && j != t[p] ensures j in r {
      var q :| 0 <= q < |t| && t[q] == j;
      assert r[if q < p then q else q - 1] == j;
    }
  }

  /** A list of numbers below `n` without repetitions has all of them if and only if it is `n` long. */
  lemma {:induction false} DistinctBounded(t: seq<nat>, n: nat)
    requires InRange(t, n) && Distinct(t)
    ensures |t| <= n
    ensures |t| == n <==> forall j: nat :: j < n ==> j in t
    decreases n
  {
    if t == [] {
      var j: nat := 0;
      assert j !in t;
    } else if p :| 0 <= p < |t| && t[p] == n - 1 {
      var r := Remove(t, p);
      forall q | 0 <= q < |r| ensures r[q] < n - 1 { assert r[q] in r; }
      DistinctBounded(r, n - 1);
      assert t[p] in t;
    } else {
      assert t[0] < n;
      var last: nat := n - 1;
      assert last !in t;
      DistinctBounded(t, n - 1);
    }
  }

  lemma OrderedDistinct<A>(es: seq<Action<A>>, undo: bool, t: seq<nat>)
    requires Ordered(es, undo, t)
    ensures Distinct(t)
  {
    forall p, q | 0 <= p < q < |t| ensures t[p] != t[q] {
      assert Before(es, undo, t[p], t[q]);
    }
  }

  /**
   Exactly-once: with non-negative orders the schedule runs every registered action once,
   lower levels first and, inside a level, in registration order (commit) or in reverse
   registration order (undo).
   */
  lemma ScheduleRunsAllOnce<A>(es: seq<Action<A>>, undo: bool)
    requires NonNegative(es)
    ensures Ordered(es, undo, Schedule(es, undo))
    ensures |Schedule(es, undo)| == |es|
    ensures forall i: nat :: i < |es| ==> i in Schedule(es, undo)
  {
    var t := Schedule(es, undo);
    LevelsAre(es, undo, Top(es));
    OrderedDistinct(es, undo, t);
    DistinctBounded(t, |es|);
  }

  lemma FirstPrecedes<A>(es: seq<Action<A>>, undo: bool, t: seq<nat>, j: nat)
    requires Ordered(es, undo, t) && j in t
    ensures j == t[0] || Before(es, undo, t[0], j)
  {
    var p :| 0 <= p < |t| && t[p] == j;
    assert p > 0 ==> Before(es, undo, t[0], t[p]);
  }

  /** The required order leaves no choice: any complete ordered listing is the schedule. */
  lemma {:induction false} ScheduleUnique<A>(es: seq<Action<A>>, undo: bool, t: seq<nat>, u: seq<nat>)
    requires Ordered(es, undo, t) && Ordered(es, undo, u)
    requires forall j: nat :: j in t <==> j in u
    ensures t == u
  {
    assert t != [] ==> t[0] in u;
    assert u != [] ==> u[0] in t;
    if t != [] {
      // Both start with the one action that precedes all the others.
      FirstPrecedes(es, undo, t, u[0]);
      FirstPrecedes(es, undo, u, t[0]);
      OrderedDistinct(es, undo, t);
      OrderedDistinct(es, undo, u);
      forall j: nat ensures j in t[1..] <==> j in u[1..] {
        assert j in t[1..] <==> j in t && j != t[0];
        assert j in u[1..] <==> j in u && j != u[0];
      }
      ScheduleUnique(es, undo, t[1..], u[1..]);
      assert t == [t[0]] + t[1..] && u == [u[0]] + u[1..];
    }
  }

  /**
   The loop stops when the number of executed actions equals the number of entries. It gets
   there if and only if no registered order is negative.
   */
  lemma LoopStopsIffNonNegative<A>(es: seq<Action<A>>, undo: bool)
    ensures (exists k: nat :: |Levels(es, undo, k)| == |es|) <==> NonNegative(es)
  {
    if NonNegative(es) {
      ScheduleRunsAllOnce(es, undo);
      assert |Levels(es, undo, Top(es))| == |es|;
    }
    forall k: nat | |Levels(es, undo, k)| == |es| ensures NonNegative(es) {
      var t := Levels(es, undo, k);
      LevelsAre(es, undo, k);
      OrderedDistinct(es, undo, t);
      DistinctBounded(t, |es|);
      forall i | 0 <= i < |es| ensures 0 <= es[i].order {
        assert i as nat in t;
        var p :| 0 <= p < |t| && t[p] == i;
      }
    }
  }

  /** Release of the sentinels (level 2) and what follows it come after every compensation (levels 0 and 1). */
  lemma SentinelReleaseAfterCompensation<A>(es: seq<Action<A>>, undo: bool, p: nat, q: nat)
    requires NonNegative(es)
    requires p < |Schedule(es, undo)| && q < |Schedule(es, undo)|
    requires InRange(Schedule(es, undo), |es|)
    requires es[Schedule(es, undo)[p]].order <= KOA_DESTROY_ACTION_ORDER
    requires es[Schedule(es, undo)[q]].order >= SENTINELMGR_ACTION_ORDER
    ensures p < q
  {
    ScheduleRunsAllOnce(es, undo);
  }

  /** Rolling back regular actions is plain reverse registration order. */
  lemma RegularUndoIsReverse<A>(es: seq<Action<A>>, i: nat)
    requires forall j :: 0 <= j < |es| ==> es[j].order == REGULAR_ACTION_ORDER
    requires i < |es|
    ensures |Schedule(es, true)| == |es| && Schedule(es, true)[i] == |es| - 1 - i
  {
    ScheduleRunsAllOnce(es, true);
    var r := seq(|es|, p requires 0 <= p < |es| => (|es| - 1 - p) as nat);
    forall j: nat ensures j in Schedule(es, true) <==> j in r {
      assert j < |es| ==> r[|es| - 1 - j] == j;
    }
    ScheduleUnique(es, true, Schedule(es, true), r);
  }

  // ---------------------------------------------------------------- effect of a schedule

  /** Runs the actions named by `t`, one after the other. */
  function Exec<A, S>(es: seq<Action<A>>, run: (A, S) -> (S, int), t: seq<nat>, o: Outcome<S>): Outcome<S>
    requires InRange(t, |es|)
  {
    if t == [] then o
    else
      var n := |t| - 1;
      var before := Exec(es, run, t[..n], o);
      var (s, err) := run(es[t[n]].args, before.state);
      Outcome(s,
              match es[t[n]].errorCell case None => before.cells case Some(c) => before.cells[c := err],
              if before.firstError == 0 then err else before.firstError)
  }

  /** What the actions named by `t` make of a state, whatever becomes of their errors. */
  function StateAfter<A, S>(es: seq<Action<A>>, run: (A, S) -> (S, int), t: seq<nat>, s: S): S
    requires InRange(t, |es|)
  {
    if t == [] then s else run(es[t[|t| - 1]].args, StateAfter(es, run, t[..|t| - 1], s)).0
  }

  /** The error codes the actions named by `t` return, in the order they run. */
  function Errors<A, S>(es: seq<Action<A>>, run: (A, S) -> (S, int), t: seq<nat>, s: S): (r: seq<int>)
    requires InRange(t, |es|)
    ensures |r| == |t|
  {
    if t == [] then []
    else
      var n := |t| - 1;
      Errors(es, run, t[..n], s) + [run(es[t[n]].args, StateAfter(es, run, t[..n], s)).1]
  }

  /** The p-th action executed reports to cell `c`. */
  predicate ReportsTo<A>(es: seq<Action<A>>, t: seq<nat>, p: nat, c: nat)
    requires InRange(t, |es|) && p < |t|
  {
    es[t[p]].errorCell == Some(c)
  }

  /** The p-th action executed is the last one that reports to cell `c`. */
  ghost predicate LastToReport<A>(es: seq<Action<A>>, t: seq<nat>, p: nat, c: nat)
    requires InRange(t, |es|) && p < |t|
  {
    ReportsTo(es, t, p, c) && forall q: nat :: p < q < |t| ==> !ReportsTo(es, t, q, c)
  }

  /** A cell holds the error of the last action that reports to it; without one it is as before. */
  ghost predicate CellHolds<A>(es: seq<Action<A>>, t: seq<nat>, errs: seq<int>, before: map<nat, int>,
                               after: map<nat, int>, c: nat)
    requires InRange(t, |es|) && |errs| == |t|
  {
    if exists p: nat :: p < |t| && ReportsTo(es, t, p, c) then
      exists p: nat :: p < |t| && LastToReport(es, t, p, c) && c in after && after[c] == errs[p]
    else
      (c in after <==> c in before) && (c in after ==> after[c] == before[c])
  }

  /** The outcome of a pass: the state, every error cell, and the first error. */
  ghost predicate Passed<A, S>(es: seq<Action<A>>, run: (A, S) -> (S, int), t: seq<nat>, start: Outcome<S>,
                                     o: Outcome<S>)
    requires InRange(t, |es|)
  {
    var errs := Errors(es, run, t, start.state);
    && o.state == StateAfter(es, run, t, start.state)
    && (forall c: nat :: CellHolds(es, t, errs, start.cells, o.cells, c))
    && (start.firstError == 0 ==> IsFirstNonZero(o.firstError, errs))
  }

  ghost predicate IsFirstNonZero(first: int, errs: seq<int>) {
    if first == 0 then forall p :: 0 <= p < |errs| ==> errs[p] == 0
    else exists p :: 0 <= p < |errs| && errs[p] == first && forall q :: 0 <= q < p ==> errs[q] == 0
  }

  lemma FirstNonZeroExtends(first: int, errs: seq<int>, err: int)
    requires IsFirstNonZero(first, errs)
    ensures IsFirstNonZero(if first == 0 then err else first, errs + [err])
  {
    var all := errs + [err];
    if first == 0 {
      assert all[|errs|] == err;
    } else {
      var p :| 0 <= p < |errs| && errs[p] == first && forall q :: 0 <= q < p ==> errs[q] == 0;
      assert all[p] == first && forall q :: 0 <= q < p ==> all[q] == 0;
    }
  }

  /** The error handed to the failure manager is the first non-zero one, or zero. */
  lemma {:induction false} FirstErrorIsFirst<A, S>(es: seq<Action<A>>, run: (A, S) -> (S, int), t: seq<nat>,
                                                   o: Outcome<S>)
    requires InRange(t, |es|)
    requires o.firstError == 0
    ensures IsFirstNonZero(Exec(es, run, t, o).firstError, Errors(es, run, t, o.state))
  {
    if t != [] {
      var n := |t| - 1;
      FirstErrorIsFirst(es, run, t[..n], o);
      ExecState(es, run, t[..n], o);
      FirstNonZeroExtends(Exec(es, run, t[..n], o).firstError, Errors(es, run, t[..n], o.state),
                          run(es[t[n]].args, Exec(es, run, t[..n], o).state).1);
    }
  }

  lemma {:induction false} ExecState<A, S>(es: seq<Action<A>>, run: (A, S) -> (S, int), t: seq<nat>, o: Outcome<S>)
    requires InRange(t, |es|)
    ensures Exec(es, run, t, o).state == StateAfter(es, run, t, o.state)
  {
    if t != [] { ExecState(es, run, t[..|t| - 1], o); }
  }

  /** One more action: its own cell gets its error, the other cells keep what they hold. */
  lemma CellExtends<A>(es: seq<Action<A>>, t: seq<nat>, errs: seq<int>, err: int, before: map<nat, int>,
                       mid: map<nat, int>, after: map<nat, int>, c: nat)
    requires t != [] && InRange(t, |es|) && |errs| == |t| - 1
    requires CellHolds(es, t[..|t| - 1], errs, before, mid, c)
    requires if es[t[|t| - 1]].errorCell == Some(c) then c in after && after[c] == err
             else (c in after <==> c in mid) && (c in after ==> after[c] == mid[c])
    ensures CellHolds(es, t, errs + [err], before, after, c)
  {
    var n: nat, front, all := |t| - 1, t[..|t| - 1], errs + [err];
    forall p: nat | p < n ensures ReportsTo(es, t, p, c) <==> ReportsTo(es, front, p, c) { }
    if ReportsTo(es, t, n, c) {
      assert LastToReport(es, t, n, c) && all[n] == err;
    } else if q: nat :| q < n && ReportsTo(es, front, q, c) {
      assert ReportsTo(es, t, q, c);
      var p: nat :| p < n && LastToReport(es, front, p, c) && c in mid && mid[c] == errs[p];
      assert LastToReport(es, t, p, c) && all[p] == errs[p];
    }
  }

  /** Every error cell ends up with the error of the last action that reports to it. */
  lemma {:induction false} CellsHoldLastErrors<A, S>(es: seq<Action<A>>, run: (A, S) -> (S, int), t: seq<nat>,
                                                     o: Outcome<S>, c: nat)
    requires InRange(t, |es|)
    ensures CellHolds(es, t, Errors(es, run, t, o.state), o.cells, Exec(es, run, t, o).cells, c)
  {
    if t != [] {
      var n := |t| - 1;
      CellsHoldLastErrors(es, run, t[..n], o, c);
      ExecState(es, run, t[..n], o);
      CellExtends(es, t, Errors(es, run, t[..n], o.state), run(es[t[n]].args, StateAfter(es, run, t[..n], o.state)).1,
                  o.cells, Exec(es, run, t[..n], o).cells, Exec(es, run, t, o).cells, c);
    }
  }

  lemma ExecPasses<A, S>(es: seq<Action<A>>, run: (A, S) -> (S, int), t: seq<nat>, o: Outcome<S>)
    requires InRange(t, |es|)
    ensures Passed(es, run, t, o, Exec(es, run, t, o))
  {
    ExecState(es, run, t, o);
    forall c: nat ensures CellHolds(es, t, Errors(es, run, t, o.state), o.cells, Exec(es, run, t, o).cells, c) {
      CellsHoldLastErrors(es, run, t, o, c);
    }
    if o.firstError == 0 { FirstErrorIsFirst(es, run, t, o); }
  }

  // ---------------------------------------------------------------- the growable list

  class ActionList<A(0)> {
    var entries: array<Action<A>>
    var numEntries: nat

    ghost predicate Valid()
      reads this
    {
      0 < entries.Length && numEntries <= entries.Length
    }

    ghost function Contents(): seq<Action<A>>
      requires Valid()
      reads this, entries
    {
      entries[..numEntries]
    }

    constructor ()
      ensures Valid() && fresh(entries) && Contents() == []
    {
      entries := new Action<A>[TXC_ACTION_LIST_SIZE];
      numEntries := 0;
    }

    /** register_action: append, doubling the array when it is full. */
    method Register(args: A, errorCell: Option<nat>, order: int)
      requires Valid()
      modifies this, entries
      ensures Valid() && (entries == old(entries) || fresh(entries))
      ensures Contents() == old(Contents()) + [Action(args, errorCell, order)]
    {
      if numEntries == entries.Length {
        var bigger := new Action<A>[2 * entries.Length];
        forall i | 0 <= i < numEntries {
          bigger[i] := entries[i];
        }
        entries := bigger;
      }
      entries[numEntries] := Action(args, errorCell, order);
      numEntries := numEntries + 1;
    }

    /** txc_tx_init: the list is emptied in place. */
    method Reset()
      requires Valid()
      modifies this`numEntries
      ensures Valid() && Contents() == []
    {
      numEntries := 0;
    }
  }

  /** Runs one entry and books its result: the loop body shared by the two generic actions. */
  method RunEntry<A(0), S>(list: ActionList<A>, run: (A, S) -> (S, int), i: nat, ghost t: seq<nat>,
                           ghost o: Outcome<S>, now: Outcome<S>) returns (next: Outcome<S>)
    requires list.Valid() && i < list.numEntries
    requires InRange(t, list.numEntries)
    requires now == Exec(list.Contents(), run, t, o)
    ensures next == Exec(list.Contents(), run, t + [i], o)
    ensures Passed(list.Contents(), run, t + [i], o, next)
  {
    var entry := list.entries[i];
    var (s, err) := run(entry.args, now.state);
    var cells := now.cells;
    if entry.errorCell.Some? {
      cells := cells[entry.errorCell.value := err];
    }
    next := Outcome(s, cells, if now.firstError == 0 then err else now.firstError);
    assert (t + [i])[..|t|] == t;
    ExecPasses(list.Contents(), run, t + [i], o);
  }

  /** If actions are left after the levels below `k`, one of them is on level `k` or above. */
  lemma SomethingLeft<A>(es: seq<Action<A>>, undo: bool, k: nat)
    requires NonNegative(es) && |Levels(es, undo, k)| != |es|
    ensures k < Top(es)
  {
    if Top(es) <= k {
      var t := Levels(es, undo, k);
      LevelsAre(es, undo, k);
      OrderedDistinct(es, undo, t);
      DistinctBounded(t, |es|);
    }
  }

  /** Once everything has run, the levels run so far are the whole schedule. */
  lemma NothingLeft<A>(es: seq<Action<A>>, undo: bool, k: nat)
    requires NonNegative(es) && |Levels(es, undo, k)| == |es|
    ensures Levels(es, undo, k) == Schedule(es, undo)
  {
    LevelsAre(es, undo, k);
    LevelsAre(es, undo, Top(es));
    OrderedDistinct(es, undo, Levels(es, undo, k));
    DistinctBounded(Levels(es, undo, k), |es|);
    ScheduleUnique(es, undo, Levels(es, undo, k), Schedule(es, undo));
  }

  lemma DownOne<A>(es: seq<Action<A>>, order: int, i: nat, done: seq<nat>)
    requires i < |es|
    ensures es[i].order == order ==>
              done + LevelDown(es, order, i) == (done + LevelDown(es, order, i + 1)) + [i]
              && |LevelDown(es, order, i)| == |LevelDown(es, order, i + 1)| + 1
    ensures es[i].order != order ==> LevelDown(es, order, i) == LevelDown(es, order, i + 1)
  {
  }

  lemma UpOne<A>(es: seq<Action<A>>, order: int, i: nat, done: seq<nat>)
    requires i < |es|
    ensures es[i].order == order ==>
              done + LevelUp(es, order, i + 1) == (done + LevelUp(es, order, i)) + [i]
              && |LevelUp(es, order, i + 1)| == |LevelUp(es, order, i)| + 1
    ensures es[i].order != order ==> LevelUp(es, order, i + 1) == LevelUp(es, order, i)
  {
  }

  /** The inner loop of tx_generic_undo_action: one level, last registered action first. */
  method UndoLevel<A(0), S>(list: ActionList<A>, run: (A, S) -> (S, int), order: int, ghost done: seq<nat>,
                            ghost start: Outcome<S>, now: Outcome<S>) returns (o: Outcome<S>, executed: nat)
    requires list.Valid() && InRange(done, list.numEntries)
    requires now == Exec(list.Contents(), run, done, start)
    ensures InRange(done + LevelDown(list.Contents(), order, 0), list.numEntries)
    ensures executed == |LevelDown(list.Contents(), order, 0)|
    ensures o == Exec(list.Contents(), run, done + LevelDown(list.Contents(), order, 0), start)
    ensures Passed(list.Contents(), run, done + LevelDown(list.Contents(), order, 0), start, o)
  {
    ghost var es := list.Contents();
    o, executed := now, 0;
    var i := list.numEntries - 1;
    ghost var t: seq<nat> := done;
    assert done + LevelDown(es, order, i + 1) == done;
    while i >= 0
      invariant -1 <= i < list.numEntries
      invariant InRange(t, |es|) && t == done + LevelDown(es, order, i + 1)
      invariant executed == |LevelDown(es, order, i + 1)|
      invariant o == Exec(es, run, t, start)
    {
      if list.entries[i].order == order {
        o := RunEntry(list, run, i, t, start, o);
        t := t + [i];
        executed := executed + 1;
      }
      DownOne(es, order, i, done);
      i := i - 1;
    }
    assert t == done + LevelDown(es, order, 0);
    ExecPasses(es, run, t, start);
  }

  /** The inner loop of tx_generic_commit_action: one level in registration order. */
  method CommitLevel<A(0), S>(list: ActionList<A>, run: (A, S) -> (S, int), order: int, ghost done: seq<nat>,
                              ghost start: Outcome<S>, now: Outcome<S>) returns (o: Outcome<S>, executed: nat)
    requires list.Valid() && InRange(done, list.numEntries)
    requires now == Exec(list.Contents(), run, done, start)
    ensures InRange(done + LevelUp(list.Contents(), order, list.numEntries), list.numEntries)
    ensures executed == |LevelUp(list.Contents(), order, list.numEntries)|
    ensures o == Exec(list.Contents(), run, done + LevelUp(list.Contents(), order, list.numEntries), start)
    ensures Passed(list.Contents(), run, done + LevelUp(list.Contents(), order, list.numEntries), start, o)
  {
    ghost var es := list.Contents();
    o, executed := now, 0;
    ghost var t: seq<nat> := done;
    assert done + LevelUp(es, order, 0) == done;
    for i := 0 to list.numEntries
      invariant InRange(t, |es|) && t == done + LevelUp(es, order, i)
      invariant executed == |LevelUp(es, order, i)|
      invariant o == Exec(es, run, t, start)
    {
      if list.entries[i].order == order {
        o := RunEntry(list, run, i, t, start, o);
        t := t + [i];
        executed := executed + 1;
      }
      UpOne(es, order, i, done);
    }
    assert t == done + LevelUp(es, order, list.numEntries);
    ExecPasses(es, run, t, start);
  }

  /** tx_generic_undo_action up to and including the reset of the undo list. */
  method GenericUndo<A(0), S>(list: ActionList<A>, run: (A, S) -> (S, int), s: S, cells: map<nat, int>)
    returns (o: Outcome<S>)
    requires list.Valid() && NonNegative(list.Contents())
    modifies list`numEntries
    ensures list.Valid() && list.Contents() == []
    ensures var es := old(list.Contents());
            && Ordered(es, true, Schedule(es, true)) && |Schedule(es, true)| == |es|
            && o == Exec(es, run, Schedule(es, true), Outcome(s, cells, 0))
            && Passed(es, run, Schedule(es, true), Outcome(s, cells, 0), o)
  {
    ghost var es := list.Contents();
    ghost var start := Outcome(s, cells, 0);
    o := Outcome(s, cells, 0);
    var order, executed := 0, 0;
    ghost var done: seq<nat> := [];
    ScheduleRunsAllOnce(es, true);
    while executed != list.numEntries
      invariant list.Valid() && list.numEntries == |es| && list.Contents() == es
      invariant 0 <= order && done == Levels(es, true, order) && executed == |done|
      invariant InRange(done, |es|) && o == Exec(es, run, done, start)
      decreases Top(es) - order
    {
      SomethingLeft(es, true, order);
      var n;
      o, n := UndoLevel(list, run, order, done, start, o);
      done := done + LevelDown(es, order, 0);
      executed, order := executed + n, order + 1;
    }
    NothingLeft(es, true, order);
    ExecPasses(es, run, Schedule(es, true), start);
    list.Reset();
  }

  /** tx_generic_commit_action up to and including the reset of the commit list. */
  method GenericCommit<A(0), S>(list: ActionList<A>, run: (A, S) -> (S, int), s: S, cells: map<nat, int>)
    returns (o: Outcome<S>)
    requires list.Valid() && NonNegative(list.Contents())
    modifies list`numEntries
    ensures list.Valid() && list.Contents() == []
    ensures var es := old(list.Contents());
            && Ordered(es, false, Schedule(es, false)) && |Schedule(es, false)| == |es|
            && o == Exec(es, run, Schedule(es, false), Outcome(s, cells, 0))
            && Passed(es, run, Schedule(es, false), Outcome(s, cells, 0), o)
  {
    ghost var es := list.Contents();
    ghost var start := Outcome(s, cells, 0);
    o := Outcome(s, cells, 0);
    var order, executed := 0, 0;
    ghost var done: seq<nat> := [];
    ScheduleRunsAllOnce(es, false);
    while executed != list.numEntries
      invariant list.Valid() && list.numEntries == |es| && list.Contents() == es
      invariant 0 <= order && done == Levels(es, false, order) && executed == |done|
      invariant InRange(done, |es|) && o == Exec(es, run, done, start)
      decreases Top(es) - order
    {
      SomethingLeft(es, false, order);
      var n;
      o, n := CommitLevel(list, run, order, done, start, o);
      done := done + LevelUp(es, order, |es|);
      executed, order := executed + n, order + 1;
    }
    NothingLeft(es, false, order);
    ExecPasses(es, run, Schedule(es, false), start);
    list.Reset();
  }
}
