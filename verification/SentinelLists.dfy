/** What sorting and filtering do to a list of sentinels. */
module SentinelLists {
  import opened Options
  import opened Sentinels

  lemma {:induction false} InsertLonger(e: Entry, list: seq<Entry>)
    ensures |Insert(e, list)| == |list| + 1
  {
    if list != [] { InsertLonger(e, list[..|list| - 1]); }
  }

  lemma {:induction false} InsertMultiset(e: Entry, list: seq<Entry>)
    ensures multiset(Insert(e, list)) == multiset(list) + multiset{e}
  {
    var n := |list| - 1;
    if list != [] && list[n].id > e.id {
      InsertMultiset(e, list[..n]);
      assert list == list[..n] + [list[n]];
    }
  }

  lemma InsertHas(e: Entry, list: seq<Entry>, x: Entry)
    ensures x in Insert(e, list) <==> x in list || x == e
  {
    InsertMultiset(e, list);
    assert x in Insert(e, list) <==> x in multiset(Insert(e, list));
    assert x in list <==> x in multiset(list);
  }

  lemma AppendSorted(list: seq<Entry>, e: Entry)
    requires Sorted(list) && forall x :: x in list ==> x.id <= e.id
    ensures Sorted(list + [e])
  {
    forall i, j | 0 <= i < j < |list| + 1 ensures (list + [e])[i].id <= (list + [e])[j].id {
      assert list[i] in list;
    }
  }

  lemma {:induction false} InsertSorted(e: Entry, list: seq<Entry>)
    requires Sorted(list)
    ensures Sorted(Insert(e, list))
  {
    var n := |list| - 1;
    if list != [] && list[n].id > e.id {
      InsertSorted(e, list[..n]);
      forall x | x in Insert(e, list[..n]) ensures x.id <= list[n].id {
        InsertHas(e, list[..n], x);
      }
      AppendSorted(Insert(e, list[..n]), list[n]);
    } else {
      AppendSorted(list, e);
    }
  }

  lemma {:induction false} SortByIdIs(list: seq<Entry>)
    ensures multiset(SortById(list)) == multiset(list) && Sorted(SortById(list))
  {
    if list != [] {
      var n := |list| - 1;
      SortByIdIs(list[..n]);
      InsertMultiset(list[n], SortById(list[..n]));
      InsertSorted(list[n], SortById(list[..n]));
      assert list == list[..n] + [list[n]];
    }
  }

  lemma AppendStrict(list: seq<Entry>, e: Entry)
    requires StrictlySorted(list) && forall x :: x in list ==> x.id < e.id
    ensures StrictlySorted(list + [e])
  {
    forall i, j | 0 <= i < j < |list| + 1 ensures (list + [e])[i].id < (list + [e])[j].id {
      assert list[i] in list;
    }
  }

  lemma {:induction false} InsertStrict(e: Entry, list: seq<Entry>)
    requires StrictlySorted(list) && !Has(list, e.id)
    ensures StrictlySorted(Insert(e, list))
  {
    var n := |list| - 1;
    if list == [] {
      assert Insert(e, list) == [e];
    } else {
      assert list[n] in list;
      if list[n].id > e.id {
        InsertStrict(e, list[..n]);
        forall x | x in Insert(e, list[..n]) ensures x.id < list[n].id {
          InsertHas(e, list[..n], x);
        }
        AppendStrict(Insert(e, list[..n]), list[n]);
      } else {
        AppendStrict(list, e);
      }
    }
  }

  /** With one entry per sentinel the canonical order is strict. */
  lemma {:induction false} SortByIdStrict(list: seq<Entry>)
    requires Distinct(list)
    ensures StrictlySorted(SortById(list))
  {
    if list != [] {
      var n := |list| - 1;
      SortByIdStrict(list[..n]);
      SortByIdIs(list[..n]);
      forall x | x in SortById(list[..n]) ensures x.id != list[n].id {
        assert x in multiset(SortById(list[..n]));
        assert x in list[..n];
      }
      InsertStrict(list[n], SortById(list[..n]));
    }
  }

  lemma {:induction false} RetainedIs(list: seq<Entry>)
    ensures forall e :: e in Retained(list) <==> !e.acquired && !e.retry && HasRetry(list, e.id)
  {
    if list != [] {
      var n := |list| - 1;
      RetainedIs(list[..n]);
      HasAppended(list[..n], list[n]);
      assert list == list[..n] + [list[n]];
    }
  }

  lemma {:induction false} RetainedDistinct(list: seq<Entry>)
    requires Distinct(list)
    ensures Distinct(Retained(list))
  {
    if list != [] {
      var n := |list| - 1;
      RetainedDistinct(list[..n]);
      forall e | e in Retained(list[..n]) ensures e.id != list[n].id {
        RetainedIs(list[..n]);
        var x :| x in list[..n] && x.id == e.id && x.retry;
        var i :| 0 <= i < n && list[i] == x;
      }
    }
  }

  lemma HasAppended(list: seq<Entry>, e: Entry)
    ensures forall k: nat :: Has(list + [e], k) <==> Has(list, k) || e.id == k
    ensures forall k: nat :: HasAcquired(list + [e], k) <==> HasAcquired(list, k) || (e.id == k && e.acquired)
    ensures forall k: nat :: HasRetry(list + [e], k) <==> HasRetry(list, k) || (e.id == k && e.retry)
  {
    assert e in list + [e];
    assert forall x :: x in list + [e] <==> x in list || x == e;
  }

  lemma HasPrepended(e: Entry, list: seq<Entry>)
    ensures forall k: nat :: Has([e] + list, k) <==> Has(list, k) || e.id == k
    ensures forall k: nat :: HasAcquired([e] + list, k) <==> HasAcquired(list, k) || (e.id == k && e.acquired)
    ensures forall k: nat :: HasRetry([e] + list, k) <==> HasRetry(list, k) || (e.id == k && e.retry)
  {
    assert e in [e] + list;
    assert forall x :: x in [e] + list <==> x in list || x == e;
  }

  /** The list to acquire on a restart: canonical order, each sentinel once, exactly the remembered ones. */
  lemma PreacquireIs(list: seq<Entry>)
    requires Distinct(list)
    ensures var pre := SortById(Retained(list));
            && StrictlySorted(pre)
            && (forall m: nat :: Below(list, m) ==> Below(pre, m))
            && (forall id: nat :: Has(pre, id) <==> HasRetry(list, id))
            && |pre| <= |list|
  {
    var kept := Retained(list);
    var pre := SortById(kept);
    RetainedIs(list);
    RetainedDistinct(list);
    SortByIdIs(kept);
    SortByIdStrict(kept);
    PreacquireShorter(list);
    forall e ensures e in pre <==> e in kept {
      assert e in pre <==> e in multiset(pre);
      assert e in kept <==> e in multiset(kept);
    }
    forall id: nat ensures Has(pre, id) <==> HasRetry(list, id) {
      if HasRetry(list, id) { assert Entry(id, false, false) in pre; }
    }
  }

  lemma {:induction false} RetainedShorter(list: seq<Entry>)
    ensures |Retained(list)| <= |list|
  {
    if list != [] { RetainedShorter(list[..|list| - 1]); }
  }

  lemma {:induction false} PreacquireShorter(list: seq<Entry>)
    ensures |SortById(Retained(list))| <= |list|
  {
    SortSameLength(Retained(list));
    RetainedShorter(list);
  }

  lemma {:induction false} SortSameLength(list: seq<Entry>)
    ensures |SortById(list)| == |list|
  {
    if list != [] {
      var n := |list| - 1;
      SortSameLength(list[..n]);
      InsertLonger(list[n], SortById(list[..n]));
    }
  }
}
