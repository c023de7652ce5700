/**
 * The dependency-aware work queue that schedules the resampling workers.
 *
 * A worker is either eligible (in a FIFO queue, ready to be taken) or blocked
 * (kept as a list whose head is the worker and whose tail is the workers it
 * still waits for).  Completing a worker removes it from every blocked list;
 * a list left with only its head moves that worker to the eligible queue.
 *
 * Workers are compared with `==`, as Java's `List.remove(Object)` compares
 * them with `equals`.  The wrapper that releases a worker's dependents after it
 * runs is modelled by `Complete`; the eligible queue holds the workers it wraps.
 */
module WorkerQueue {

  /** The position of the first occurrence of `d` in `s`. */
  function IndexOf<W(==)>(s: seq<W>, d: W): (i: nat)
    requires d in s
    ensures i < |s| && s[i] == d && d !in s[..i]
  {
    if s[0] == d then 0 else 1 + IndexOf(s[1..], d)
  }

  /** `List.remove(Object)`: drops the first occurrence of `d`, if there is one. */
  function RemoveFirst<W(==)>(s: seq<W>, d: W): (r: seq<W>)
    ensures d in s ==> |r| == |s| - 1
    ensures d !in s ==> r == s
  {
    if |s| == 0 then s
    else if s[0] == d then s[1..]
    else
      assert s == [s[0]] + s[1..];
      [s[0]] + RemoveFirst(s[1..], d)
  }

  /** What is removed is the first occurrence: the list closes up around it. */
  lemma {:induction false} RemoveFirstSplits<W>(s: seq<W>, d: W)
    requires d in s
    ensures RemoveFirst(s, d) == s[..IndexOf(s, d)] + s[IndexOf(s, d) + 1..]
  {
    if s[0] != d {
      var t := s[1..];
      assert s == [s[0]] + t;
      RemoveFirstSplits(t, d);
      var j := IndexOf(t, d);
      assert IndexOf(s, d) == 1 + j;
      CloseUpAfterHead(s, j);
      assert RemoveFirst(s, d) == [s[0]] + RemoveFirst(t, d);
    }
  }

  /** Closing up a list around position `j + 1` is closing up its tail around `j`, behind the head. */
  lemma CloseUpAfterHead<W>(s: seq<W>, j: nat)
    requires j + 1 < |s|
    ensures s[..1 + j] + s[2 + j..] == [s[0]] + (s[1..][..j] + s[1..][j + 1..])
  {
    var t := s[1..];
    assert s[..1 + j] == [s[0]] + t[..j];
    assert s[2 + j..] == t[j + 1..];
  }

  /** Removing an occurrence takes exactly one copy of `d` out of the list. */
  lemma {:induction false} RemoveFirstTakesOneCopy<W>(s: seq<W>, d: W)
    requires d in s
    ensures multiset(RemoveFirst(s, d)) == multiset(s) - multiset{d}
  {
    assert s == [s[0]] + s[1..];
    if s[0] != d {
      RemoveFirstTakesOneCopy(s[1..], d);
    }
  }

  /** The result of releasing one dependency: the lists still blocked and the workers promoted, in order. */
  datatype Released<W> = Released(kept: seq<seq<W>>, promoted: seq<W>)

  /** One pass over the blocked lists, front to back, as `releaseBlockedWorkers` makes it. */
  function Release<W(==)>(blocked: seq<seq<W>>, d: W): (r: Released<W>)
    ensures |r.kept| + |r.promoted| == |blocked|
  {
    if |blocked| == 0 then Released([], [])
    else
      var r := Release(blocked[..|blocked| - 1], d);
      var list := RemoveFirst(blocked[|blocked| - 1], d);
      if |list| == 1 then Released(r.kept, r.promoted + [list[0]])
      else Released(r.kept + [list], r.promoted)
  }

  /** Whether releasing `d` empties the dependencies of `list`. */
  predicate Promotes<W(==)>(list: seq<W>, d: W)
  {
    |RemoveFirst(list, d)| == 1
  }

  class DependentWorkerQueue<W(==)> {
    /** The blocked workers, each as `[worker] + outstanding dependencies`. */
    var blocked: seq<seq<W>>
    /** The eligible workers, the next to be taken first. */
    var eligible: seq<W>

    constructor ()
      ensures blocked == [] && eligible == []
    {
      blocked := [];
      eligible := [];
    }

    function Size(): nat
      reads this
    {
      |blocked| + |eligible|
    }

    function IsEmpty(): (b: bool)
      reads this
      ensures b <==> Size() == 0
    {
      blocked == [] && eligible == []
    }

    method HasEligibleWorkers() returns (b: bool)
      ensures b <==> |eligible| > 0
    {
      b := eligible != [];
    }

    method Clear()
      modifies this
      ensures blocked == [] && eligible == [] && IsEmpty()
    {
      blocked := [];
      eligible := [];
    }

    /** A worker without dependencies is eligible at once. */
    method AddWorker(w: W)
      modifies this
      ensures eligible == old(eligible) + [w] && blocked == old(blocked)
      ensures Size() == old(Size()) + 1
    {
      eligible := eligible + [w];
    }

    /** A worker with dependencies waits until all of them have completed. */
    method AddWorkerAfter(w: W, dependencies: seq<W>)
      modifies this
      ensures blocked == old(blocked) + [[w] + dependencies] && eligible == old(eligible)
      ensures Size() == old(Size()) + 1
    {
      blocked := blocked + [[w] + dependencies];
    }

    /** Takes the oldest eligible worker (the source blocks while there is none). */
    method TakeEligibleWorker() returns (w: W)
      requires |eligible| > 0
      modifies this
      ensures w == old(eligible[0]) && eligible == old(eligible[1..]) && blocked == old(blocked)
      ensures Size() == old(Size()) - 1
    {
      w := eligible[0];
      eligible := eligible[1..];
    }

    /** Removes `d` from every blocked list and promotes the lists left with only their worker. */
    method ReleaseBlockedWorkers(d: W)
      modifies this
      ensures blocked == Release(old(blocked), d).kept
      ensures eligible == old(eligible) + Release(old(blocked), d).promoted
      ensures Size() == old(Size())
    {
      var lists := blocked;
      var kept := [];
      var i := 0;
      while i < |lists|
        invariant 0 <= i <= |lists|
        invariant kept == Release(lists[..i], d).kept
        invariant eligible == old(eligible) + Release(lists[..i], d).promoted
      {
        assert lists[..i + 1][..i] == lists[..i];
        var worker := RemoveFirst(lists[i], d);
        if |worker| == 1 {
          eligible := eligible + [worker[0]];
        } else {
          kept := kept + [worker];
        }
        i := i + 1;
      }
      assert lists[..i] == lists;
      blocked := kept;
      ReleaseKeepsCount(lists, d);
    }

    /** Runs an eligible worker (its effect is not modelled), then releases the workers waiting for it. */
    method Complete(w: W)
      modifies this
      ensures blocked == Release(old(blocked), w).kept
      ensures eligible == old(eligible) + Release(old(blocked), w).promoted
    {
      ReleaseBlockedWorkers(w);
    }
  }

  /** Every list is either kept or promoted: no worker is lost or duplicated. */
  lemma {:induction false} ReleaseKeepsCount<W>(blocked: seq<seq<W>>, d: W)
    ensures |Release(blocked, d).kept| + |Release(blocked, d).promoted| == |blocked|
  {
    if |blocked| > 0 {
      ReleaseKeepsCount(blocked[..|blocked| - 1], d);
    }
  }

  /** After a release no blocked list consists of its worker alone. */
  lemma {:induction false} KeptListsStillWait<W>(blocked: seq<seq<W>>, d: W)
    ensures forall l :: l in Release(blocked, d).kept ==> |l| != 1
  {
    if |blocked| > 0 {
      KeptListsStillWait(blocked[..|blocked| - 1], d);
    }
  }

  /** Releasing a worker nobody waits for changes nothing, when no list is already complete. */
  lemma {:induction false} ReleaseOfUnrelatedWorker<W>(blocked: seq<seq<W>>, d: W)
    requires forall i :: 0 <= i < |blocked| ==> d !in blocked[i] && |blocked[i]| != 1
    ensures Release(blocked, d) == Released(blocked, [])
  {
    if |blocked| > 0 {
      var n := |blocked| - 1;
      var init := blocked[..n];
      assert forall i :: 0 <= i < |init| ==> init[i] == blocked[i];
      ReleaseOfUnrelatedWorker(init, d);
      assert RemoveFirst(blocked[n], d) == blocked[n];
      assert init + [blocked[n]] == blocked;
    }
  }

  /** The list `[w] + deps` is promoted by `d` exactly when `d` is its last dependency (or it had none). */
  lemma PromotedExactlyOnLastDependency<W>(w: W, deps: seq<W>, d: W)
    requires w != d
    ensures Promotes([w] + deps, d) <==> deps == [d] || deps == []
  {
    var l := [w] + deps;
    assert l[1..] == deps;
    if d in deps {
      assert d in l;
      var i := IndexOf(l, d);
      assert i >= 1;
      if |deps| == 1 {
        assert deps == [d];
      }
    } else {
      assert d !in l;
    }
  }

  /** Releases `ds` one after another. */
  function ReleaseEach<W(==)>(list: seq<W>, ds: seq<W>): (r: seq<W>)
    ensures |list| - |ds| <= |r| <= |list|
    decreases ds
  {
    if |ds| == 0 then list else ReleaseEach(RemoveFirst(list, ds[0]), ds[1..])
  }

  /** Releasing a multiset of dependencies, in any order, removes exactly those from the list. */
  lemma {:induction false} ReleaseEachRemoves<W>(list: seq<W>, ds: seq<W>)
    requires multiset(ds) <= multiset(list)
    ensures multiset(ReleaseEach(list, ds)) == multiset(list) - multiset(ds)
    decreases ds
  {
    if |ds| > 0 {
      var d, more := ds[0], ds[1..];
      var rest := RemoveFirst(list, d);
      MultisetOfCons(ds);
      assert d in multiset(list);
      RemoveFirstTakesOneCopy(list, d);
      ReleaseEachRemoves(rest, more);
      assert ReleaseEach(list, ds) == ReleaseEach(rest, more);
    }
  }

  /** The multiset of a non-empty list: its head and the multiset of its tail. */
  lemma MultisetOfCons<W>(ds: seq<W>)
    requires |ds| > 0
    ensures multiset(ds) == multiset{ds[0]} + multiset(ds[1..])
  {
    assert ds == [ds[0]] + ds[1..];
  }

  /**
   * A worker that does not depend on itself is left alone in its list, ready
   * for promotion, once each of its dependencies has been released, in any order.
   */
  lemma AllDependenciesReleasedLeavesWorker<W>(w: W, deps: seq<W>, ds: seq<W>)
    requires w !in deps && multiset(ds) == multiset(deps)
    ensures ReleaseEach([w] + deps, ds) == [w]
  {
    var l := [w] + deps;
    assert multiset(l) == multiset{w} + multiset(deps);
    ReleaseEachRemoves(l, ds);
    var r := ReleaseEach(l, ds);
    assert multiset(r) == multiset{w};
    assert |r| == 1;
    assert r[0] in multiset(r);
  }
}
