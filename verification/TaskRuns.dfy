/** What the bitmap writes of `creat_task` calls can do, from any two free sets and from those
    the kernel boots with. `TaskMemory` says when a run on memory is such a run. */
module TaskRuns {
  import opened CTypes
  import opened Bitmap
  import opened Tasks

  /** A call succeeds exactly when a task number and three pages are free. A success takes
      one of the one and three of the other; a failure for lack of pages leaves the task
      numbers as they were and the page bitmap full. */
  lemma CallIsAllOrFull(p: Pools)
    ensures CallOutcome(p).Created? <==> p.tasks != {} && |p.pages| >= 3
    ensures CallOutcome(p).Created? ==>
      var pages := CallOutcome(p).pages;
      && CallOutcome(p).task in p.tasks && Descending(pages) && |pages| == 3
      && Elements(pages) <= p.pages
      && AfterCall(p) == Pools(p.tasks - {CallOutcome(p).task}, p.pages - Elements(pages))
      && |AfterCall(p).tasks| == |p.tasks| - 1 && |AfterCall(p).pages| == |p.pages| - 3
    ensures CallOutcome(p).NoPage? ==> AfterCall(p) == Pools(p.tasks, {})
    ensures CallOutcome(p).NoTaskNumber? ==> AfterCall(p) == p
    ensures CallOutcome(p).NoTaskNumber? <==> p.tasks == {}
  {
    TakenAreTheGreatest(p.pages, 3);
    if |Taken(p.pages, 3)| < 3 {
      assert |p.pages - Elements(Taken(p.pages, 3))| == 0;
    }
  }

  /** A failing call does not always undo itself: it leaves everything as it was exactly
      when there was no task number or no page at all; otherwise the pages it found stay
      marked used with no owner. */
  lemma FailureUndoesItselfIff(p: Pools)
    requires !CallOutcome(p).Created?
    ensures AfterCall(p) == p <==> p.tasks == {} || p.pages == {}
  {
    CallIsAllOrFull(p);
  }

  lemma OnePageIsLost()
    ensures var p := Pools({7}, {1024});
            CallOutcome(p) == NoPage && AfterCall(p) == Pools({7}, {})
  {
    CallIsAllOrFull(Pools({7}, {1024}));
  }

  ghost function RunPools(p: Pools, n: nat): Pools
  {
    if n == 0 then p else AfterCall(RunPools(p, n - 1))
  }

  /** The outcome of the call made after `n` others. */
  ghost function OutcomeAt(p: Pools, n: nat): Outcome
  {
    CallOutcome(RunPools(p, n))
  }

  /** How many of the first `n` calls succeed, and the pages they are given, in order. */
  ghost function Successes(p: Pools, n: nat): nat
  {
    if n == 0 then 0 else Successes(p, n - 1) + if OutcomeAt(p, n - 1).Created? then 1 else 0
  }

  ghost function Handed(p: Pools, n: nat): seq<nat>
  {
    if n == 0 then []
    else Handed(p, n - 1) + if OutcomeAt(p, n - 1).Created? then OutcomeAt(p, n - 1).pages else []
  }

  function Least(a: nat, b: nat): nat { if a < b then a else b }

  /** Once a call fails, every later call fails the same way and changes neither bitmap. */
  lemma {:induction false} FailureIsFinal(p: Pools, n: nat)
    requires !CallOutcome(p).Created?
    ensures RunPools(AfterCall(p), n) == AfterCall(p)
    ensures OutcomeAt(AfterCall(p), n) == CallOutcome(p)
  {
    hide CallOutcome, AfterCall;
    CallIsAllOrFull(p);
    CallIsAllOrFull(AfterCall(p));
    if n != 0 {
      FailureIsFinal(p, n - 1);
    }
  }

  ghost function Capacity(p: Pools): nat
  {
    Least(|p.tasks|, |p.pages| / 3)
  }

  /** A success lowers the capacity by one, and calls succeed while there is capacity. */
  lemma CallUsesCapacity(p: Pools)
    ensures CallOutcome(p).Created? <==> Capacity(p) > 0
    ensures Capacity(AfterCall(p)) == if Capacity(p) > 0 then Capacity(p) - 1 else 0
  {
    hide CallOutcome, AfterCall;
    CallIsAllOrFull(p);
    assert p.tasks == {} <==> |p.tasks| == 0;
  }

  /** Exact capacity: from any free sets, the first min(free tasks, free pages / 3) calls
      succeed and no others. */
  lemma {:induction false} CapacityIsExact(p: Pools, n: nat)
    ensures OutcomeAt(p, n).Created? <==> n < Capacity(p)
    ensures Successes(p, n) == Least(n, Capacity(p))
    ensures Capacity(RunPools(p, n)) == Capacity(p) - Least(n, Capacity(p))
  {
    hide Capacity, CallOutcome, AfterCall;
    if n != 0 {
      CapacityIsExact(p, n - 1);
      CallUsesCapacity(RunPools(p, n - 1));
    }
    CallUsesCapacity(RunPools(p, n));
  }

  /** Over any run no page is handed out twice: the pages of all calls together strictly
      decrease, were free at the start, and lie above every page that is still free. */
  lemma {:induction false} NoPageHandedTwice(p: Pools, n: nat)
    ensures Descending(Handed(p, n)) && Elements(Handed(p, n)) <= p.pages
    ensures |Handed(p, n)| == 3 * Successes(p, n)
    ensures RunPools(p, n).pages <= p.pages
    ensures forall x, y :: x in Handed(p, n) && y in RunPools(p, n).pages ==> y < x
  {
    hide CallOutcome, AfterCall, Descending;
    if n == 0 {
      DescendingNothing();
    } else {
      NoPageHandedTwice(p, n - 1);
      var q := RunPools(p, n - 1);
      CallIsAllOrFull(q);
      if CallOutcome(q).Created? {
        OutcomeIsTaken(q);
        var pages := CallOutcome(q).pages;
        AppendDescending(Handed(p, n - 1), pages, q.pages);
        assert Handed(p, n) == Handed(p, n - 1) + pages;
      } else {
        assert Handed(p, n) == Handed(p, n - 1);
      }
    }
  }

  ghost function HandedTasks(p: Pools, n: nat): seq<nat>
  {
    if n == 0 then []
    else HandedTasks(p, n - 1) + if OutcomeAt(p, n - 1).Created? then [OutcomeAt(p, n - 1).task] else []
  }

  /** Nor is a task number, and none is lost: those still free are the ones not handed out. */
  lemma {:induction false} NoTaskHandedTwice(p: Pools, n: nat)
    ensures Descending(HandedTasks(p, n)) && Elements(HandedTasks(p, n)) <= p.tasks
    ensures |HandedTasks(p, n)| == Successes(p, n)
    ensures RunPools(p, n).tasks == p.tasks - Elements(HandedTasks(p, n))
    ensures forall x, y :: x in HandedTasks(p, n) && y in RunPools(p, n).tasks ==> y < x
  {
    hide CallOutcome, AfterCall, Descending, Elements;
    DescendingNothing();
    if n != 0 {
      NoTaskHandedTwice(p, n - 1);
      var q := RunPools(p, n - 1);
      CallIsAllOrFull(q);
      if CallOutcome(q).Created? {
        TaskIsGreatest(q);
        AppendDescending(HandedTasks(p, n - 1), [CallOutcome(q).task], q.tasks);
        assert HandedTasks(p, n) == HandedTasks(p, n - 1) + [CallOutcome(q).task];
      } else {
        assert HandedTasks(p, n) == HandedTasks(p, n - 1);
      }
    }
  }

  lemma TaskIsGreatest(p: Pools)
    requires CallOutcome(p).Created?
    ensures forall y :: y in AfterCall(p).tasks ==> y < CallOutcome(p).task
    ensures Descending([CallOutcome(p).task]) && Elements([CallOutcome(p).task]) == {CallOutcome(p).task}
  {}

  lemma DescendingNothing()
    ensures Descending([]) && Elements([]) == {}
  {}

  lemma OutcomeIsTaken(p: Pools)
    requires CallOutcome(p).Created?
    ensures forall x, y :: x in CallOutcome(p).pages && y in AfterCall(p).pages ==> y < x
  {
    TakenAreTheGreatest(p.pages, 3);
  }

  lemma AppendDescending(s: seq<nat>, t: seq<nat>, free: set<nat>)
    requires Descending(s) && Descending(t) && Elements(t) <= free
    requires forall x, y :: x in s && y in free ==> y < x
    ensures Descending(s + t) && Elements(s + t) == Elements(s) + Elements(t)
  {
    forall i, j | 0 <= i < j < |s + t|
      ensures (s + t)[i] > (s + t)[j]
    {
      if i < |s| <= j {
        assert s[i] in s && t[j - |s|] in Elements(t);
      }
    }
  }

  // ---------- from boot ----------

  predicate InRange(i: nat, lo: nat, hi: nat)
  {
    lo <= i < hi
  }

  ghost function Interval(lo: nat, hi: nat): set<nat>
  {
    set i: nat | i < hi && InRange(i, lo, hi)
  }

  lemma {:induction false} IntervalSize(lo: nat, hi: nat)
    requires lo <= hi
    ensures |Interval(lo, hi)| == hi - lo
  {
    if lo < hi {
      IntervalSize(lo, hi - 1);
      assert Interval(lo, hi) == Interval(lo, hi - 1) + {hi - 1};
    } else {
      assert Interval(lo, hi) == {};
    }
  }

  /** (2^20 - 1024) / 3 */
  const BOOT_CAPACITY: nat := 349184

  /** Every task number free; the pages of the low 4 MB used. */
  ghost function BootPools(): Pools
  {
    Pools(Interval(0, MAP_BITS), Interval(1024, MAP_BITS))
  }

  lemma IntervalTop(lo: nat, hi: nat)
    requires lo < hi
    ensures hi - 1 in Interval(lo, hi) && Greatest(Interval(lo, hi)) == hi - 1
    ensures Interval(lo, hi) - {hi - 1} == Interval(lo, hi - 1)
  {
    assert hi - 1 in Interval(lo, hi);
  }

  lemma CallOnIntervals(tasks: nat, lo: nat, hi: nat)
    requires 0 < tasks && lo + 3 <= hi
    ensures var p := Pools(Interval(0, tasks), Interval(lo, hi));
            && CallOutcome(p) == Created(tasks - 1, [hi - 1, hi - 2, hi - 3])
            && AfterCall(p) == Pools(Interval(0, tasks - 1), Interval(lo, hi - 3))
  {
    hide Taken, Greatest;
    IntervalTop(0, tasks);
    IntervalTop(lo, hi);
    IntervalTop(lo, hi - 1);
    IntervalTop(lo, hi - 2);
    TakenUnfolds(Interval(lo, hi));
    var pages := Interval(lo, hi);
    assert hi - 1 in pages && hi - 2 in Interval(lo, hi - 1) && hi - 3 in Interval(lo, hi - 2);
    assert pages - {hi - 1, hi - 2} == Interval(lo, hi - 2);
    assert pages - {hi - 1, hi - 2, hi - 3} == Interval(lo, hi - 3);
  }

  ghost predicate CallGets(p: Pools, task: nat, firstPage: nat)
    requires firstPage >= 2
  {
    CallOutcome(p) == Created(task, [firstPage, firstPage - 1, firstPage - 2])
  }

  /** From boot, while there are pages, call n gets task 2^20-1-n and the three pages below
      2^20-3n. */
  lemma {:induction false} BootRunSucceeds(n: nat)
    requires n <= BOOT_CAPACITY
    ensures RunPools(BootPools(), n) == Pools(Interval(0, MAP_BITS - n), Interval(1024, MAP_BITS - 3 * n))
    ensures n < BOOT_CAPACITY ==> CallGets(RunPools(BootPools(), n), MAP_BITS - 1 - n, MAP_BITS - 3 * n - 1)
  {
    hide CallOutcome, AfterCall, Interval;
    if n != 0 {
      BootRunSucceeds(n - 1);
      CallOnIntervals(MAP_BITS - (n - 1), 1024, MAP_BITS - 3 * (n - 1));
    }
    if n < BOOT_CAPACITY {
      CallOnIntervals(MAP_BITS - n, 1024, MAP_BITS - 3 * n);
    }
  }
}
