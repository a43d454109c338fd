/**
 What a shutdown leaves behind: exactly when the queue is drained and every item handled, and
 how an item comes to be left.
 */
module PoolDrain {
  import opened Common
  import opened ThreadPool
  import opened PoolProtocol
  import opened PoolSafety

  // ---------- Workers that come back ----------

  /** A worker that will come back to the queue. */
  predicate IsLooping(w: Worker) {
    w.Ready? || w.Waiting? || (w.Holding? && (w.item.Work? || !w.mustExit))
  }

  ghost function Loopers(s: System): nat {
    Count(s.workers, IsLooping)
  }

  ghost predicate SomeoneLoops(s: System) {
    exists w :: 0 <= w < |s.workers| && IsLooping(s.workers[w])
  }

  lemma NotifyKeepsLoopers(ws: seq<Worker>, ids: set<nat>)
    ensures Count(Notify(ws, ids), IsLooping) == Count(ws, IsLooping)
  {
    var vs := Notify(ws, ids);
    CountCompare(ws, vs, IsLooping, IsLooping);
    CountCompare(vs, ws, IsLooping, IsLooping);
  }

  // ---------- Enough workers for a queue ----------

  function Nulls(items: seq<Item>): nat {
    if items == [] then 0 else (if items[0].Null? then 1 else 0) + Nulls(items[1..])
  }

  /** The queue up to its last item that is not null. */
  function Wanted(q: seq<Item>): (w: seq<Item>)
    ensures |w| <= |q|
    ensures w != [] ==> w[0] == q[0]
  {
    if q == [] then [] else
    var w := Wanted(q[1..]);
    if w == [] && q[0].Null? then [] else [q[0]] + w
  }

  /** Each null before the last item costs a worker, and the last item needs one. */
  predicate Enough(items: seq<Item>, loopers: nat) {
    items == [] || Nulls(items[..|items| - 1]) < loopers
  }

  function Rest(items: seq<Item>): seq<Item> {
    if items == [] then [] else items[1..]
  }

  lemma WantedRest(q: seq<Item>)
    ensures Wanted(Rest(q)) == Rest(Wanted(q))
  {
    if q != [] {
      var w := Wanted(q[1..]);
      assert ([q[0]] + w)[1..] == w;
    }
  }

  /** A worker that takes a null, while the pool exits, is used up; one that takes work is not. */
  lemma EnoughAfterTake(items: seq<Item>, loopers: nat, left: nat)
    requires loopers > 0
    requires items != [] ==> left == if items[0].Null? then loopers - 1 else loopers
    ensures Enough(Rest(items), left) <==> Enough(items, loopers)
  {
    if |items| > 1 {
      var n := |items| - 1;
      assert items[..n][1..] == items[1..][..n - 1];
    }
  }

  /** Taking the front of q by a looping worker, for the whole queue and for the wanted part of it. */
  lemma TakeKeepsEnough(q: seq<Item>, loopers: nat)
    requires loopers > 0
    ensures var left := if q == [] || q[0].Null? then loopers - 1 else loopers;
            && (Enough(Rest(q), left) <==> Enough(q, loopers))
            && (Enough(Wanted(Rest(q)), left) <==> Enough(Wanted(q), loopers))
  {
    hide Enough, Wanted, Rest;
    var left := if q == [] || q[0].Null? then loopers - 1 else loopers;
    WantedRest(q);
    EnoughAfterTake(q, loopers, left);
    EnoughAfterTake(Wanted(q), loopers, left);
  }

  // ---------- What every step of an exiting pool keeps ----------

  ghost predicate Drains(s: System) {
    Enough(s.pool.queue, Loopers(s))
  }

  ghost predicate Satisfies(s: System) {
    Enough(Wanted(s.pool.queue), Loopers(s))
  }

  lemma TakeStep(s: System, t: System, w: nat)
    requires w < |s.workers| == |t.workers| && IsLooping(s.workers[w]) && t.workers == s.workers[w := t.workers[w]]
    requires t.pool.queue == Rest(s.pool.queue)
    requires IsLooping(t.workers[w]) <==> s.pool.queue != [] && s.pool.queue[0].Work?
    ensures (Drains(t) <==> Drains(s)) && (Satisfies(t) <==> Satisfies(s))
  {
    hide Enough, Wanted, Rest;
    CountUpdate(s.workers, w, t.workers[w], IsLooping);
    CountZero(s.workers, IsLooping);
    TakeKeepsEnough(s.pool.queue, Loopers(s));
  }

  /** Drains and Satisfies neither begin nor cease to hold: what holds when destroy is called
      holds at deletion. */
  lemma ExitStepKeeps(s: System, a: Action)
    requires s.pool.state == POOL_EXIT && Enabled(s, a)
    ensures Drains(Apply(s, a)) <==> Drains(s)
    ensures Satisfies(Apply(s, a)) <==> Satisfies(s)
    ensures Apply(s, a).pool.state == POOL_EXIT
  {
    hide Enough, Wanted, Count, Asleep;
    var t := Apply(s, a);
    match a
    case Enter(w) => TakeStep(s, t, w);
    case Wake(w, _) => TakeStep(s, t, w);
    case TimeOut(w) => TakeStep(s, t, w);
    case Serve(w) => CountUpdate(s.workers, w, t.workers[w], IsLooping);
    case Retire(w) =>
      var ws := s.workers[w := Gone];
      CountUpdate(s.workers, w, Gone, IsLooping);
      NotifyKeepsLoopers(ws, Asleep(ws));
    case _ =>
  }

  lemma {:induction false} ExitRunKeeps(s: System, run: seq<Action>)
    requires s.pool.state == POOL_EXIT && Legal(s, run)
    ensures Drains(Exec(s, run)) <==> Drains(s)
    ensures Satisfies(Exec(s, run)) <==> Satisfies(s)
    decreases |run|
  {
    hide Drains, Satisfies;
    if run != [] {
      ExitStepKeeps(s, run[0]);
      ExitRunKeeps(Apply(s, run[0]), run[1..]);
    }
  }

  // ---------- At the deletion ----------

  /** Every accepted item that is not null has been handled. */
  ghost predicate AllHandled(s: System) {
    forall k: nat :: k < |s.accepted| && s.accepted[k].Work? ==> WasHandled(s, k)
  }

  lemma {:induction false} WantedIsWork(q: seq<Item>)
    ensures Wanted(q) == [] <==> forall i :: 0 <= i < |q| ==> q[i].Null?
  {
    if q != [] {
      WantedIsWork(q[1..]);
      assert q == [q[0]] + q[1..];
    }
  }

  /** With all workers gone, what is not handled is what is still queued. */
  lemma AtDeletion(e: System)
    requires Tickets(e)
    requires forall w :: 0 <= w < |e.workers| ==> e.workers[w] == Gone
    ensures Wanted(e.pool.queue) == [] <==> AllHandled(e)
  {
    hide Wanted;
    WantedIsWork(e.pool.queue);
    var n := |e.taken|;
    forall k: nat | k < n && e.accepted[k].Work? ensures WasHandled(e, k) {
      assert e.workers[e.taken[k]] == Gone;
    }
    forall i: nat | i < |e.pool.queue| ensures !WasHandled(e, n + i) && e.accepted[n + i] == e.pool.queue[i] {
    }
  }

  lemma NoLoopersLeft(e: System)
    requires forall w :: 0 <= w < |e.workers| ==> e.workers[w] == Gone
    ensures Drains(e) <==> e.pool.queue == []
    ensures Satisfies(e) <==> Wanted(e.pool.queue) == []
  {
    CountZero(e.workers, IsLooping);
  }

  lemma DestroyKeeps(s: System)
    requires Enabled(s, Destroy)
    ensures var t := Apply(s, Destroy);
            t.pool.queue == s.pool.queue && t.pool.state == POOL_EXIT && Loopers(t) == Loopers(s)
  {
    NotifyKeepsLoopers(s.workers, Asleep(s.workers));
  }

  /**
   Take any state s in which destroy is called, and any run from there to the deletion, whatever
   was dispatched, null pointers included.  At deletion the queue is empty if and only if, when
   destroy was called, it was empty or held fewer nulls before its last item than there were workers
   still looping; and every accepted item that is not null has been handled if and only if the
   same is true of the queue up to its last item that is not null.
   */
  lemma DrainedExactlyIf(max: int, s: System, run: seq<Action>)
    requires Reachable(max, s) && Enabled(s, Destroy) && Legal(Apply(s, Destroy), run)
    requires Exec(Apply(s, Destroy), run).destroyer == Deleted
    ensures var e, q, wanted := Exec(Apply(s, Destroy), run), s.pool.queue, Wanted(s.pool.queue);
            && (e.pool.queue == [] <==> q == [] || Nulls(q[..|q| - 1]) < Count(s.workers, IsLooping))
            && (AllHandled(e) <==> wanted == [] || Nulls(wanted) < Count(s.workers, IsLooping))
  {
    hide Reachable, Legal, Exec, Safe, Count, Wanted, Nulls, Apply, Enabled;
    var t := Apply(s, Destroy);
    var e := Exec(t, run);
    DestroyKeeps(s);
    ExitRunKeeps(t, run);
    DeletedFrom(max, s, run);
    NoLoopersLeft(e);
    AtDeletion(e);
    LastIsWanted(s.pool.queue);
  }

  lemma {:induction false} LastIsWanted(q: seq<Item>)
    ensures var w := Wanted(q); w != [] ==> w[|w| - 1].Work? && Nulls(w[..|w| - 1]) == Nulls(w)
  {
    if q != [] {
      LastIsWanted(q[1..]);
      var w, v := Wanted(q), Wanted(q[1..]);
      if v != [] {
        var n := |w| - 1;
        assert w == [q[0]] + v && w[1..] == v && w[..n][1..] == v[..n - 1];
      }
    }
  }

  lemma DeletedFrom(max: int, s: System, run: seq<Action>)
    requires Reachable(max, s) && Enabled(s, Destroy) && Legal(Apply(s, Destroy), run)
    requires Exec(Apply(s, Destroy), run).destroyer == Deleted
    ensures var e := Exec(Apply(s, Destroy), run);
            Tickets(e) && forall w :: 0 <= w < |e.workers| ==> e.workers[w] == Gone
  {
    hide Reachable, Legal, Exec, NoLostWakeup, Tickets, Apply, Enabled;
    ReachableIsSafe(max, s);
    SafeKept(s, Destroy);
    SafeAlongRun(Apply(s, Destroy), run);
    CountZero(Exec(Apply(s, Destroy), run).workers, IsAlive);
  }

  ghost predicate NoNulls(items: seq<Item>) {
    forall i :: 0 <= i < |items| ==> items[i] != Null
  }

  lemma {:induction false} NoNullsCounted(q: seq<Item>)
    requires NoNulls(q)
    ensures Nulls(q) == 0 && Wanted(q) == q
  {
    if q != [] { NoNullsCounted(q[1..]); }
  }

  /** When the queue holds no nulls this is one condition: it was empty, or some worker was still looping. */
  lemma DrainedWithoutNulls(max: int, s: System, run: seq<Action>)
    requires Reachable(max, s) && Enabled(s, Destroy) && Legal(Apply(s, Destroy), run)
    requires Exec(Apply(s, Destroy), run).destroyer == Deleted
    requires NoNulls(s.pool.queue)
    ensures var e := Exec(Apply(s, Destroy), run);
            && (e.pool.queue == [] <==> AllHandled(e))
            && (AllHandled(e) <==> s.pool.queue == [] || SomeoneLoops(s))
  {
    hide Reachable, Legal, Exec, Apply, Enabled, Nulls, Wanted, AllHandled;
    var q := s.pool.queue;
    DrainedExactlyIf(max, s, run);
    NoNullsCounted(q);
    if q != [] { NoNullsCounted(q[..|q| - 1]); }
    CountZero(s.workers, IsLooping);
  }

  // ---------- When an accepted item has nobody to come for it ----------

  /** Nothing is queued, or some worker will come back to the queue. */
  ghost predicate Attended(s: System) {
    s.pool.queue == [] || SomeoneLoops(s)
  }

  /** An accepted item finds somebody to come for it exactly if a worker was looping before, or one could be started. */
  lemma AttendedExactlyIf(s: System, item: Item, canCreate: bool, woken: set<nat>)
    requires Counters(s) && s.pool.state == POOL_VALID && Enabled(s, Dispatch(item, canCreate, woken))
    ensures Attended(Apply(s, Dispatch(item, canCreate, woken))) <==>
            SomeoneLoops(s) || (s.pool.alive < s.pool.max && canCreate)
  {
    var t := Apply(s, Dispatch(item, canCreate, woken));
    CountZero(s.workers, IsWaiting);
    assert forall w :: 0 <= w < |s.workers| ==> (IsLooping(s.workers[w]) <==> IsLooping(t.workers[w]));
    if |t.workers| > |s.workers| { assert IsLooping(t.workers[|s.workers|]); }
  }

  /** With no null queued, no other step leaves queued items without somebody to come for them. */
  lemma AttendedKept(s: System, a: Action)
    requires Attended(s) && NoNulls(s.pool.queue) && Enabled(s, a) && !a.Dispatch?
    ensures Attended(Apply(s, a))
  {
    var t := Apply(s, a);
    if s.pool.queue != [] {
      var w :| 0 <= w < |s.workers| && IsLooping(s.workers[w]);
      assert IsLooping(t.workers[w]);
    }
  }

  // ---------- How an item is left behind ----------

  lemma ReachInit(max: int)
    ensures Reachable(max, Init(max))
  {
    assert Legal(Init(max), []) && Exec(Init(max), []) == Init(max);
  }

  lemma ReachStep(max: int, s: System, a: Action)
    requires Reachable(max, s) && Enabled(s, a)
    ensures Reachable(max, Apply(s, a))
  {
    var run :| Legal(Init(max), run) && Exec(Init(max), run) == s;
    ExtendRun(Init(max), run, a);
  }

  lemma {:induction false} ExtendRun(s: System, run: seq<Action>, a: Action)
    requires Legal(s, run) && Enabled(Exec(s, run), a)
    ensures Legal(s, run + [a]) && Exec(s, run + [a]) == Apply(Exec(s, run), a)
    decreases |run|
  {
    if run == [] {
      assert run + [a] == [a] && [a][1..] == [];
    } else {
      assert (run + [a])[0] == run[0] && (run + [a])[1..] == run[1..] + [a];
      ExtendRun(Apply(s, run[0]), run[1..], a);
    }
  }

  /** After its first item the only worker times out: it holds nothing, but counts as alive. */
  function TimedOut(): System {
    System(Pool(POOL_VALID, 1, 1, 0, []), [Holding(Null, None, true)], Absent, [Work(1)], [0], [Handling(0, 0)])
  }

  lemma TimedOutIsReachable()
    ensures Reachable(1, TimedOut())
  {
    hide Reachable, Legal, Exec;
    var s := Init(1);
    ReachInit(1);
    var p := Dispatch(Work(1), true, {});
    ReachStep(1, s, p); s := Apply(s, p);
    ReachStep(1, s, Enter(0)); s := Apply(s, Enter(0));
    ReachStep(1, s, Serve(0)); s := Apply(s, Serve(0));
    ReachStep(1, s, Enter(0)); s := Apply(s, Enter(0));
    ReachStep(1, s, TimeOut(0)); s := Apply(s, TimeOut(0));
    assert s == TimedOut();
  }

  /**
   The condition of DrainedExactlyIf can fail without any null: a worker that has timed out still counts as
   alive, so an item dispatched before it retires starts no thread and is never handled.
   */
  lemma TimedOutWorkerStrandsItem() returns (s: System)
    ensures Reachable(1, s) && s.destroyer == Deleted
    ensures NoNulls(s.accepted) && s.accepted == [Work(1), Work(2)] && s.pool.queue == [Work(2)]
  {
    hide Reachable, Legal, Exec;
    s := TimedOut();
    TimedOutIsReachable();
    var q := Dispatch(Work(2), true, {});
    ReachStep(1, s, q); s := Apply(s, q);
    ReachStep(1, s, Serve(0)); s := Apply(s, Serve(0));
    ReachStep(1, s, Retire(0)); s := Apply(s, Retire(0));
    ReachStep(1, s, Destroy); s := Apply(s, Destroy);
  }

  /** A null item and another are queued, and the pool starts exiting. */
  function ExitingWithNull(): System {
    System(Pool(POOL_EXIT, 1, 1, 0, [Null, Work(2)]), [Ready(false)], Awaiting(false), [Null, Work(2)], [], [])
  }

  lemma ExitingWithNullIsReachable()
    ensures Reachable(1, ExitingWithNull())
  {
    hide Reachable, Legal, Exec;
    var s := Init(1);
    ReachInit(1);
    var p, q := Dispatch(Null, true, {}), Dispatch(Work(2), true, {});
    ReachStep(1, s, p); s := Apply(s, p);
    ReachStep(1, s, q); s := Apply(s, q);
    ReachStep(1, s, Destroy); s := Apply(s, Destroy);
    assert s == ExitingWithNull();
  }

  /** It can also fail with a worker looping: a null that the only worker takes while the pool exits costs that
      worker, and the item behind it is left. */
  lemma NullStrandsItem() returns (s: System)
    ensures Reachable(1, s) && s.destroyer == Deleted
    ensures s.accepted == [Null, Work(2)] && s.pool.queue == [Work(2)]
  {
    hide Reachable, Legal, Exec;
    s := ExitingWithNull();
    ExitingWithNullIsReachable();
    ReachStep(1, s, Enter(0)); s := Apply(s, Enter(0));
    ReachStep(1, s, Serve(0)); s := Apply(s, Serve(0));
    ReachStep(1, s, Retire(0)); s := Apply(s, Retire(0));
    ReachStep(1, s, DestroyerWake(false)); s := Apply(s, DestroyerWake(false));
  }
}
