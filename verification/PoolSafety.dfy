/** What every step of the thread pool keeps, hence what holds in every reachable state. */
module PoolSafety {
  import opened Common
  import opened ThreadPool
  import opened PoolProtocol

  // ---------- The counters ----------

  predicate IsAlive(w: Worker) { !w.Gone? }

  predicate IsWaiting(w: Worker) { w.Waiting? }

  ghost predicate Counters(s: System) {
    && s.pool.alive == Count(s.workers, IsAlive)
    && s.pool.idle == Count(s.workers, IsWaiting)
    && (s.pool.alive <= s.pool.max || s.pool.alive == 0)
  }

  lemma CountersKept(s: System, a: Action)
    requires Counters(s) && Enabled(s, a)
    ensures Counters(Apply(s, a))
  {
    hide Count, Asleep;
    var t := Apply(s, a);
    match a
    case Dispatch(item, canCreate, woken) =>
      if s.pool.state == POOL_VALID {
        var ws := Notify(s.workers, woken);
        NotifyKeepsCounts(s.workers, woken);
        CountAppend(ws, Ready(false), IsAlive);
        CountAppend(ws, Ready(false), IsWaiting);
      }
    case Enter(w) => UpdateCounts(s.workers, w, t.workers[w]);
    case Wake(w, _) => UpdateCounts(s.workers, w, t.workers[w]);
    case TimeOut(w) => UpdateCounts(s.workers, w, t.workers[w]);
    case Serve(w) => UpdateCounts(s.workers, w, t.workers[w]);
    case Retire(w) =>
      var ws := s.workers[w := Gone];
      UpdateCounts(s.workers, w, Gone);
      NotifyKeepsCounts(ws, Asleep(ws));
    case Destroy => NotifyKeepsCounts(s.workers, Asleep(s.workers));
    case DestroyerWake(_) =>
  }

  lemma UpdateCounts(ws: seq<Worker>, i: nat, w: Worker)
    requires i < |ws|
    ensures Count(ws[i := w], IsAlive) == Count(ws, IsAlive) - (if ws[i].Gone? then 0 else 1) + (if w.Gone? then 0 else 1)
    ensures Count(ws[i := w], IsWaiting) ==
            Count(ws, IsWaiting) - (if ws[i].Waiting? then 1 else 0) + (if w.Waiting? then 1 else 0)
  {
    CountUpdate(ws, i, w, IsAlive);
    CountUpdate(ws, i, w, IsWaiting);
  }

  lemma NotifyKeepsCounts(ws: seq<Worker>, ids: set<nat>)
    ensures Count(Notify(ws, ids), IsAlive) == Count(ws, IsAlive)
    ensures Count(Notify(ws, ids), IsWaiting) == Count(ws, IsWaiting)
  {
    var vs := Notify(ws, ids);
    CountCompare(ws, vs, IsAlive, IsAlive);
    CountCompare(vs, ws, IsAlive, IsAlive);
    CountCompare(ws, vs, IsWaiting, IsWaiting);
    CountCompare(vs, ws, IsWaiting, IsWaiting);
  }

  // ---------- The queue and the tickets ----------

  ghost predicate Fifo(s: System) {
    |s.taken| <= |s.accepted| && s.pool.queue == s.accepted[|s.taken|..]
  }

  predicate Holds(w: Worker, k: nat) {
    w.Holding? && w.ticket == Some(k)
  }

  ghost predicate WasHandled(s: System, k: nat) {
    exists j :: 0 <= j < |s.handled| && s.handled[j].ticket == k
  }

  /** Every call of the handler was on a taken, non-null item, by the worker that took it, and the only one. */
  ghost predicate HandledOnce(s: System)
    requires Fifo(s)
  {
    && (forall j :: 0 <= j < |s.handled| ==>
          var h := s.handled[j];
          h.ticket < |s.taken| && s.taken[h.ticket] == h.worker && s.accepted[h.ticket].Work?)
    && (forall i, j :: 0 <= i < j < |s.handled| ==> s.handled[i].ticket != s.handled[j].ticket)
  }

  /** A worker in hand of an item holds the ticket it took, not yet handled. */
  ghost predicate HandsMatch(s: System)
    requires Fifo(s)
  {
    forall w: nat :: w < |s.workers| && s.workers[w].Holding? ==>
      match s.workers[w].ticket
      case None => s.workers[w].item == Null && s.workers[w].mustExit
      case Some(k) => k < |s.taken| && s.taken[k] == w && s.accepted[k] == s.workers[w].item && !WasHandled(s, k)
  }

  /** No taken item is lost: it has been handled, or its taker still has it, or it was null. */
  ghost predicate NothingLost(s: System)
    requires Fifo(s)
  {
    forall k: nat :: k < |s.taken| ==>
      && s.taken[k] < |s.workers|
      && (s.accepted[k].Work? ==> WasHandled(s, k) || Holds(s.workers[s.taken[k]], k))
  }

  ghost predicate Tickets(s: System) {
    Fifo(s) && HandledOnce(s) && HandsMatch(s) && NothingLost(s)
  }

  lemma TicketsKept(s: System, a: Action)
    requires Tickets(s) && Enabled(s, a)
    ensures Tickets(Apply(s, a))
  {
    hide Tickets, Asleep;
    var t := Apply(s, a);
    match a
    case Dispatch(item, canCreate, woken) => DispatchKeepsTickets(s, item, canCreate, woken);
    case Enter(w) =>
      if s.pool.Sleeps() {
        TicketsUntouched(s, t);
      } else {
        TicketsUntouched(s, s.(pool := s.pool.Idle()));
        TakeKeepsTickets(s.(pool := s.pool.Idle()), w, s.workers[w].mustExit);
      }
    case Wake(w, _) =>
      if s.pool.Sleeps() {
        TicketsUntouched(s, t);
      } else {
        TakeKeepsTickets(s, w, s.workers[w].mustExit);
      }
    case TimeOut(w) => TakeKeepsTickets(s, w, true);
    case Serve(w) => ServeKeepsTickets(s, w);
    case Retire(w) => TicketsUntouched(s, t);
    case Destroy => TicketsUntouched(s, t);
    case DestroyerWake(_) => TicketsUntouched(s, t);
  }

  /** A step that touches neither the queue nor a worker with an item in hand. */
  lemma TicketsUntouched(s: System, t: System)
    requires Tickets(s) && |t.workers| == |s.workers|
    requires t.pool.queue == s.pool.queue && t.accepted == s.accepted && t.taken == s.taken && t.handled == s.handled
    requires forall w :: 0 <= w < |s.workers| && (s.workers[w].Holding? || t.workers[w].Holding?) ==>
               t.workers[w] == s.workers[w]
    ensures Tickets(t)
  {
    SameHandled(s, t);
  }

  lemma SameHandled(s: System, t: System)
    requires s.handled == t.handled
    ensures forall k: nat :: WasHandled(t, k) <==> WasHandled(s, k)
  {
  }

  lemma DispatchKeepsTickets(s: System, item: Item, canCreate: bool, woken: set<nat>)
    requires Tickets(s)
    ensures Tickets(AfterDispatch(s, item, canCreate, woken))
  {
    var t := AfterDispatch(s, item, canCreate, woken);
    SameHandled(s, t);
    forall k: nat | k < |s.taken| && Holds(s.workers[s.taken[k]], k) ensures Holds(t.workers[t.taken[k]], k) {
    }
  }

  lemma TakeKeepsTickets(s: System, w: nat, mustExit: bool)
    requires Tickets(s) && w < |s.workers| && (s.workers[w].Ready? || s.workers[w].Waiting?)
    requires s.pool.queue == [] ==> mustExit || s.pool.state == POOL_EXIT
    ensures Tickets(TakeBy(s, w, mustExit))
  {
    hide TakeBy, HandledOnce, HandsMatch, NothingLost;
    TakeKeepsOrder(s, w, mustExit);
    TakeKeepsHands(s, w, mustExit);
    TakeLosesNothing(s, w, mustExit);
  }

  /** Taking the front moves one ticket from the queue to the taken ones. */
  lemma TakeKeepsOrder(s: System, w: nat, mustExit: bool)
    requires Fifo(s) && HandledOnce(s) && w < |s.workers|
    ensures Fifo(TakeBy(s, w, mustExit)) && HandledOnce(TakeBy(s, w, mustExit))
    ensures s.handled == TakeBy(s, w, mustExit).handled
  {
    var t, k := TakeBy(s, w, mustExit), |s.taken|;
    if s.pool.queue != [] {
      assert t.pool.queue == t.accepted[k + 1..];
    }
  }

  lemma TakeKeepsHands(s: System, w: nat, mustExit: bool)
    requires Fifo(s) && HandledOnce(s) && HandsMatch(s) && w < |s.workers|
    requires s.pool.queue == [] ==> mustExit || s.pool.state == POOL_EXIT
    ensures Fifo(TakeBy(s, w, mustExit)) && HandsMatch(TakeBy(s, w, mustExit))
  {
    var t, k := TakeBy(s, w, mustExit), |s.taken|;
    TakeKeepsOrder(s, w, mustExit);
    SameHandled(s, t);
    if s.pool.queue != [] {
      assert s.pool.queue[0] == s.accepted[k];
      assert !WasHandled(s, k);
    }
    hide WasHandled, HandledOnce;
  }

  lemma TakeLosesNothing(s: System, w: nat, mustExit: bool)
    requires Fifo(s) && HandledOnce(s) && NothingLost(s) && w < |s.workers|
    requires s.workers[w].Ready? || s.workers[w].Waiting?
    ensures Fifo(TakeBy(s, w, mustExit)) && NothingLost(TakeBy(s, w, mustExit))
  {
    hide WasHandled, HandledOnce;
    var t := TakeBy(s, w, mustExit);
    TakeKeepsOrder(s, w, mustExit);
    SameHandled(s, t);
    forall k: nat | k < |s.taken| && Holds(s.workers[s.taken[k]], k) ensures Holds(t.workers[t.taken[k]], k) {
    }
  }

  lemma ServeKeepsTickets(s: System, w: nat)
    requires Tickets(s) && w < |s.workers| && s.workers[w].Holding?
    ensures Tickets(AfterServe(s, w))
  {
    var t, h := AfterServe(s, w), s.workers[w];
    if h.item.Work? {
      var k := h.ticket.value;
      assert t.handled[|s.handled|].ticket == k;
      forall j: nat ensures WasHandled(t, j) <==> j == k || WasHandled(s, j) {
        if WasHandled(s, j) {
          var m :| 0 <= m < |s.handled| && s.handled[m].ticket == j;
          assert t.handled[m].ticket == j;
        }
      }
    } else {
      SameHandled(s, t);
    }
  }

  // ---------- Signals and deletion ----------

  ghost predicate Signals(s: System) {
    && (s.destroyer == Absent <==> s.pool.state == POOL_VALID)
    && (s.destroyer != Absent <==> s.pool.state == POOL_EXIT)
    // after the broadcast of destroy, nobody sleeps
    && (s.pool.state == POOL_EXIT && s.destroyer != Deleted ==> Asleep(s.workers) == {})
    // nobody but the last worker out has to wake the destroyer, and it does
    && (s.destroyer.Awaiting? ==> (s.destroyer.notified <==> s.pool.alive == 0))
    && (s.destroyer == Deleted ==> s.pool.alive == 0)
  }

  lemma SignalsKept(s: System, a: Action)
    requires Counters(s) && Signals(s) && Enabled(s, a)
    ensures Signals(Apply(s, a))
  {
    var t := Apply(s, a);
    assert s.pool.state == POOL_EXIT ==> Asleep(t.workers) <= Asleep(s.workers);
    match a
    case Destroy => assert Asleep(Notify(s.workers, Asleep(s.workers))) == {};
    case Retire(w) =>
      CountZero(s.workers, IsAlive);
      assert IsAlive(s.workers[w]);
    case _ =>
  }

  // ---------- No wakeup is lost ----------

  /** A worker that is going to look at the queue. */
  predicate IsComing(w: Worker) {
    w.Ready? || (w.Waiting? && w.notified)
  }

  /** If a worker sleeps on, then every queued item has a worker coming for it. */
  ghost predicate NoLostWakeup(s: System) {
    Asleep(s.workers) != {} ==> |s.pool.queue| <= Count(s.workers, IsComing)
  }

  /** A step of one worker that takes an item only by ceasing to come for it, and does not fall asleep on a full queue. */
  lemma NoLostWakeupByOne(s: System, t: System, w: nat)
    requires NoLostWakeup(s) && w < |s.workers| && |t.workers| == |s.workers|
    requires t.workers == s.workers[w := t.workers[w]]
    requires t.pool.queue == []
             || ((t.workers[w].Waiting? ==> t.workers[w].notified)
                 && |t.pool.queue| + (if IsComing(s.workers[w]) then 1 else 0)
                    <= |s.pool.queue| + (if IsComing(t.workers[w]) then 1 else 0))
    ensures NoLostWakeup(t)
  {
    CountUpdate(s.workers, w, t.workers[w], IsComing);
    assert t.pool.queue != [] ==> Asleep(t.workers) <= Asleep(s.workers);
  }

  lemma NoLostWakeupKept(s: System, a: Action)
    requires NoLostWakeup(s) && Enabled(s, a)
    ensures NoLostWakeup(Apply(s, a))
  {
    var t := Apply(s, a);
    match a
    case Dispatch(item, canCreate, woken) =>
      if s.pool.state == POOL_VALID {
        DispatchWakes(s, item, canCreate, woken);
      }
    case Enter(w) => NoLostWakeupByOne(s, t, w);
    case Wake(w, _) => NoLostWakeupByOne(s, t, w);
    case TimeOut(w) => NoLostWakeupByOne(s, t, w);
    case Serve(w) => NoLostWakeupByOne(s, t, w);
    case Retire(w) =>
      var ws := s.workers[w := Gone];
      NoLostWakeupByOne(s, s.(workers := ws), w);
      assert Asleep(Notify(ws, Asleep(ws))) == {};
    case Destroy => assert Asleep(Notify(s.workers, Asleep(s.workers))) == {};
    case DestroyerWake(_) =>
  }

  lemma DispatchWakes(s: System, item: Item, canCreate: bool, woken: set<nat>)
    requires NoLostWakeup(s) && Enabled(s, Dispatch(item, canCreate, woken)) && s.pool.state == POOL_VALID
    ensures NoLostWakeup(AfterDispatch(s, item, canCreate, woken))
  {
    var t := AfterDispatch(s, item, canCreate, woken);
    assert Asleep(t.workers) <= Asleep(s.workers);
    if Asleep(t.workers) != {} {
      var ws := Notify(s.workers, woken);
      var i :| i in woken;
      assert !IsComing(s.workers[i]) && IsComing(ws[i]);
      CountCompare(s.workers, ws, IsComing, IsComing);
      CountAppend(ws, Ready(false), IsComing);
    }
  }

  // ---------- When threads start and leave ----------

  /** A dispatch starts a thread exactly if it is accepted, a thread can be created, the limit is not
      reached and nobody is waiting for work. */
  lemma StartsExactlyIf(s: System, item: Item, canCreate: bool, woken: set<nat>)
    requires Counters(s) && Enabled(s, Dispatch(item, canCreate, woken))
    ensures |Apply(s, Dispatch(item, canCreate, woken)).workers| > |s.workers| <==>
            && s.pool.state == POOL_VALID && canCreate && s.pool.alive < s.pool.max
            && forall w :: 0 <= w < |s.workers| ==> !s.workers[w].Waiting?
  {
    CountZero(s.workers, IsWaiting);
  }

  /** A worker that has been told to leave: by a timeout, or by the exit of the pool. */
  predicate MustExit(w: Worker) {
    w.Leaving? || w.Gone? || w.mustExit
  }

  /** A worker is told to leave exactly by its own timeout or by coming to an exiting pool, and it
      never forgets. */
  lemma ToldExactlyIf(s: System, a: Action, w: nat)
    requires Enabled(s, a) && w < |s.workers|
    ensures w < |Apply(s, a).workers|
    ensures MustExit(Apply(s, a).workers[w]) <==>
            || MustExit(s.workers[w])
            || a == TimeOut(w)
            || ((a == Enter(w) || a == Wake(w, true) || a == Wake(w, false)) && s.pool.state == POOL_EXIT)
  {
  }

  /** A worker leaves its loop exactly when it looks at a null item after being told to. */
  lemma LeavesExactlyIf(s: System, a: Action, w: nat)
    requires Enabled(s, a) && w < |s.workers| && !s.workers[w].Leaving?
    ensures w < |Apply(s, a).workers|
    ensures Apply(s, a).workers[w].Leaving? <==>
            a == Serve(w) && s.workers[w].item == Null && s.workers[w].mustExit
  {
  }

  // ---------- Every reachable state ----------

  ghost predicate Safe(s: System) {
    Counters(s) && Tickets(s) && Signals(s) && NoLostWakeup(s)
  }

  lemma SafeKept(s: System, a: Action)
    requires Safe(s) && Enabled(s, a)
    ensures Safe(Apply(s, a))
  {
    CountersKept(s, a);
    TicketsKept(s, a);
    SignalsKept(s, a);
    NoLostWakeupKept(s, a);
  }

  lemma {:induction false} SafeAlongRun(s: System, run: seq<Action>)
    requires Safe(s) && Legal(s, run)
    ensures Safe(Exec(s, run))
    decreases |run|
  {
    if run != [] {
      SafeKept(s, run[0]);
      SafeAlongRun(Apply(s, run[0]), run[1..]);
    }
  }

  ghost predicate Reachable(max: int, s: System) {
    exists run :: Legal(Init(max), run) && Exec(Init(max), run) == s
  }

  lemma ReachableIsSafe(max: int, s: System)
    requires Reachable(max, s)
    ensures Safe(s)
  {
    var run :| Legal(Init(max), run) && Exec(Init(max), run) == s;
    assert Asleep(Init(max).workers) == {};
    SafeAlongRun(Init(max), run);
  }

  /** The counters count workers, in every interleaving: idle those waiting, alive those not gone. */
  lemma CountersAreExact(max: int, s: System)
    requires Reachable(max, s)
    ensures s.pool.alive == Count(s.workers, IsAlive) && s.pool.idle == Count(s.workers, IsWaiting)
    ensures 0 <= s.pool.idle <= s.pool.alive
    ensures s.pool.alive <= if max > 0 then max else 0
  {
    ReachableIsSafe(max, s);
    CountCompare(s.workers, s.workers, IsWaiting, IsAlive);
    var run :| Legal(Init(max), run) && Exec(Init(max), run) == s;
    MaxIsFixed(Init(max), run);
  }

  lemma {:induction false} MaxIsFixed(s: System, run: seq<Action>)
    requires Legal(s, run)
    ensures Exec(s, run).pool.max == s.pool.max
    decreases |run|
  {
    if run != [] {
      MaxIsFixed(Apply(s, run[0]), run[1..]);
    }
  }

  /** First in, first out, nothing invented, nothing handled twice, nothing dropped. */
  lemma ItemsAreConserved(max: int, s: System)
    requires Reachable(max, s)
    ensures |s.taken| <= |s.accepted| && s.accepted == s.accepted[..|s.taken|] + s.pool.queue
    ensures HandledOnce(s) && NothingLost(s)
  {
    ReachableIsSafe(max, s);
  }

  /** When the pool is deleted, no worker will touch it again. */
  lemma DeletedIsUntouched(max: int, s: System)
    requires Reachable(max, s) && s.destroyer == Deleted
    ensures forall w :: 0 <= w < |s.workers| ==> s.workers[w] == Gone
  {
    ReachableIsSafe(max, s);
    CountZero(s.workers, IsAlive);
  }
}
