/**
 The thread pool as a protocol: any number of dispatchers, the workers they start, and one
 destroyer, taking turns at the critical sections of module ThreadPool.

 The mutex makes each critical section one step.  A wait gives the mutex up, so a waiting
 worker is between steps; it may be woken by a signal, by a timeout, or for no reason.
 Accepted items carry tickets, their positions in dispatch order, so that the history
 variables can say which worker took which item and that it was handled once.
 */
module PoolProtocol {
  import opened Common
  import opened ThreadPool

  // ---------- States ----------

  datatype Worker =
    | Ready(mustExit: bool)                       // about to lock, at the top of the loop
    | Waiting(mustExit: bool, notified: bool)     // inside pthread_cond_timedwait
    | Holding(item: Item, ticket: Option<nat>, mustExit: bool)  // unlocked, before looking at the item
    | Leaving                                     // out of the loop, before the last lock
    | Gone                                        // past the last unlock

  datatype Destroyer = Absent | Awaiting(notified: bool) | Deleted

  datatype Handling = Handling(ticket: nat, worker: nat)

  datatype System = System(
    pool: Pool, workers: seq<Worker>, destroyer: Destroyer,
    accepted: seq<Item>,      // in dispatch order
    taken: seq<nat>,          // the worker that took ticket k
    handled: seq<Handling>)   // calls of the handler, in order

  function Init(max: int): System {
    System(Pool(POOL_VALID, max, 0, 0, []), [], Absent, [], [], [])
  }

  // ---------- Steps ----------

  datatype Action =
    | Dispatch(item: Item, canCreate: bool, woken: set<nat>)
    | Enter(w: nat)
    | Wake(w: nat, spurious: bool)
    | TimeOut(w: nat)
    | Serve(w: nat)
    | Retire(w: nat)
    | Destroy
    | DestroyerWake(spurious: bool)

  /** Waiting workers that no signal has reached yet. */
  function Asleep(ws: seq<Worker>): set<nat> {
    set i: nat | i < |ws| && ws[i].Waiting? && !ws[i].notified
  }

  function Notify(ws: seq<Worker>, ids: set<nat>): (ns: seq<Worker>)
    ensures |ns| == |ws|
    ensures forall i: nat :: i < |ws| ==>
      ns[i] == if i in ids && ws[i].Waiting? then Waiting(ws[i].mustExit, true) else ws[i]
  {
    seq(|ws|, i requires 0 <= i < |ws| =>
      if i in ids && ws[i].Waiting? then Waiting(ws[i].mustExit, true) else ws[i])
  }

  predicate Enabled(s: System, a: Action) {
    s.destroyer != Deleted &&
    match a
    case Dispatch(_, _, woken) =>
      // a signal wakes at least one sleeper, if there is one
      woken <= Asleep(s.workers) && (Asleep(s.workers) != {} ==> woken != {})
    case Enter(w) => w < |s.workers| && s.workers[w].Ready?
    case Wake(w, spurious) => w < |s.workers| && s.workers[w].Waiting? && (spurious || s.workers[w].notified)
    case TimeOut(w) => w < |s.workers| && s.workers[w].Waiting?
    case Serve(w) => w < |s.workers| && s.workers[w].Holding?
    case Retire(w) => w < |s.workers| && s.workers[w].Leaving?
    case Destroy => s.destroyer == Absent && s.pool.state == POOL_VALID
    case DestroyerWake(spurious) => s.destroyer.Awaiting? && (spurious || s.destroyer.notified)
  }

  function Apply(s: System, a: Action): System
    requires Enabled(s, a)
  {
    match a
    case Dispatch(item, canCreate, woken) => AfterDispatch(s, item, canCreate, woken)
    case Enter(w) =>
      if s.pool.Sleeps()
      then s.(pool := s.pool.Idle(), workers := s.workers[w := Waiting(s.workers[w].mustExit, false)])
      else TakeBy(s.(pool := s.pool.Idle()), w, s.workers[w].mustExit)
    case Wake(w, _) =>
      if s.pool.Sleeps()
      then s.(workers := s.workers[w := Waiting(s.workers[w].mustExit, false)])
      else TakeBy(s, w, s.workers[w].mustExit)
    case TimeOut(w) => TakeBy(s, w, true)
    case Serve(w) => AfterServe(s, w)
    case Retire(w) => AfterRetire(s, w)
    case Destroy =>
      if s.pool.alive > 0
      then s.(pool := s.pool.Exit(), workers := Notify(s.workers, Asleep(s.workers)), destroyer := Awaiting(false))
      else s.(pool := s.pool.Exit(), destroyer := Deleted)
    case DestroyerWake(_) =>
      s.(destroyer := if s.pool.alive > 0 then Awaiting(false) else Deleted)
  }

  function AfterDispatch(s: System, item: Item, canCreate: bool, woken: set<nat>): System {
    if s.pool.state != POOL_VALID then s
    else
      var started := s.pool.WantsThread() && canCreate;
      var ws := Notify(s.workers, woken);
      s.(pool := s.pool.Accept(item, started),
         workers := if started then ws + [Ready(false)] else ws,
         accepted := s.accepted + [item])
  }

  /** Worker w takes the front of the queue, if there is one, and unlocks. */
  function TakeBy(s: System, w: nat, mustExit: bool): System
    requires w < |s.workers|
  {
    var leave := mustExit || s.pool.state == POOL_EXIT;
    if s.pool.queue == []
    then s.(pool := s.pool.Take(), workers := s.workers[w := Holding(Null, None, leave)])
    else s.(pool := s.pool.Take(),
            workers := s.workers[w := Holding(s.pool.Front(), Some(|s.taken|), leave)],
            taken := s.taken + [w])
  }

  /** The worker looks at its item: it runs the handler, or leaves, or goes round again. */
  function AfterServe(s: System, w: nat): System
    requires w < |s.workers| && s.workers[w].Holding?
  {
    var h := s.workers[w];
    if h.item.Work? then
      s.(workers := s.workers[w := Ready(h.mustExit)],
         handled := if h.ticket.Some? then s.handled + [Handling(h.ticket.value, w)] else s.handled)
    else if h.mustExit then s.(workers := s.workers[w := Leaving])
    else s.(workers := s.workers[w := Ready(false)])
  }

  function AfterRetire(s: System, w: nat): System
    requires w < |s.workers|
  {
    var pool := s.pool.Retire();
    var ws := s.workers[w := Gone];
    if pool.alive == 0
    then s.(pool := pool, workers := Notify(ws, Asleep(ws)),
            destroyer := if s.destroyer.Awaiting? then Awaiting(true) else s.destroyer)
    else s.(pool := pool, workers := ws)
  }

  // ---------- Runs ----------

  predicate Legal(s: System, run: seq<Action>)
    decreases |run|
  {
    run == [] || (Enabled(s, run[0]) && Legal(Apply(s, run[0]), run[1..]))
  }

  function Exec(s: System, run: seq<Action>): System
    requires Legal(s, run)
    decreases |run|
  {
    if run == [] then s else Exec(Apply(s, run[0]), run[1..])
  }

  // ---------- Counting workers ----------

  function Count(ws: seq<Worker>, p: Worker -> bool): nat {
    if ws == [] then 0 else Count(ws[..|ws| - 1], p) + (if p(ws[|ws| - 1]) then 1 else 0)
  }

  lemma {:induction false} CountUpdate(ws: seq<Worker>, i: nat, w: Worker, p: Worker -> bool)
    requires i < |ws|
    ensures Count(ws[i := w], p) == Count(ws, p) - (if p(ws[i]) then 1 else 0) + (if p(w) then 1 else 0)
  {
    var n := |ws| - 1;
    if i == n {
      assert ws[i := w][..n] == ws[..n];
    } else {
      assert ws[i := w][..n] == ws[..n][i := w];
      CountUpdate(ws[..n], i, w, p);
    }
  }

  lemma CountAppend(ws: seq<Worker>, w: Worker, p: Worker -> bool)
    ensures Count(ws + [w], p) == Count(ws, p) + (if p(w) then 1 else 0)
  {
    assert (ws + [w])[..|ws|] == ws;
  }

  /** If every p in ws is a q in vs, there are at least as many; one more, if some q was no p. */
  lemma {:induction false} CountCompare(ws: seq<Worker>, vs: seq<Worker>, p: Worker -> bool, q: Worker -> bool)
    requires |ws| == |vs| && forall i :: 0 <= i < |ws| && p(ws[i]) ==> q(vs[i])
    ensures Count(ws, p) <= Count(vs, q)
    ensures (exists i :: 0 <= i < |ws| && !p(ws[i]) && q(vs[i])) ==> Count(ws, p) < Count(vs, q)
  {
    if ws != [] {
      CountCompare(ws[..|ws| - 1], vs[..|ws| - 1], p, q);
    }
  }

  lemma {:induction false} CountZero(ws: seq<Worker>, p: Worker -> bool)
    ensures Count(ws, p) == 0 <==> forall i :: 0 <= i < |ws| ==> !p(ws[i])
  {
    if ws != [] {
      var init := ws[..|ws| - 1];
      CountZero(init, p);
      assert forall i :: 0 <= i < |init| ==> ws[i] == init[i];
    }
  }
}
