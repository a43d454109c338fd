/** Shutting the pool down ends, under every schedule, in its deletion. */
module PoolShutdown {
  import opened Common
  import opened ThreadPool
  import opened PoolProtocol
  import opened PoolSafety

  // ---------- Shutdown ends ----------

  predicate IsWorkerStep(a: Action) {
    a.Enter? || a.Wake? || a.TimeOut? || a.Serve? || a.Retire?
  }

  function Phase(w: Worker): nat {
    match w
    case Ready(_) => 4
    case Waiting(_, _) => 4
    case Holding(item, _, mustExit) => if item.Work? || !mustExit then 5 else 3
    case Leaving => 2
    case Gone => 0
  }

  function Phases(ws: seq<Worker>): nat {
    if ws == [] then 0 else Phases(ws[..|ws| - 1]) + Phase(ws[|ws| - 1])
  }

  /** What is left to do once the pool is exiting. */
  function Remaining(s: System): nat {
    2 * |s.pool.queue| + Phases(s.workers)
  }

  lemma {:induction false} PhasesUpdate(ws: seq<Worker>, i: nat, w: Worker)
    requires i < |ws|
    ensures Phases(ws[i := w]) == Phases(ws) - Phase(ws[i]) + Phase(w)
  {
    var n := |ws| - 1;
    if i == n {
      assert ws[i := w][..n] == ws[..n];
    } else {
      assert ws[i := w][..n] == ws[..n][i := w];
      PhasesUpdate(ws[..n], i, w);
    }
  }

  lemma {:induction false} PhasesSame(ws: seq<Worker>, vs: seq<Worker>)
    requires |ws| == |vs| && forall i :: 0 <= i < |ws| ==> Phase(ws[i]) == Phase(vs[i])
    ensures Phases(ws) == Phases(vs)
  {
    if ws != [] {
      PhasesSame(ws[..|ws| - 1], vs[..|ws| - 1]);
    }
  }

  lemma RemainingShrinks(s: System, a: Action)
    requires s.pool.state == POOL_EXIT && Enabled(s, a)
    ensures IsWorkerStep(a) ==> Remaining(Apply(s, a)) < Remaining(s)
    ensures !IsWorkerStep(a) ==> Remaining(Apply(s, a)) == Remaining(s)
  {
    hide Phases, Asleep;
    var t := Apply(s, a);
    match a
    case Enter(w) => PhasesUpdate(s.workers, w, t.workers[w]);
    case Wake(w, _) => PhasesUpdate(s.workers, w, t.workers[w]);
    case TimeOut(w) => PhasesUpdate(s.workers, w, t.workers[w]);
    case Serve(w) => PhasesUpdate(s.workers, w, t.workers[w]);
    case Retire(w) =>
      var ws := s.workers[w := Gone];
      PhasesUpdate(s.workers, w, Gone);
      PhasesSame(ws, Notify(ws, Asleep(ws)));
    case _ =>
  }

  function WorkerSteps(run: seq<Action>): nat {
    if run == [] then 0 else (if IsWorkerStep(run[0]) then 1 else 0) + WorkerSteps(run[1..])
  }

  /** Once the pool is exiting, the workers take at most Remaining more steps, whatever the schedule. */
  lemma {:induction false} ShutdownEnds(s: System, run: seq<Action>)
    requires s.pool.state == POOL_EXIT && Legal(s, run)
    ensures WorkerSteps(run) + Remaining(Exec(s, run)) <= Remaining(s)
    decreases |run|
  {
    if run != [] {
      RemainingShrinks(s, run[0]);
      ShutdownEnds(Apply(s, run[0]), run[1..]);
    }
  }

  /** While the pool is exiting, somebody can move without a spurious wakeup or a timeout. */
  lemma ShutdownNeverSticks(s: System) returns (a: Action)
    requires Safe(s) && s.pool.state == POOL_EXIT && s.destroyer != Deleted
    ensures Enabled(s, a) && IsProper(a)
    ensures s.pool.alive > 0 ==> a.Enter? || (a.Wake? && !a.spurious) || a.Serve? || a.Retire?
    ensures s.pool.alive == 0 ==> a == DestroyerWake(false) && Apply(s, a).destroyer == Deleted
  {
    if s.pool.alive > 0 {
      CountZero(s.workers, IsAlive);
      var w: nat :| w < |s.workers| && IsAlive(s.workers[w]);
      assert w !in Asleep(s.workers);
      a := match s.workers[w]
        case Ready(_) => Enter(w)
        case Waiting(_, _) => Wake(w, false)
        case Holding(_, _, _) => Serve(w)
        case Leaving => Retire(w)
        case Gone => DestroyerWake(false);
    } else {
      a := DestroyerWake(false);
    }
  }

  /** So shutdown can always be carried through to the deletion. */
  lemma {:induction false} ShutdownCanFinish(s: System) returns (run: seq<Action>)
    requires Safe(s) && s.pool.state == POOL_EXIT
    ensures Legal(s, run) && Exec(s, run).destroyer == Deleted
    decreases Remaining(s)
  {
    if s.destroyer == Deleted {
      run := [];
    } else {
      var a := ShutdownNeverSticks(s);
      var t := Apply(s, a);
      SafeKept(s, a);
      RemainingShrinks(s, a);
      var rest := [];
      if s.pool.alive > 0 {
        rest := ShutdownCanFinish(t);
      }
      run := [a] + rest;
      assert run[1..] == rest;
    }
  }

  /** A step that does something: no dispatch, which an exiting pool rejects, and no idle wakeup of the destroyer. */
  predicate IsProper(a: Action) {
    !a.Dispatch? && a != DestroyerWake(true)
  }

  predicate AllProper(run: seq<Action>) {
    forall i :: 0 <= i < |run| ==> IsProper(run[i])
  }

  function ToDeletion(s: System): nat {
    Remaining(s) + (if s.destroyer == Deleted then 0 else 1)
  }

  lemma ProperStepShrinks(s: System, a: Action)
    requires Safe(s) && s.pool.state == POOL_EXIT && Enabled(s, a) && IsProper(a)
    ensures ToDeletion(Apply(s, a)) < ToDeletion(s)
  {
    hide Counters, Tickets, NoLostWakeup, Remaining;
    RemainingShrinks(s, a);
  }

  /** Every run of proper steps of an exiting pool ends within a bound, and where it ends, with no
      proper step left, the pool is deleted: under every schedule shutdown finishes. */
  lemma {:induction false} ShutdownFinishes(s: System, run: seq<Action>)
    requires Safe(s) && s.pool.state == POOL_EXIT && Legal(s, run) && AllProper(run)
    ensures |run| + ToDeletion(Exec(s, run)) <= ToDeletion(s) <= Remaining(s) + 1
    ensures (forall a :: IsProper(a) ==> !Enabled(Exec(s, run), a)) <==> Exec(s, run).destroyer == Deleted
    decreases |run|
  {
    hide Safe, Remaining;
    if run != [] {
      ProperStepShrinks(s, run[0]);
      SafeKept(s, run[0]);
      StaysExiting(s, run[0]);
      ShutdownFinishes(Apply(s, run[0]), run[1..]);
    } else if s.destroyer != Deleted {
      var a := ShutdownNeverSticks(s);
      assert IsProper(a) && Enabled(s, a);
    }
  }

  lemma StaysExiting(s: System, a: Action)
    requires s.pool.state == POOL_EXIT && Enabled(s, a)
    ensures Apply(s, a).pool.state == POOL_EXIT
  {
  }
}
