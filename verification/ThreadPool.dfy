/**
 The shared fields of a thread pool and its critical sections (lib/thread-pool.cpp).

 Each critical section is a method of class ThreadPool, proved against a function on the
 value Pool; PoolProtocol composes the same functions into the protocol between
 dispatchers, workers and the destroyer.
 */
module ThreadPool {

  datatype PoolState = POOL_INVALID | POOL_VALID | POOL_EXIT

  /** What WorkItem.data points to, or Null. */
  datatype Item = Null | Work(id: int)

  datatype Pool = Pool(state: PoolState, max: int, alive: int, idle: int, queue: seq<Item>) {

    /** Whether dispatch tries to start a thread for an item it has just queued. */
    predicate WantsThread() {
      idle == 0 && alive < max
    }

    /** The wait condition of a worker. */
    predicate Sleeps() {
      queue == [] && state != POOL_EXIT
    }

    /** What a worker reads from the front of the queue; nothing, when there is no front. */
    function Front(): Item {
      if queue == [] then Null else queue[0]
    }

    function Accept(item: Item, started: bool): Pool {
      this.(queue := queue + [item], alive := if started then alive + 1 else alive)
    }

    function Idle(): Pool {
      this.(idle := idle + 1)
    }

    function Take(): Pool {
      this.(queue := if queue == [] then [] else queue[1..], idle := idle - 1)
    }

    function Retire(): Pool {
      this.(alive := alive - 1)
    }

    function Exit(): Pool {
      this.(state := POOL_EXIT)
    }
  }

  class ThreadPool {
    var m_state: PoolState
    const m_max_threads: int
    var m_thread_alive: int
    var m_thread_idle: int
    var m_queue: seq<Item>

    ghost function View(): Pool
      reads this
    {
      Pool(m_state, m_max_threads, m_thread_alive, m_thread_idle, m_queue)
    }

    /** alloc_threadpool */
    constructor (maxThreads: int)
      ensures View() == Pool(POOL_VALID, maxThreads, 0, 0, [])
    {
      m_state := POOL_VALID;
      m_max_threads := maxThreads;
      m_thread_alive, m_thread_idle := 0, 0;
      m_queue := [];
    }

    /** dispatch, from lock to unlock; canCreate is the outcome of pthread_create. */
    method Dispatch(item: Item, canCreate: bool) returns (ok: bool, started: bool)
      modifies this
      ensures ok <==> old(m_state) == POOL_VALID
      ensures started <==> ok && old(m_thread_idle) == 0 && old(m_thread_alive) < m_max_threads && canCreate
      ensures m_state == old(m_state) && m_thread_idle == old(m_thread_idle)
      ensures m_queue == if ok then old(m_queue) + [item] else old(m_queue)
      ensures m_thread_alive == if started then old(m_thread_alive) + 1 else old(m_thread_alive)
      ensures started <==> ok && old(View()).WantsThread() && canCreate
      ensures View() == if ok then old(View()).Accept(item, started) else old(View())
    {
      ok, started := false, false;
      if m_state != POOL_VALID {
        return;
      }
      m_queue := m_queue + [item];
      if m_thread_idle == 0 && m_thread_alive < m_max_threads {
        if canCreate {
          m_thread_alive := m_thread_alive + 1;
          started := true;
        }
      }
      ok := true;
    }

    /** The worker loop from lock to unlock, or to going to sleep in the wait. */
    method Enter() returns (asleep: bool, item: Item, exiting: bool)
      modifies this
      ensures asleep <==> old(m_queue) == [] && old(m_state) != POOL_EXIT
      ensures item == (if old(m_queue) == [] then Null else old(m_queue)[0])
      ensures exiting <==> old(m_state) == POOL_EXIT
      ensures m_state == old(m_state) && m_thread_alive == old(m_thread_alive)
      ensures m_thread_idle == if asleep then old(m_thread_idle) + 1 else old(m_thread_idle)
      ensures m_queue == if old(m_queue) == [] then [] else old(m_queue)[1..]
      ensures asleep <==> old(View()).Sleeps()
      ensures item == (if asleep then Null else old(View()).Front())
      ensures View() == if asleep then old(View()).Idle() else old(View()).Idle().Take()
    {
      m_thread_idle := m_thread_idle + 1;
      asleep, item, exiting := Resume(false);
    }

    /** The wait loop after a wakeup or a timeout, up to unlock or to sleeping again. */
    method Resume(timedOut: bool) returns (asleep: bool, item: Item, exiting: bool)
      modifies this
      ensures asleep <==> old(m_queue) == [] && old(m_state) != POOL_EXIT && !timedOut
      ensures item == (if old(m_queue) == [] then Null else old(m_queue)[0])
      ensures exiting <==> old(m_state) == POOL_EXIT
      ensures m_state == old(m_state) && m_thread_alive == old(m_thread_alive)
      ensures m_thread_idle == if asleep then old(m_thread_idle) else old(m_thread_idle) - 1
      ensures m_queue == if old(m_queue) == [] then [] else old(m_queue)[1..]
      ensures asleep <==> old(View()).Sleeps() && !timedOut
      ensures item == (if asleep then Null else old(View()).Front())
      ensures View() == if asleep then old(View()) else old(View()).Take()
    {
      exiting := m_state == POOL_EXIT;
      asleep := !timedOut && m_queue == [] && m_state != POOL_EXIT;
      item := Null;
      if !asleep {
        if m_queue != [] {
          item := m_queue[0];
          m_queue := m_queue[1..];
        }
        m_thread_idle := m_thread_idle - 1;
      }
    }

    /** The end of a worker: its last critical section. */
    method Retire() returns (last: bool)
      modifies this
      ensures m_state == old(m_state) && m_thread_alive == old(m_thread_alive) - 1
      ensures m_thread_idle == old(m_thread_idle) && m_queue == old(m_queue)
      ensures last <==> m_thread_alive == 0
      ensures View() == old(View()).Retire()
    {
      m_thread_alive := m_thread_alive - 1;
      last := m_thread_alive == 0;
    }

    /** The start of destroy_threadpool; done means there is no worker to wait for. */
    method BeginDestroy() returns (done: bool)
      modifies this
      ensures old(m_state) != POOL_VALID ==> View() == old(View()) && !done
      ensures old(m_state) == POOL_VALID ==> m_state == POOL_EXIT && View() == old(View()).Exit() && (done <==> m_thread_alive <= 0)
      ensures m_thread_alive == old(m_thread_alive) && m_thread_idle == old(m_thread_idle) && m_queue == old(m_queue)
    {
      done := false;
      if m_state == POOL_VALID {
        m_state := POOL_EXIT;
        done := m_thread_alive <= 0;
      }
    }
  }
}
