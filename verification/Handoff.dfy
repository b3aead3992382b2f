/**
  The hand-off of accepted sockets from the main epoll thread to its workers, as a
  step system: every shared-memory access, lock operation and system call of
  MainEpoll::balance_socket, Epoll::push_external_socket, the wakeup branch of
  Epoll::exec and Epoll::remove_client is one step, and any interleaving is a run.
  The kernel is free to reuse a descriptor number as soon as it has been closed.
*/
module Handoff {
  import opened Common

  /** An accepted descriptor and the peer address recorded in its statistics. */
  datatype Conn = Conn(fd: int, peer: string)

  /** Who holds a worker's mtx_pending_new_socks_. */
  datatype Lock = Free | ByAcceptor | ByWorker

  /** Where a worker thread stands. */
  datatype WorkerPc =
    | Polling                // in epoll_wait, or between two events
    | Notified               // wakeup_fd reported readable, read() still to come
    | WantsLock              // the event counter has been read
    | Draining               // lock held, nothing popped
    | Holding(conn: Conn)    // lock held, the front has been popped
    | Erasing(fd: int)       // remove_client entered
    | Uncounting(fd: int)    // erased from clients, size_clients-- still to come
    | Closing(fd: int)       // close() still to come

  datatype Worker = Worker(clients: map<int, string>, pending: seq<Conn>, size: int,
                           event: nat, lock: Lock, pc: WorkerPc)

  /**
    Where the acceptor stands. std::min_element evaluates its comparator once per
    further worker and the comparator loads both atomic counters each time, in an
    order the language leaves open. `seen` records the loaded values and `since` the
    number of decrements made before the scan began; both are history only.
  */
  datatype Acceptor =
    | Idle
    | Scanning(conn: Conn, next: nat, best: nat, cand: Option<int>, top: Option<int>, seen: seq<int>, since: nat)
    | Chosen(conn: Conn, target: nat, seen: seq<int>, since: nat)
    | Locked(conn: Conn, target: nat, seen: seq<int>, since: nat)
    | Enqueued(target: nat, seen: seq<int>, since: nat)  // lock held, size_clients++ still to come
    | Counted(target: nat)                               // lock held
    | Signalling(target: nat)                            // write() to the eventfd still to come

  /** `pushed` and `removed` count the increments and decrements made so far. */
  datatype State = State(workers: seq<Worker>, open: map<int, string>, acceptor: Acceptor,
                         pushed: nat, removed: nat)

  /** The largest value an eventfd counter can hold; a write that would pass it fails. */
  const EVENT_MAX: nat := 0xffff_ffff_ffff_fffe

  const NewWorker := Worker(map[], [], 0, 0, Free, Polling)

  function Init(k: nat): State {
    State(seq(k, _ => NewWorker), map[], Idle, 0, 0)
  }

  datatype MainStep =
    | Accept(conn: Conn) | LoadCandidate | LoadBest | Compare | Choose
    | LockQueue | Enqueue | Count | Unlock | Signal

  datatype WorkerStep =
    | Poll | ReadEvent | LockOwn | PopFront | Emplace | UnlockOwn
    | Remove(fd: int) | Erase | Decrement | Close

  datatype Step = Main(main: MainStep) | Work(w: nat, work: WorkerStep)

  /** What one worker may do, given its own state alone. */
  predicate WorkerEnabled(w: Worker, step: WorkerStep) {
    match step
    case Poll => w.pc.Polling? && w.event > 0
    case ReadEvent => w.pc.Notified?
    case LockOwn => w.pc.WantsLock? && w.lock.Free?
    case PopFront => w.pc.Draining? && w.pending != []
    case Emplace => w.pc.Holding?
    case UnlockOwn => w.pc.Draining? && w.pending == []
    case Remove(fd) => w.pc.Polling? && fd in w.clients
    case Erase => w.pc.Erasing?
    case Decrement => w.pc.Uncounting?
    case Close => w.pc.Closing?
  }

  function WorkerDo(w: Worker, step: WorkerStep): Worker
    requires WorkerEnabled(w, step)
  {
    match step
    case Poll => w.(pc := Notified)
    case ReadEvent => w.(event := 0, pc := WantsLock)
    case LockOwn => w.(lock := ByWorker, pc := Draining)
    case PopFront => w.(pending := w.pending[1..], pc := Holding(w.pending[0]))
    case Emplace => w.(clients := EmplaceOne(w.clients, w.pc.conn), pc := Draining)
    case UnlockOwn => w.(lock := Free, pc := Polling)
    case Remove(fd) => w.(pc := Erasing(fd))
    case Erase => w.(clients := w.clients - {w.pc.fd}, pc := Uncounting(w.pc.fd))
    case Decrement => w.(size := w.size - 1, pc := Closing(w.pc.fd))
    case Close => w.(pc := Polling)
  }

  /** unordered_map::emplace leaves an existing entry alone. */
  function EmplaceOne(clients: map<int, string>, c: Conn): map<int, string> {
    if c.fd in clients then clients else clients[c.fd := c.peer]
  }

  predicate MainEnabled(s: State, step: MainStep) {
    var k := |s.workers|;
    var a := s.acceptor;
    match step
    case Accept(conn) => a.Idle? && k > 0 && conn.fd !in s.open
    case LoadCandidate => a.Scanning? && a.next < k && a.cand.None?
    case LoadBest => a.Scanning? && a.next < k && a.best < k && a.top.None?
    case Compare => a.Scanning? && a.next < k && a.cand.Some? && a.top.Some?
    case Choose => a.Scanning? && a.next == k
    case LockQueue => a.Chosen? && a.target < k && s.workers[a.target].lock.Free?
    case Enqueue => a.Locked? && a.target < k
    case Count => a.Enqueued? && a.target < k
    case Unlock => a.Counted? && a.target < k
    case Signal => a.Signalling? && a.target < k
  }

  function Set(s: State, i: nat, w: Worker): State
    requires i < |s.workers|
  {
    s.(workers := s.workers[i := w])
  }

  function MainDo(s: State, step: MainStep): State
    requires MainEnabled(s, step)
  {
    var a := s.acceptor;
    match step
    case Accept(conn) =>
      s.(open := s.open[conn.fd := conn.peer], acceptor := Scanning(conn, 1, 0, None, None, [], s.removed))
    case LoadCandidate => s.(acceptor := a.(cand := Some(s.workers[a.next].size)))
    case LoadBest => s.(acceptor := a.(top := Some(s.workers[a.best].size)))
    case Compare =>
      s.(acceptor := a.(next := a.next + 1, best := if a.cand.value < a.top.value then a.next else a.best,
                        cand := None, top := None, seen := a.seen + [a.cand.value, a.top.value]))
    case Choose => s.(acceptor := Chosen(a.conn, a.best, a.seen, a.since))
    case LockQueue =>
      Set(s, a.target, s.workers[a.target].(lock := ByAcceptor))
        .(acceptor := Locked(a.conn, a.target, a.seen, a.since))
    case Enqueue =>
      var w := s.workers[a.target];
      Set(s, a.target, w.(pending := w.pending + [a.conn])).(acceptor := Enqueued(a.target, a.seen, a.since))
    case Count =>
      var w := s.workers[a.target];
      Set(s, a.target, w.(size := w.size + 1)).(acceptor := Counted(a.target), pushed := s.pushed + 1)
    case Unlock =>
      Set(s, a.target, s.workers[a.target].(lock := Free)).(acceptor := Signalling(a.target))
    case Signal =>
      var w := s.workers[a.target];
      Set(s, a.target, w.(event := if w.event < EVENT_MAX then w.event + 1 else w.event)).(acceptor := Idle)
  }

  predicate Enabled(s: State, step: Step) {
    match step
    case Main(main) => MainEnabled(s, main)
    case Work(w, work) => w < |s.workers| && WorkerEnabled(s.workers[w], work)
  }

  function Do(s: State, step: Step): State
    requires Enabled(s, step)
  {
    match step
    case Main(main) => MainDo(s, main)
    case Work(i, work) =>
      var w := s.workers[i];
      Set(s, i, WorkerDo(w, work))
        .(removed := if work.Decrement? then s.removed + 1 else s.removed,
          open := if work.Close? then s.open - {w.pc.fd} else s.open)
  }

  /** A run is a sequence of steps, each enabled where it is taken. */
  predicate Allowed(s: State, steps: seq<Step>)
    decreases |steps|
  {
    steps == [] || (Enabled(s, steps[0]) && Allowed(Do(s, steps[0]), steps[1..]))
  }

  function Run(s: State, steps: seq<Step>): State
    requires Allowed(s, steps)
    decreases |steps|
  {
    if steps == [] then s else Run(Do(s, steps[0]), steps[1..])
  }
}
