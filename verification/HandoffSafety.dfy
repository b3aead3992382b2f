/**
  Safety of the hand-off over every run: each open accepted descriptor has exactly
  one owner, the recorded peer is that of the current connection, size_clients is
  exact at every instant, and no wakeup is lost.
*/
module HandoffSafety {
  import opened Common
  import opened Handoff

  // ---------------------------------------------------------------- ownership

  function InQueue(cs: seq<Conn>, fd: int): nat {
    if cs == [] then 0 else One(cs[0].fd == fd) + InQueue(cs[1..], fd)
  }

  /** Whether a worker thread is handling the descriptor outside its containers. */
  predicate InHand(pc: WorkerPc, fd: int) {
    || (pc.Holding? && pc.conn.fd == fd)
    || ((pc.Uncounting? || pc.Closing?) && pc.fd == fd)
  }

  function WorkerOwns(w: Worker, fd: int): nat {
    One(fd in w.clients) + InQueue(w.pending, fd) + One(InHand(w.pc, fd))
  }

  function AcceptorOwns(a: Acceptor, fd: int): nat {
    One((a.Scanning? || a.Chosen? || a.Locked?) && a.conn.fd == fd)
  }

  function AllOwn(ws: seq<Worker>, fd: int): nat {
    if ws == [] then 0 else WorkerOwns(ws[0], fd) + AllOwn(ws[1..], fd)
  }

  /** In how many places a descriptor is held. */
  function Owners(s: State, fd: int): nat {
    AcceptorOwns(s.acceptor, fd) + AllOwn(s.workers, fd)
  }

  lemma {:induction false} AllOwnUpdate(ws: seq<Worker>, i: nat, w: Worker, fd: int)
    requires i < |ws|
    ensures AllOwn(ws[i := w], fd) + WorkerOwns(ws[i], fd) == AllOwn(ws, fd) + WorkerOwns(w, fd)
    ensures WorkerOwns(ws[i], fd) <= AllOwn(ws, fd)
  {
    if i == 0 {
      assert ws[0 := w][1..] == ws[1..];
    } else {
      assert ws[i := w][1..] == ws[1..][i - 1 := w];
      AllOwnUpdate(ws[1..], i - 1, w, fd);
    }
  }

  lemma {:induction false} TwoOwners(ws: seq<Worker>, i: nat, j: nat, fd: int)
    requires i < j < |ws|
    ensures WorkerOwns(ws[i], fd) + WorkerOwns(ws[j], fd) <= AllOwn(ws, fd)
  {
    if i == 0 {
      AllOwnUpdate(ws[1..], j - 1, ws[j], fd);
    } else {
      TwoOwners(ws[1..], i - 1, j - 1, fd);
    }
  }

  lemma {:induction false} InQueueAppend(cs: seq<Conn>, c: Conn, fd: int)
    ensures InQueue(cs + [c], fd) == InQueue(cs, fd) + One(c.fd == fd)
  {
    if cs != [] {
      assert (cs + [c])[1..] == cs[1..] + [c];
      InQueueAppend(cs[1..], c, fd);
    }
  }

  lemma {:induction false} InQueueMember(cs: seq<Conn>, c: Conn)
    requires c in cs
    ensures InQueue(cs, c.fd) > 0
  {
    if cs[0] != c {
      InQueueMember(cs[1..], c);
    }
  }

  // ---------------------------------------------------------------- invariant

  predicate AcceptorHoldsLock(a: Acceptor, i: nat) {
    (a.Locked? || a.Enqueued? || a.Counted?) && a.target == i
  }

  /** size_clients, exactly: what the worker holds and has not yet discounted, less a push not yet counted. */
  predicate Counted(w: Worker, a: Acceptor, i: nat) {
    w.size == |w.clients| + |w.pending| + One(w.pc.Holding?) + One(w.pc.Uncounting?)
              - One(a.Enqueued? && a.target == i)
  }

  /** Somebody is still going to look at a non-empty queue. */
  predicate Awaited(w: Worker, a: Acceptor, i: nat) {
    || w.event > 0
    || ((a.Enqueued? || a.Counted? || a.Signalling?) && a.target == i)
    || w.pc.WantsLock? || w.pc.Draining? || w.pc.Holding?
  }

  predicate WorkerOk(w: Worker, a: Acceptor, i: nat) {
    && (w.lock.ByWorker? <==> w.pc.Draining? || w.pc.Holding?)
    && (w.lock.ByAcceptor? <==> AcceptorHoldsLock(a, i))
    && (w.pc.Erasing? ==> w.pc.fd in w.clients)
    && (w.pc.Notified? ==> w.event > 0)
    && Counted(w, a, i)
    && (w.pending != [] ==> Awaited(w, a, i))
  }

  predicate AcceptorOk(a: Acceptor, k: nat) {
    match a
    case Idle => true
    case Scanning(_, next, best, _, _, _, _) => best < next <= k
    case _ => a.target < k
  }

  /** The recorded peers are those of the connections now open. */
  predicate Current(open: map<int, string>, c: Conn) {
    c.fd in open && open[c.fd] == c.peer
  }

  predicate WorkerPeers(w: Worker, open: map<int, string>) {
    && (forall fd :: fd in w.clients ==> Current(open, Conn(fd, w.clients[fd])))
    && (forall c :: c in w.pending ==> Current(open, c))
    && (w.pc.Holding? ==> Current(open, w.pc.conn))
  }

  predicate Peers(s: State) {
    && (forall i :: 0 <= i < |s.workers| ==> WorkerPeers(s.workers[i], s.open))
    && (s.acceptor.Scanning? || s.acceptor.Chosen? || s.acceptor.Locked? ==> Current(s.open, s.acceptor.conn))
  }

  predicate Threads(s: State) {
    && AcceptorOk(s.acceptor, |s.workers|)
    && (forall i :: 0 <= i < |s.workers| ==> WorkerOk(s.workers[i], s.acceptor, i))
  }

  /** Exactly one owner for each open descriptor, and none for any other number. */
  ghost predicate OneOwner(s: State) {
    forall fd :: Owners(s, fd) == One(fd in s.open)
  }

  ghost predicate Inv(s: State) {
    Threads(s) && OneOwner(s) && Peers(s)
  }

  lemma InitInv(k: nat)
    ensures Inv(Init(k))
  {
    forall fd ensures Owners(Init(k), fd) == 0 {
      NobodyOwns(Init(k).workers, fd);
    }
  }

  lemma {:induction false} NobodyOwns(ws: seq<Worker>, fd: int)
    requires forall i :: 0 <= i < |ws| ==> ws[i] == NewWorker
    ensures AllOwn(ws, fd) == 0
  {
    if ws != [] {
      NobodyOwns(ws[1..], fd);
    }
  }

  /** A popped descriptor is never in the popping worker's own map: it would have two owners. */
  lemma PoppedIsNew(s: State, i: nat)
    requires OneOwner(s) && i < |s.workers| && s.workers[i].pc.Holding?
    ensures s.workers[i].pc.conn.fd !in s.workers[i].clients
  {
    var w := s.workers[i];
    AllOwnUpdate(s.workers, i, w, w.pc.conn.fd);
    assert Owners(s, w.pc.conn.fd) <= 1;
  }

  // ---------------------------------------------------------------- one step

  lemma WorkKeepsThreads(s: State, i: nat, work: WorkerStep)
    requires Inv(s) && Enabled(s, Work(i, work))
    ensures Threads(Do(s, Work(i, work)))
  {
    var w := s.workers[i];
    var w' := WorkerDo(w, work);
    assert WorkerOk(w, s.acceptor, i);
    if work.Emplace? {
      PoppedIsNew(s, i);
    }
    if work.Erase? {
      assert w.clients == w'.clients[w.pc.fd := w.clients[w.pc.fd]];
      assert |w.clients| == |w'.clients| + 1;
    }
    assert WorkerOk(w', s.acceptor, i);
  }

  /** A step of the acceptor leaves every worker's state as it must be, given the acceptor's new state. */
  lemma MainKeepsWorker(s: State, main: MainStep, i: nat)
    requires MainEnabled(s, main) && i < |s.workers| && WorkerOk(s.workers[i], s.acceptor, i)
    ensures WorkerOk(MainDo(s, main).workers[i], MainDo(s, main).acceptor, i)
  {
    var t := MainDo(s, main);
    if s.acceptor.Idle? || s.acceptor.Scanning? || s.acceptor.target != i {
      assert t.workers[i] == s.workers[i];
    }
  }

  lemma MainKeepsThreads(s: State, main: MainStep)
    requires Inv(s) && Enabled(s, Main(main))
    ensures Threads(Do(s, Main(main)))
  {
    var t := MainDo(s, main);
    assert |t.workers| == |s.workers| && AcceptorOk(t.acceptor, |t.workers|);
    forall i | 0 <= i < |s.workers|
      ensures WorkerOk(t.workers[i], t.acceptor, i)
    {
      MainKeepsWorker(s, main, i);
    }
  }

  lemma WorkMovesOwnership(w: Worker, work: WorkerStep, fd: int)
    requires WorkerEnabled(w, work)
    requires w.pc.Erasing? ==> w.pc.fd in w.clients
    requires w.pc.Holding? ==> w.pc.conn.fd !in w.clients
    ensures WorkerOwns(w, fd) == WorkerOwns(WorkerDo(w, work), fd) + One(work.Close? && w.pc.fd == fd)
  {
  }

  lemma WorkKeepsOwner(s: State, i: nat, work: WorkerStep)
    requires Inv(s) && Enabled(s, Work(i, work))
    ensures OneOwner(Do(s, Work(i, work)))
  {
    var w := s.workers[i];
    var t := Do(s, Work(i, work));
    assert WorkerOk(w, s.acceptor, i);
    if w.pc.Holding? {
      PoppedIsNew(s, i);
    }
    forall fd ensures Owners(t, fd) == One(fd in t.open) {
      WorkMovesOwnership(w, work, fd);
      AllOwnUpdate(s.workers, i, WorkerDo(w, work), fd);
      assert Owners(s, fd) == One(fd in s.open);
    }
  }

  lemma MainMovesOwnership(w: Worker, w': Worker, c: Conn, fd: int)
    requires w'.clients == w.clients && w'.pc == w.pc && w'.pending == w.pending + [c]
    ensures WorkerOwns(w', fd) == WorkerOwns(w, fd) + One(c.fd == fd)
  {
    InQueueAppend(w.pending, c, fd);
  }

  /** The acceptor's work on the chosen worker: what it takes out of its own hand it puts into the queue. */
  lemma TargetKeepsOwner(s: State, main: MainStep, fd: int)
    requires Threads(s) && Enabled(s, Main(main))
    requires main.LockQueue? || main.Enqueue? || main.Count? || main.Unlock? || main.Signal?
    ensures Owners(Do(s, Main(main)), fd) == Owners(s, fd) && Do(s, Main(main)).open == s.open
  {
    var t := Do(s, Main(main));
    var i := s.acceptor.target;
    AllOwnUpdate(s.workers, i, t.workers[i], fd);
    if main.Enqueue? {
      MainMovesOwnership(s.workers[i], t.workers[i], s.acceptor.conn, fd);
    }
  }

  lemma MainKeepsOwner(s: State, main: MainStep)
    requires Inv(s) && Enabled(s, Main(main))
    ensures OneOwner(Do(s, Main(main)))
  {
    var t := Do(s, Main(main));
    forall fd ensures Owners(t, fd) == One(fd in t.open) {
      assert Owners(s, fd) == One(fd in s.open);
      if main.LockQueue? || main.Enqueue? || main.Count? || main.Unlock? || main.Signal? {
        TargetKeepsOwner(s, main, fd);
      } else {
        assert t.workers == s.workers;
      }
    }
  }

  /** The owner of a descriptor being closed is the closing thread, so nobody else mentions it. */
  lemma ClosingIsSole(s: State, i: nat, j: nat)
    requires OneOwner(s) && i < |s.workers| && s.workers[i].pc.Closing? && j < |s.workers|
    ensures var fd := s.workers[i].pc.fd;
      && fd !in s.workers[j].clients && InQueue(s.workers[j].pending, fd) == 0
      && (j != i ==> !InHand(s.workers[j].pc, fd))
      && AcceptorOwns(s.acceptor, fd) == 0
  {
    var fd := s.workers[i].pc.fd;
    assert Owners(s, fd) <= 1;
    AllOwnUpdate(s.workers, i, s.workers[i], fd);
    if j < i {
      TwoOwners(s.workers, j, i, fd);
    } else if i < j {
      TwoOwners(s.workers, i, j, fd);
    }
  }

  lemma ForgetKeepsPeers(w: Worker, open: map<int, string>, fd: int)
    requires WorkerPeers(w, open)
    requires fd !in w.clients && InQueue(w.pending, fd) == 0 && (w.pc.Holding? ==> fd != w.pc.conn.fd)
    ensures WorkerPeers(w, open - {fd})
  {
    forall c | c in w.pending ensures Current(open - {fd}, c) {
      InQueueMember(w.pending, c);
    }
  }

  lemma WorkKeepsPeers(s: State, i: nat, work: WorkerStep)
    requires Inv(s) && Enabled(s, Work(i, work))
    ensures Peers(Do(s, Work(i, work)))
  {
    var w := s.workers[i];
    var w' := WorkerDo(w, work);
    assert WorkerPeers(w, s.open) && WorkerOk(w, s.acceptor, i);
    assert WorkerPeers(w', s.open) by {
      if w.pc.Holding? {
        PoppedIsNew(s, i);
      }
    }
    if work.Close? {
      ClosingIsSole(s, i, i);
      forall j | 0 <= j < |s.workers|
        ensures WorkerPeers(Do(s, Work(i, work)).workers[j], s.open - {w.pc.fd})
      {
        ClosingIsSole(s, i, j);
        ForgetKeepsPeers(if j == i then w' else s.workers[j], s.open, w.pc.fd);
      }
    }
  }

  lemma MainKeepsPeers(s: State, main: MainStep)
    requires Inv(s) && Enabled(s, Main(main))
    ensures Peers(Do(s, Main(main)))
  {
    var t := Do(s, Main(main));
    forall i | 0 <= i < |s.workers|
      ensures WorkerPeers(t.workers[i], t.open)
    {
      assert WorkerPeers(s.workers[i], s.open);
    }
  }

  lemma StepInv(s: State, step: Step)
    requires Inv(s) && Enabled(s, step)
    ensures Inv(Do(s, step))
  {
    match step
    case Main(main) =>
      MainKeepsThreads(s, main);
      MainKeepsOwner(s, main);
      MainKeepsPeers(s, main);
    case Work(i, work) =>
      WorkKeepsThreads(s, i, work);
      WorkKeepsOwner(s, i, work);
      WorkKeepsPeers(s, i, work);
  }

  // ---------------------------------------------------------------- whole runs

  lemma {:induction false} RunInv(s: State, steps: seq<Step>)
    requires Inv(s) && Allowed(s, steps)
    ensures Inv(Run(s, steps))
    decreases |steps|
  {
    if steps != [] {
      StepInv(s, steps[0]);
      RunInv(Do(s, steps[0]), steps[1..]);
    }
  }

  /** In every reachable state an open accepted descriptor is held in exactly one place. */
  lemma ExactlyOneOwner(k: nat, steps: seq<Step>, fd: int)
    requires Allowed(Init(k), steps)
    ensures var s := Run(Init(k), steps); Owners(s, fd) == if fd in s.open then 1 else 0
  {
    InitInv(k);
    RunInv(Init(k), steps);
  }

  /** Every clients.emplace inserts, and stores the peer of the connection now open under that number. */
  lemma EmplaceInserts(k: nat, steps: seq<Step>, i: nat)
    requires Allowed(Init(k), steps)
    requires var s := Run(Init(k), steps); Enabled(s, Work(i, Emplace))
    ensures var s := Run(Init(k), steps);
      var c := s.workers[i].pc.conn;
      && c.fd !in s.workers[i].clients
      && Do(s, Work(i, Emplace)).workers[i].clients == s.workers[i].clients[c.fd := c.peer]
      && c.fd in s.open && s.open[c.fd] == c.peer
  {
    InitInv(k);
    RunInv(Init(k), steps);
    var s := Run(Init(k), steps);
    PoppedIsNew(s, i);
    assert WorkerPeers(s.workers[i], s.open);
  }

  /** A non-empty queue always has a signal, a signaller or a draining worker behind it. */
  lemma NoLostWakeup(k: nat, steps: seq<Step>, i: nat)
    requires Allowed(Init(k), steps)
    requires i < |Run(Init(k), steps).workers|
    ensures var s := Run(Init(k), steps);
      && (s.workers[i].pending != [] ==> Awaited(s.workers[i], s.acceptor, i))
      && (s.acceptor.Idle? && s.workers[i].pc.Polling? && s.workers[i].event == 0 ==> s.workers[i].pending == [])
  {
    InitInv(k);
    RunInv(Init(k), steps);
    var s := Run(Init(k), steps);
    assert WorkerOk(s.workers[i], s.acceptor, i);
  }

  /** size_clients is exact at every instant, not only between handlers. */
  lemma ExactCount(k: nat, steps: seq<Step>, i: nat)
    requires Allowed(Init(k), steps)
    requires i < |Run(Init(k), steps).workers|
    ensures var s := Run(Init(k), steps);
      && Counted(s.workers[i], s.acceptor, i)
      && (s.acceptor.Idle? && s.workers[i].pc.Polling? ==>
            s.workers[i].size == |s.workers[i].clients| + |s.workers[i].pending|)
  {
    InitInv(k);
    RunInv(Init(k), steps);
    var s := Run(Init(k), steps);
    assert WorkerOk(s.workers[i], s.acceptor, i);
  }
}
