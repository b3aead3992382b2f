/**
  What a handler does when nothing interrupts it, as a function of one worker, and
  the proof that this is what the step system computes along a run made of that
  handler's own steps.
*/
module HandoffHandlers {
  import opened Common
  import opened Handoff
  import opened HandoffSafety

  function EmplaceAll(clients: map<int, string>, cs: seq<Conn>): map<int, string>
    decreases |cs|
  {
    if cs == [] then clients else EmplaceAll(EmplaceOne(clients, cs[0]), cs[1..])
  }

  /** The first connection queued under the number. */
  predicate FirstQueued(cs: seq<Conn>, j: int, fd: int) {
    0 <= j < |cs| && cs[j].fd == fd && forall h :: 0 <= h < j ==> cs[h].fd != fd
  }

  /** An entry that was there stays; otherwise the first connection queued under the number is entered, if any. */
  ghost predicate Emplaced(clients: map<int, string>, cs: seq<Conn>, after: map<int, string>, fd: int) {
    && (fd in after <==> fd in clients || exists j :: FirstQueued(cs, j, fd))
    && (fd in clients ==> fd in after && after[fd] == clients[fd])
    && (fd !in clients ==> forall j :: FirstQueued(cs, j, fd) ==> fd in after && after[fd] == cs[j].peer)
  }

  lemma {:induction false} EmplaceAllLookup(clients: map<int, string>, cs: seq<Conn>, fd: int)
    ensures Emplaced(clients, cs, EmplaceAll(clients, cs), fd)
    decreases |cs|
  {
    if cs != [] {
      EmplaceAllLookup(EmplaceOne(clients, cs[0]), cs[1..], fd);
      if cs[0].fd == fd {
        assert FirstQueued(cs, 0, fd);
      } else {
        assert forall j :: FirstQueued(cs[1..], j, fd) ==> FirstQueued(cs, j + 1, fd);
        assert forall j :: FirstQueued(cs, j, fd) ==> FirstQueued(cs[1..], j - 1, fd);
      }
    }
  }

  /** The wakeup branch of exec: read the counter, then drain the queue. */
  function Wakeup(w: Worker): Worker {
    w.(event := 0, clients := EmplaceAll(w.clients, w.pending), pending := [])
  }

  /** remove_client. */
  function Forget(w: Worker, fd: int): Worker {
    w.(clients := w.clients - {fd}, size := w.size - 1)
  }

  /** push_external_socket. */
  function Push(w: Worker, c: Conn): Worker {
    w.(pending := w.pending + [c], size := w.size + 1, event := if w.event < EVENT_MAX then w.event + 1 else w.event)
  }

  function DrainSteps(i: nat, n: nat): (steps: seq<Step>)
    ensures |steps| == 2 * n
  {
    if n == 0 then [] else [Work(i, PopFront), Work(i, Emplace)] + DrainSteps(i, n - 1)
  }

  lemma {:induction false} RunAppend(s: State, a: seq<Step>, b: seq<Step>)
    requires Allowed(s, a) && Allowed(Run(s, a), b)
    ensures Allowed(s, a + b) && Run(s, a + b) == Run(Run(s, a), b)
    decreases |a|
  {
    if a == [] {
      assert a + b == b;
    } else {
      assert (a + b)[1..] == a[1..] + b;
      RunAppend(Do(s, a[0]), a[1..], b);
    }
  }

  lemma RunFirst(s: State, step: Step, rest: seq<Step>)
    requires Enabled(s, step) && Allowed(Do(s, step), rest)
    ensures Allowed(s, [step] + rest) && Run(s, [step] + rest) == Run(Do(s, step), rest)
  {
    assert ([step] + rest)[1..] == rest;
  }

  lemma {:induction false} DrainRuns(s: State, i: nat)
    requires i < |s.workers| && s.workers[i].pc.Draining?
    ensures var w := s.workers[i];
      var steps := DrainSteps(i, |w.pending|);
      && Allowed(s, steps)
      && Run(s, steps) == Set(s, i, w.(clients := EmplaceAll(w.clients, w.pending), pending := []))
    decreases |s.workers[i].pending|
  {
    var w := s.workers[i];
    var n := |w.pending|;
    if n == 0 {
      assert s.workers[i := w] == s.workers;
    } else {
      var steps := DrainSteps(i, n);
      var s1 := Do(s, steps[0]);
      var s2 := Do(s1, steps[1]);
      assert steps[1..][1..] == DrainSteps(i, n - 1);
      assert s2.workers[i] == w.(clients := EmplaceOne(w.clients, w.pending[0]), pending := w.pending[1..]);
      assert s2 == Set(s, i, s2.workers[i]);
      DrainRuns(s2, i);
    }
  }

  function WakeupSteps(i: nat, n: nat): seq<Step> {
    [Work(i, Poll), Work(i, ReadEvent), Work(i, LockOwn)] + DrainSteps(i, n) + [Work(i, UnlockOwn)]
  }

  /** From any state in which its event is signalled and its lock free, a worker alone can empty its queue. */
  lemma WakeupRuns(s: State, i: nat)
    requires i < |s.workers| && s.workers[i].pc.Polling? && s.workers[i].event > 0 && s.workers[i].lock.Free?
    ensures var steps := WakeupSteps(i, |s.workers[i].pending|);
      Allowed(s, steps) && Run(s, steps) == Set(s, i, Wakeup(s.workers[i]))
    ensures var w, after := s.workers[i], Wakeup(s.workers[i]);
      && after.pending == [] && after.event == 0 && after.size == w.size && after.lock.Free? && after.pc.Polling?
      && (forall fd :: Emplaced(w.clients, w.pending, after.clients, fd))
  {
    forall fd ensures Emplaced(s.workers[i].clients, s.workers[i].pending, Wakeup(s.workers[i]).clients, fd) {
      EmplaceAllLookup(s.workers[i].clients, s.workers[i].pending, fd);
    }
    var w := s.workers[i];
    var head := [Work(i, Poll), Work(i, ReadEvent), Work(i, LockOwn)];
    var s1 := Do(s, head[0]);
    var s2 := Do(s1, head[1]);
    var s3 := Do(s2, head[2]);
    RunFirst(s2, head[2], []);
    RunFirst(s1, head[1], [head[2]]);
    RunFirst(s, head[0], [head[1]] + [head[2]]);
    assert head == [head[0]] + ([head[1]] + [head[2]]);
    assert s3 == Set(s, i, w.(event := 0, lock := ByWorker, pc := Draining));
    var drain := DrainSteps(i, |w.pending|);
    DrainRuns(s3, i);
    var s4 := Run(s3, drain);
    assert s4 == Set(s, i, Wakeup(w).(lock := ByWorker, pc := Draining));
    RunAppend(s, head, drain);
    RunFirst(s4, Work(i, UnlockOwn), []);
    RunAppend(s, head + drain, [Work(i, UnlockOwn)]);
    assert Do(s4, Work(i, UnlockOwn)) == Set(s, i, Wakeup(w));
  }

  /** In a reachable state the drain loses nothing: the new map is the old one and the queue together. */
  lemma WakeupKeepsAll(s: State, i: nat)
    requires Inv(s) && i < |s.workers|
    ensures var w := s.workers[i];
      var after := Wakeup(w).clients;
      && |after| == |w.clients| + |w.pending|
      && (forall fd :: fd in w.clients ==> fd in after && after[fd] == w.clients[fd])
      && (forall c :: c in w.pending ==> c.fd in after && after[c.fd] == c.peer)
  {
    var w := s.workers[i];
    forall fd ensures One(fd in w.clients) + InQueue(w.pending, fd) <= 1 {
      AllOwnUpdate(s.workers, i, w, fd);
      assert Owners(s, fd) <= 1;
    }
    EmplaceAllInserts(w.clients, w.pending);
  }

  lemma {:induction false} EmplaceAllInserts(clients: map<int, string>, cs: seq<Conn>)
    requires forall fd :: One(fd in clients) + InQueue(cs, fd) <= 1
    ensures var after := EmplaceAll(clients, cs);
      && |after| == |clients| + |cs|
      && (forall fd :: fd in clients ==> fd in after && after[fd] == clients[fd])
      && (forall c :: c in cs ==> c.fd in after && after[c.fd] == c.peer)
    decreases |cs|
  {
    if cs != [] {
      var c := cs[0];
      assert One(c.fd in clients) + InQueue(cs, c.fd) <= 1;
      var next := EmplaceOne(clients, c);
      forall fd ensures One(fd in next) + InQueue(cs[1..], fd) <= 1 {
        assert One(fd in clients) + InQueue(cs, fd) <= 1;
      }
      EmplaceAllInserts(next, cs[1..]);
    }
  }

  /** remove_client is Remove, Erase, Decrement, Close. */
  lemma ForgetRuns(s: State, i: nat, fd: int) returns (steps: seq<Step>)
    requires i < |s.workers| && s.workers[i].pc.Polling? && fd in s.workers[i].clients
    ensures steps == [Work(i, Remove(fd)), Work(i, Erase), Work(i, Decrement), Work(i, Close)]
    ensures Allowed(s, steps)
    ensures Run(s, steps) == Set(s, i, Forget(s.workers[i], fd)).(removed := s.removed + 1, open := s.open - {fd})
    ensures Forget(s.workers[i], fd)
         == s.workers[i].(clients := s.workers[i].clients - {fd}, size := s.workers[i].size - 1)
  {
    var s1 := Do(s, Work(i, Remove(fd)));
    var s2 := Do(s1, Work(i, Erase));
    var s3 := Do(s2, Work(i, Decrement));
    steps := [Work(i, Close)];
    RunFirst(s3, Work(i, Close), []);
    RunFirst(s2, Work(i, Decrement), steps);
    steps := [Work(i, Decrement)] + steps;
    RunFirst(s1, Work(i, Erase), steps);
    steps := [Work(i, Erase)] + steps;
    RunFirst(s, Work(i, Remove(fd)), steps);
    steps := [Work(i, Remove(fd))] + steps;
    assert Do(s3, Work(i, Close))
        == Set(s, i, Forget(s.workers[i], fd)).(removed := s.removed + 1, open := s.open - {fd});
  }

  lemma PushLocked(s: State) returns (steps: seq<Step>)
    requires s.acceptor.Chosen? && s.acceptor.target < |s.workers| && s.workers[s.acceptor.target].lock.Free?
    ensures steps == [Main(LockQueue), Main(Enqueue)]
    ensures var a := s.acceptor;
      var w := s.workers[a.target];
      && Allowed(s, steps)
      && Run(s, steps) == Set(s, a.target, w.(lock := ByAcceptor, pending := w.pending + [a.conn]))
                            .(acceptor := Enqueued(a.target, a.seen, a.since))
  {
    var s1 := Do(s, Main(LockQueue));
    steps := [Main(Enqueue)];
    RunFirst(s1, Main(Enqueue), []);
    RunFirst(s, Main(LockQueue), steps);
    steps := [Main(LockQueue)] + steps;
  }

  lemma PushCounted(s: State) returns (steps: seq<Step>)
    requires s.acceptor.Enqueued? && s.acceptor.target < |s.workers|
    ensures steps == [Main(Count), Main(Unlock), Main(Signal)]
    ensures var i := s.acceptor.target;
      var w := s.workers[i];
      && Allowed(s, steps)
      && Run(s, steps) == Set(s, i, w.(lock := Free, size := w.size + 1,
                                       event := if w.event < EVENT_MAX then w.event + 1 else w.event))
                            .(acceptor := Idle, pushed := s.pushed + 1)
  {
    var s1 := Do(s, Main(Count));
    var s2 := Do(s1, Main(Unlock));
    steps := [Main(Signal)];
    RunFirst(s2, Main(Signal), []);
    RunFirst(s1, Main(Unlock), steps);
    steps := [Main(Unlock)] + steps;
    RunFirst(s, Main(Count), steps);
    steps := [Main(Count)] + steps;
  }

  /** push_external_socket is LockQueue, Enqueue, Count, Unlock, Signal. */
  lemma PushRuns(s: State) returns (steps: seq<Step>)
    requires s.acceptor.Chosen? && s.acceptor.target < |s.workers| && s.workers[s.acceptor.target].lock.Free?
    ensures steps == [Main(LockQueue), Main(Enqueue), Main(Count), Main(Unlock), Main(Signal)]
    ensures var i := s.acceptor.target;
      && Allowed(s, steps)
      && Run(s, steps) == Set(s, i, Push(s.workers[i], s.acceptor.conn)).(acceptor := Idle, pushed := s.pushed + 1)
    ensures var w, after := s.workers[s.acceptor.target], Run(s, steps).workers[s.acceptor.target];
      && after.clients == w.clients && after.pending == w.pending + [s.acceptor.conn] && after.size == w.size + 1
      && after.event == (if w.event < EVENT_MAX then w.event + 1 else w.event)
      && after.lock.Free? && after.pc == w.pc
  {
    var i := s.acceptor.target;
    var first := PushLocked(s);
    var t := Run(s, first);
    var last := PushCounted(t);
    RunAppend(s, first, last);
    assert t.workers[i := Push(s.workers[i], s.acceptor.conn)] == s.workers[i := Push(s.workers[i], s.acceptor.conn)];
    steps := first + last;
  }

  /**
    remove_client decrements whatever descriptor it is given. The count stays exact
    precisely when that descriptor is a registered client; a hang-up reported for
    standard input, say, would break it.
  */
  lemma ForgetKeepsCount(w: Worker, fd: int)
    requires w.size == |w.clients| + |w.pending|
    ensures var f := Forget(w, fd); f.size == |f.clients| + |f.pending| <==> fd in w.clients
  {
    var f := Forget(w, fd);
    if fd in w.clients {
      assert w.clients == f.clients[fd := w.clients[fd]];
    } else {
      assert f.clients == w.clients;
    }
  }
}
