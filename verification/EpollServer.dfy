/** The handlers of Epoll and MainEpoll as methods on mutable objects. */
module EpollServer {
  import opened Common
  import opened Handoff
  import opened HandoffHandlers
  import opened HandoffSafety
  import opened HandoffScan

  /** The descriptor, if the field holds one; -1 means none. */
  function Held(fd: int): (fds: seq<int>)
    ensures fd >= 0 ==> fds == [fd]
    ensures fd < 0 ==> fds == []
  {
    if fd >= 0 then [fd] else []
  }

  function QueueFds(cs: seq<Conn>): (fds: seq<int>)
    ensures |fds| == |cs| && forall i :: 0 <= i < |cs| ==> fds[i] == cs[i].fd
  {
    if cs == [] then [] else [cs[0].fd] + QueueFds(cs[1..])
  }

  /** The sequence lists each member of the set exactly once. */
  ghost predicate Enumerates(order: seq<int>, keys: set<int>) {
    && |order| == |keys|
    && (forall fd :: fd in order <==> fd in keys)
    && (forall i, j :: 0 <= i < j < |order| ==> order[i] != order[j])
  }

  /** The copy of the keys that fullstop makes, in whatever order the hash table yields them. */
  method CopyKeys(keys: set<int>) returns (order: seq<int>)
    ensures Enumerates(order, keys)
  {
    order := [];
    var rest := keys;
    while rest != {}
      invariant rest <= keys && |order| + |rest| == |keys|
      invariant forall fd :: fd in order <==> fd in keys - rest
      invariant forall i, j :: 0 <= i < j < |order| ==> order[i] != order[j]
      decreases |rest|
    {
      assert (forall x :: x !in rest) ==> rest == {};
      var fd :| fd in rest;
      order := order + [fd];
      rest := rest - {fd};
    }
  }

  class Epoll {
    var sockfd: int
    var epfd: int
    var timerfd: int
    var wakeupFd: int
    var clients: map<int, string>
    var pending: seq<Conn>
    var size: int           // size_clients
    var event: nat          // the eventfd's counter
    var stdinClosed: bool
    var socketClosed: bool
    var closed: seq<int>    // every descriptor passed to close(), in order

    constructor (sockfd: int, epfd: int, timerfd: int, wakeupFd: int)
      ensures View() == NewWorker && closed == []
      ensures this.sockfd == sockfd && this.epfd == epfd && this.timerfd == timerfd && this.wakeupFd == wakeupFd
      ensures !stdinClosed && !socketClosed
    {
      this.sockfd, this.epfd, this.timerfd, this.wakeupFd := sockfd, epfd, timerfd, wakeupFd;
      clients, pending, size, event := map[], [], 0, 0;
      stdinClosed, socketClosed, closed := false, false, [];
    }

    /** This object as a worker of the step system, with nothing in progress. */
    ghost function View(): Worker
      reads this
    {
      Worker(clients, pending, size, event, Free, Polling)
    }

    predicate Stopped()
      reads this
    {
      clients == map[] && pending == [] && sockfd < 0 && epfd < 0 && timerfd < 0 && wakeupFd < 0
    }

    method PushExternalSocket(c: Conn)
      modifies this`pending, this`size, this`event
      ensures View() == Push(old(View()), c)
      ensures pending == old(pending) + [c] && size == old(size) + 1
      ensures event == if old(event) < EVENT_MAX then old(event) + 1 else old(event)
    {
      pending := pending + [c];
      size := size + 1;
      if event < EVENT_MAX {
        event := event + 1;
      }
    }

    /** The wakeup branch of exec. */
    method OnWakeup()
      modifies this`pending, this`clients, this`event
      ensures View() == Wakeup(old(View()))
      ensures pending == [] && event == 0
      ensures forall fd :: Emplaced(old(clients), old(pending), clients, fd)
    {
      forall fd ensures Emplaced(clients, pending, EmplaceAll(clients, pending), fd) {
        EmplaceAllLookup(clients, pending, fd);
      }
      event := 0;
      while pending != []
        invariant event == 0 && EmplaceAll(clients, pending) == EmplaceAll(old(clients), old(pending))
        decreases |pending|
      {
        var data := pending[0];
        pending := pending[1..];
        if data.fd !in clients {
          clients := clients[data.fd := data.peer];
        }
      }
    }

    method RemoveClient(fd: int)
      modifies this`clients, this`size, this`closed
      ensures View() == Forget(old(View()), fd)
      ensures clients == old(clients) - {fd} && size == old(size) - 1
      ensures closed == old(closed) + [fd]
    {
      clients := clients - {fd};
      size := size - 1;
      closed := closed + [fd];
    }

    /** Closes every descriptor held, each exactly once: the clients in the hash table's order, the queue in its own. */
    method Fullstop() returns (order: seq<int>)
      modifies this
      ensures Enumerates(order, old(clients.Keys))
      ensures closed == old(closed) + Held(old(sockfd)) + order + QueueFds(old(pending))
                        + Held(old(epfd)) + Held(old(timerfd)) + Held(old(wakeupFd))
      ensures Stopped() && size == 0 && stdinClosed && socketClosed && event == old(event)
    {
      order := CloseSockets();
      CloseOwn();
      stdinClosed, socketClosed := true, true;
      size := 0;
    }

    /** The sockets: the object's own, the clients', the queued ones. */
    method CloseSockets() returns (order: seq<int>)
      modifies this`sockfd, this`clients, this`pending, this`size, this`closed
      ensures Enumerates(order, old(clients.Keys))
      ensures closed == old(closed) + Held(old(sockfd)) + order + QueueFds(old(pending))
      ensures clients == map[] && pending == [] && sockfd < 0
    {
      sockfd := CloseIfOpen(sockfd);
      order := CloseClients();
      clients := map[];
      CloseQueue();
    }

    /** The descriptors of the event loop itself. */
    method CloseOwn()
      modifies this`epfd, this`timerfd, this`wakeupFd, this`closed
      ensures closed == old(closed) + Held(old(epfd)) + Held(old(timerfd)) + Held(old(wakeupFd))
      ensures epfd < 0 && timerfd < 0 && wakeupFd < 0
    {
      epfd := CloseIfOpen(epfd);
      timerfd := CloseIfOpen(timerfd);
      wakeupFd := CloseIfOpen(wakeupFd);
    }

    method CloseIfOpen(fd: int) returns (left: int)
      modifies this`closed
      ensures closed == old(closed) + Held(fd)
      ensures left < 0
    {
      left := fd;
      if fd >= 0 {
        closed := closed + [fd];
        left := -1;
      }
    }

    method CloseClients() returns (order: seq<int>)
      modifies this`clients, this`size, this`closed
      ensures Enumerates(order, old(clients.Keys))
      ensures clients == map[] && size == old(size) - |order| && closed == old(closed) + order
    {
      order := CopyKeys(clients.Keys);
      for i := 0 to |order|
        invariant forall fd :: fd in clients <==> fd in order[i..]
        invariant closed == old(closed) + order[..i] && size == old(size) - i
      {
        RemoveClient(order[i]);
      }
      assert order[|order|..] == [];
      assert forall fd :: fd !in clients;
    }

    method CloseQueue()
      modifies this`pending, this`closed
      ensures pending == []
      ensures closed == old(closed) + QueueFds(old(pending))
    {
      while pending != []
        invariant closed + QueueFds(pending) == old(closed) + QueueFds(old(pending))
        decreases |pending|
      {
        assert closed + QueueFds(pending) == closed + [pending[0].fd] + QueueFds(pending[1..]);
        closed := closed + [pending[0].fd];
        pending := pending[1..];
      }
    }

    /** ~Epoll stops again; once stopped, that closes nothing further. */
    method FullstopAgain()
      requires Stopped()
      modifies this
      ensures closed == old(closed) && View() == old(View()).(size := 0) && Stopped()
    {
      var order := Fullstop();
      assert order == [];
    }
  }

  lemma {:induction false} QueueFdsCount(cs: seq<Conn>, fd: int)
    ensures multiset(QueueFds(cs))[fd] == InQueue(cs, fd)
  {
    if cs != [] {
      QueueFdsCount(cs[1..], fd);
      assert multiset([cs[0].fd] + QueueFds(cs[1..])) == multiset{cs[0].fd} + multiset(QueueFds(cs[1..]));
    }
  }

  lemma {:induction false} DistinctCount(order: seq<int>, fd: int)
    requires forall i, j :: 0 <= i < j < |order| ==> order[i] != order[j]
    ensures multiset(order)[fd] == One(fd in order)
  {
    if order != [] {
      assert forall i :: 1 <= i < |order| ==> order[0] != order[i];
      DistinctCount(order[1..], fd);
      assert order == [order[0]] + order[1..];
      assert multiset(order) == multiset{order[0]} + multiset(order[1..]);
    }
  }

  /**
    In every reachable state, stopping a worker that is between events closes exactly
    the descriptors it owns, each once, and no descriptor that somebody else owns.
  */
  lemma FullstopClosesWhatItOwns(k: nat, steps: seq<Step>, i: nat, order: seq<int>, fd: int)
    requires Allowed(Init(k), steps) && i < |Run(Init(k), steps).workers|
    requires var w := Run(Init(k), steps).workers[i]; w.pc.Polling? && Enumerates(order, w.clients.Keys)
    ensures var s := Run(Init(k), steps);
      var closes := multiset(order + QueueFds(s.workers[i].pending))[fd];
      && closes == WorkerOwns(s.workers[i], fd) <= 1
      && (closes > 0 ==> fd in s.open && AcceptorOwns(s.acceptor, fd) == 0)
      && (forall j :: 0 <= j < |s.workers| && j != i && closes > 0 ==> WorkerOwns(s.workers[j], fd) == 0)
  {
    var s := Run(Init(k), steps);
    var w := s.workers[i];
    assert multiset(order + QueueFds(w.pending)) == multiset(order) + multiset(QueueFds(w.pending));
    DistinctCount(order, fd);
    QueueFdsCount(w.pending, fd);
    ExactlyOneOwner(k, steps, fd);
    AllOwnUpdate(s.workers, i, w, fd);
    forall j | 0 <= j < |s.workers| && j != i && WorkerOwns(w, fd) > 0
      ensures WorkerOwns(s.workers[j], fd) == 0
    {
      TwoOwners(s.workers, if i < j then i else j, if i < j then j else i, fd);
    }
  }

  ghost function Sizes(es: seq<Epoll>): (sizes: seq<int>)
    reads es
    ensures |sizes| == |es| && forall i :: 0 <= i < |es| ==> sizes[i] == es[i].size
  {
    if es == [] then [] else [es[0].size] + Sizes(es[1..])
  }

  /** MainEpoll::balance_socket when no counter changes during the scan. */
  method BalanceSocket(subepolls: seq<Epoll>, c: Conn) returns (target: nat)
    requires subepolls != []
    requires forall i, j :: 0 <= i < j < |subepolls| ==> subepolls[i] != subepolls[j]
    modifies subepolls
    ensures FirstLeast(old(Sizes(subepolls)), target)
    ensures subepolls[target].View() == Push(old(subepolls[target].View()), c)
    ensures Received(old(subepolls[target].View()), subepolls[target].View(), c)
    ensures forall i :: 0 <= i < |subepolls| && i != target ==> unchanged(subepolls[i])
  {
    target := 0;
    for i := 1 to |subepolls|
      invariant target < i
      invariant forall j :: 0 <= j < i ==> subepolls[target].size <= subepolls[j].size
      invariant forall j :: 0 <= j < target ==> subepolls[target].size < subepolls[j].size
    {
      if subepolls[i].size < subepolls[target].size {
        target := i;
      }
    }
    subepolls[target].PushExternalSocket(c);
  }
}
