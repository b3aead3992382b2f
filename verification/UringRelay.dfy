/**
  UringBidirectionalRelay: a completion-driven relay in which every handler frees one
  heap-allocated request and may submit others. First the relay as a step function on
  values with its invariant over whole runs, then the object whose handlers compute it.
  A request is identified by the number of its allocation, so that the reuse of memory
  cannot hide a double free.
*/
module UringRelay {
  import opened Common

  datatype Op = StdinRead | SocketRead | AcceptConn | TimerRead | ClientRead

  datatype Request = Request(op: Op, fd: int)

  const STDIN_FILENO := 0
  const RING_SIZE: nat := 64

  /** Allocations: what each was for, which are freed, and which one stands for each live request. */
  datatype Heap = Heap(made: seq<Request>, freed: set<nat>, live: map<Request, nat>)

  /**
    The submission queue: entries filled and not yet submitted, the most there have ever been,
    and how often it had no room.
  */
  datatype Ring = Ring(queued: nat, highWater: nat, refusals: nat)

  /** `clients` maps a descriptor to the bytes received; `strays` counts completions for a client not in the map. */
  datatype State = State(sockfd: int, isListen: bool, timerfd: int, clients: map<int, nat>, closed: seq<int>,
                         stdinClosed: bool, socketClosed: bool, sendFailed: bool, strays: nat, heap: Heap, ring: Ring)

  /** A completion: the request, its result, and whether the send it may trigger succeeds. */
  datatype Completion = Completion(r: Request, res: int, sendOk: bool)

  // ---------------------------------------------------------------- the step function

  function Alloc(h: Heap, r: Request): Heap {
    Heap(h.made + [r], h.freed, h.live[r := |h.made|])
  }

  function Free(h: Heap, r: Request): Heap
    requires r in h.live
  {
    Heap(h.made, h.freed + {h.live[r]}, h.live - {r})
  }

  /** io_uring_get_sqe; a full ring is submitted, which empties it, and asked again. */
  function Push(q: Ring): Ring {
    var n := if q.queued < RING_SIZE then q.queued + 1 else 1;
    Ring(n, if q.highWater < n then n else q.highWater, if q.queued < RING_SIZE then q.refusals else q.refusals + 1)
  }

  function Place(s: State, r: Request): State {
    s.(heap := Alloc(s.heap, r), ring := Push(s.ring))
  }

  function Submit(s: State): State {
    s.(ring := s.ring.(queued := 0))
  }

  function Delete(s: State, r: Request): State
    requires r in s.heap.live
  {
    s.(heap := Free(s.heap, r))
  }

  function Running(s: State): bool {
    !s.stdinClosed && !s.socketClosed
  }

  function OnStdinRead(s: State, c: Completion): State
    requires c.r in s.heap.live
  {
    var failed := c.res > 0 && !s.isListen && !c.sendOk;
    var t := Delete(s.(stdinClosed := s.stdinClosed || c.res <= 0, socketClosed := s.socketClosed || failed,
                       sendFailed := s.sendFailed || failed), c.r);
    if t.stdinClosed then t else Submit(Place(t, Request(StdinRead, STDIN_FILENO)))
  }

  function OnSocketRead(s: State, c: Completion): State
    requires c.r in s.heap.live
  {
    var t := Delete(s.(socketClosed := s.socketClosed || c.res <= 0), c.r);
    if t.socketClosed then t else Submit(Place(t, Request(SocketRead, s.sockfd)))
  }

  function Admit(s: State, fd: int): State {
    Place(s.(clients := if fd in s.clients then s.clients else s.clients[fd := 0]), Request(ClientRead, fd))
  }

  function OnAccept(s: State, c: Completion): State
    requires c.r in s.heap.live
  {
    var t := Delete(if c.res < 0 then s else Admit(s, c.res), c.r);
    if t.socketClosed then t else Submit(Place(t, Request(AcceptConn, s.sockfd)))
  }

  /** Here a full ring is not submitted first: the timer would not be armed again. */
  function OnTimerRead(s: State, c: Completion): State
    requires c.r in s.heap.live
  {
    var t := Delete(s, c.r);
    if t.timerfd < 0 then t
    else if t.ring.queued >= RING_SIZE then t.(ring := t.ring.(refusals := t.ring.refusals + 1))
    else Submit(Place(t, Request(TimerRead, t.timerfd)))
  }

  function OnClientRead(s: State, c: Completion): State
    requires c.r in s.heap.live
  {
    var t := Delete(s, c.r);
    var fd := c.r.fd;
    if fd !in s.clients then t.(strays := s.strays + 1)
    else if c.res > 0 then
      Submit(Place(t.(clients := s.clients[fd := s.clients[fd] + c.res]), Request(ClientRead, fd)))
    else t.(closed := s.closed + [fd], clients := s.clients - {fd})
  }

  /** One turn of exec: the handler for the completed request. */
  function Handle(s: State, c: Completion): State
    requires c.r in s.heap.live
  {
    match c.r.op
    case StdinRead => OnStdinRead(s, c)
    case SocketRead => OnSocketRead(s, c)
    case AcceptConn => OnAccept(s, c)
    case TimerRead => OnTimerRead(s, c)
    case ClientRead => OnClientRead(s, c)
  }

  function Blank(sockfd: int, isListen: bool, timerfd: int): State {
    State(sockfd, isListen, if isListen then timerfd else -1, map[], [], false, false, false, 0,
          Heap([], {}, map[]), Ring(0, 0, 0))
  }

  function Starters(sockfd: int, isListen: bool, timerfd: int): seq<Request> {
    [Request(StdinRead, STDIN_FILENO), Request(if isListen then AcceptConn else SocketRead, sockfd)]
    + (if isListen && timerfd >= 0 then [Request(TimerRead, timerfd)] else [])
  }

  function PlaceAll(s: State, rs: seq<Request>): State
    decreases |rs|
  {
    if rs == [] then s else PlaceAll(Place(s, rs[0]), rs[1..])
  }

  /** setup_uring; timerfd is what create_timer returned, negative on failure. */
  function Setup(sockfd: int, isListen: bool, timerfd: int): State {
    Submit(PlaceAll(Blank(sockfd, isListen, timerfd), Starters(sockfd, isListen, timerfd)))
  }

  // ---------------------------------------------------------------- the invariant

  /** Live requests have their own allocations, none of them freed, and no allocation is lost. */
  predicate HeapOk(h: Heap) {
    && (forall r :: r in h.live ==> h.live[r] < |h.made| && h.made[h.live[r]] == r && h.live[r] !in h.freed)
    && (forall a :: 0 <= a < |h.made| ==> a in h.freed || (h.made[a] in h.live && h.live[h.made[a]] == a))
    && (forall a :: a in h.freed ==> a < |h.made|)
  }

  /**
    The operations that must be in flight: a read of standard input; accept or a socket read, as
    the mode asks; the timer; a read for each client.
  */
  predicate Expected(s: State, r: Request) {
    match r.op
    case StdinRead => r.fd == STDIN_FILENO && !s.stdinClosed
    case SocketRead => r.fd == s.sockfd && !s.isListen && (!s.socketClosed || s.sendFailed)
    case AcceptConn => r.fd == s.sockfd && s.isListen
    case TimerRead => r.fd == s.timerfd && s.isListen && s.timerfd >= 0
    case ClientRead => r.fd in s.clients
  }

  ghost predicate Census(s: State) {
    && (forall r :: r in s.heap.live <==> Expected(s, r))
    && (s.socketClosed ==> !s.isListen)
    && (s.sendFailed ==> s.socketClosed)
  }

  /** Between handlers: the exact census, nothing left unsubmitted, never more than three entries queued at once. */
  ghost predicate Valid(s: State) {
    && HeapOk(s.heap) && Census(s)
    && s.ring.queued == 0 && s.ring.highWater <= 3 && s.ring.refusals == 0 && s.strays == 0
  }

  lemma AllocOk(h: Heap, r: Request)
    requires HeapOk(h) && r !in h.live
    ensures HeapOk(Alloc(h, r)) && Alloc(h, r).live.Keys == h.live.Keys + {r}
  {
  }

  lemma FreeOk(h: Heap, r: Request)
    requires HeapOk(h) && r in h.live
    ensures HeapOk(Free(h, r)) && Free(h, r).live.Keys == h.live.Keys - {r}
    ensures h.live[r] !in h.freed
  {
  }

  lemma {:induction false} PlaceAllOk(s: State, rs: seq<Request>)
    requires HeapOk(s.heap) && (forall i :: 0 <= i < |rs| ==> rs[i] !in s.heap.live)
    requires forall i, j :: 0 <= i < j < |rs| ==> rs[i] != rs[j]
    requires s.ring.highWater <= s.ring.queued && s.ring.queued + |rs| <= RING_SIZE
    ensures var t := PlaceAll(s, rs);
      && HeapOk(t.heap) && t == s.(heap := t.heap, ring := t.ring)
      && (forall r :: r in t.heap.live <==> r in s.heap.live || r in rs)
      && t.ring.highWater <= t.ring.queued == s.ring.queued + |rs| && t.ring.refusals == s.ring.refusals
    decreases |rs|
  {
    if rs != [] {
      AllocOk(s.heap, rs[0]);
      PlaceAllOk(Place(s, rs[0]), rs[1..]);
      assert forall r :: r in rs <==> r == rs[0] || r in rs[1..];
    }
  }

  lemma StartersExpected(s: State, timerfd: int)
    requires s == Blank(s.sockfd, s.isListen, timerfd)
    ensures var rs := Starters(s.sockfd, s.isListen, timerfd);
      && |rs| <= 3 && (forall i, j :: 0 <= i < j < |rs| ==> rs[i] != rs[j])
      && (forall r :: r in rs <==> Expected(s, r))
  {
  }

  lemma PlacedValid(s: State, rs: seq<Request>)
    requires s == Blank(s.sockfd, s.isListen, s.timerfd)
    requires |rs| <= 3 && (forall i, j :: 0 <= i < j < |rs| ==> rs[i] != rs[j])
    requires forall r :: r in rs <==> Expected(s, r)
    ensures Valid(Submit(PlaceAll(s, rs))) && SameSetup(Submit(PlaceAll(s, rs)), s)
    ensures Submit(PlaceAll(s, rs)).(heap := s.heap, ring := s.ring) == s
  {
    PlaceAllOk(s, rs);
    assert forall r :: Expected(Submit(PlaceAll(s, rs)), r) <==> Expected(s, r);
  }

  lemma SetupValid(sockfd: int, isListen: bool, timerfd: int)
    ensures Valid(Setup(sockfd, isListen, timerfd))
    ensures SameSetup(Setup(sockfd, isListen, timerfd), Blank(sockfd, isListen, timerfd))
    ensures var s := Setup(sockfd, isListen, timerfd);
      && s.sockfd == sockfd && s.isListen == isListen && s.timerfd == (if isListen then timerfd else -1)
      && s.clients == map[] && s.closed == [] && !s.stdinClosed && !s.socketClosed && !s.sendFailed
  {
    StartersExpected(Blank(sockfd, isListen, timerfd), timerfd);
    PlacedValid(Blank(sockfd, isListen, timerfd), Starters(sockfd, isListen, timerfd));
  }

  /** The kernel completes a live request, and never accepts under a number that is still open. */
  predicate Possible(s: State, c: Completion) {
    Running(s) && c.r in s.heap.live && (c.r.op.AcceptConn? && c.res >= 0 ==> c.res !in s.clients)
  }

  /** As Valid, but possibly with entries still to be submitted. */
  ghost predicate Busy(s: State) {
    && HeapOk(s.heap) && Census(s)
    && s.ring.queued <= 2 && s.ring.highWater <= 3 && s.ring.refusals == 0 && s.strays == 0
  }

  /** A request freed and submitted anew leaves the census as it was. */
  lemma RearmKeeps(s: State, r: Request)
    requires Busy(s) && r in s.heap.live
    ensures Valid(Submit(Place(Delete(s, r), r)))
  {
    FreeOk(s.heap, r);
    AllocOk(Free(s.heap, r), r);
  }

  lemma StdinKeeps(s: State, c: Completion)
    requires Valid(s) && Possible(s, c) && c.r.op.StdinRead?
    ensures Valid(OnStdinRead(s, c))
  {
    assert Expected(s, c.r);
    if c.res <= 0 {
      FreeOk(s.heap, c.r);
    } else {
      var failed := !s.isListen && !c.sendOk;
      RearmKeeps(s.(socketClosed := s.socketClosed || failed, sendFailed := s.sendFailed || failed), c.r);
    }
  }

  lemma SocketKeeps(s: State, c: Completion)
    requires Valid(s) && Possible(s, c) && c.r.op.SocketRead?
    ensures Valid(OnSocketRead(s, c))
  {
    assert Expected(s, c.r);
    FreeOk(s.heap, c.r);
    if c.res > 0 {
      RearmKeeps(s, c.r);
    }
  }

  lemma AdmitKeeps(s: State, fd: int)
    requires Valid(s) && fd !in s.clients
    ensures Busy(Admit(s, fd)) && Admit(s, fd).heap.live.Keys == s.heap.live.Keys + {Request(ClientRead, fd)}
  {
    AllocOk(s.heap, Request(ClientRead, fd));
    CensusAdmits(s, fd, Alloc(s.heap, Request(ClientRead, fd)), Push(s.ring));
  }

  lemma CensusAdmits(s: State, fd: int, h: Heap, q: Ring)
    requires Census(s) && h.live.Keys == s.heap.live.Keys + {Request(ClientRead, fd)}
    ensures Census(s.(clients := s.clients[fd := 0], heap := h, ring := q))
  {
  }

  lemma AcceptKeeps(s: State, c: Completion)
    requires Valid(s) && Possible(s, c) && c.r.op.AcceptConn?
    ensures Valid(OnAccept(s, c))
  {
    assert Expected(s, c.r);
    if c.res >= 0 {
      AdmitKeeps(s, c.res);
      RearmKeeps(Admit(s, c.res), c.r);
    } else {
      RearmKeeps(s, c.r);
    }
  }

  lemma TimerKeeps(s: State, c: Completion)
    requires Valid(s) && Possible(s, c) && c.r.op.TimerRead?
    ensures Valid(OnTimerRead(s, c))
  {
    assert Expected(s, c.r);
    RearmKeeps(s, c.r);
  }

  lemma ClientReadKeeps(s: State, c: Completion)
    requires Valid(s) && Possible(s, c) && c.r.op.ClientRead? && c.res > 0
    ensures Valid(OnClientRead(s, c)) && c.r.fd in s.clients
  {
    assert Expected(s, c.r);
    var n: nat := s.clients[c.r.fd] + c.res;
    CensusCounts(s, c.r.fd, n);
    RearmKeeps(s.(clients := s.clients[c.r.fd := n]), c.r);
  }

  lemma CensusCounts(s: State, fd: int, n: nat)
    requires Census(s) && fd in s.clients
    ensures Census(s.(clients := s.clients[fd := n]))
  {
    assert forall r :: Expected(s.(clients := s.clients[fd := n]), r) <==> Expected(s, r);
  }

  lemma ClientGoneKeeps(s: State, c: Completion)
    requires Valid(s) && Possible(s, c) && c.r.op.ClientRead? && c.res <= 0
    ensures Valid(OnClientRead(s, c)) && c.r.fd in s.clients
  {
    assert Expected(s, c.r);
    FreeOk(s.heap, c.r);
    CensusForgets(s, c.r.fd, Free(s.heap, c.r), s.closed + [c.r.fd]);
  }

  lemma CensusForgets(s: State, fd: int, h: Heap, closed: seq<int>)
    requires Census(s) && h.live.Keys == s.heap.live.Keys - {Request(ClientRead, fd)}
    ensures Census(s.(clients := s.clients - {fd}, closed := closed, heap := h))
  {
  }

  lemma HandleKeeps(s: State, c: Completion)
    requires Valid(s) && Possible(s, c)
    ensures Valid(Handle(s, c))
  {
    match c.r.op
    case StdinRead => StdinKeeps(s, c);
    case SocketRead => SocketKeeps(s, c);
    case AcceptConn => AcceptKeeps(s, c);
    case TimerRead => TimerKeeps(s, c);
    case ClientRead =>
      if c.res > 0 {
        ClientReadKeeps(s, c);
      } else {
        ClientGoneKeeps(s, c);
      }
  }

  // ---------------------------------------------------------------- whole runs

  predicate Allowed(s: State, cs: seq<Completion>)
    decreases |cs|
  {
    cs == [] || (Possible(s, cs[0]) && Allowed(Handle(s, cs[0]), cs[1..]))
  }

  function Run(s: State, cs: seq<Completion>): State
    requires Allowed(s, cs)
    decreases |cs|
  {
    if cs == [] then s else Run(Handle(s, cs[0]), cs[1..])
  }

  predicate SameSetup(s: State, t: State) {
    s.sockfd == t.sockfd && s.isListen == t.isListen && s.timerfd == t.timerfd
  }

  lemma {:induction false} RunKeeps(s: State, cs: seq<Completion>)
    requires Valid(s) && Allowed(s, cs)
    ensures Valid(Run(s, cs)) && SameSetup(Run(s, cs), s)
    decreases |cs|
  {
    if cs != [] {
      HandleKeeps(s, cs[0]);
      RunKeeps(Handle(s, cs[0]), cs[1..]);
    }
  }

  function ClientReads(clients: set<int>): set<Request> {
    set fd | fd in clients :: Request(ClientRead, fd)
  }

  lemma {:induction false} ClientReadsCount(clients: set<int>)
    ensures |ClientReads(clients)| == |clients|
    decreases |clients|
  {
    if |clients| > 0 {
      assert (forall x :: x !in clients) ==> clients == {};
      var fd :| fd in clients;
      ClientReadsCount(clients - {fd});
      assert ClientReads(clients) == ClientReads(clients - {fd}) + {Request(ClientRead, fd)};
    }
  }

  /** What a listening relay always has in flight besides the client reads. */
  function FixedReads(sockfd: int, timerfd: int): set<Request> {
    {Request(StdinRead, STDIN_FILENO), Request(AcceptConn, sockfd)}
    + (if timerfd >= 0 then {Request(TimerRead, timerfd)} else {})
  }

  lemma FixedReadsCount(sockfd: int, timerfd: int, clients: set<int>)
    ensures |FixedReads(sockfd, timerfd) + ClientReads(clients)| == 2 + (if timerfd >= 0 then 1 else 0) + |clients|
  {
    ClientReadsCount(clients);
    assert FixedReads(sockfd, timerfd) !! ClientReads(clients);
    assert |{Request(StdinRead, STDIN_FILENO), Request(AcceptConn, sockfd)}| == 2;
  }

  lemma CensusAsSet(s: State)
    requires Census(s) && s.isListen && Running(s)
    ensures s.heap.live.Keys == FixedReads(s.sockfd, s.timerfd) + ClientReads(s.clients.Keys)
  {
    forall r ensures r in s.heap.live.Keys <==> r in FixedReads(s.sockfd, s.timerfd) + ClientReads(s.clients.Keys) {
      assert r in s.heap.live <==> Expected(s, r);
    }
  }

  /**
    Listening, until standard input closes: every reachable state between handlers has
    exactly one STDIN_READ, one ACCEPT, one TIMER_READ if the timer exists and one
    CLIENT_READ per client alive, each an allocation of its own that has not been freed,
    and every other allocation has been freed.
  */
  lemma ListenCensus(sockfd: int, timerfd: int, cs: seq<Completion>)
    requires Allowed(Setup(sockfd, true, timerfd), cs)
    requires Running(Run(Setup(sockfd, true, timerfd), cs))
    ensures var s := Run(Setup(sockfd, true, timerfd), cs);
      && HeapOk(s.heap)
      && s.heap.live.Keys == FixedReads(sockfd, timerfd) + ClientReads(s.clients.Keys)
      && |s.heap.live| == 2 + (if timerfd >= 0 then 1 else 0) + |s.clients|
  {
    SetupValid(sockfd, true, timerfd);
    RunKeeps(Setup(sockfd, true, timerfd), cs);
    var s := Run(Setup(sockfd, true, timerfd), cs);
    CensusAsSet(s);
    FixedReadsCount(sockfd, timerfd, s.clients.Keys);
    assert |s.heap.live| == |s.heap.live.Keys|;
  }

  /** No completion is ever for an unknown client, the ring never refuses, and at most three entries wait at once. */
  lemma NothingUnexpected(sockfd: int, isListen: bool, timerfd: int, cs: seq<Completion>)
    requires Allowed(Setup(sockfd, isListen, timerfd), cs)
    ensures var s := Run(Setup(sockfd, isListen, timerfd), cs);
      s.strays == 0 && s.ring.refusals == 0 && s.ring.highWater <= 3 && s.ring.queued == 0
  {
    SetupValid(sockfd, isListen, timerfd);
    RunKeeps(Setup(sockfd, isListen, timerfd), cs);
  }

  /** A handler frees the allocation of the request it was given and no other, and that one had not been freed. */
  lemma HandleFreesOne(s: State, c: Completion)
    requires Valid(s) && Possible(s, c)
    ensures s.heap.live[c.r] !in s.heap.freed
    ensures Handle(s, c).heap.freed == s.heap.freed + {s.heap.live[c.r]}
  {
    assert Expected(s, c.r);
  }

  predicate Accepting(c: Completion, fd: int) {
    c.r.op.AcceptConn? && c.res >= 0 && c.res == fd
  }

  /** How many connections were accepted under a descriptor. */
  function Accepts(cs: seq<Completion>, fd: int): nat {
    if cs == [] then 0 else One(Accepting(cs[0], fd)) + Accepts(cs[1..], fd)
  }

  lemma HandleCloses(s: State, c: Completion, fd: int)
    requires Valid(s) && Possible(s, c)
    ensures var t := Handle(s, c);
      multiset(t.closed)[fd] + One(fd in t.clients)
        == multiset(s.closed)[fd] + One(fd in s.clients) + One(Accepting(c, fd))
  {
    assert Expected(s, c.r);
    assert multiset(s.closed + [c.r.fd]) == multiset(s.closed) + multiset{c.r.fd};
  }

  /** Every accepted connection is either still a client or has been closed, once. */
  lemma {:induction false} ClosedOnce(s: State, cs: seq<Completion>, fd: int)
    requires Valid(s) && Allowed(s, cs)
    ensures var t := Run(s, cs);
      multiset(t.closed)[fd] + One(fd in t.clients) == multiset(s.closed)[fd] + One(fd in s.clients) + Accepts(cs, fd)
    decreases |cs|
  {
    if cs != [] {
      HandleKeeps(s, cs[0]);
      HandleCloses(s, cs[0], fd);
      ClosedOnce(Handle(s, cs[0]), cs[1..], fd);
    }
  }

  /** The bytes that arrived under a descriptor since it was last accepted, after one more completion. */
  function Counting(before: nat, c: Completion, fd: int): nat {
    if Accepting(c, fd) then 0
    else if c.r == Request(ClientRead, fd) && c.res > 0 then before + c.res
    else before
  }

  function BytesSince(before: nat, cs: seq<Completion>, fd: int): nat
    decreases |cs|
  {
    if cs == [] then before else BytesSince(Counting(before, cs[0], fd), cs[1..], fd)
  }

  lemma HandleCounts(s: State, before: nat, c: Completion, fd: int)
    requires Valid(s) && Possible(s, c) && (fd in s.clients ==> s.clients[fd] == before)
    ensures fd in Handle(s, c).clients ==> Handle(s, c).clients[fd] == Counting(before, c, fd)
  {
    assert Expected(s, c.r);
  }

  /** Each client's count is that of its own connection: nothing is lost, and nothing left over from an earlier one. */
  lemma {:induction false} BytesOfConnection(s: State, before: nat, cs: seq<Completion>, fd: int)
    requires Valid(s) && Allowed(s, cs) && (fd in s.clients ==> s.clients[fd] == before)
    requires fd in Run(s, cs).clients
    ensures Run(s, cs).clients[fd] == BytesSince(before, cs, fd)
    decreases |cs|
  {
    if cs != [] {
      HandleKeeps(s, cs[0]);
      HandleCounts(s, before, cs[0], fd);
      BytesOfConnection(Handle(s, cs[0]), Counting(before, cs[0], fd), cs[1..], fd);
    }
  }

  // ---------------------------------------------------------------- what a run comes to

  /** A read of a client's socket that returned 0 or an error. */
  predicate EndsClient(c: Completion) {
    c.r.op.ClientRead? && c.res <= 0
  }

  /** Completion i accepted the descriptor, and none later ended it as a client. */
  predicate LastAccepted(cs: seq<Completion>, i: int, fd: int) {
    && 0 <= i < |cs| && Accepting(cs[i], fd)
    && forall j :: i < j < |cs| ==> !(EndsClient(cs[j]) && cs[j].r.fd == fd)
  }

  predicate Untouched(cs: seq<Completion>, fd: int) {
    forall j :: 0 <= j < |cs| ==> !Accepting(cs[j], fd) && !(EndsClient(cs[j]) && cs[j].r.fd == fd)
  }

  /** The descriptors closed, one for each read that ended a client, in order. */
  function EndedFds(cs: seq<Completion>): seq<int> {
    if cs == [] then [] else (if EndsClient(cs[0]) then [cs[0].r.fd] else []) + EndedFds(cs[1..])
  }

  /** Standard input reported its end or an error. */
  predicate StdinEnds(c: Completion) {
    c.r.op.StdinRead? && c.res <= 0
  }

  /** The socket reported its end or an error. */
  predicate SocketEnds(c: Completion) {
    c.r.op.SocketRead? && c.res <= 0
  }

  /** Outside listen mode, passing on what standard input brought failed. */
  predicate SendFails(isListen: bool, c: Completion) {
    c.r.op.StdinRead? && c.res > 0 && !isListen && !c.sendOk
  }

  /** One completion: what it closes, which flags it raises, and that it changes nothing else about the clients. */
  lemma HandleMeans(s: State, c: Completion)
    requires Valid(s) && Possible(s, c)
    ensures var t := Handle(s, c);
      && t.closed == s.closed + (if EndsClient(c) then [c.r.fd] else [])
      && t.clients.Keys == (if EndsClient(c) then s.clients.Keys - {c.r.fd}
                            else if Accepting(c, c.res) then s.clients.Keys + {c.res} else s.clients.Keys)
      && (t.stdinClosed <==> s.stdinClosed || StdinEnds(c))
      && (t.socketClosed <==> s.socketClosed || SocketEnds(c) || SendFails(s.isListen, c))
      && (t.sendFailed <==> s.sendFailed || SendFails(s.isListen, c))
      && SameSetup(t, s)
  {
    assert Expected(s, c.r);
  }

  /** Accepted and not ended since; or a client before, and untouched. */
  ghost predicate StaysClient(before: bool, cs: seq<Completion>, fd: int) {
    (exists i :: LastAccepted(cs, i, fd)) || (before && Untouched(cs, fd))
  }

  lemma StaysFirst(before: bool, cs: seq<Completion>, fd: int)
    requires cs != []
    ensures StaysClient(before, cs, fd) <==>
      StaysClient(if EndsClient(cs[0]) && cs[0].r.fd == fd then false else before || Accepting(cs[0], fd), cs[1..], fd)
  {
    var rest := cs[1..];
    assert forall i :: LastAccepted(rest, i, fd) ==> LastAccepted(cs, i + 1, fd);
    assert forall i :: i > 0 && LastAccepted(cs, i, fd) ==> LastAccepted(rest, i - 1, fd);
    if LastAccepted(cs, 0, fd) && !Untouched(rest, fd) {
      var j := LastAcceptIn(rest, fd);
    }
    if Accepting(cs[0], fd) && Untouched(rest, fd) {
      assert LastAccepted(cs, 0, fd);
    }
  }

  /** A descriptor is a client exactly when it was accepted and no read has since returned 0 or an error. */
  lemma {:induction false} ClientsOfRun(s: State, cs: seq<Completion>, fd: int)
    requires Valid(s) && Allowed(s, cs)
    ensures fd in Run(s, cs).clients <==> StaysClient(fd in s.clients, cs, fd)
    decreases |cs|
  {
    if cs == [] {
      assert forall i :: !LastAccepted(cs, i, fd);
    } else {
      HandleKeeps(s, cs[0]);
      HandleMeans(s, cs[0]);
      StaysFirst(fd in s.clients, cs, fd);
      ClientsOfRun(Handle(s, cs[0]), cs[1..], fd);
    }
  }

  lemma {:induction false} LastAcceptIn(cs: seq<Completion>, fd: int) returns (i: nat)
    requires forall j :: 0 <= j < |cs| ==> !(EndsClient(cs[j]) && cs[j].r.fd == fd)
    requires !Untouched(cs, fd)
    ensures LastAccepted(cs, i, fd)
  {
    if Accepting(cs[0], fd) {
      i := 0;
    } else {
      var h := LastAcceptIn(cs[1..], fd);
      i := h + 1;
    }
  }

  predicate AnyStdinEnds(cs: seq<Completion>) {
    exists i :: 0 <= i < |cs| && StdinEnds(cs[i])
  }

  predicate AnySocketEnds(cs: seq<Completion>) {
    exists i :: 0 <= i < |cs| && SocketEnds(cs[i])
  }

  predicate AnySendFails(isListen: bool, cs: seq<Completion>) {
    exists i :: 0 <= i < |cs| && SendFails(isListen, cs[i])
  }

  lemma AnyFirst(isListen: bool, cs: seq<Completion>)
    requires cs != []
    ensures AnyStdinEnds(cs) <==> StdinEnds(cs[0]) || AnyStdinEnds(cs[1..])
    ensures AnySocketEnds(cs) <==> SocketEnds(cs[0]) || AnySocketEnds(cs[1..])
    ensures AnySendFails(isListen, cs) <==> SendFails(isListen, cs[0]) || AnySendFails(isListen, cs[1..])
  {
    assert forall i :: 0 <= i < |cs| - 1 ==> cs[1..][i] == cs[i + 1];
    assert forall i :: 1 <= i < |cs| ==> cs[i] == cs[1..][i - 1];
  }

  /** What the completions that lead from s to t have closed, and when the flags have risen. */
  predicate Raised(s: State, t: State, cs: seq<Completion>) {
    && t.closed == s.closed + EndedFds(cs)
    && (t.stdinClosed <==> s.stdinClosed || AnyStdinEnds(cs))
    && (t.socketClosed <==> s.socketClosed || AnySocketEnds(cs) || AnySendFails(s.isListen, cs))
    && (t.sendFailed <==> s.sendFailed || AnySendFails(s.isListen, cs))
    && t.isListen == s.isListen
  }

  lemma RaisedFirst(s: State, u: State, t: State, cs: seq<Completion>)
    requires cs != [] && Raised(u, t, cs[1..]) && u.isListen == s.isListen
    requires u.closed == s.closed + (if EndsClient(cs[0]) then [cs[0].r.fd] else [])
    requires u.stdinClosed <==> s.stdinClosed || StdinEnds(cs[0])
    requires u.socketClosed <==> s.socketClosed || SocketEnds(cs[0]) || SendFails(s.isListen, cs[0])
    requires u.sendFailed <==> s.sendFailed || SendFails(s.isListen, cs[0])
    ensures Raised(s, t, cs)
  {
    AnyFirst(s.isListen, cs);
  }

  lemma {:induction false} FlagsOfRun(s: State, cs: seq<Completion>)
    requires Valid(s) && Allowed(s, cs)
    ensures Raised(s, Run(s, cs), cs)
    decreases |cs|
  {
    if cs == [] {
      assert s.closed + [] == s.closed;
    } else {
      HandleKeeps(s, cs[0]);
      HandleMeans(s, cs[0]);
      FlagsOfRun(Handle(s, cs[0]), cs[1..]);
      RaisedFirst(s, Handle(s, cs[0]), Run(s, cs), cs);
    }
  }

  /** A ring never holds more than its size: a full one is submitted first, which counts as a refusal. */
  lemma PushFits(q: Ring)
    requires q.queued <= RING_SIZE
    ensures Push(q).queued == if q.queued < RING_SIZE then q.queued + 1 else 1
    ensures Push(q).refusals == q.refusals + One(q.queued == RING_SIZE)
    ensures Push(q).queued <= RING_SIZE && Push(q).highWater >= q.highWater && Push(q).highWater >= Push(q).queued
  {
  }

  // ---------------------------------------------------------------- the object

  class Relay {
    const sockfd: int
    const isListen: bool
    var timerfd: int
    var clients: map<int, nat>
    var closed: seq<int>
    var stdinClosed: bool
    var socketClosed: bool
    var sendFailed: bool
    var strays: nat
    var heap: Heap     // the allocator
    var ring: Ring     // the submission queue

    ghost function View(): State
      reads this
    {
      State(sockfd, isListen, timerfd, clients, closed, stdinClosed, socketClosed, sendFailed, strays, heap, ring)
    }

    constructor (sockfd: int, isListen: bool, createTimer: int)
      ensures View() == Setup(sockfd, isListen, createTimer)
    {
      this.sockfd, this.isListen, timerfd := sockfd, isListen, -1;
      clients, closed, strays := map[], [], 0;
      stdinClosed, socketClosed, sendFailed := false, false, false;
      heap, ring := Heap([], {}, map[]), Ring(0, 0, 0);
      new;
      SubmitStdinRead();
      if isListen {
        SubmitAccept();
        timerfd := createTimer;
        if timerfd >= 0 {
          PlaceRequest(Request(TimerRead, timerfd));
        }
      } else {
        SubmitSocketRead();
      }
      RingSubmit();
      StartersPlaced(View().(heap := Heap([], {}, map[]), ring := Ring(0, 0, 0)), createTimer);
    }

    method RingSubmit()
      modifies this`ring
      ensures View() == Submit(old(View()))
    {
      ring := ring.(queued := 0);
    }

    method GetSqe() returns (ok: bool)
      modifies this`ring
      ensures ok == (old(ring).queued < RING_SIZE)
      ensures ring == if ok then old(ring) else old(ring).(refusals := old(ring).refusals + 1)
    {
      ok := ring.queued < RING_SIZE;
      if !ok {
        ring := ring.(refusals := ring.refusals + 1);
      }
    }

    /** new Request, filled in and attached to a submission entry. */
    method Attach(r: Request)
      modifies this`heap, this`ring
      ensures heap == Alloc(old(heap), r)
      ensures var n := old(ring).queued + 1;
        ring == Ring(n, if old(ring).highWater < n then n else old(ring).highWater, old(ring).refusals)
    {
      heap := Alloc(heap, r);
      var n := ring.queued + 1;
      ring := Ring(n, if ring.highWater < n then n else ring.highWater, ring.refusals);
    }

    /** The common part of the submit functions; the second attempt finds the ring just emptied. */
    method PlaceRequest(r: Request)
      modifies this`heap, this`ring
      ensures View() == Place(old(View()), r)
    {
      var ok := GetSqe();
      if !ok {
        RingSubmit();
        ok := GetSqe();
      }
      Attach(r);
    }

    method SubmitStdinRead()
      modifies this`heap, this`ring
      ensures View() == if stdinClosed then old(View()) else Place(old(View()), Request(StdinRead, STDIN_FILENO))
    {
      if stdinClosed {
        return;
      }
      PlaceRequest(Request(StdinRead, STDIN_FILENO));
    }

    method SubmitSocketRead()
      modifies this`heap, this`ring
      ensures View() == if socketClosed then old(View()) else Place(old(View()), Request(SocketRead, sockfd))
    {
      if socketClosed {
        return;
      }
      PlaceRequest(Request(SocketRead, sockfd));
    }

    method SubmitAccept()
      modifies this`heap, this`ring
      ensures View() == if socketClosed then old(View()) else Place(old(View()), Request(AcceptConn, sockfd))
    {
      if socketClosed {
        return;
      }
      PlaceRequest(Request(AcceptConn, sockfd));
    }

    method SubmitClientRead(fd: int)
      modifies this`heap, this`ring
      ensures View() == if fd in clients then Place(old(View()), Request(ClientRead, fd)) else old(View())
    {
      if fd !in clients {
        return;
      }
      PlaceRequest(Request(ClientRead, fd));
    }

    method DeleteRequest(r: Request)
      requires r in heap.live
      modifies this`heap
      ensures View() == Delete(old(View()), r)
    {
      heap := Free(heap, r);
    }

    method HandleStdinRead(c: Completion)
      requires c.r in heap.live
      modifies this
      ensures View() == OnStdinRead(old(View()), c)
    {
      if c.res > 0 {
        if !isListen && !c.sendOk {
          socketClosed, sendFailed := true, true;
        }
      } else {
        stdinClosed := true;
      }
      DeleteRequest(c.r);
      if !stdinClosed {
        SubmitStdinRead();
        RingSubmit();
      }
    }

    method HandleSocketRead(c: Completion)
      requires c.r in heap.live
      modifies this
      ensures View() == OnSocketRead(old(View()), c)
    {
      if c.res <= 0 {
        socketClosed := true;
      }
      DeleteRequest(c.r);
      if !socketClosed {
        SubmitSocketRead();
        RingSubmit();
      }
    }

    method HandleAccept(c: Completion)
      requires c.r in heap.live
      modifies this
      ensures View() == OnAccept(old(View()), c)
    {
      if c.res >= 0 {
        if c.res !in clients {
          clients := clients[c.res := 0];
        }
        SubmitClientRead(c.res);
      }
      DeleteRequest(c.r);
      if !socketClosed {
        SubmitAccept();
        RingSubmit();
      }
    }

    method HandleTimerRead(c: Completion)
      requires c.r in heap.live
      modifies this
      ensures View() == OnTimerRead(old(View()), c)
    {
      DeleteRequest(c.r);
      if timerfd >= 0 {
        var ok := GetSqe();
        if ok {
          Attach(Request(TimerRead, timerfd));
          RingSubmit();
        }
      }
    }

    method HandleClientRead(c: Completion)
      requires c.r in heap.live
      modifies this
      ensures View() == OnClientRead(old(View()), c)
    {
      var fd := c.r.fd;
      if fd !in clients {
        DeleteRequest(c.r);
        strays := strays + 1;
        return;
      }
      if c.res > 0 {
        clients := clients[fd := clients[fd] + c.res];
        DeleteRequest(c.r);
        SubmitClientRead(fd);
        RingSubmit();
      } else {
        DeleteRequest(c.r);
        RemoveClient(fd);
      }
    }

    method RemoveClient(fd: int)
      modifies this`clients, this`closed
      ensures View() == if fd in old(clients)
                        then old(View()).(clients := old(clients) - {fd}, closed := old(closed) + [fd])
                        else old(View())
    {
      if fd in clients {
        closed := closed + [fd];
        clients := clients - {fd};
      }
    }

    method Dispatch(c: Completion)
      requires c.r in heap.live
      modifies this
      ensures View() == Handle(old(View()), c)
    {
      match c.r.op {
        case StdinRead => HandleStdinRead(c);
        case SocketRead => HandleSocketRead(c);
        case AcceptConn => HandleAccept(c);
        case TimerRead => HandleTimerRead(c);
        case ClientRead => HandleClientRead(c);
      }
    }

    /**
      The event loop for at most n completions, the kernel choosing which and with what result.
      There is always one to wait for.
    */
    method Exec(n: nat) returns (cs: seq<Completion>)
      requires Valid(View())
      modifies this
      ensures Valid(View()) && |cs| <= n
      ensures Allowed(old(View()), cs) && View() == Run(old(View()), cs)
      ensures |cs| == n || !Running(View())
    {
      cs := [];
      while |cs| < n && !stdinClosed && !socketClosed
        invariant Valid(View()) && |cs| <= n
        invariant Allowed(old(View()), cs) && View() == Run(old(View()), cs)
      {
        assert Expected(View(), Request(StdinRead, STDIN_FILENO));
        assert Request(StdinRead, STDIN_FILENO) in heap.live;
        var r :| r in heap.live;
        var res: int, sendOk: bool := *, *;
        if r.op.AcceptConn? && res in clients {
          res := -1;  // an open descriptor is not handed out again
        }
        var c := Completion(r, res, sendOk);
        HandleKeeps(View(), c);
        RunOneMore(old(View()), cs, c);
        Dispatch(c);
        cs := cs + [c];
      }
    }
  }

  lemma StartersPlaced(s: State, timerfd: int)
    requires s == Blank(s.sockfd, s.isListen, timerfd)
    ensures var r1 := Request(if s.isListen then AcceptConn else SocketRead, s.sockfd);
      var t := Place(Place(s, Request(StdinRead, STDIN_FILENO)), r1);
      Setup(s.sockfd, s.isListen, timerfd)
        == Submit(if s.isListen && timerfd >= 0 then Place(t, Request(TimerRead, timerfd)) else t)
  {
    var rs := Starters(s.sockfd, s.isListen, timerfd);
    var t := Place(s, rs[0]);
    assert PlaceAll(s, rs) == PlaceAll(t, rs[1..]);
    var u := Place(t, rs[1]);
    assert PlaceAll(t, rs[1..]) == PlaceAll(u, rs[1..][1..]);
    if |rs| == 3 {
      assert rs[1..][1..] == [rs[2]];
      assert PlaceAll(u, [rs[2]]) == PlaceAll(Place(u, rs[2]), []);
    }
  }

  lemma {:induction false} RunOneMore(s: State, cs: seq<Completion>, c: Completion)
    requires Allowed(s, cs) && Possible(Run(s, cs), c)
    ensures Allowed(s, cs + [c]) && Run(s, cs + [c]) == Handle(Run(s, cs), c)
    decreases |cs|
  {
    if cs != [] {
      assert (cs + [c])[1..] == cs[1..] + [c];
      RunOneMore(Handle(s, cs[0]), cs[1..], c);
    } else {
      assert [c][1..] == [];
    }
  }
}
