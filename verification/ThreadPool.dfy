/**
  ThreadPool as a step system: workers waiting on a condition variable, callers of
  Schedule, and a destructor that sets the flag without holding the mutex. Coroutine
  handles are numbered tickets, in the order in which they were pushed.
*/
module ThreadPool {
  import opened Common

  datatype Pc =
    | Top                    // about to test !mIsDone
    | Locking                // wants the mutex, first or again after waking
    | Testing                // holds the mutex, about to evaluate the wait predicate
    | Sleepy                 // holds the mutex, the predicate was false
    | Asleep                 // blocked in the condition variable, mutex released
    | Ready                  // holds the mutex, the predicate was true
    | Resuming(ticket: nat)
    | Exited

  datatype Destructor = Alive | FlagSet | Notified | Joined

  /**
    `late` counts, for each worker, the tickets it took after the flag was set; `notifies` are
    notify_one calls still to be made.
  */
  datatype State = State(workers: seq<Pc>, lock: Option<nat>, queue: seq<nat>, scheduled: nat, taken: seq<nat>,
                         destroyed: seq<nat>, notifies: nat, isDone: bool, dtor: Destructor, late: seq<nat>)

  function Init(n: nat): State {
    State(seq(n, _ => Top), None, [], 0, [], [], 0, false, Alive, seq(n, _ => 0))
  }

  datatype Step =
    | Schedule               // push under the mutex
    | NotifyOne(w: nat)      // w is the sleeper woken, if there is any
    | SetFlag | NotifyAll | Join | Destroy
    | CheckFlag(w: nat) | Lock(w: nat) | Test(w: nat) | Sleep(w: nat) | Spurious(w: nat) | Take(w: nat) | Resume(w: nat)

  predicate Holds(pc: Pc) { pc.Testing? || pc.Sleepy? || pc.Ready? }

  predicate NoneAsleep(s: State) {
    forall i :: 0 <= i < |s.workers| ==> !s.workers[i].Asleep?
  }

  predicate Is(s: State, w: nat, pc: Pc) {
    w < |s.workers| && s.workers[w] == pc
  }

  predicate Enabled(s: State, step: Step) {
    match step
    case Schedule => s.lock.None? && !s.dtor.Joined?
    case NotifyOne(w) => s.notifies > 0 && (Is(s, w, Asleep) || NoneAsleep(s))
    case SetFlag => s.dtor.Alive?
    case NotifyAll => s.dtor.FlagSet?
    case Join => s.dtor.Notified? && forall i :: 0 <= i < |s.workers| ==> s.workers[i].Exited?
    case Destroy => s.dtor.Joined? && s.queue != []
    case CheckFlag(w) => Is(s, w, Top)
    case Lock(w) => Is(s, w, Locking) && s.lock.None?
    case Test(w) => Is(s, w, Testing)
    case Sleep(w) => Is(s, w, Sleepy)
    case Spurious(w) => Is(s, w, Asleep)
    case Take(w) => Is(s, w, Ready) && |s.late| == |s.workers| && (s.queue != [] || s.isDone)
    case Resume(w) => w < |s.workers| && s.workers[w].Resuming?
  }

  function Go(s: State, w: nat, pc: Pc): State
    requires w < |s.workers|
  {
    s.(workers := s.workers[w := pc])
  }

  function WakeAll(workers: seq<Pc>): seq<Pc> {
    seq(|workers|, i requires 0 <= i < |workers| => if workers[i].Asleep? then Locking else workers[i])
  }

  function Do(s: State, step: Step): State
    requires Enabled(s, step)
  {
    match step
    case Schedule => s.(queue := s.queue + [s.scheduled], scheduled := s.scheduled + 1, notifies := s.notifies + 1)
    case NotifyOne(w) => (if Is(s, w, Asleep) then Go(s, w, Locking) else s).(notifies := s.notifies - 1)
    case SetFlag => s.(isDone := true, dtor := FlagSet)
    case NotifyAll => s.(workers := WakeAll(s.workers), dtor := Notified)
    case Join => s.(dtor := Joined)
    case Destroy => s.(destroyed := s.destroyed + [s.queue[0]], queue := s.queue[1..])
    case CheckFlag(w) => Go(s, w, if s.isDone then Exited else Locking)
    case Lock(w) => Go(s, w, Testing).(lock := Some(w))
    case Test(w) => Go(s, w, if s.isDone || s.queue != [] then Ready else Sleepy)
    case Sleep(w) => Go(s, w, Asleep).(lock := None)
    case Spurious(w) => Go(s, w, Locking)
    case Take(w) =>
      if s.isDone && s.queue == [] then Go(s, w, Exited).(lock := None)
      else Go(s, w, Resuming(s.queue[0]))
             .(lock := None, queue := s.queue[1..], taken := s.taken + [s.queue[0]],
               late := if s.isDone then s.late[w := s.late[w] + 1] else s.late)
    case Resume(w) => Go(s, w, Top)
  }

  predicate Allowed(s: State, steps: seq<Step>)
    decreases |steps|
  {
    steps == [] || (Enabled(s, steps[0]) && Allowed(Do(s, steps[0]), steps[1..]))
  }

  function Run(s: State, steps: seq<Step>): State
    requires Allowed(s, steps)
    decreases |steps|
  {
    if steps == [] then s else Run(Do(s, steps[0]), steps[1..])
  }

  // ---------------------------------------------------------------- invariants

  function UpTo(n: nat): seq<nat> {
    seq(n, i => i)
  }

  /** Tickets leave in the order they came: first the ones taken, then the ones destroyed, then those still queued. */
  predicate Tickets(s: State) {
    s.taken + s.destroyed + s.queue == UpTo(s.scheduled)
  }

  predicate Mutex(s: State) {
    && (forall i :: 0 <= i < |s.workers| && Holds(s.workers[i]) ==> s.lock == Some(i))
    && (s.lock.Some? ==> s.lock.value < |s.workers| && Holds(s.workers[s.lock.value]))
    && (forall i :: 0 <= i < |s.workers| && s.workers[i].Sleepy? ==> s.queue == [])
    && (forall i :: 0 <= i < |s.workers| && s.workers[i].Ready? ==> s.queue != [] || s.isDone)
    && (forall i :: 0 <= i < |s.workers| && s.workers[i].Exited? ==> s.isDone)
  }

  predicate Shutdown(s: State) {
    && (s.isDone <==> !s.dtor.Alive?)
    && (s.dtor.Joined? ==> forall i :: 0 <= i < |s.workers| ==> s.workers[i].Exited?)
    && (s.destroyed != [] ==> s.dtor.Joined?)
  }

  /** Whether a worker may still come to take a ticket before testing the flag again. */
  predicate MayTake(pc: Pc) {
    pc.Locking? || Holds(pc) || pc.Asleep?
  }

  predicate Late(s: State) {
    && |s.late| == |s.workers|
    && (forall i :: 0 <= i < |s.workers| ==> s.late[i] <= 1 && (MayTake(s.workers[i]) || !s.isDone ==> s.late[i] == 0))
  }

  function Awake(ws: seq<Pc>): nat {
    if ws == [] then 0 else (if ws[0].Asleep? || ws[0].Exited? then 0 else 1) + Awake(ws[1..])
  }

  /**
    Before shutdown, while anyone sleeps there are enough awake workers and outstanding
    notifications for the whole queue.
  */
  predicate Served(s: State) {
    !s.isDone && !NoneAsleep(s) ==> |s.queue| <= s.notifies + Awake(s.workers)
  }

  predicate Inv(s: State) {
    Tickets(s) && Mutex(s) && Shutdown(s) && Late(s) && Served(s)
  }

  lemma InitInv(n: nat)
    ensures Inv(Init(n))
  {
  }

  lemma {:induction false} AwakeUpdate(ws: seq<Pc>, i: nat, pc: Pc)
    requires i < |ws|
    ensures Awake(ws[i := pc]) + (if ws[i].Asleep? || ws[i].Exited? then 0 else 1)
         == Awake(ws) + (if pc.Asleep? || pc.Exited? then 0 else 1)
  {
    if i == 0 {
      assert ws[0 := pc][1..] == ws[1..];
    } else {
      assert ws[i := pc][1..] == ws[1..][i - 1 := pc];
      AwakeUpdate(ws[1..], i - 1, pc);
    }
  }

  lemma {:induction false} NobodyAwake(ws: seq<Pc>)
    requires Awake(ws) == 0
    ensures forall i :: 0 <= i < |ws| ==> ws[i].Asleep? || ws[i].Exited?
  {
    if ws != [] {
      NobodyAwake(ws[1..]);
      assert forall i :: 1 <= i < |ws| ==> ws[i] == ws[1..][i - 1];
    }
  }

  lemma KeepsTickets(s: State, step: Step)
    requires Inv(s) && Enabled(s, step)
    ensures Tickets(Do(s, step))
  {
    var t := Do(s, step);
    match step
    case Schedule =>
      assert UpTo(s.scheduled + 1) == UpTo(s.scheduled) + [s.scheduled];
    case Destroy =>
      assert s.queue == [s.queue[0]] + s.queue[1..];
      assert t.taken + t.destroyed + t.queue == s.taken + s.destroyed + s.queue;
    case Take(w) =>
      assert s.destroyed == [];
      if s.queue != [] {
        assert s.queue == [s.queue[0]] + s.queue[1..];
        assert t.taken + t.destroyed + t.queue == s.taken + s.destroyed + s.queue;
      }
    case _ =>
  }

  predicate OfWorker(step: Step) {
    step.CheckFlag? || step.Lock? || step.Test? || step.Sleep? || step.Spurious? || step.Take? || step.Resume?
  }

  /**
    One worker moves and everything Mutex speaks of stays, save the lock, which that worker
    alone may take or release.
  */
  lemma MoveKeepsMutex(s: State, t: State, w: nat)
    requires Mutex(s) && w < |s.workers| == |t.workers| && t.workers == s.workers[w := t.workers[w]]
    requires s.lock == t.lock || (s.lock == Some(w) && t.lock == None) || (s.lock == None && t.lock == Some(w))
    requires Holds(t.workers[w]) <==> t.lock == Some(w)
    requires t.isDone == s.isDone && (t.queue == s.queue || s.lock == Some(w))
    requires t.workers[w].Sleepy? ==> t.queue == []
    requires t.workers[w].Ready? ==> t.queue != [] || t.isDone
    requires t.workers[w].Exited? ==> t.isDone
    ensures Mutex(t)
  {
    assert forall i :: 0 <= i < |s.workers| && i != w ==> t.workers[i] == s.workers[i];
  }

  lemma WorkerKeepsMutex(s: State, step: Step)
    requires Inv(s) && Enabled(s, step) && OfWorker(step)
    ensures Mutex(Do(s, step))
  {
    MoveKeepsMutex(s, Do(s, step), step.w);
  }

  lemma KeepsMutex(s: State, step: Step)
    requires Inv(s) && Enabled(s, step)
    ensures Mutex(Do(s, step))
  {
    if OfWorker(step) {
      WorkerKeepsMutex(s, step);
    }
  }

  lemma KeepsShutdown(s: State, step: Step)
    requires Inv(s) && Enabled(s, step)
    ensures Shutdown(Do(s, step))
  {
  }

  lemma KeepsLate(s: State, step: Step)
    requires Inv(s) && Enabled(s, step)
    ensures Late(Do(s, step))
  {
  }

  lemma KeepsServed(s: State, step: Step)
    requires Inv(s) && Enabled(s, step)
    ensures Served(Do(s, step))
  {
    var t := Do(s, step);
    if |t.workers| == |s.workers| && (OfWorker(step) || step.NotifyOne?) {
      var w := step.w;
      if w < |s.workers| && t.workers == s.workers[w := t.workers[w]] {
        AwakeUpdate(s.workers, w, t.workers[w]);
        assert forall i :: 0 <= i < |s.workers| && i != w ==> t.workers[i] == s.workers[i];
      }
    }
  }

  lemma StepInv(s: State, step: Step)
    requires Inv(s) && Enabled(s, step)
    ensures Inv(Do(s, step))
  {
    KeepsTickets(s, step);
    KeepsMutex(s, step);
    KeepsShutdown(s, step);
    KeepsLate(s, step);
    KeepsServed(s, step);
  }

  lemma {:induction false} RunInv(s: State, steps: seq<Step>)
    requires Inv(s) && Allowed(s, steps)
    ensures Inv(Run(s, steps)) && |Run(s, steps).workers| == |s.workers|
    decreases |steps|
  {
    if steps != [] {
      StepInv(s, steps[0]);
      RunInv(Do(s, steps[0]), steps[1..]);
    }
  }

  // ---------------------------------------------------------------- what it gives

  /** Each ticket scheduled is in exactly one of the three sequences, at exactly one place. */
  lemma OneFatePerTicket(n: nat, steps: seq<Step>, ticket: nat)
    requires Allowed(Init(n), steps)
    ensures var s := Run(Init(n), steps);
      multiset(s.taken)[ticket] + multiset(s.destroyed)[ticket] + multiset(s.queue)[ticket]
        == if ticket < s.scheduled then 1 else 0
  {
    InitInv(n);
    RunInv(Init(n), steps);
    var s := Run(Init(n), steps);
    assert multiset(s.taken + s.destroyed + s.queue) == multiset(s.taken) + multiset(s.destroyed) + multiset(s.queue);
    UpToOnce(s.scheduled, ticket);
  }

  lemma {:induction false} UpToOnce(n: nat, ticket: nat)
    ensures multiset(UpTo(n))[ticket] == if ticket < n then 1 else 0
  {
    if n > 0 {
      UpToOnce(n - 1, ticket);
      assert UpTo(n) == UpTo(n - 1) + [n - 1];
    }
  }

  /** Workers take tickets first in, first out, and a worker that reaches front() finds a ticket there. */
  lemma FirstInFirstOut(n: nat, steps: seq<Step>, w: nat)
    requires Allowed(Init(n), steps)
    ensures var s := Run(Init(n), steps);
      && s.taken == UpTo(|s.taken|)
      && (Is(s, w, Ready) ==> s.queue != [] || s.isDone)
  {
    InitInv(n);
    RunInv(Init(n), steps);
    var s := Run(Init(n), steps);
    assert s.taken == (s.taken + s.destroyed + s.queue)[..|s.taken|] == UpTo(s.scheduled)[..|s.taken|];
  }

  /** Before shutdown a ticket in the queue never finds all workers asleep with no notification on its way. */
  lemma NoStrandedTicket(n: nat, steps: seq<Step>)
    requires n > 0 && Allowed(Init(n), steps)
    requires var s := Run(Init(n), steps); !s.isDone && s.queue != []
    ensures var s := Run(Init(n), steps);
      s.notifies > 0 || exists i :: 0 <= i < |s.workers| && !s.workers[i].Asleep? && !s.workers[i].Exited?
  {
    InitInv(n);
    RunInv(Init(n), steps);
    var s := Run(Init(n), steps);
    if Awake(s.workers) == 0 {
      NobodyAwake(s.workers);
      assert s.workers[0].Asleep?;
    } else {
      SomebodyAwake(s.workers);
    }
  }

  lemma {:induction false} SomebodyAwake(ws: seq<Pc>)
    requires Awake(ws) > 0
    ensures exists i :: 0 <= i < |ws| && !ws[i].Asleep? && !ws[i].Exited?
  {
    if ws[0].Asleep? || ws[0].Exited? {
      SomebodyAwake(ws[1..]);
      var i :| 0 <= i < |ws[1..]| && !ws[1..][i].Asleep? && !ws[1..][i].Exited?;
      assert ws[i + 1] == ws[1..][i];
    }
  }

  /** Once the flag is set, no worker takes more than one further ticket. */
  lemma AtMostOneLateTicket(n: nat, steps: seq<Step>, w: nat)
    requires Allowed(Init(n), steps) && w < n
    ensures var s := Run(Init(n), steps); |s.late| == n && s.late[w] <= 1
  {
    InitInv(n);
    RunInv(Init(n), steps);
  }

  /**
    A worker whose wait has returned ends exactly when the flag is set and the queue is empty;
    otherwise it takes the oldest ticket.
  */
  lemma ReadyTakesOldest(n: nat, steps: seq<Step>, w: nat)
    requires Allowed(Init(n), steps) && Is(Run(Init(n), steps), w, Ready)
    ensures var s := Run(Init(n), steps);
      && Enabled(s, Take(w))
      && var t := Do(s, Take(w));
         && |t.workers| == n && t.lock.None? && t.destroyed == s.destroyed
         && (t.workers[w].Exited? <==> s.isDone && s.queue == [])
         && (s.isDone && s.queue == [] ==> t.taken == s.taken && t.queue == [])
         && (s.queue != [] ==> t.workers[w] == Resuming(|s.taken|))
         && (s.queue != [] ==> t.taken == s.taken + [|s.taken|] && s.queue == [|s.taken|] + t.queue)
  {
    InitInv(n);
    RunInv(Init(n), steps);
    var s := Run(Init(n), steps);
    if s.queue != [] {
      OldestIsNext(s);
      assert s.queue == [s.queue[0]] + s.queue[1..];
    }
  }

  /** Before the queue has been cleared, its front is the ticket after those taken. */
  lemma OldestIsNext(s: State)
    requires Inv(s) && !s.dtor.Joined? && s.queue != []
    ensures s.queue[0] == |s.taken|
  {
    var all := s.taken + s.destroyed + s.queue;
    assert s.destroyed == [];
    assert all[|s.taken|] == s.queue[0];
    assert all == UpTo(s.scheduled);
  }

  /** With the mutex free a ticket can be queued, at the end, and its notification wakes a sleeper. */
  lemma ScheduleWakes(s: State, w: nat)
    requires s.lock.None? && !s.dtor.Joined?
    ensures Enabled(s, Schedule)
    ensures Do(s, Schedule)
         == s.(queue := s.queue + [s.scheduled], scheduled := s.scheduled + 1, notifies := s.notifies + 1)
    ensures Is(s, w, Asleep) ==>
      var t := Do(s, Schedule);
      && Enabled(t, NotifyOne(w))
      && Do(t, NotifyOne(w)) == t.(workers := s.workers[w := Locking], notifies := s.notifies)
  {
  }

  /** With the mutex free and nothing queued, an idle worker can go to sleep, and lets go of the mutex. */
  lemma WorkerSleeps(s: State, w: nat)
    requires !s.isDone && Is(s, w, Top) && s.lock.None? && s.queue == []
    ensures var steps := [CheckFlag(w)] + ([Lock(w)] + ([Test(w)] + [Sleep(w)]));
      Allowed(s, steps) && Run(s, steps) == s.(workers := s.workers[w := Asleep])
  {
    var s1 := Do(s, CheckFlag(w));
    var s2 := Do(s1, Lock(w));
    var s3 := Do(s2, Test(w));
    RunFirst(s3, Sleep(w), []);
    RunFirst(s2, Test(w), [Sleep(w)]);
    RunFirst(s1, Lock(w), [Test(w)] + [Sleep(w)]);
    RunFirst(s, CheckFlag(w), [Lock(w)] + ([Test(w)] + [Sleep(w)]));
    assert Do(s3, Sleep(w)).workers == s.workers[w := Asleep];
  }

  lemma WorkerGetsReady(s: State, w: nat)
    requires Inv(s) && !s.isDone && Is(s, w, Top) && s.lock.None? && s.queue != []
    ensures var steps := [CheckFlag(w)] + ([Lock(w)] + [Test(w)]);
      Allowed(s, steps) && Run(s, steps) == s.(workers := s.workers[w := Ready], lock := Some(w))
  {
    var s1 := Do(s, CheckFlag(w));
    var s2 := Do(s1, Lock(w));
    RunFirst(s2, Test(w), []);
    RunFirst(s1, Lock(w), [Test(w)]);
    RunFirst(s, CheckFlag(w), [Lock(w)] + [Test(w)]);
    assert Do(s2, Test(w)).workers == s.workers[w := Ready];
  }

  lemma ReadyRuns(s: State, w: nat)
    requires Is(s, w, Ready) && |s.late| == |s.workers| && !s.isDone && s.queue != []
    ensures var steps := [Take(w)] + [Resume(w)];
      && Allowed(s, steps)
      && Run(s, steps) == s.(workers := s.workers[w := Top], lock := None,
                             queue := s.queue[1..], taken := s.taken + [s.queue[0]])
  {
    var s1 := Do(s, Take(w));
    RunFirst(s1, Resume(w), []);
    RunFirst(s, Take(w), [Resume(w)]);
    assert Do(s1, Resume(w)).workers == s.workers[w := Top];
  }

  /** From any state with the mutex free, an idle worker can take the oldest ticket and resume it by itself. */
  lemma WorkerRuns(s: State, w: nat) returns (steps: seq<Step>)
    requires Inv(s) && !s.isDone && Is(s, w, Top) && s.lock.None? && s.queue != []
    ensures steps == [CheckFlag(w), Lock(w), Test(w), Take(w), Resume(w)]
    ensures Allowed(s, steps)
    ensures Run(s, steps) == s.(queue := s.queue[1..], taken := s.taken + [s.queue[0]])
  {
    var t := s.(workers := s.workers[w := Ready], lock := Some(w));
    var first, last := [CheckFlag(w)] + ([Lock(w)] + [Test(w)]), [Take(w)] + [Resume(w)];
    WorkerGetsReady(s, w);
    ReadyRuns(t, w);
    RunAppend(s, first, last);
    assert t.workers[w := Top] == s.workers;
    steps := first + last;
  }

  lemma {:induction false} RunAppend(s: State, a: seq<Step>, b: seq<Step>)
    requires Allowed(s, a) && Allowed(Run(s, a), b)
    ensures Allowed(s, a + b) && Run(s, a + b) == Run(Run(s, a), b)
    decreases |a|
  {
    if a == [] {
      assert a + b == b;
    } else {
      assert (a + b)[1..] == a[1..] + b;
      RunAppend(Do(s, a[0]), a[1..], b);
    }
  }

  // ---------------------------------------------------------------- the missed notification

  /** Nobody sleeps or is about to. */
  predicate AllUp(s: State) {
    s.isDone && forall i :: 0 <= i < |s.workers| ==> !s.workers[i].Asleep? && !s.workers[i].Sleepy?
  }

  /** How many steps a worker has to make at most before it ends, once the flag is set. */
  function Left(pc: Pc): nat {
    match pc
    case Top => 1
    case Resuming(_) => 2
    case Ready => 3
    case Testing => 4
    case Locking => 5
    case _ => 0
  }

  function AllLeft(ws: seq<Pc>): nat {
    if ws == [] then 0 else Left(ws[0]) + AllLeft(ws[1..])
  }

  function WorkerSteps(steps: seq<Step>): nat {
    if steps == [] then 0 else One(OfWorker(steps[0])) + WorkerSteps(steps[1..])
  }

  lemma {:induction false} LeftUpdate(ws: seq<Pc>, i: nat, pc: Pc)
    requires i < |ws|
    ensures AllLeft(ws[i := pc]) + Left(ws[i]) == AllLeft(ws) + Left(pc)
  {
    if i == 0 {
      assert ws[0 := pc][1..] == ws[1..];
    } else {
      assert ws[i := pc][1..] == ws[1..][i - 1 := pc];
      LeftUpdate(ws[1..], i - 1, pc);
    }
  }

  lemma {:induction false} LeftBound(ws: seq<Pc>)
    ensures AllLeft(ws) <= 5 * |ws|
  {
    if ws != [] {
      LeftBound(ws[1..]);
    }
  }

  /** Every step of a worker brings it nearer to its end, and no other step sends anyone back. */
  lemma StepLeavesLess(s: State, step: Step)
    requires AllUp(s) && Enabled(s, step) && !step.NotifyAll?
    ensures AllUp(Do(s, step))
    ensures AllLeft(Do(s, step).workers) + One(OfWorker(step)) <= AllLeft(s.workers)
  {
    if OfWorker(step) {
      LeftUpdate(s.workers, step.w, Do(s, step).workers[step.w]);
    }
  }

  /** What a worker that is up does next. */
  function Ahead(pc: Pc, w: nat): Step {
    match pc
    case Top => CheckFlag(w)
    case Locking => Lock(w)
    case Testing => Test(w)
    case Ready => Take(w)
    case _ => Resume(w)
  }

  /** With everyone up, the destructor notified and workers left, one of them can go on. */
  lemma SomeoneCanGo(s: State, i: nat)
    requires Inv(s) && AllUp(s) && i < |s.workers| && !s.workers[i].Exited?
    ensures exists step :: Enabled(s, step) && OfWorker(step) && !step.Spurious?
  {
    var w := if s.lock.Some? then s.lock.value else i;
    assert Enabled(s, Ahead(s.workers[w], w));
  }

  /** The join can go on without anybody's help: it returns, or a worker that it waits for has a step. */
  ghost predicate Proceeds(s: State) {
    exists step :: Enabled(s, step) && (step.Join? || (OfWorker(step) && !step.Spurious?))
  }

  lemma UpProceeds(s: State)
    requires Inv(s) && AllUp(s) && s.dtor.Notified?
    ensures Proceeds(s)
  {
    if i :| 0 <= i < |s.workers| && !s.workers[i].Exited? {
      SomeoneCanGo(s, i);
    } else {
      assert Enabled(s, Join);
    }
  }

  /**
    If no worker is between its test and its sleep when the destructor notifies, none ever
    sleeps again, together they make at most five steps for each of them, and until the join
    returns it can always proceed.
  */
  lemma NotifyReachesAll(s: State, steps: seq<Step>)
    requires Inv(s) && s.dtor.FlagSet? && (forall i :: 0 <= i < |s.workers| ==> !s.workers[i].Sleepy?)
    requires Allowed(Do(s, NotifyAll), steps)
    ensures var t := Run(Do(s, NotifyAll), steps);
      && AllUp(t) && WorkerSteps(steps) + AllLeft(t.workers) <= 5 * |s.workers|
      && (t.dtor.Notified? ==> Proceeds(t))
  {
    var s1 := Do(s, NotifyAll);
    StepInv(s, NotifyAll);
    LeftBound(s1.workers);
    StaysUp(s1, steps);
    RunInv(s1, steps);
    if Run(s1, steps).dtor.Notified? {
      UpProceeds(Run(s1, steps));
    }
  }

  lemma {:induction false} StaysUp(s: State, steps: seq<Step>)
    requires AllUp(s) && !s.dtor.Alive? && !s.dtor.FlagSet? && Allowed(s, steps)
    ensures AllUp(Run(s, steps)) && WorkerSteps(steps) + AllLeft(Run(s, steps).workers) <= AllLeft(s.workers)
    decreases |steps|
  {
    if steps != [] {
      StepLeavesLess(s, steps[0]);
      StaysUp(Do(s, steps[0]), steps[1..]);
    }
  }

  /**
    But a worker that is there goes to sleep after the notification. Then the join is not
    possible, and the worker is woken only by a notify_one that is outstanding or belongs
    to a new ticket, or spuriously.
  */
  lemma NotifyMissesSleepy(s: State, w: nat)
    requires Inv(s) && s.dtor.FlagSet? && Is(s, w, Sleepy)
    ensures var t := Do(s, NotifyAll);
      && Enabled(t, Sleep(w)) && t.dtor.Notified?
      && var u := Do(t, Sleep(w));
         && Is(u, w, Asleep) && !Enabled(u, Join)
         && (Enabled(u, NotifyOne(w)) <==> s.notifies > 0)
         && (forall step :: Enabled(u, step) && !Is(Do(u, step), w, Asleep) ==>
               step == NotifyOne(w) || step == Spurious(w))
  {
    var t := Do(s, NotifyAll);
    assert t.workers[w] == Sleepy;
    var u := Do(t, Sleep(w));
    assert u.workers[w] == Asleep;
  }

  // ---------------------------------------------------------------- exactly when it hangs

  /** The join waits for ever unless a new ticket or a spurious wakeup comes to its help. */
  ghost predicate Hung(s: State) {
    s.dtor.Notified? && forall step :: Enabled(s, step) ==> step.Schedule? || step.Spurious?
  }

  ghost predicate HangsAfter(s: State, steps: seq<Step>) {
    Allowed(s, steps) && Hung(Run(s, steps))
  }

  /** Worker w sleeps, the others neither sleep nor are about to, and no notification is outstanding. */
  predicate AllUpBut(s: State, w: nat) {
    && s.dtor.Notified? && s.isDone && s.notifies == 0 && Is(s, w, Asleep)
    && forall i :: 0 <= i < |s.workers| && i != w ==> !s.workers[i].Asleep? && !s.workers[i].Sleepy?
  }

  lemma NobodyLeftHangs(s: State, w: nat)
    requires Inv(s) && AllUpBut(s, w) && forall i :: 0 <= i < |s.workers| && i != w ==> s.workers[i].Exited?
    ensures Hung(s)
  {
    forall step | Enabled(s, step) ensures step.Schedule? || step.Spurious? {
      assert s.workers[w] == Asleep;
    }
  }

  lemma OthersCanGo(s: State, w: nat, i: nat) returns (v: nat)
    requires Inv(s) && AllUpBut(s, w) && i < |s.workers| && i != w && !s.workers[i].Exited?
    ensures v < |s.workers| && v != w && Enabled(s, Ahead(s.workers[v], v))
  {
    v := if s.lock.Some? then s.lock.value else i;
  }

  lemma OthersKeep(s: State, w: nat, v: nat)
    requires AllUpBut(s, w) && v < |s.workers| && v != w && Enabled(s, Ahead(s.workers[v], v))
    ensures var t := Do(s, Ahead(s.workers[v], v));
      AllUpBut(t, w) && AllLeft(t.workers) < AllLeft(s.workers)
  {
    LeftUpdate(s.workers, v, Do(s, Ahead(s.workers[v], v)).workers[v]);
  }

  /** The other workers can all run to their ends, and then nothing is left to do. */
  lemma {:induction false} OthersRunOut(s: State, w: nat) returns (steps: seq<Step>)
    requires Inv(s) && AllUpBut(s, w)
    ensures HangsAfter(s, steps)
    decreases AllLeft(s.workers)
  {
    if i :| 0 <= i < |s.workers| && i != w && !s.workers[i].Exited? {
      var v := OthersCanGo(s, w, i);
      var step := Ahead(s.workers[v], v);
      OthersKeep(s, w, v);
      StepInv(s, step);
      var rest := OthersRunOut(Do(s, step), w);
      RunFirst(s, step, rest);
      steps := [step] + rest;
    } else {
      NobodyLeftHangs(s, w);
      steps := [];
    }
  }

  /** Outstanding notifications can all be spent before the worker falls asleep. */
  lemma {:induction false} SpendThenSleep(s: State, w: nat) returns (steps: seq<Step>)
    requires Inv(s) && s.dtor.Notified? && Is(s, w, Sleepy) && NoneAsleep(s)
    ensures HangsAfter(s, steps)
    decreases s.notifies
  {
    var step := if s.notifies > 0 then NotifyOne(w) else Sleep(w);
    assert s.workers[w] == Sleepy;
    assert Enabled(s, step);
    StepInv(s, step);
    var rest: seq<Step>;
    if s.notifies > 0 {
      rest := SpendThenSleep(Do(s, step), w);
    } else {
      rest := OthersRunOut(Do(s, step), w);
    }
    RunFirst(s, step, rest);
    steps := [step] + rest;
  }

  /**
    The destructor's notification can be followed by a hang exactly when some worker is between
    its test and its sleep at that moment; notifications still outstanding do not rule it out.
  */
  lemma HangsExactly(s: State)
    requires Inv(s) && s.dtor.FlagSet?
    ensures (exists steps :: HangsAfter(Do(s, NotifyAll), steps)) <==> (exists w: nat :: Is(s, w, Sleepy))
  {
    var s1 := Do(s, NotifyAll);
    if w: nat :| Is(s, w, Sleepy) {
      StepInv(s, NotifyAll);
      assert s1.workers[w] == Sleepy;
      var steps := SpendThenSleep(s1, w);
      assert HangsAfter(s1, steps);
    } else {
      assert forall i :: 0 <= i < |s.workers| && s.workers[i].Sleepy? ==> Is(s, i, Sleepy);
      forall steps ensures !HangsAfter(s1, steps) {
        if Allowed(s1, steps) {
          NotifyReachesAll(s, steps);
        }
      }
    }
  }

  /** Everyone asleep, nothing queued, nobody to notify: nothing is left but a new ticket or a spurious wakeup. */
  lemma Stuck(s: State)
    requires s.workers == [Asleep] && s.lock == None && s.queue == [] && s.notifies == 0 && s.dtor == Notified
    ensures Hung(s)
  {
    forall step | Enabled(s, step) ensures step.Schedule? || step.Spurious? {
      assert s.workers[0] == Asleep;
    }
  }

  /** The race is reachable: one worker tests the predicate just before the destructor runs. */
  lemma ShutdownCanHang(s0: State) returns (steps: seq<Step>)
    requires s0 == Init(1)
    ensures steps == [CheckFlag(0), Lock(0), Test(0), SetFlag, NotifyAll, Sleep(0)]
    ensures Allowed(s0, steps)
    ensures var s := Run(s0, steps);
      s.isDone && s.queue == [] && Hung(s)
  {
    var s3 := s0.(workers := [Sleepy], lock := Some(0));
    steps := HangFrom(s3);
    var s1 := Do(s0, CheckFlag(0));
    var s2 := Do(s1, Lock(0));
    assert Do(s2, Test(0)) == s3;
    RunFirst(s2, Test(0), steps);
    steps := [Test(0)] + steps;
    RunFirst(s1, Lock(0), steps);
    steps := [Lock(0)] + steps;
    RunFirst(s0, CheckFlag(0), steps);
    steps := [CheckFlag(0)] + steps;
  }

  lemma HangFrom(s3: State) returns (steps: seq<Step>)
    requires s3 == Init(1).(workers := [Sleepy], lock := Some(0))
    ensures steps == [SetFlag, NotifyAll, Sleep(0)]
    ensures Allowed(s3, steps)
    ensures var s := Run(s3, steps);
      s.isDone && s.queue == [] && Hung(s)
  {
    var s4 := Do(s3, SetFlag);
    var s5 := Do(s4, NotifyAll);
    assert s5.workers == [Sleepy];
    var s6 := Do(s5, Sleep(0));
    assert s6.workers == [Asleep];
    Stuck(s6);
    steps := [];
    RunFirst(s5, Sleep(0), steps);
    steps := [Sleep(0)] + steps;
    RunFirst(s4, NotifyAll, steps);
    steps := [NotifyAll] + steps;
    RunFirst(s3, SetFlag, steps);
    steps := [SetFlag] + steps;
  }

  lemma RunFirst(s: State, step: Step, rest: seq<Step>)
    requires Enabled(s, step) && Allowed(Do(s, step), rest)
    ensures Allowed(s, [step] + rest) && Run(s, [step] + rest) == Run(Do(s, step), rest)
  {
    assert ([step] + rest)[1..] == rest;
  }

  lemma {:induction false} RunOneMore(s: State, steps: seq<Step>, step: Step)
    requires Allowed(s, steps) && Enabled(Run(s, steps), step)
    ensures Allowed(s, steps + [step]) && Run(s, steps + [step]) == Do(Run(s, steps), step)
    decreases |steps|
  {
    if steps == [] {
      assert [step][1..] == [];
    } else {
      assert (steps + [step])[1..] == steps[1..] + [step];
      RunOneMore(Do(s, steps[0]), steps[1..], step);
    }
  }

  // ---------------------------------------------------------------- the object

  /**
    What the threads share. A method is one thread's stretch under the mutex; the other threads
    are as in the State given.
  */
  class Pool {
    var tasks: seq<nat>
    var isDone: bool
    var scheduled: nat
    var notifies: nat
    var taken: seq<nat>
    var destroyed: seq<nat>

    /** This object among threads that stand as in s. */
    ghost function In(s: State): State
      reads this
    {
      s.(queue := tasks, isDone := isDone, scheduled := scheduled, notifies := notifies, taken := taken,
         destroyed := destroyed)
    }

    constructor (n: nat)
      ensures In(Init(n)) == Init(n)
    {
      tasks, isDone, scheduled, notifies, taken, destroyed := [], false, 0, 0, [], [];
    }

    method Push(ghost s: State) returns (ticket: nat)
      requires Enabled(In(s), Schedule)
      modifies this
      ensures ticket == old(scheduled) && In(s) == Do(old(In(s)), Schedule)
    {
      ticket := scheduled;
      tasks := tasks + [ticket];
      scheduled := scheduled + 1;
      notifies := notifies + 1;
    }

    /** A worker whose wait has returned: the front ticket, or none and the worker ends. */
    method TakeFront(ghost s: State, ghost w: nat) returns (ticket: Option<nat>)
      requires Inv(In(s)) && Enabled(In(s), Take(w))
      modifies this
      ensures var t := Do(old(In(s)), Take(w));
        In(t) == t && t.workers[w] == match ticket case None => Exited case Some(h) => Resuming(h)
    {
      if isDone && tasks == [] {
        return None;
      }
      ticket := Some(tasks[0]);
      taken := taken + [tasks[0]];
      tasks := tasks[1..];
    }

    /** The end of the destructor: whatever is still queued is destroyed, front first. */
    method DestroyRest(ghost s: State) returns (ghost steps: seq<Step>)
      requires s.dtor.Joined?
      modifies this
      ensures tasks == [] && destroyed == old(destroyed) + old(tasks)
      ensures steps == seq(|old(tasks)|, _ => Destroy)
      ensures Allowed(old(In(s)), steps) && Run(old(In(s)), steps) == In(s)
    {
      steps := [];
      while tasks != []
        invariant destroyed + tasks == old(destroyed) + old(tasks)
        invariant steps == seq(|steps|, _ => Destroy) && |steps| + |tasks| == |old(tasks)|
        invariant Allowed(old(In(s)), steps) && Run(old(In(s)), steps) == In(s)
        decreases |tasks|
      {
        RunOneMore(old(In(s)), steps, Destroy);
        steps := steps + [Destroy];
        assert destroyed + tasks == destroyed + [tasks[0]] + tasks[1..];
        destroyed := destroyed + [tasks[0]];
        tasks := tasks[1..];
      }
    }
  }
}
