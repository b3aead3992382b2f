/**
  Which worker MainEpoll::balance_socket picks: the first least of the counters, in the order
  std::min_element compares them; and what accepting a socket comes to when no other thread
  is in the way.
*/
module HandoffScan {
  import opened Common
  import opened Handoff
  import opened HandoffHandlers

  /** The first position holding the least of the first `upto` values. */
  predicate FirstAmong(sizes: seq<int>, b: nat, upto: nat) {
    && b < upto <= |sizes|
    && (forall j :: 0 <= j < upto ==> sizes[b] <= sizes[j])
    && (forall j :: 0 <= j < b ==> sizes[b] < sizes[j])
  }

  /** The first position holding the least value, as std::min_element returns it. */
  predicate FirstLeast(sizes: seq<int>, b: nat) {
    FirstAmong(sizes, b, |sizes|)
  }

  function Counters(ws: seq<Worker>): (sizes: seq<int>)
    ensures |sizes| == |ws| && forall i :: 0 <= i < |ws| ==> sizes[i] == ws[i].size
  {
    if ws == [] then [] else [ws[0].size] + Counters(ws[1..])
  }

  // ---------------------------------------------------------------- scans nobody disturbs

  /** Anything but a further accept or a disconnect's decrement. */
  predicate Quiet(step: Step) {
    match step
    case Main(main) => !main.Accept?
    case Work(_, work) => !work.Decrement?
  }

  /** A scan of these counters for this connection, somewhere between its accept and its push, or over. */
  predicate Scans(s: State, sizes: seq<int>, c: Conn) {
    && |s.workers| == |sizes|
    && (s.acceptor.Scanning? || s.acceptor.Chosen? || s.acceptor.Locked? || s.acceptor.Enqueued? ==>
          forall i :: 0 <= i < |sizes| ==> s.workers[i].size == sizes[i])
    && match s.acceptor
       case Scanning(conn, next, best, cand, top, _, _) =>
         && conn == c && FirstAmong(sizes, best, next)
         && (cand.Some? ==> next < |sizes| && cand.value == sizes[next])
         && (top.Some? ==> top.value == sizes[best])
       case Chosen(conn, target, _, _) => conn == c && FirstLeast(sizes, target)
       case Locked(conn, target, _, _) => conn == c && FirstLeast(sizes, target)
       case Enqueued(target, _, _) => FirstLeast(sizes, target)
       case _ => true
  }

  lemma QuietKeeps(s: State, sizes: seq<int>, c: Conn, step: Step)
    requires Scans(s, sizes, c) && Enabled(s, step) && Quiet(step)
    ensures Scans(Do(s, step), sizes, c)
  {
    var t := Do(s, step);
    if step.Work? {
      assert t.acceptor == s.acceptor;
      assert forall i :: 0 <= i < |sizes| ==> t.workers[i].size == s.workers[i].size;
    }
  }

  lemma {:induction false} QuietRun(s: State, sizes: seq<int>, c: Conn, steps: seq<Step>)
    requires Scans(s, sizes, c) && Allowed(s, steps) && forall i :: 0 <= i < |steps| ==> Quiet(steps[i])
    ensures Scans(Run(s, steps), sizes, c)
    decreases |steps|
  {
    if steps != [] {
      QuietKeeps(s, sizes, c, steps[0]);
      QuietRun(Do(s, steps[0]), sizes, c, steps[1..]);
    }
  }

  /**
    From any state, whatever the other threads do short of a disconnect's decrement, the worker
    chosen for a connection is the first least of the counters at its accept.
  */
  lemma QuietScanIsFirstLeast(s: State, c: Conn, steps: seq<Step>)
    requires Enabled(s, Main(Accept(c))) && Allowed(Do(s, Main(Accept(c))), steps)
    requires forall i :: 0 <= i < |steps| ==> Quiet(steps[i])
    ensures var a := Run(Do(s, Main(Accept(c))), steps).acceptor;
      && (a.Chosen? || a.Locked? ==> a.conn == c)
      && (a.Chosen? || a.Locked? || a.Enqueued? ==> FirstLeast(Counters(s.workers), a.target))
  {
    QuietRun(Do(s, Main(Accept(c))), Counters(s.workers), c, steps);
  }

  // ---------------------------------------------------------------- any scan

  /**
    The worker that wins the comparisons: `seen` holds, for each further worker, the two values
    loaded, the newcomer's and the best's so far, and only a smaller newcomer takes over.
  */
  function Winner(seen: seq<int>): nat {
    if |seen| < 2 then 0
    else
      var n := |seen| - 2;
      if seen[n] < seen[n + 1] then n / 2 + 1 else Winner(seen[..n])
  }

  predicate WonBy(a: Acceptor, k: nat) {
    match a
    case Scanning(_, next, best, _, _, seen, _) => |seen| == 2 * (next - 1) && next <= k && best == Winner(seen)
    case Chosen(_, target, seen, _) => |seen| == 2 * (k - 1) && target == Winner(seen)
    case Locked(_, target, seen, _) => |seen| == 2 * (k - 1) && target == Winner(seen)
    case Enqueued(target, seen, _) => |seen| == 2 * (k - 1) && target == Winner(seen)
    case _ => true
  }

  lemma {:induction false} RunIsWon(s: State, steps: seq<Step>)
    requires WonBy(s.acceptor, |s.workers|) && Allowed(s, steps)
    ensures WonBy(Run(s, steps).acceptor, |s.workers|) && |Run(s, steps).workers| == |s.workers|
    decreases |steps|
  {
    if steps != [] {
      CompareIsWon(s, steps[0]);
      RunIsWon(Do(s, steps[0]), steps[1..]);
    }
  }

  lemma CompareIsWon(s: State, step: Step)
    requires WonBy(s.acceptor, |s.workers|) && Enabled(s, step)
    ensures WonBy(Do(s, step).acceptor, |s.workers|) && |Do(s, step).workers| == |s.workers|
  {
    if step == Main(Compare) {
      var a := s.acceptor;
      var seen := a.seen + [a.cand.value, a.top.value];
      assert seen[..|a.seen|] == a.seen;
    }
  }

  /** Disturbed or not, the scan compares every further worker once and picks the winner of the comparisons. */
  lemma ScanPicksWinner(k: nat, steps: seq<Step>)
    requires Allowed(Init(k), steps)
    ensures var a := Run(Init(k), steps).acceptor;
      a.Chosen? || a.Locked? || a.Enqueued? ==> |a.seen| == 2 * (k - 1) && a.target == Winner(a.seen)
  {
    RunIsWon(Init(k), steps);
  }

  // ---------------------------------------------------------------- accepting alone

  /** The two loads and the comparison for each further worker. */
  function ScanSteps(n: nat): seq<Step> {
    if n == 0 then [] else [Main(LoadCandidate)] + ([Main(LoadBest)] + ([Main(Compare)] + ScanSteps(n - 1)))
  }

  lemma OneComparison(s: State) returns (t: State)
    requires s.acceptor.Scanning? && s.acceptor.cand.None? && s.acceptor.top.None?
    requires s.acceptor.next < |s.workers| && s.acceptor.best < |s.workers|
    ensures var s1 := s.(acceptor := s.acceptor.(cand := Some(s.workers[s.acceptor.next].size)));
      var s2 := s1.(acceptor := s1.acceptor.(top := Some(s.workers[s.acceptor.best].size)));
      && Enabled(s, Main(LoadCandidate)) && Do(s, Main(LoadCandidate)) == s1
      && Enabled(s1, Main(LoadBest)) && Do(s1, Main(LoadBest)) == s2
      && Enabled(s2, Main(Compare)) && Do(s2, Main(Compare)) == t
    ensures t == s.(acceptor := t.acceptor) && t.acceptor.Scanning?
    ensures t.acceptor.conn == s.acceptor.conn && t.acceptor.next == s.acceptor.next + 1
    ensures t.acceptor.cand.None? && t.acceptor.top.None?
  {
    t := Do(Do(Do(s, Main(LoadCandidate)), Main(LoadBest)), Main(Compare));
  }

  lemma {:induction false} ScanRuns(s: State, n: nat) returns (t: State)
    requires s.acceptor.Scanning? && s.acceptor.cand.None? && s.acceptor.top.None?
    requires s.acceptor.best < s.acceptor.next && s.acceptor.next + n == |s.workers|
    ensures Allowed(s, ScanSteps(n)) && Run(s, ScanSteps(n)) == t
    ensures t == s.(acceptor := t.acceptor) && t.acceptor.Scanning?
    ensures t.acceptor.conn == s.acceptor.conn && t.acceptor.next == |s.workers|
    decreases n
  {
    if n == 0 {
      t := s;
    } else {
      var u := OneComparison(s);
      CompareWithin(s);
      t := ScanRuns(u, n - 1);
      var s1 := Do(s, Main(LoadCandidate));
      var s2 := Do(s1, Main(LoadBest));
      RunFirst(s2, Main(Compare), ScanSteps(n - 1));
      RunFirst(s1, Main(LoadBest), [Main(Compare)] + ScanSteps(n - 1));
      RunFirst(s, Main(LoadCandidate), [Main(LoadBest)] + ([Main(Compare)] + ScanSteps(n - 1)));
    }
  }

  lemma CompareWithin(s: State)
    requires s.acceptor.Scanning? && s.acceptor.cand.None? && s.acceptor.top.None?
    requires s.acceptor.best < s.acceptor.next < |s.workers|
    ensures Enabled(s, Main(LoadCandidate)) && Enabled(Do(s, Main(LoadCandidate)), Main(LoadBest))
    ensures var s2 := Do(Do(s, Main(LoadCandidate)), Main(LoadBest));
      && Enabled(s2, Main(Compare)) && Do(s2, Main(Compare)).acceptor.Scanning?
      && Do(s2, Main(Compare)).acceptor.best <= s.acceptor.next
  {
  }

  lemma {:induction false} ScanStepsQuiet(n: nat)
    ensures forall i :: 0 <= i < |ScanSteps(n)| ==> Quiet(ScanSteps(n)[i])
  {
    if n > 0 {
      ScanStepsQuiet(n - 1);
    }
  }

  /** The worker after a push. */
  predicate Received(w: Worker, after: Worker, c: Conn) {
    && after.clients == w.clients && after.pending == w.pending + [c] && after.size == w.size + 1
    && after.event == (if w.event < EVENT_MAX then w.event + 1 else w.event)
    && after.lock == Free && after.pc == w.pc
  }

  /**
    From any state with the acceptor idle, a worker there, the queue locks free and the number
    not open, the acceptor alone can take a connection all the way: it ends in the queue of the
    first least loaded worker, which is signalled; no other worker changes.
  */
  lemma AcceptRuns(s: State, c: Conn) returns (target: nat, steps: seq<Step>)
    requires s.acceptor.Idle? && s.workers != [] && c.fd !in s.open
    requires forall i :: 0 <= i < |s.workers| ==> s.workers[i].lock.Free?
    ensures steps == [Main(Accept(c))] + (ScanSteps(|s.workers| - 1) + ([Main(Choose)]
      + [Main(LockQueue), Main(Enqueue), Main(Count), Main(Unlock), Main(Signal)]))
    ensures Allowed(s, steps)
    ensures var t := Run(s, steps);
      && FirstLeast(Counters(s.workers), target)
      && t.acceptor.Idle? && t.open == s.open[c.fd := c.peer]
      && |t.workers| == |s.workers| && Received(s.workers[target], t.workers[target], c)
      && (forall i :: 0 <= i < |s.workers| && i != target ==> t.workers[i] == s.workers[i])
  {
    var n := |s.workers| - 1;
    var s1 := Do(s, Main(Accept(c)));
    var s2 := ScanRuns(s1, n);
    ScanStepsQuiet(n);
    QuietRun(s1, Counters(s.workers), c, ScanSteps(n));
    assert Enabled(s2, Main(Choose));
    var s3 := Do(s2, Main(Choose));
    target := s3.acceptor.target;
    var push := PushRuns(s3);
    RunFirst(s2, Main(Choose), push);
    RunAppend(s1, ScanSteps(n), [Main(Choose)] + push);
    RunFirst(s, Main(Accept(c)), ScanSteps(n) + ([Main(Choose)] + push));
    steps := [Main(Accept(c))] + (ScanSteps(n) + ([Main(Choose)] + push));
  }
}
