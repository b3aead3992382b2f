/**
  What the least-loaded choice of MainEpoll::balance_socket guarantees when its scan
  of the counters is interleaved with the workers' own decrements.
*/
module HandoffBalance {
  import opened Arith
  import opened Common
  import opened Handoff
  import opened HandoffSafety

  function Size(s: State, i: nat): int
    requires i < |s.workers|
  {
    s.workers[i].size
  }

  /** `best` cannot exceed any of the values read so far. */
  predicate BelowSeen(v: int, seen: seq<int>) {
    forall x :: x in seen ==> v <= x
  }

  /** v is at most every one of the first `upto` counters, give or take the decrements since the scan began. */
  predicate BelowFirst(s: State, v: int, upto: nat, since: nat)
    requires upto <= |s.workers|
  {
    forall j :: 0 <= j < upto ==> v <= Size(s, j) + s.removed - since
  }

  predicate ScanOk(s: State) {
    var k := |s.workers|;
    match s.acceptor
    case Scanning(_, next, best, cand, top, seen, since) =>
      && best < next <= k && since <= s.removed
      && BelowSeen(Size(s, best), seen) && BelowFirst(s, Size(s, best), next, since)
      && (cand.Some? ==> next < k && Size(s, next) <= cand.value <= Size(s, next) + s.removed - since)
      && (top.Some? ==>
            Size(s, best) <= top.value && BelowSeen(top.value, seen) && BelowFirst(s, top.value, next, since))
    case Chosen(_, target, seen, since) => TargetOk(s, target, seen, since)
    case Locked(_, target, seen, since) => TargetOk(s, target, seen, since)
    case Enqueued(target, seen, since) => TargetOk(s, target, seen, since)
    case Counted(target) => target < k
    case Signalling(target) => target < k
    case Idle => true
  }

  predicate TargetOk(s: State, target: nat, seen: seq<int>, since: nat) {
    target < |s.workers| && since <= s.removed
    && BelowSeen(Size(s, target), seen) && BelowFirst(s, Size(s, target), |s.workers|, since)
  }

  predicate Spread(s: State) {
    forall i, j :: 0 <= i < |s.workers| && 0 <= j < |s.workers| ==> Size(s, i) - Size(s, j) <= 1 + s.removed
  }

  /** The number of sockets worker i has received after n pushes dealt out in turn. */
  function Share(n: nat, k: nat, i: nat): nat
    requires k > 0
  {
    n / k + One(i < n % k)
  }

  /** Without disconnects the counters are those of a round robin, and the scan's best is the first minimum so far. */
  predicate RoundRobin(s: State) {
    var k := |s.workers|;
    k > 0 && s.removed == 0 ==>
      && (forall i :: 0 <= i < k ==> Size(s, i) == Share(s.pushed, k, i))
      && match s.acceptor
         case Scanning(_, next, best, _, _, _, _) => best == if next <= s.pushed % k then 0 else s.pushed % k
         case Chosen(_, target, _, _) => target == s.pushed % k
         case Locked(_, target, _, _) => target == s.pushed % k
         case Enqueued(target, _, _) => target == s.pushed % k
         case _ => true
  }

  predicate Balanced(s: State) {
    ScanOk(s) && Spread(s) && RoundRobin(s)
  }

  lemma ShareStep(n: nat, k: nat, i: nat)
    requires i < k
    ensures Share(n + 1, k, i) == Share(n, k, i) + One(i == n % k)
    ensures Share(n, k, i) == (n + k - 1 - i) / k
  {
    var q, r := n / k, n % k;
    assert n == q * k + r;
    if r + 1 < k {
      DivIs(n + 1, k, q, r + 1);
    } else {
      DivIs(n + 1, k, q + 1, 0);
    }
    if i < r {
      DivIs(n + k - 1 - i, k, q + 1, r - 1 - i);
    } else {
      DivIs(n + k - 1 - i, k, q, r + k - 1 - i);
    }
  }

  lemma CompareKeeps(s: State)
    requires Balanced(s) && Enabled(s, Main(Compare))
    ensures Balanced(Do(s, Main(Compare)))
  {
    var a := s.acceptor;
    var t := Do(s, Main(Compare));
    var b := t.acceptor.best;
    assert forall i :: 0 <= i < |s.workers| ==> Size(t, i) == Size(s, i);
    assert BelowFirst(t, Size(t, b), t.acceptor.next, a.since);
    assert BelowSeen(Size(t, b), t.acceptor.seen);
    if s.removed == 0 {
      assert a.cand.value == Size(s, a.next) && a.top.value == Size(s, a.best);
    }
  }

  lemma CountKeepsSpread(s: State)
    requires ScanOk(s) && Spread(s) && Enabled(s, Main(Count))
    ensures ScanOk(Do(s, Main(Count))) && Spread(Do(s, Main(Count)))
  {
    var t := Do(s, Main(Count));
    assert forall i :: 0 <= i < |s.workers| ==> Size(t, i) == Size(s, i) + One(i == s.acceptor.target);
  }

  lemma CountKeepsTurn(s: State)
    requires ScanOk(s) && RoundRobin(s) && Enabled(s, Main(Count))
    ensures RoundRobin(Do(s, Main(Count)))
  {
    var t := Do(s, Main(Count));
    if s.removed == 0 {
      forall i | 0 <= i < |s.workers|
        ensures Size(t, i) == Share(t.pushed, |t.workers|, i)
      {
        ShareStep(s.pushed, |s.workers|, i);
        assert Size(t, i) == Size(s, i) + One(i == s.acceptor.target);
      }
    }
  }

  lemma MainKeepsBalance(s: State, main: MainStep)
    requires Balanced(s) && Enabled(s, Main(main))
    ensures Balanced(Do(s, Main(main)))
  {
    if main.Compare? {
      CompareKeeps(s);
    } else if main.Count? {
      CountKeepsSpread(s);
      CountKeepsTurn(s);
    } else {
      var t := Do(s, Main(main));
      assert |t.workers| == |s.workers| && forall i :: 0 <= i < |s.workers| ==> Size(t, i) == Size(s, i);
      if main.Accept? && s.removed == 0 {
        assert s.pushed % |s.workers| >= 0;
      }
    }
  }

  /** A worker's step leaves the acceptor alone and lowers at most its own counter. */
  lemma WorkLowers(s: State, i: nat, work: WorkerStep)
    requires Enabled(s, Work(i, work))
    ensures var t := Do(s, Work(i, work));
      && |t.workers| == |s.workers| && t.acceptor == s.acceptor && t.pushed == s.pushed
      && t.removed == s.removed + One(work.Decrement?)
      && forall j :: 0 <= j < |s.workers| ==> Size(t, j) == Size(s, j) - One(j == i && work.Decrement?)
  {
  }

  /** What a worker's step does to the counters keeps every comparison the scan rests on. */
  lemma LoweredKeepsScan(s: State, t: State, i: nat, d: nat)
    requires ScanOk(s) && |t.workers| == |s.workers| && t.acceptor == s.acceptor
    requires d <= 1 && t.removed == s.removed + d
    requires forall j :: 0 <= j < |s.workers| ==> Size(t, j) == Size(s, j) - (if j == i then d else 0)
    ensures ScanOk(t)
  {
  }

  lemma WorkKeepsBalance(s: State, i: nat, work: WorkerStep)
    requires Balanced(s) && Enabled(s, Work(i, work))
    ensures Balanced(Do(s, Work(i, work)))
  {
    WorkLowers(s, i, work);
    LoweredKeepsAll(s, Do(s, Work(i, work)), i, One(work.Decrement?));
  }

  lemma LoweredKeepsAll(s: State, t: State, i: nat, d: nat)
    requires Balanced(s) && |t.workers| == |s.workers| && t.acceptor == s.acceptor && t.pushed == s.pushed
    requires d <= 1 && t.removed == s.removed + d
    requires forall j :: 0 <= j < |s.workers| ==> Size(t, j) == Size(s, j) - (if j == i then d else 0)
    ensures Balanced(t)
  {
    LoweredKeepsScan(s, t, i, d);
  }

  lemma {:induction false} RunBalanced(s: State, steps: seq<Step>)
    requires Balanced(s) && Allowed(s, steps)
    ensures Balanced(Run(s, steps)) && |Run(s, steps).workers| == |s.workers|
    decreases |steps|
  {
    if steps != [] {
      match steps[0] {
        case Main(main) => MainKeepsBalance(s, main);
        case Work(i, work) => WorkKeepsBalance(s, i, work);
      }
      RunBalanced(Do(s, steps[0]), steps[1..]);
    }
  }

  lemma InitBalanced(k: nat)
    ensures Balanced(Init(k))
  {
    if k > 0 {
      DivIs(0, k, 0, 0);
    }
  }

  /** When the push is counted, the chosen counter is still at most every value the scan read. */
  lemma ChosenStaysLeast(k: nat, steps: seq<Step>)
    requires Allowed(Init(k), steps)
    requires Run(Init(k), steps).acceptor.Enqueued?
    ensures var s := Run(Init(k), steps);
      && s.acceptor.target < |s.workers|
      && (forall x :: x in s.acceptor.seen ==> s.workers[s.acceptor.target].size <= x)
  {
    InitBalanced(k);
    RunBalanced(Init(k), steps);
  }

  /** The counters of two workers never differ by more than one plus the number of disconnects so far. */
  lemma SpreadBound(k: nat, steps: seq<Step>, i: nat, j: nat)
    requires Allowed(Init(k), steps) && i < k && j < k
    ensures var s := Run(Init(k), steps);
      |s.workers| == k && s.workers[i].size - s.workers[j].size <= 1 + s.removed
  {
    InitBalanced(k);
    RunBalanced(Init(k), steps);
    var s := Run(Init(k), steps);
    assert Size(s, i) - Size(s, j) <= 1 + s.removed;
  }

  /** With no disconnects, greedy least-loaded with first-minimum ties is a round robin. */
  lemma GreedyIsRoundRobin(k: nat, steps: seq<Step>, i: nat)
    requires Allowed(Init(k), steps) && i < k
    requires Run(Init(k), steps).removed == 0
    ensures var s := Run(Init(k), steps);
      |s.workers| == k && s.workers[i].size == (s.pushed + k - 1 - i) / k
  {
    InitBalanced(k);
    RunBalanced(Init(k), steps);
    var s := Run(Init(k), steps);
    ShareStep(s.pushed, k, i);
    assert Size(s, i) == Share(s.pushed, k, i);
  }
}
