/** The self-sending thread of client_mode_epoll, which paces itself to one gigabit per second. */
module Pacing {
  const TARGET_BPS: nat := 125_000_000      // bytes per second
  const BUFFER_SIZE: nat := 65536
  const INTERVAL_MS: nat := 100
  const NS_PER_MS: nat := 1_000_000
  const NS_PER_SECOND: nat := 1_000_000_000

  /** The most one interval can carry: what is allowed at 99 ms, less one, and one more buffer. */
  const MOST_PER_INTERVAL: nat := 12_440_535

  /** The loop's variables and the bytes written so far. */
  datatype Pacer = Pacer(intervalStart: nat, sent: nat, total: nat)

  /**
    One turn: the steady_clock reading in nanoseconds, what write would return given room,
    and whether an error is EAGAIN. The sleep of a held turn shows in the next reading.
  */
  datatype Turn = Turn(now: nat, room: int, again: bool)

  function Min(a: nat, b: nat): nat {
    if a < b then a else b
  }

  function BytesToSend(): nat {
    Min(BUFFER_SIZE, TARGET_BPS * INTERVAL_MS / 1000)
  }

  function Elapsed(p: Pacer, now: nat): int {
    (now - p.intervalStart) / NS_PER_MS
  }

  /** The interval of this turn, a new one if the last is over. */
  function Renewed(p: Pacer, now: nat): Pacer {
    if Elapsed(p, now) >= INTERVAL_MS then Pacer(now, 0, p.total) else p
  }

  /** Within an interval nothing is written while the allowance for the time elapsed is used up. */
  predicate Held(p: Pacer, now: nat) {
    Elapsed(p, now) < INTERVAL_MS && p.sent >= TARGET_BPS * Elapsed(p, now) / 1000
  }

  function Written(turn: Turn): int {
    if turn.room > BytesToSend() then BytesToSend() else turn.room
  }

  function Take(p: Pacer, turn: Turn): Pacer {
    var q := Renewed(p, turn.now);
    var n := Written(turn);
    if Held(p, turn.now) || n <= 0 then q else Pacer(q.intervalStart, q.sent + n, q.total + n)
  }

  /** A write error other than EAGAIN ends the loop. */
  predicate Fatal(p: Pacer, turn: Turn) {
    !Held(p, turn.now) && Written(turn) < 0 && !turn.again
  }

  function Run(p: Pacer, turns: seq<Turn>): Pacer
    decreases |turns|
  {
    if turns == [] then p
    else if Fatal(p, turns[0]) then Take(p, turns[0])
    else Run(Take(p, turns[0]), turns[1..])
  }

  /** The clock never goes back. */
  predicate Steady(from: nat, turns: seq<Turn>)
    decreases |turns|
  {
    turns == [] || (from <= turns[0].now && Steady(turns[0].now, turns[1..]))
  }

  /** The last reading of the run. */
  function End(from: nat, turns: seq<Turn>): nat {
    if turns == [] then from else turns[|turns| - 1].now
  }

  /** Full intervals stay within the target; the current one within its elapsed allowance and one buffer. */
  predicate Paced(start: nat, p: Pacer, now: nat) {
    && start <= p.intervalStart <= now
    && p.sent <= p.total && p.sent <= MOST_PER_INTERVAL
    && (p.total - p.sent) * NS_PER_SECOND <= TARGET_BPS * (p.intervalStart - start)
    && p.sent <= BUFFER_SIZE + TARGET_BPS * Elapsed(p, now) / 1000
  }

  lemma TakeKeeps(start: nat, p: Pacer, before: nat, turn: Turn)
    requires Paced(start, p, before) && before <= turn.now
    ensures Paced(start, Take(p, turn), turn.now)
  {
  }

  /**
    For any clock that does not go back and any results of the writes, the bytes written
    by the time of the last reading are at most the target rate times the time elapsed,
    and one buffer; and no interval carries more than 12,440,535 bytes.
  */
  lemma {:induction false} RateBound(start: nat, p: Pacer, before: nat, turns: seq<Turn>)
    requires Paced(start, p, before) && Steady(before, turns)
    ensures var q := Run(p, turns);
      && start <= End(before, turns)
      && q.total * NS_PER_SECOND <= TARGET_BPS * (End(before, turns) - start) + BUFFER_SIZE * NS_PER_SECOND
      && q.sent <= MOST_PER_INTERVAL
    decreases |turns|
  {
    if turns == [] {
      PacedIsBounded(start, p, before);
    } else {
      TakeKeeps(start, p, before, turns[0]);
      var now := turns[0].now;
      if Fatal(p, turns[0]) {
        PacedIsBounded(start, Take(p, turns[0]), now);
        SteadyEnd(now, turns[1..]);
      } else {
        RateBound(start, Take(p, turns[0]), now, turns[1..]);
      }
      assert End(now, turns[1..]) == End(before, turns);
    }
  }

  lemma {:induction false} SteadyEnd(from: nat, turns: seq<Turn>)
    requires Steady(from, turns)
    ensures from <= End(from, turns)
    decreases |turns|
  {
    if turns != [] {
      SteadyEnd(turns[0].now, turns[1..]);
      assert End(turns[0].now, turns[1..]) == End(from, turns);
    }
  }

  lemma PacedIsBounded(start: nat, p: Pacer, now: nat)
    requires Paced(start, p, now)
    ensures p.total * NS_PER_SECOND <= TARGET_BPS * (now - start) + BUFFER_SIZE * NS_PER_SECOND
  {
    var e := Elapsed(p, now);
    assert e * NS_PER_MS <= now - p.intervalStart;
    assert TARGET_BPS * e / 1000 * NS_PER_SECOND == TARGET_BPS * (e * NS_PER_MS);
  }

  /** From the start of the loop. */
  lemma TargetRate(start: nat, turns: seq<Turn>)
    requires Steady(start, turns)
    ensures start <= End(start, turns)
    ensures Run(Pacer(start, 0, 0), turns).total * NS_PER_SECOND
         <= TARGET_BPS * (End(start, turns) - start) + BUFFER_SIZE * NS_PER_SECOND
  {
    RateBound(start, Pacer(start, 0, 0), start, turns);
  }

  // ---------------------------------------------------------------- full speed

  /** At the target rate a byte is worth 8 nanoseconds. */
  const NS_PER_BYTE: nat := 8
  const BUFFER_NS: nat := NS_PER_BYTE * BUFFER_SIZE

  /** The most, in time, that the bytes sent lag behind the clock within an interval. */
  const MOST_OWED_NS: nat := 3 * NS_PER_MS - BUFFER_NS

  /**
    The loop in good time. After a held turn it sleeps for a millisecond, here never two;
    otherwise the clock is read again before the time a buffer is worth has passed; and the
    socket has room for a buffer. `held` says whether the last turn, at reading b, was held.
  */
  predicate OnTime(p: Pacer, held: bool, b: nat, turns: seq<Turn>)
    decreases |turns|
  {
    turns == [] ||
    var turn := turns[0];
    InTime(held, b, turn) && OnTime(Take(p, turn), Held(p, turn.now), turn.now, turns[1..])
  }

  predicate InTime(held: bool, b: nat, turn: Turn) {
    && turn.room >= BUFFER_SIZE
    && if held then b + NS_PER_MS <= turn.now < b + 2 * NS_PER_MS else b <= turn.now < b + BUFFER_NS
  }

  /** Past intervals carried 97 percent of the target, and the current one lags by no more than is allowed. */
  predicate UpToSpeed(start: nat, p: Pacer, held: bool, b: nat) {
    && start <= p.intervalStart <= b && Elapsed(p, b) < INTERVAL_MS && p.sent <= p.total
    && (p.total - p.sent) * NS_PER_BYTE * 100 >= 97 * (p.intervalStart - start)
    && p.sent * NS_PER_BYTE + (if held then NS_PER_MS else MOST_OWED_NS) >= b - p.intervalStart
  }

  lemma TakeKeepsSpeed(start: nat, p: Pacer, held: bool, b: nat, turn: Turn)
    requires UpToSpeed(start, p, held, b) && InTime(held, b, turn)
    ensures UpToSpeed(start, Take(p, turn), Held(p, turn.now), turn.now) && !Fatal(p, turn)
  {
  }

  lemma {:induction false} RunKeepsSpeed(start: nat, p: Pacer, held: bool, b: nat, turns: seq<Turn>)
    requires UpToSpeed(start, p, held, b) && OnTime(p, held, b, turns)
    ensures Run(p, turns).total * NS_PER_BYTE * 100 >= 97 * (End(b, turns) - start) - 100 * MOST_OWED_NS
    decreases |turns|
  {
    if turns != [] {
      var turn := turns[0];
      TakeKeepsSpeed(start, p, held, b, turn);
      RunKeepsSpeed(start, Take(p, turn), Held(p, turn.now), turn.now, turns[1..]);
      assert End(turn.now, turns[1..]) == End(b, turns);
    }
  }

  /**
    The bound is nearly reached: when the loop runs in good time and the socket has room,
    the bytes written by the time of the last reading are at least 97 percent of the target
    rate times the time elapsed, less what the target allows in 2.5 ms.
  */
  lemma FullSpeed(start: nat, turns: seq<Turn>)
    requires OnTime(Pacer(start, 0, 0), false, start, turns)
    ensures Run(Pacer(start, 0, 0), turns).total * NS_PER_BYTE * 100
         >= 97 * (End(start, turns) - start) - 100 * MOST_OWED_NS
    ensures NS_PER_BYTE * TARGET_BPS == NS_PER_SECOND
  {
    RunKeepsSpeed(start, Pacer(start, 0, 0), false, start, turns);
  }

  /** Such runs exist of any length and duration. */
  lemma {:induction false} InTimeForever(p: Pacer, held: bool, b: nat, n: nat) returns (turns: seq<Turn>)
    ensures |turns| == n && OnTime(p, held, b, turns)
    ensures End(b, turns) >= b + 500_000 * n
    decreases n
  {
    if n == 0 {
      turns := [];
    } else {
      var turn := Turn(if held then b + NS_PER_MS else b + 500_000, BUFFER_SIZE, false);
      var rest := InTimeForever(Take(p, turn), Held(p, turn.now), turn.now, n - 1);
      turns := [turn] + rest;
      assert turns[1..] == rest;
      assert End(turn.now, rest) == End(b, turns);
    }
  }

  // ---------------------------------------------------------------- what the loop writes

  /**
    What a run writes, by the clock readings and the socket alone, from an interval begun at
    `since` with `sent` bytes so far. A turn within the first 100 ms writes nothing if what is
    due by its whole milliseconds has been sent; a later one begins a new interval. A write
    takes at most 65536 bytes; EAGAIN takes none, and another error ends the loop.
  */
  function Carried(since: nat, sent: nat, turns: seq<Turn>): nat
    decreases |turns|
  {
    if turns == [] then 0
    else
      var turn, rest := turns[0], turns[1..];
      var ms := (turn.now - since) / 1_000_000;
      if ms < 100 && sent >= 125_000 * ms then Carried(since, sent, rest)
      else
        var from, before := if ms < 100 then since else turn.now, if ms < 100 then sent else 0;
        if turn.room > 0 then
          var n := if turn.room < 65536 then turn.room else 65536;
          n + Carried(from, before + n, rest)
        else if turn.room == 0 || turn.again then Carried(from, before, rest)
        else 0
  }

  /** The bytes written are those, partial writes included. */
  lemma {:induction false} TotalIsCarried(p: Pacer, turns: seq<Turn>)
    ensures Run(p, turns).total == p.total + Carried(p.intervalStart, p.sent, turns)
    decreases |turns|
  {
    if turns != [] {
      assert BytesToSend() == 65536;
      assert TARGET_BPS * Elapsed(p, turns[0].now) / 1000 == 125_000 * Elapsed(p, turns[0].now);
      if !Fatal(p, turns[0]) {
        TotalIsCarried(Take(p, turns[0]), turns[1..]);
      }
    }
  }

  /** Every turn that attempts a write and gets an error gets EAGAIN. */
  predicate Survives(p: Pacer, turns: seq<Turn>)
    decreases |turns|
  {
    turns == [] ||
    var turn := turns[0];
    (Held(p, turn.now) || turn.room >= 0 || turn.again) && Survives(Take(p, turn), turns[1..])
  }

  /** As long as there is no other error, the loop goes on from where it stands. */
  lemma {:induction false} RunSplits(p: Pacer, a: seq<Turn>, b: seq<Turn>)
    requires Survives(p, a)
    ensures Run(p, a + b) == Run(Run(p, a), b)
    decreases |a|
  {
    if a == [] {
      assert a + b == b;
    } else {
      assert (a + b)[1..] == a[1..] + b;
      RunSplits(Take(p, a[0]), a[1..], b);
    }
  }

  /** The first other error ends it: what would come later changes nothing, and the error wrote nothing. */
  lemma ErrorEnds(p: Pacer, a: seq<Turn>, turn: Turn, b: seq<Turn>)
    requires Survives(p, a) && !Held(Run(p, a), turn.now) && turn.room < 0 && !turn.again
    ensures Run(p, a + ([turn] + b)) == Run(p, a + [turn])
    ensures Run(p, a + [turn]).total == Run(p, a).total
  {
    RunSplits(p, a, [turn] + b);
    RunSplits(p, a, [turn]);
  }

  /** The loop itself. */
  method Pace(start: nat, turns: seq<Turn>) returns (p: Pacer)
    ensures p == Run(Pacer(start, 0, 0), turns)
  {
    var intervalStart, sent, total := start, 0, 0;
    var i := 0;
    while i < |turns|
      invariant 0 <= i <= |turns|
      invariant Run(Pacer(intervalStart, sent, total), turns[i..]) == Run(Pacer(start, 0, 0), turns)
      decreases |turns| - i
    {
      var turn := turns[i];
      assert turns[i..][1..] == turns[i + 1..];
      i := i + 1;
      var elapsedMs := (turn.now - intervalStart) / NS_PER_MS;
      if elapsedMs >= INTERVAL_MS {
        intervalStart, sent := turn.now, 0;
      } else {
        var allowed := TARGET_BPS * elapsedMs / 1000;
        if sent >= allowed {
          continue;
        }
      }
      var written := Written(turn);
      if written > 0 {
        sent, total := sent + written, total + written;
      } else if written < 0 {
        if !turn.again {
          return Pacer(intervalStart, sent, total);
        }
      }
    }
    p := Pacer(intervalStart, sent, total);
  }
}
