/**
  The two snowflake generators. They differ in their field widths and epoch and in how
  they wait once a millisecond's sequence numbers are used up: SnowflakeGenerator until
  the clock is past the last timestamp, SnowflakeIDGenerator until it merely differs.
  The clock is a script of readings; when it ends, a call in progress has not returned.
*/
module Snowflake {
  import opened Arith
  import opened Common

  /** Field widths; the epoch subtracted when an id is put together; and the waiting rule. */
  datatype Layout = Layout(seqBits: nat, workerBits: nat, epoch: nat, waitsPast: bool)

  const EPOCH_START_MS: nat := 1735689600000

  /** mync/snowflakeidgen.h. */
  const Main := Layout(13, 10, EPOCH_START_MS, true)

  /** testcontainer/main.cpp, whose readings have the epoch taken off already. */
  const Sibling := Layout(12, 10, 0, false)

  const WORD: nat := 64
  const WORD_RANGE: nat := 0x1_0000_0000_0000_0000
  const STAMP_BITS: nat := 41
  const STAMP_RANGE: nat := 0x200_0000_0000

  datatype Gen = Gen(last: nat, sequence: nat)

  datatype Outcome = Issued(id: nat) | Refused | Pending

  datatype Call = Call(gen: Gen, outcome: Outcome, clock: seq<nat>)

  /** Reduction to 64 bits. */
  function Truncate(x: nat): nat {
    if x < WORD_RANGE then x else Truncate(x - WORD_RANGE)
  }

  /** A 64-bit left shift. */
  function Shl(x: nat, k: nat): nat {
    Truncate(x * Pow2(k))
  }

  /** The difference of two 64-bit numbers. */
  function Minus(a: nat, b: nat): nat {
    if a >= b then Truncate(a - b) else Truncate(Borrow(a, b))
  }

  function Borrow(a: nat, b: nat): nat
    requires a < b
    decreases b - a
  {
    if a + WORD_RANGE >= b then a + WORD_RANGE - b else Borrow(a + WORD_RANGE, b)
  }

  function MakeId(L: Layout, worker: nat, stamp: nat, sequence: nat): nat {
    BitOr(BitOr(Shl(Minus(stamp, L.epoch), L.seqBits + L.workerBits), Shl(worker, L.seqBits)), sequence)
  }

  function WaitNext(L: Layout, last: nat, clock: seq<nat>): Option<(nat, seq<nat>)>
    decreases |clock|
  {
    if clock == [] then None
    else if (if L.waitsPast then clock[0] > last else clock[0] != last) then Some((clock[0], clock[1..]))
    else WaitNext(L, last, clock[1..])
  }

  /** One call of next_id. */
  function Next(L: Layout, worker: nat, g: Gen, clock: seq<nat>): Call {
    if clock == [] then Call(g, Pending, [])
    else
      var t, rest := clock[0], clock[1..];
      if t < g.last then Call(g, Refused, rest)
      else
        var s := if t == g.last then BitAnd(g.sequence + 1, Pow2(L.seqBits) - 1) else 0;
        if t == g.last && s == 0 then
          match WaitNext(L, g.last, rest)
          case None => Call(Gen(g.last, 0), Pending, [])
          case Some(w) => Call(Gen(w.0, 0), Issued(MakeId(L, worker, w.0, 0)), w.1)
        else Call(Gen(t, s), Issued(MakeId(L, worker, t, s)), rest)
  }

  lemma {:induction false} WaitUsesReadings(L: Layout, last: nat, clock: seq<nat>)
    ensures WaitNext(L, last, clock).Some? ==> var w := WaitNext(L, last, clock).value;
      && |w.1| < |clock| && w.0 != last && (L.waitsPast ==> w.0 > last)
      && (InWindow(L, clock) ==> InWindow(L, [w.0]) && InWindow(L, w.1))
    decreases |clock|
  {
    if clock != [] {
      WaitUsesReadings(L, last, clock[1..]);
    }
  }

  /** Readings not before the epoch and less than 2 to the 41 milliseconds after it. */
  predicate InWindow(L: Layout, clock: seq<nat>) {
    forall i :: 0 <= i < |clock| ==> L.epoch <= clock[i] < L.epoch + STAMP_RANGE
  }

  predicate Fits(L: Layout) {
    L.seqBits + L.workerBits + STAMP_BITS <= WORD
  }

  /** The ids issued by calling next_id again and again until the clock script ends. */
  function Ids(L: Layout, worker: nat, g: Gen, clock: seq<nat>): seq<nat>
    decreases |clock|
  {
    if clock == [] then []
    else
      WaitUsesReadings(L, g.last, clock[1..]);
      var c := Next(L, worker, g, clock);
      match c.outcome
      case Pending => []
      case Refused => Ids(L, worker, g, c.clock)
      case Issued(id) => [id] + Ids(L, worker, c.gen, c.clock)
  }

  // ---------------------------------------------------------------- what an id is

  function Field(L: Layout): nat { Pow2(L.seqBits + L.workerBits) }

  /** The id as a sum of fields. */
  function Plain(L: Layout, worker: nat, stamp: nat, sequence: nat): int {
    (stamp - L.epoch) * Field(L) + (worker * Pow2(L.seqBits) + sequence)
  }

  lemma LowFieldsFit(L: Layout, worker: nat, sequence: nat)
    requires worker < Pow2(L.workerBits) && sequence < Pow2(L.seqBits)
    ensures worker * Pow2(L.seqBits) + sequence < Field(L)
  {
    Pow2Add(L.workerBits, L.seqBits);
    MultiplesApart(Pow2(L.workerBits), worker, Pow2(L.seqBits));
  }

  lemma ProductFits(a: nat, b: nat, x: nat, y: nat)
    requires a < x && 0 < b <= y
    ensures a * b < x * y
  {
    MultiplesApart(x, a, b);
    if b < y {
      assert x * y == x * b + x * (y - b);
      assert x * (y - b) >= 0;
    }
  }

  lemma Ranges()
    ensures Pow2(STAMP_BITS) == STAMP_RANGE && Pow2(WORD) == WORD_RANGE
  {
    RangesFrom(8);
  }

  lemma RangesFrom(n: nat)
    requires n == 8
    ensures Pow2(n + n + n + n + n + 1) == STAMP_RANGE
    ensures Pow2(n + n + n + n + (n + n + n + n)) == WORD_RANGE
  {
    assert Pow2(n) == 0x100 by {
      assert Pow2(8) == 0x100;
    }
    Pow2Add(n, n);
    Pow2Add(n + n, n);
    Pow2Add(n + n + n, n);
    Pow2Add(n + n + n + n, n);
    Pow2Add(n + n + n + n, n + n + n + n);
  }

  lemma ShlIsProduct(x: nat, bits: nat, k: nat)
    requires x < Pow2(bits) && bits + k <= WORD
    ensures Shl(x, k) == x * Pow2(k)
  {
    Ranges();
    Pow2Add(bits, k);
    Pow2Mono(bits + k, WORD);
    ProductFits(x, Pow2(k), Pow2(bits), Pow2(k));
  }

  lemma Regroup(a: nat, b: nat, c: nat, w: nat)
    ensures a * (b * c) + w * c == (a * b + w) * c
  {
  }

  lemma FieldWidths(worker: nat, workerBits: nat, seqBits: nat)
    requires worker < Pow2(workerBits)
    ensures Pow2(seqBits + workerBits) == Pow2(workerBits) * Pow2(seqBits)
    ensures worker * Pow2(seqBits) < Pow2(seqBits + workerBits)
  {
    Pow2Add(workerBits, seqBits);
    assert workerBits + seqBits == seqBits + workerBits;
    ProductFits(worker, Pow2(seqBits), Pow2(workerBits), Pow2(seqBits));
  }

  /** Three fields that do not overlap, put together with or. */
  lemma OrFields(high: nat, low: nat, sequence: nat, x: nat, y: nat, k: nat, s: nat)
    requires high == x * Pow2(k) && low < Pow2(k)
    requires high + low == y * Pow2(s) && sequence < Pow2(s)
    ensures BitOr(BitOr(high, low), sequence) == high + low + sequence
  {
    OrIsSum(x, low, k);
    OrIsSum(y, sequence, s);
  }

  /** What the two shifts yield. */
  lemma HighFields(rel: nat, worker: nat, stampBits: nat, workerBits: nat, seqBits: nat)
    requires rel < Pow2(stampBits) && worker < Pow2(workerBits) && seqBits + workerBits + stampBits <= WORD
    ensures var k := seqBits + workerBits;
      && Shl(rel, k) == rel * Pow2(k)
      && Shl(worker, seqBits) == worker * Pow2(seqBits) < Pow2(k)
      && rel * Pow2(k) + worker * Pow2(seqBits) == (rel * Pow2(workerBits) + worker) * Pow2(seqBits)
  {
    ShlIsProduct(rel, stampBits, seqBits + workerBits);
    ShlIsProduct(worker, workerBits, seqBits);
    FieldWidths(worker, workerBits, seqBits);
    Regroup(rel, Pow2(workerBits), Pow2(seqBits), worker);
  }

  /** Reduction, subtraction and shift are those of 64-bit words, also where they wrap. */
  lemma {:induction false} TruncateIsMod(x: nat)
    ensures Truncate(x) == x % WORD_RANGE
    decreases x
  {
    if x >= WORD_RANGE {
      TruncateIsMod(x - WORD_RANGE);
    }
  }

  lemma MinusWraps(a: nat, b: nat)
    requires a < WORD_RANGE && b < WORD_RANGE
    ensures Minus(a, b) == (if a >= b then a - b else WORD_RANGE - (b - a)) < WORD_RANGE
  {
  }

  lemma ShlWraps(x: nat, k: nat)
    ensures Shl(x, k) == x * Pow2(k) % WORD_RANGE
  {
    TruncateIsMod(x * Pow2(k));
  }

  /** Inside the window the shifts lose nothing and the fields do not overlap. */
  lemma MakeIdIsPlain(L: Layout, worker: nat, stamp: nat, sequence: nat)
    requires Fits(L) && InWindow(L, [stamp])
    requires worker < Pow2(L.workerBits) && sequence < Pow2(L.seqBits)
    ensures MakeId(L, worker, stamp, sequence) == Plain(L, worker, stamp, sequence)
  {
    assert L.epoch <= [stamp][0] < L.epoch + STAMP_RANGE;
    Ranges();
    var rel: nat := stamp - L.epoch;
    assert Minus(stamp, L.epoch) == rel;
    HighFields(rel, worker, STAMP_BITS, L.workerBits, L.seqBits);
    OrFields(Shl(rel, L.seqBits + L.workerBits), Shl(worker, L.seqBits), sequence,
             rel, rel * Pow2(L.workerBits) + worker, L.seqBits + L.workerBits, L.seqBits);
  }

  /** An id decodes back into its timestamp, worker and sequence number. */
  lemma Decode(L: Layout, worker: nat, stamp: nat, sequence: nat)
    requires Fits(L) && InWindow(L, [stamp])
    requires worker < Pow2(L.workerBits) && sequence < Pow2(L.seqBits)
    ensures var id := MakeId(L, worker, stamp, sequence);
      && id / Field(L) == stamp - L.epoch
      && id % Field(L) / Pow2(L.seqBits) == worker
      && id % Field(L) % Pow2(L.seqBits) == sequence
  {
    MakeIdIsPlain(L, worker, stamp, sequence);
    assert L.epoch <= [stamp][0];
    PlainDecodes(L, worker, stamp - L.epoch, sequence);
  }

  lemma PlainDecodes(L: Layout, worker: nat, rel: nat, sequence: nat)
    requires worker < Pow2(L.workerBits) && sequence < Pow2(L.seqBits)
    ensures var id := Plain(L, worker, L.epoch + rel, sequence);
      && id / Field(L) == rel
      && id % Field(L) / Pow2(L.seqBits) == worker && id % Field(L) % Pow2(L.seqBits) == sequence
  {
    LowFieldsFit(L, worker, sequence);
    TwoDigits(rel, worker, sequence, Field(L), Pow2(L.seqBits));
  }

  lemma TwoDigits(rel: nat, worker: nat, sequence: nat, f: nat, b: nat)
    requires sequence < b && worker * b + sequence < f
    ensures var id := rel * f + (worker * b + sequence);
      id / f == rel && id % f / b == worker && id % f % b == sequence
  {
    DivIs(rel * f + (worker * b + sequence), f, rel, worker * b + sequence);
    DivIs(worker * b + sequence, b, worker, sequence);
  }

  /** A later timestamp, or the same one with a larger sequence number, gives a larger id. */
  lemma PlainGrows(L: Layout, worker: nat, t: nat, s: nat, t': nat, s': nat)
    requires worker < Pow2(L.workerBits) && s < Pow2(L.seqBits) && s' < Pow2(L.seqBits)
    ensures t < t' || (t == t' && s < s') ==> Plain(L, worker, t, s) < Plain(L, worker, t', s')
  {
    LowFieldsFit(L, worker, s);
    LowFieldsFit(L, worker, s');
    if t < t' {
      MultiplesApart(t' - L.epoch, t - L.epoch, Field(L));
    }
  }

  // ---------------------------------------------------------------- runs of calls

  ghost predicate GenOk(L: Layout, g: Gen) {
    g.sequence < Pow2(L.seqBits)
  }

  /** The masked increment counts up and falls back to zero. */
  lemma NextSequence(s: nat, bits: nat)
    requires s < Pow2(bits)
    ensures var n := BitAnd(s + 1, Pow2(bits) - 1); n < Pow2(bits) && (n == 0 || n == s + 1)
  {
    AndMask(s + 1, bits);
    MaskedNext(s, Pow2(bits));
  }

  /** The state after a call that issues an id: a later millisecond, or the next sequence number of the same one. */
  lemma NextShape(L: Layout, worker: nat, g: Gen, clock: seq<nat>)
    requires InWindow(L, clock) && GenOk(L, g) && Next(L, worker, g, clock).outcome.Issued?
    ensures var c := Next(L, worker, g, clock);
      && GenOk(L, c.gen) && InWindow(L, [c.gen.last]) && InWindow(L, c.clock) && |c.clock| < |clock|
      && c.outcome.id == MakeId(L, worker, c.gen.last, c.gen.sequence)
      && (c.gen.last == g.last ==> c.gen.sequence > g.sequence)
      && (L.waitsPast ==> c.gen.last >= g.last)
  {
    NextSequence(g.sequence, L.seqBits);
    WindowParts(L, clock);
    WaitUsesReadings(L, g.last, clock[1..]);
  }

  lemma WindowParts(L: Layout, clock: seq<nat>)
    requires InWindow(L, clock) && clock != []
    ensures InWindow(L, [clock[0]]) && InWindow(L, clock[1..])
  {
  }

  /**
    One call: an issued id is that of the new state, and it exceeds the previous one unless the
    wait ended at an earlier time.
  */
  lemma NextIssues(L: Layout, worker: nat, g: Gen, clock: seq<nat>)
    requires Fits(L) && InWindow(L, clock) && GenOk(L, g) && worker < Pow2(L.workerBits)
    requires Next(L, worker, g, clock).outcome.Issued?
    ensures var c := Next(L, worker, g, clock);
      && c.outcome.id == Plain(L, worker, c.gen.last, c.gen.sequence)
      && (c.outcome.id > Plain(L, worker, g.last, g.sequence) <==> c.gen.last >= g.last)
  {
    var c := Next(L, worker, g, clock);
    NextShape(L, worker, g, clock);
    MakeIdIsPlain(L, worker, c.gen.last, c.gen.sequence);
    PlainGrows(L, worker, g.last, g.sequence, c.gen.last, c.gen.sequence);
    PlainGrows(L, worker, c.gen.last, c.gen.sequence, g.last, g.sequence);
  }

  lemma MaskedNext(s: nat, m: nat)
    requires s < m
    ensures (s + 1) % m == if s + 1 < m then s + 1 else 0
  {
    if s + 1 < m {
      DivIs(s + 1, m, 0, s + 1);
    } else {
      DivIs(m, m, 1, 0);
    }
  }

  predicate Increasing(ids: seq<int>) {
    forall i, j :: 0 <= i < j < |ids| ==> ids[i] < ids[j]
  }

  /** No call of the run returns from its wait at a time before the one it waited on. */
  predicate WaitsForward(L: Layout, worker: nat, g: Gen, clock: seq<nat>)
    decreases |clock|
  {
    if clock == [] then true
    else
      WaitUsesReadings(L, g.last, clock[1..]);
      var c := Next(L, worker, g, clock);
      match c.outcome
      case Pending => true
      case Refused => WaitsForward(L, worker, g, c.clock)
      case Issued(_) => c.gen.last >= g.last && WaitsForward(L, worker, c.gen, c.clock)
  }

  /** The clock does not go back. */
  predicate Steady(clock: seq<nat>) {
    forall i, j :: 0 <= i < j < |clock| ==> clock[i] <= clock[j]
  }

  lemma {:induction false} WaitIsSteady(L: Layout, last: nat, clock: seq<nat>)
    requires Steady(clock) && forall i :: 0 <= i < |clock| ==> clock[i] >= last
    ensures WaitNext(L, last, clock).Some? ==> var w := WaitNext(L, last, clock).value;
      w.0 >= last && Steady(w.1)
    decreases |clock|
  {
    if clock != [] {
      WaitIsSteady(L, last, clock[1..]);
    }
  }

  /** On a clock that does not go back, no wait ends in the past. */
  lemma {:induction false} SteadyWaitsForward(L: Layout, worker: nat, g: Gen, clock: seq<nat>)
    requires Steady(clock)
    ensures WaitsForward(L, worker, g, clock)
    decreases |clock|
  {
    if clock != [] {
      WaitUsesReadings(L, g.last, clock[1..]);
      var c := Next(L, worker, g, clock);
      if clock[0] >= g.last {
        WaitIsSteady(L, g.last, clock[1..]);
      }
      match c.outcome {
        case Pending =>
        case Refused =>
          SteadyWaitsForward(L, worker, g, c.clock);
        case Issued(_) =>
          SteadyWaitsForward(L, worker, c.gen, c.clock);
      }
    }
  }

  lemma IncreasingCons(p: int, q: int, ids: seq<int>)
    ensures Increasing([p] + ([q] + ids)) <==> p < q && Increasing([q] + ids)
  {
    if p < q && Increasing([q] + ids) {
      IncreasingWith(p, [q] + ids);
    }
    if Increasing([p] + ([q] + ids)) {
      IncreasingTail(p, [q] + ids);
      assert ([p] + ([q] + ids))[0] < ([p] + ([q] + ids))[1];
    }
  }

  lemma IncreasingWith(p: int, ids: seq<int>)
    requires Increasing(ids) && (ids != [] ==> p < ids[0])
    ensures Increasing([p] + ids)
  {
    var a := [p] + ids;
    forall i, j | 0 <= i < j < |a| ensures a[i] < a[j] {
      assert a[j] == ids[j - 1];
      assert j > 1 ==> ids[0] < ids[j - 1];
      assert i > 0 ==> a[i] == ids[i - 1] < ids[j - 1];
    }
  }

  /** Issued ids increase strictly, from the last one on, exactly when no wait ends in the past. */
  lemma {:induction false} IncreasingWhenForward(L: Layout, worker: nat, g: Gen, clock: seq<nat>)
    requires Fits(L) && InWindow(L, clock) && GenOk(L, g) && worker < Pow2(L.workerBits)
    ensures Increasing([Plain(L, worker, g.last, g.sequence)] + Ids(L, worker, g, clock)) <==>
        WaitsForward(L, worker, g, clock)
    ensures L.waitsPast ==> WaitsForward(L, worker, g, clock)
    decreases |clock|
  {
    if clock != [] {
      var c := Next(L, worker, g, clock);
      WaitUsesReadings(L, g.last, clock[1..]);
      match c.outcome {
        case Pending =>
        case Refused =>
          IncreasingWhenForward(L, worker, g, c.clock);
        case Issued(id) =>
          NextShape(L, worker, g, clock);
          NextIssues(L, worker, g, clock);
          IncreasingWhenForward(L, worker, c.gen, c.clock);
          IncreasingCons(Plain(L, worker, g.last, g.sequence), id, Ids(L, worker, c.gen, c.clock));
      }
    }
  }

  const Start := Gen(0, 0)

  lemma IncreasingTail(p: int, ids: seq<int>)
    requires Increasing([p] + ids)
    ensures Increasing(ids)
  {
    assert forall i :: 0 <= i < |ids| ==> ([p] + ids)[i + 1] == ids[i];
  }

  /** SnowflakeGenerator: whatever the clock does inside the window, the ids issued increase strictly. */
  lemma MainIncreases(worker: nat, clock: seq<nat>)
    requires worker < Pow2(Main.workerBits) && InWindow(Main, clock)
    ensures Increasing(Ids(Main, worker, Start, clock))
  {
    IncreasingWhenForward(Main, worker, Start, clock);
    IncreasingTail(Plain(Main, worker, 0, 0), Ids(Main, worker, Start, clock));
  }

  /** SnowflakeIDGenerator: on a clock that does not go back, the ids issued increase strictly. */
  lemma SiblingIncreases(worker: nat, clock: seq<nat>)
    requires worker < Pow2(Sibling.workerBits) && InWindow(Sibling, clock) && Steady(clock)
    ensures Increasing(Ids(Sibling, worker, Start, clock))
  {
    SteadyWaitsForward(Sibling, worker, Start, clock);
    IncreasingWhenForward(Sibling, worker, Start, clock);
    IncreasingTail(Plain(Sibling, worker, 0, 0), Ids(Sibling, worker, Start, clock));
  }

  /** Every id of a run is put together from the given worker, a reading in the window and a sequence number. */
  ghost predicate MadeBy(L: Layout, worker: nat, id: nat) {
    exists t: nat, s: nat :: InWindow(L, [t]) && s < Pow2(L.seqBits) && id == MakeId(L, worker, t, s)
  }

  lemma {:induction false} IdsAreMade(L: Layout, worker: nat, g: Gen, clock: seq<nat>)
    requires Fits(L) && InWindow(L, clock) && GenOk(L, g) && worker < Pow2(L.workerBits)
    ensures forall i :: 0 <= i < |Ids(L, worker, g, clock)| ==> MadeBy(L, worker, Ids(L, worker, g, clock)[i])
    decreases |clock|
  {
    if clock != [] {
      var c := Next(L, worker, g, clock);
      WaitUsesReadings(L, g.last, clock[1..]);
      match c.outcome {
        case Pending =>
        case Refused =>
          IdsAreMade(L, worker, g, c.clock);
        case Issued(id) =>
          NextShape(L, worker, g, clock);
          assert MadeBy(L, worker, id);
          IdsAreMade(L, worker, c.gen, c.clock);
      }
    }
  }

  lemma MadeByDecodes(L: Layout, worker: nat, id: nat) returns (t: nat, s: nat)
    requires Fits(L) && worker < Pow2(L.workerBits) && MadeBy(L, worker, id)
    ensures s < Pow2(L.seqBits) && id == Plain(L, worker, t, s)
    ensures id / Field(L) == t - L.epoch && id % Field(L) / Pow2(L.seqBits) == worker
  {
    t, s :| InWindow(L, [t]) && s < Pow2(L.seqBits) && id == MakeId(L, worker, t, s);
    Decode(L, worker, t, s);
    MakeIdIsPlain(L, worker, t, s);
  }

  /** Generators with different worker numbers never issue the same id, whatever their clocks. */
  lemma WorkersNeverCollide(L: Layout, v: nat, w: nat, g: Gen, h: Gen, c: seq<nat>, d: seq<nat>, i: nat, j: nat)
    requires Fits(L) && InWindow(L, c) && InWindow(L, d) && GenOk(L, g) && GenOk(L, h)
    requires v < Pow2(L.workerBits) && w < Pow2(L.workerBits) && v != w
    requires i < |Ids(L, v, g, c)| && j < |Ids(L, w, h, d)|
    ensures Ids(L, v, g, c)[i] != Ids(L, w, h, d)[j]
  {
    IdsAreMade(L, v, g, c);
    IdsAreMade(L, w, h, d);
    var t, s := MadeByDecodes(L, v, Ids(L, v, g, c)[i]);
    t, s := MadeByDecodes(L, w, Ids(L, w, h, d)[j]);
  }

  lemma {:induction false} IncreasingGap(ids: seq<int>, i: nat, j: nat)
    requires Increasing(ids) && i <= j < |ids|
    ensures ids[j] - ids[i] >= j - i
    decreases j - i
  {
    if i < j {
      IncreasingGap(ids, i, j - 1);
    }
  }

  /** At most 8192 ids share a millisecond: of any 8193 in a row, the last has a later timestamp than the first. */
  lemma PerMillisecond(worker: nat, clock: seq<nat>, i: nat, j: nat)
    requires worker < Pow2(Main.workerBits) && InWindow(Main, clock)
    requires i < j < |Ids(Main, worker, Start, clock)| && j - i >= 8192
    ensures var ids := Ids(Main, worker, Start, clock);
      ids[i] / Field(Main) < ids[j] / Field(Main)
  {
    var ids := Ids(Main, worker, Start, clock);
    MainIncreases(worker, clock);
    IncreasingGap(ids, i, j);
    IdsAreMade(Main, worker, Start, clock);
    var t, s := MadeByDecodes(Main, worker, ids[i]);
    var t', s' := MadeByDecodes(Main, worker, ids[j]);
    SequenceRange(worker, t, s, t', s');
  }

  /** Two ids at least 8192 apart cannot share a timestamp. */
  lemma SequenceRange(worker: nat, t: nat, s: nat, t': nat, s': nat)
    requires worker < Pow2(Main.workerBits) && s < Pow2(Main.seqBits) && s' < Pow2(Main.seqBits)
    requires Plain(Main, worker, t', s') - Plain(Main, worker, t, s) >= 8192
    ensures t < t'
  {
    assert Pow2(13) == 8192;
    PlainGrows(Main, worker, t', s', t, s);
  }

  // ---------------------------------------------------------------- what one call does

  /** A reading that ends the wait: later than the last timestamp, or for the sibling merely another. */
  predicate EndsWait(L: Layout, last: nat, t: nat) {
    if L.waitsPast then t > last else t != last
  }

  predicate FirstToEnd(L: Layout, last: nat, clock: seq<nat>, i: nat) {
    && i < |clock| && EndsWait(L, last, clock[i])
    && forall j :: 0 <= j < i ==> !EndsWait(L, last, clock[j])
  }

  lemma {:induction false} WaitFinds(L: Layout, last: nat, clock: seq<nat>, i: nat)
    requires FirstToEnd(L, last, clock, i)
    ensures WaitNext(L, last, clock) == Some((clock[i], clock[i + 1..]))
    decreases i
  {
    if i > 0 {
      var rest := clock[1..];
      assert rest[i - 1] == clock[i] && rest[i..] == clock[i + 1..];
      assert forall j :: 0 <= j < i - 1 ==> rest[j] == clock[j + 1];
      assert !EndsWait(L, last, clock[0]);
      WaitFinds(L, last, rest, i - 1);
    }
  }

  lemma {:induction false} WaitFindsNone(L: Layout, last: nat, clock: seq<nat>)
    requires forall j :: 0 <= j < |clock| ==> !EndsWait(L, last, clock[j])
    ensures WaitNext(L, last, clock).None?
    decreases |clock|
  {
    if clock != [] {
      assert !EndsWait(L, last, clock[0]);
      WaitFindsNone(L, last, clock[1..]);
    }
  }

  lemma SomeEnds(L: Layout, last: nat, clock: seq<nat>) returns (i: nat)
    ensures i <= |clock| && forall j :: 0 <= j < i ==> !EndsWait(L, last, clock[j])
    ensures i < |clock| ==> FirstToEnd(L, last, clock, i)
  {
    i := 0;
    while i < |clock| && !EndsWait(L, last, clock[i])
      invariant i <= |clock| && forall j :: 0 <= j < i ==> !EndsWait(L, last, clock[j])
    {
      i := i + 1;
    }
  }

  /**
    The wait returns the first reading that ends it and uses up no further one; without such a
    reading it does not return.
  */
  lemma WaitEndsAt(L: Layout, last: nat, clock: seq<nat>, i: nat)
    ensures i < |clock| ==>
        (WaitNext(L, last, clock) == Some((clock[i], clock[i + 1..])) <==> FirstToEnd(L, last, clock, i))
    ensures WaitNext(L, last, clock).None? <==> forall j :: 0 <= j < |clock| ==> !EndsWait(L, last, clock[j])
  {
    var first := SomeEnds(L, last, clock);
    if first == |clock| {
      WaitFindsNone(L, last, clock);
    } else {
      WaitFinds(L, last, clock, first);
      if i < |clock| && i != first {
        assert |clock[i + 1..]| != |clock[first + 1..]|;
      }
    }
  }

  /** A call is refused exactly when its reading is before the last timestamp; it then changes nothing. */
  lemma RefusedExactly(L: Layout, worker: nat, g: Gen, clock: seq<nat>)
    ensures Next(L, worker, g, clock).outcome.Refused? <==> clock != [] && clock[0] < g.last
    ensures clock != [] && clock[0] < g.last ==> Next(L, worker, g, clock) == Call(g, Refused, clock[1..])
  {
  }

  /** A refused call costs a reading and nothing else: the ids go on as if it had not been made. */
  lemma RefusalSkipped(L: Layout, worker: nat, g: Gen, t: nat, rest: seq<nat>)
    requires t < g.last
    ensures Ids(L, worker, g, [t] + rest) == Ids(L, worker, g, rest)
  {
    assert ([t] + rest)[1..] == rest;
  }

  /** What a call does that is not refused. */
  lemma CallMeans(L: Layout, worker: nat, g: Gen, clock: seq<nat>)
    requires clock != [] && clock[0] >= g.last && g.sequence < Pow2(L.seqBits)
    ensures var c := Next(L, worker, g, clock);
      var t, rest := clock[0], clock[1..];
      && (t > g.last ==> c == Call(Gen(t, 0), Issued(MakeId(L, worker, t, 0)), rest))
      && (t == g.last && g.sequence + 1 < Pow2(L.seqBits) ==>
            c == Call(Gen(t, g.sequence + 1), Issued(MakeId(L, worker, t, g.sequence + 1)), rest))
      && (t == g.last && g.sequence + 1 == Pow2(L.seqBits) ==>
            && (forall i: nat :: FirstToEnd(L, t, rest, i) ==>
                  c == Call(Gen(rest[i], 0), Issued(MakeId(L, worker, rest[i], 0)), rest[i + 1..]))
            && ((forall i: nat :: !FirstToEnd(L, t, rest, i)) ==> c.outcome.Pending? && c.gen.last == t))
  {
    var t, rest := clock[0], clock[1..];
    AndMask(g.sequence + 1, L.seqBits);
    MaskedNext(g.sequence, Pow2(L.seqBits));
    if t == g.last && g.sequence + 1 == Pow2(L.seqBits) {
      forall i: nat | FirstToEnd(L, t, rest, i)
        ensures WaitNext(L, t, rest) == Some((rest[i], rest[i + 1..]))
      {
        WaitFinds(L, t, rest, i);
      }
      var first := SomeEnds(L, t, rest);
      if first == |rest| {
        WaitFindsNone(L, t, rest);
      }
    }
  }

  lemma IdsFirst(L: Layout, worker: nat, g: Gen, clock: seq<nat>)
    requires clock != [] && Next(L, worker, g, clock).outcome.Issued?
    ensures var c := Next(L, worker, g, clock);
      Ids(L, worker, g, clock) == [c.outcome.id] + Ids(L, worker, c.gen, c.clock)
  {
  }

  lemma CallAtOverflow(L: Layout, worker: nat, g: Gen, clock: seq<nat>, idle: seq<nat>, u: nat, rest: seq<nat>)
    requires g.sequence + 1 == Pow2(L.seqBits) && clock == [g.last] + (idle + ([u] + rest))
    requires EndsWait(L, g.last, u) && forall i :: 0 <= i < |idle| ==> !EndsWait(L, g.last, idle[i])
    ensures Next(L, worker, g, clock) == Call(Gen(u, 0), Issued(MakeId(L, worker, u, 0)), rest)
  {
    var wait := idle + ([u] + rest);
    assert clock[1..] == wait && wait[|idle|] == u && wait[|idle| + 1..] == rest;
    assert FirstToEnd(L, g.last, wait, |idle|);
    CallMeans(L, worker, g, clock);
  }

  /**
    Over a run: after the last sequence number of a millisecond the ids go on with number 0 at
    the first reading that ends the wait, whatever readings `idle` come before it.
  */
  lemma NextMillisecond(L: Layout, worker: nat, g: Gen, clock: seq<nat>, idle: seq<nat>, u: nat, rest: seq<nat>)
    requires g.sequence + 1 == Pow2(L.seqBits) && clock == [g.last] + (idle + ([u] + rest))
    requires EndsWait(L, g.last, u) && forall i :: 0 <= i < |idle| ==> !EndsWait(L, g.last, idle[i])
    ensures Ids(L, worker, g, clock) == [MakeId(L, worker, u, 0)] + Ids(L, worker, Gen(u, 0), rest)
  {
    CallAtOverflow(L, worker, g, clock, idle, u, rest);
    IdsFirst(L, worker, g, clock);
  }

  /** A whole millisecond of ids, the wait, and the first id of the next. */
  lemma AcrossMilliseconds(L: Layout, worker: nat, g: Gen, t: nat, n: nat, idle: seq<nat>, u: nat, rest: seq<nat>)
    requires g.last < t && n == Pow2(L.seqBits) - 1
    requires EndsWait(L, t, u) && forall i :: 0 <= i < |idle| ==> !EndsWait(L, t, idle[i])
    ensures Ids(L, worker, g, [t] + (seq(n, _ => t) + ([t] + (idle + ([u] + rest)))))
         == Batch(L, worker, t, 0, Pow2(L.seqBits)) + ([MakeId(L, worker, u, 0)] + Ids(L, worker, Gen(u, 0), rest))
  {
    WholeMillisecond(L, worker, g, t, n, [t] + (idle + ([u] + rest)));
    NextMillisecond(L, worker, Gen(t, n), [t] + (idle + ([u] + rest)), idle, u, rest);
  }

  /** SnowflakeGenerator's ids: 41 bits of milliseconds since 2025, 10 of worker, 13 of sequence. */
  lemma MainLayout(worker: nat, stamp: nat, sequence: nat)
    requires worker < 1024 && sequence < 8192 && 1735689600000 <= stamp < 1735689600000 + 0x200_0000_0000
    ensures MakeId(Main, worker, stamp, sequence) == (stamp - 1735689600000) * 8388608 + worker * 8192 + sequence
  {
    Widths();
    assert InWindow(Main, [stamp]);
    MakeIdIsPlain(Main, worker, stamp, sequence);
  }

  /** SnowflakeIDGenerator's: 41 bits, 10 and 12. */
  lemma SiblingLayout(worker: nat, stamp: nat, sequence: nat)
    requires worker < 1024 && sequence < 4096 && stamp < 0x200_0000_0000
    ensures MakeId(Sibling, worker, stamp, sequence) == stamp * 4194304 + worker * 4096 + sequence
  {
    Widths();
    assert InWindow(Sibling, [stamp]);
    MakeIdIsPlain(Sibling, worker, stamp, sequence);
  }

  lemma Widths()
    ensures Pow2(10) == 1024 && Pow2(12) == 4096 && Pow2(13) == 8192
    ensures Pow2(13 + 10) == 8388608 && Pow2(12 + 10) == 4194304
  {
    assert Pow2(10) == 1024;
    assert Pow2(12) == 4096;
    Pow2Add(13, 10);
    Pow2Add(12, 10);
  }

  // ---------------------------------------------------------------- busy milliseconds, and the sibling's flaw

  lemma OneMoreInMillisecond(L: Layout, worker: nat, t: nat, s: nat, more: seq<nat>)
    requires s + 1 < Pow2(L.seqBits)
    ensures Ids(L, worker, Gen(t, s), [t] + more)
         == [MakeId(L, worker, t, s + 1)] + Ids(L, worker, Gen(t, s + 1), more)
  {
    assert ([t] + more)[1..] == more;
    AndMask(s + 1, L.seqBits);
    MaskedNext(s, Pow2(L.seqBits));
  }

  function Batch(L: Layout, worker: nat, t: nat, from: nat, n: nat): (ids: seq<nat>)
    ensures |ids| == n
    decreases n
  {
    if n == 0 then [] else [MakeId(L, worker, t, from)] + Batch(L, worker, t, from + 1, n - 1)
  }

  lemma Prepend(x: nat, a: seq<nat>, b: seq<nat>)
    ensures ([x] + a) + b == [x] + (a + b)
  {
  }

  /** n readings of t, and then the rest. */
  function Burst(t: nat, n: nat, rest: seq<nat>): seq<nat> {
    if n == 0 then rest else [t] + Burst(t, n - 1, rest)
  }

  lemma {:induction false} BurstIs(t: nat, n: nat, rest: seq<nat>)
    ensures Burst(t, n, rest) == seq(n, _ => t) + rest
  {
    if n > 0 {
      BurstIs(t, n - 1, rest);
      assert seq(n, _ => t) == [t] + seq(n - 1, _ => t);
      Prepend(t, seq(n - 1, _ => t), rest);
    } else {
      assert seq(0, _ => t) + rest == rest;
    }
  }

  lemma OneOfBurst(L: Layout, worker: nat, t: nat, s: nat, n: nat, rest: seq<nat>, batch: seq<nat>, after: seq<nat>)
    requires s + 1 < Pow2(L.seqBits) && n > 0
    requires Ids(L, worker, Gen(t, s + 1), Burst(t, n - 1, rest)) == batch + after
    ensures Ids(L, worker, Gen(t, s), Burst(t, n, rest)) == ([MakeId(L, worker, t, s + 1)] + batch) + after
  {
    OneMoreInMillisecond(L, worker, t, s, Burst(t, n - 1, rest));
    Prepend(MakeId(L, worker, t, s + 1), batch, after);
  }

  /**
    n further readings of the same millisecond issue n ids with the next n sequence numbers, as
    long as there are that many.
  */
  lemma {:induction false} SameMillisecond(L: Layout, worker: nat, t: nat, s: nat, n: nat, rest: seq<nat>)
    requires s + n < Pow2(L.seqBits)
    ensures Ids(L, worker, Gen(t, s), Burst(t, n, rest))
         == Batch(L, worker, t, s + 1, n) + Ids(L, worker, Gen(t, s + n), rest)
    decreases n
  {
    var after := Ids(L, worker, Gen(t, s + n), rest);
    if n == 0 {
      assert [] + after == after;
    } else {
      SameMillisecond(L, worker, t, s + 1, n - 1, rest);
      OneOfBurst(L, worker, t, s, n, rest, Batch(L, worker, t, s + 2, n - 1), after);
    }
  }

  lemma FirstInMillisecond(L: Layout, worker: nat, g: Gen, t: nat, more: seq<nat>)
    requires g.last < t
    ensures Ids(L, worker, g, [t] + more) == [MakeId(L, worker, t, 0)] + Ids(L, worker, Gen(t, 0), more)
  {
    assert ([t] + more)[1..] == more;
  }

  /** A later millisecond starts again at sequence number 0, and all its numbers can be used. */
  lemma WholeMillisecond(L: Layout, worker: nat, g: Gen, t: nat, n: nat, rest: seq<nat>)
    requires g.last < t && n < Pow2(L.seqBits)
    ensures Ids(L, worker, g, [t] + (seq(n, _ => t) + rest))
         == Batch(L, worker, t, 0, n + 1) + Ids(L, worker, Gen(t, n), rest)
  {
    BurstIs(t, n, rest);
    FirstInMillisecond(L, worker, g, t, Burst(t, n, rest));
    SameMillisecond(L, worker, t, 0, n, rest);
    Prepend(MakeId(L, worker, t, 0), Batch(L, worker, t, 1, n), Ids(L, worker, Gen(t, n), rest));
  }

  lemma FirstAndLast(x: nat, batch: seq<nat>, n: nat)
    requires |batch| == n
    ensures var ids := [x] + (batch + [x]); |ids| == n + 2 && ids[0] == ids[n + 1]
  {
  }

  /** Millisecond 5 once, 6 for all its numbers, and in the wait after that the clock steps back to 5. */
  lemma RepeatAfterBurst(worker: nat, n: nat)
    requires n == 4095
    ensures var ids := Ids(Sibling, worker, Start, [5] + ([6] + (seq(n, _ => 6) + [6, 5])));
      |ids| == n + 3 && ids[0] == ids[n + 2]
  {
    var tail := seq(n, _ => 6) + [6, 5];
    FirstInMillisecond(Sibling, worker, Start, 5, [6] + tail);
    assert Pow2(12) == 4096;
    WholeMillisecond(Sibling, worker, Gen(5, 0), 6, n, [6, 5]);
    LastOfBurst(worker);
    FirstAndLast(MakeId(Sibling, worker, 5, 0), Batch(Sibling, worker, 6, 0, n + 1), n + 1);
  }

  /** If the clock steps back during the wait, SnowflakeIDGenerator issues an id a second time. */
  lemma SiblingRepeats(worker: nat) returns (clock: seq<nat>)
    ensures clock == [5] + ([6] + (seq(4095, _ => 6) + [6, 5]))
    ensures var ids := Ids(Sibling, worker, Start, clock); |ids| == 4098 && ids[0] == ids[4097]
  {
    var n := 4095;
    RepeatAfterBurst(worker, n);
    clock := [5] + ([6] + (seq(n, _ => 6) + [6, 5]));
  }

  lemma LastOfBurst(worker: nat)
    ensures Ids(Sibling, worker, Gen(6, 4095), [6, 5]) == [MakeId(Sibling, worker, 5, 0)]
  {
    assert Pow2(12) == 4096;
    AndMask(4096, 12);
    MaskedNext(4095, 4096);
    assert [6, 5][1..] == [5];
    assert WaitNext(Sibling, 6, [5]) == Some((5, []));
  }

  // ---------------------------------------------------------------- the objects

  class Generator {
    const L: Layout
    const worker: nat
    var lastTimestamp: nat
    var sequence: nat
    var clock: seq<nat>    // readings still to come

    ghost function View(): Gen
      reads this
    {
      Gen(lastTimestamp, sequence)
    }

    constructor (L: Layout, worker: nat, clock: seq<nat>)
      ensures View() == Start && this.L == L && this.worker == worker && this.clock == clock
    {
      this.L, this.worker, this.clock := L, worker, clock;
      lastTimestamp, sequence := 0, 0;
    }

    /** wait_for_next_ms, or the sibling's inner loop; None if the script ends first. */
    method Wait(last: nat) returns (t: Option<nat>)
      modifies this`clock
      ensures match WaitNext(L, last, old(clock))
        case None => t == None && clock == []
        case Some(w) => t == Some(w.0) && clock == w.1
    {
      while clock != []
        invariant WaitNext(L, last, clock) == WaitNext(L, last, old(clock))
        decreases |clock|
      {
        var timestamp := clock[0];
        clock := clock[1..];
        if (if L.waitsPast then timestamp > last else timestamp != last) {
          return Some(timestamp);
        }
      }
      t := None;
    }

    method NextId() returns (o: Outcome)
      modifies this
      ensures Call(View(), o, clock) == Next(L, worker, old(View()), old(clock))
    {
      if clock == [] {
        return Pending;
      }
      var timestamp := clock[0];
      clock := clock[1..];
      if timestamp < lastTimestamp {
        return Refused;
      }
      if timestamp == lastTimestamp {
        sequence := BitAnd(sequence + 1, Pow2(L.seqBits) - 1);
        if sequence == 0 {
          var next := Wait(lastTimestamp);
          if next == None {
            return Pending;
          }
          timestamp := next.value;
        }
      } else {
        sequence := 0;
      }
      lastTimestamp := timestamp;
      o := Issued(MakeId(L, worker, timestamp, sequence));
    }
  }
}
