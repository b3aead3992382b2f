/**
  DoubleBufferMap: readers take the index of the active buffer without a lock, a writer
  builds the next map in the other buffer and then switches the index. The copy is any
  number of steps, and until it is complete the buffer may hold anything at all.
*/
module DoubleBuffer {
  type Table = map<nat, int>

  datatype Writer = Resting | Copying(next: Table) | Copied(next: Table)

  /** `published` are the maps made active so far, the empty one first; `begun` counts the copies started. */
  datatype State = State(buffers: seq<Table>, current: nat, writer: Writer, published: seq<Table>, begun: nat)

  datatype Step =
    | Begin(next: Table)       // the lock is taken, the write index chosen
    | Scribble(mess: Table)    // part of the copy
    | Complete                 // the copy is finished
    | Publish                  // the index is stored, the lock released

  const Init := State([map[], map[]], 0, Resting, [map[]], 0)

  predicate Enabled(s: State, step: Step) {
    match step
    case Begin(_) => s.writer.Resting?
    case Scribble(_) => s.writer.Copying?
    case Complete => s.writer.Copying?
    case Publish => s.writer.Copied?
  }

  function Do(s: State, step: Step): State
    requires Enabled(s, step) && |s.buffers| == 2 && s.current < 2
  {
    match step
    case Begin(next) => s.(writer := Copying(next), begun := s.begun + 1)
    case Scribble(mess) => s.(buffers := s.buffers[1 - s.current := mess])
    case Complete => s.(buffers := s.buffers[1 - s.current := s.writer.next], writer := Copied(s.writer.next))
    case Publish => s.(current := 1 - s.current, writer := Resting, published := s.published + [s.writer.next])
  }

  /** The number of the publication now active. */
  function Epoch(s: State): int { |s.published| - 1 }

  predicate Inv(s: State) {
    && |s.buffers| == 2 && |s.published| > 0
    && s.current == Epoch(s) % 2
    && s.begun == Epoch(s) + (if s.writer.Resting? then 0 else 1)
    && s.buffers[s.current] == s.published[Epoch(s)]
    && (s.writer.Resting? && Epoch(s) > 0 ==> s.buffers[1 - s.current] == s.published[Epoch(s) - 1])
    && (s.writer.Copied? ==> s.buffers[1 - s.current] == s.writer.next)
  }

  predicate Allowed(s: State, steps: seq<Step>)
    requires |s.buffers| == 2 && s.current < 2
    decreases |steps|
  {
    steps == [] || (Enabled(s, steps[0]) && Allowed(Do(s, steps[0]), steps[1..]))
  }

  function Run(s: State, steps: seq<Step>): State
    requires |s.buffers| == 2 && s.current < 2 && Allowed(s, steps)
    decreases |steps|
  {
    if steps == [] then s else Run(Do(s, steps[0]), steps[1..])
  }

  /** The invariant holds throughout, and publications are only ever added. */
  lemma {:induction false} RunInv(s: State, steps: seq<Step>)
    requires Inv(s) && Allowed(s, steps)
    ensures var t := Run(s, steps);
      Inv(t) && |s.published| <= |t.published| && t.published[..|s.published|] == s.published
    decreases |steps|
  {
    if steps != [] {
      var s1 := Do(s, steps[0]);
      RunInv(s1, steps[1..]);
      var t := Run(s, steps);
      assert t.published[..|s1.published|][..|s.published|] == t.published[..|s.published|];
    }
  }

  /** The active buffer is always the last map published, at every point of an update. */
  lemma ActiveIsPublished(steps: seq<Step>)
    requires Allowed(Init, steps)
    ensures var s := Run(Init, steps);
      |s.buffers| == 2 && s.current < 2 && |s.published| > 0 && s.buffers[s.current] == s.published[|s.published| - 1]
  {
    RunInv(Init, steps);
  }

  /**
    A reader that loads the index and then looks up later, while any number of writer
    steps go by, still sees the map that was active when it loaded, until the second
    update after that one begins its copy.
  */
  lemma ReaderIsolated(before: seq<Step>, after: seq<Step>)
    requires Allowed(Init, before) && |Run(Init, before).buffers| == 2 && Run(Init, before).current < 2
    requires Allowed(Run(Init, before), after)
    ensures var s := Run(Init, before);
      var t := Run(s, after);
      && |s.published| > 0 && |t.buffers| == 2
      && (t.begun <= |s.published| ==> t.buffers[s.current] == s.published[|s.published| - 1])
  {
    RunInv(Init, before);
    var s := Run(Init, before);
    RunInv(s, after);
    var t := Run(s, after);
    assert t.published[..|s.published|][Epoch(s)] == t.published[Epoch(s)];
  }

  lemma RunFirst(s: State, step: Step, rest: seq<Step>)
    requires |s.buffers| == 2 && s.current < 2 && Enabled(s, step)
    requires Allowed(Do(s, step), rest)
    ensures Allowed(s, [step] + rest) && Run(s, [step] + rest) == Run(Do(s, step), rest)
  {
    assert ([step] + rest)[1..] == rest;
  }

  /**
    Once the second update after that load is copying, the reader's buffer is the one being
    written, and may become anything.
  */
  lemma SecondCopyReachesReader(before: seq<Step>, after: seq<Step>, mess: Table)
    requires Allowed(Init, before) && |Run(Init, before).buffers| == 2 && Run(Init, before).current < 2
    requires Allowed(Run(Init, before), after)
    requires var s, t := Run(Init, before), Run(Run(Init, before), after);
      t.begun == |s.published| + 1 && t.writer.Copying?
    ensures var s, t := Run(Init, before), Run(Run(Init, before), after);
      && Enabled(t, Scribble(mess)) && |t.buffers| == 2 && t.current < 2
      && Do(t, Scribble(mess)).buffers[s.current] == mess
  {
    RunInv(Init, before);
    RunInv(Run(Init, before), after);
  }

  /** Such a state is reached: one copy more, and the buffer the first reader holds contains anything. */
  lemma ExposureRun(a: Table, b: Table, mess: Table) returns (steps: seq<Step>)
    ensures steps == [Begin(a), Complete, Publish, Begin(b), Scribble(mess)]
    ensures Allowed(Init, steps)
    ensures var t := Run(Init, steps);
      t.begun == |Init.published| + 1 && |t.buffers| == 2 && t.buffers[Init.current] == mess
  {
    var s1 := Do(Init, Begin(a));
    var s2 := Do(s1, Complete);
    var s3 := Do(s2, Publish);
    var s4 := Do(s3, Begin(b));
    steps := [];
    RunFirst(s4, Scribble(mess), steps);
    steps := [Scribble(mess)] + steps;
    RunFirst(s3, Begin(b), steps);
    steps := [Begin(b)] + steps;
    RunFirst(s2, Publish, steps);
    steps := [Publish] + steps;
    RunFirst(s1, Complete, steps);
    steps := [Complete] + steps;
    RunFirst(Init, Begin(a), steps);
    steps := [Begin(a)] + steps;
  }

  class DoubleBufferMap {
    var buffers: seq<Table>
    var current: nat
    ghost var published: seq<Table>

    ghost function View(): State
      reads this
    {
      State(buffers, current, Resting, published, |published| as int - if published == [] then 0 else 1)
    }

    constructor ()
      ensures View() == Init
    {
      buffers, current, published := [map[], map[]], 0, [map[]];
    }

    method Find(id: nat) returns (found: bool, data: int)
      requires Inv(View())
      ensures var m := published[|published| - 1]; found == (id in m) && (found ==> data == m[id])
    {
      var active := buffers[current];
      found := id in active;
      data := if found then active[id] else 0;
    }

    method Update(newMap: Table)
      requires Inv(View())
      modifies this
      ensures Inv(View()) && published == old(published) + [newMap] && current != old(current)
      ensures buffers[old(current)] == old(buffers)[old(current)]
    {
      var writeIndex := 1 - current;
      buffers := buffers[writeIndex := newMap];
      current := writeIndex;
      published := published + [newMap];
    }
  }
}
