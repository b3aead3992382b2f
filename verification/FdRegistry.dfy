/**
  FDSocketRegistry: sockets found by descriptor in a vector and by id in a map. Ids come
  from a 64-bit counter that starts at 1 and wraps around.
*/
module FdRegistry {
  const ID_RANGE: nat := 0x1_0000_0000_0000_0000

  type Id = k: nat | k < ID_RANGE

  /** The record both containers share. */
  class SocketData {
    const id: Id
    const fileDescriptor: int

    constructor (id: Id, fd: int)
      ensures this.id == id && fileDescriptor == fd
    {
      this.id, fileDescriptor := id, fd;
    }
  }

  /** The two containers are inverse to each other. */
  predicate Mutual(fds: seq<SocketData?>, ids: map<Id, SocketData>) {
    && (forall fd :: 0 <= fd < |fds| && fds[fd] != null ==>
          fds[fd].fileDescriptor == fd && fds[fd].id in ids && ids[fds[fd].id] == fds[fd])
    && (forall id :: id in ids ==>
          var d := ids[id]; d.id == id && 0 <= d.fileDescriptor < |fds| && fds[d.fileDescriptor] == d)
  }

  /** Which descriptor is registered under which id. */
  function Listing(fds: seq<SocketData?>): map<int, Id> {
    map fd | 0 <= fd < |fds| && fds[fd] != null :: fds[fd].id
  }

  /** Some descriptor other than fd is registered under the id. */
  predicate Taken(listing: map<int, Id>, fd: int, id: Id) {
    exists gd :: gd in listing && gd != fd && listing[gd] == id
  }

  lemma DropKeeps(fds: seq<SocketData?>, ids: map<Id, SocketData>, fd: nat)
    requires Mutual(fds, ids) && fd < |fds| && fds[fd] != null
    ensures Mutual(fds[fd := null], ids - {fds[fd].id})
  {
  }

  /** A record put into an empty slot and into the map keeps them inverse exactly when no record has its id yet. */
  lemma AddedExactly(fds: seq<SocketData?>, ids: map<Id, SocketData>, d: SocketData)
    requires Mutual(fds, ids)
    requires 0 <= d.fileDescriptor < |fds| && fds[d.fileDescriptor] == null
    ensures Mutual(fds[d.fileDescriptor := d], ids[d.id := d]) <==> d.id !in ids
  {
    if d.id in ids {
      var e := ids[d.id];
      assert fds[d.fileDescriptor := d][e.fileDescriptor] == e && e != d;
    }
  }

  /** An id is in the map exactly when some descriptor is listed under it. */
  lemma LiveIsListed(fds: seq<SocketData?>, ids: map<Id, SocketData>, fd: nat, id: Id)
    requires Mutual(fds, ids) && fd < |fds| && fds[fd] == null
    ensures id in ids <==> Taken(Listing(fds), fd, id)
  {
    if id in ids {
      var gd := ids[id].fileDescriptor;
      assert gd in Listing(fds) && Listing(fds)[gd] == id;
    }
  }

  lemma Overwrites(m: map<int, Id>, fd: int, id: Id)
    ensures (m - {fd})[fd := id] == m[fd := id]
    ensures Taken(m - {fd}, fd, id) <==> Taken(m, fd, id)
  {
    if Taken(m, fd, id) {
      var gd :| gd in m && gd != fd && m[gd] == id;
      assert gd in m - {fd};
    }
  }

  class Registry {
    var fdToData: seq<SocketData?>
    var idToData: map<Id, SocketData>
    var nextId: Id

    ghost predicate Valid()
      reads this
    {
      Mutual(fdToData, idToData)
    }

    ghost function Ids(): map<int, Id>
      reads this
    {
      Listing(fdToData)
    }

    constructor ()
      ensures Valid() && Ids() == map[] && nextId == 1
    {
      fdToData, idToData, nextId := [], map[], 1;
    }

    /**
      The descriptor gets the counter's value as its id, also when it was still registered
      and whatever state the containers are in. Containers that were consistent stay so
      exactly when no other descriptor holds that id, as one may once the counter has wrapped.
    */
    method Register(fd: int)
      modifies this
      ensures fd < 0 ==> unchanged(this)
      ensures fd >= 0 ==> Ids() == old(Ids())[fd := old(nextId)] && nextId == (old(nextId) + 1) % ID_RANGE
      ensures old(Valid()) ==> (Valid() <==> fd < 0 || !Taken(old(Ids()), fd, old(nextId)))
    {
      if fd < 0 {
        return;
      }
      ghost var fds := MakeRoom(fd);
      var newId := nextId;
      nextId := (nextId + 1) % ID_RANGE;
      var data := new SocketData(newId, fd);
      Overwrites(old(Ids()), fd, newId);
      if old(Valid()) {
        AddedExactly(fds, idToData, data);
        LiveIsListed(fds, idToData, fd, newId);
      }
      assert fdToData[fd := data] == fds[fd := data];
      fdToData := fdToData[fd := data];
      idToData := idToData[newId := data];
      assert Ids() == Listing(fds)[fd := newId];
    }

    /** The first half of register_socket: the vector reaches fd, and an id it still has is forgotten. */
    method MakeRoom(fd: nat) returns (ghost fds: seq<SocketData?>)
      modifies this`fdToData, this`idToData
      ensures fd < |fdToData| == |fds| && fds == fdToData[fd := null]
      ensures old(Valid()) ==> Mutual(fds, idToData)
      ensures Listing(fds) == old(Ids()) - {fd}
    {
      if fd >= |fdToData| {
        fdToData := fdToData + seq(fd + 1 - |fdToData|, _ => null);
      }
      fds := fdToData[fd := null];
      if fdToData[fd] != null {
        if old(Valid()) {
          DropKeeps(fdToData, idToData, fd);
        }
        idToData := idToData - {fdToData[fd].id};
      } else {
        assert fds == fdToData;
      }
    }

    method Unregister(fd: int)
      modifies this
      ensures Ids() == old(Ids()) - {fd} && nextId == old(nextId)
      ensures old(Valid()) ==> Valid()
    {
      if fd < 0 || fd >= |fdToData| || fdToData[fd] == null {
        return;
      }
      if old(Valid()) {
        DropKeeps(fdToData, idToData, fd);
      }
      idToData := idToData - {fdToData[fd].id};
      fdToData := fdToData[fd := null];
    }

    method Apply(op: Op)
      modifies this
      ensures Ids() == Then(old(Ids()), op, old(nextId))
      ensures nextId == if Issues(op) then (old(nextId) + 1) % ID_RANGE else old(nextId)
      ensures old(Valid()) ==> (Valid() <==> Fitting(old(Ids()), op, old(nextId)))
    {
      match op {
        case Reg(fd) => Register(fd);
        case Unreg(fd) => Unregister(fd);
      }
    }

    function FindByFd(fd: int): SocketData?
      reads this
    {
      if 0 <= fd < |fdToData| then fdToData[fd] else null
    }

    function FindById(id: Id): SocketData?
      reads this
    {
      if id in idToData then idToData[id] else null
    }

    /** The two searches agree: each finds the record the other does, and nothing else. */
    lemma FindsAgree(fd: int, id: Id)
      requires Valid()
      ensures (FindByFd(fd) != null && FindByFd(fd).id == id) <==>
        (FindById(id) != null && FindById(id).fileDescriptor == fd)
      ensures FindByFd(fd) != null ==> FindById(FindByFd(fd).id) == FindByFd(fd)
      ensures FindById(id) != null ==> FindByFd(FindById(id).fileDescriptor) == FindById(id)
      ensures FindByFd(fd) != null <==> fd in Ids()
      ensures FindByFd(fd) != null ==> FindByFd(fd).id == Ids()[fd]
    {
    }

    /** No two descriptors share an id. */
    lemma IdsDistinct(fd: int, gd: int)
      requires Valid() && fd in Ids() && gd in Ids()
      ensures Ids()[fd] == Ids()[gd] <==> fd == gd
    {
    }
  }

  // ---------------------------------------------------------------- whole runs

  datatype Op = Reg(fd: int) | Unreg(fd: int)

  /** Operations that issue an id. */
  predicate Issues(op: Op) {
    op.Reg? && op.fd >= 0
  }

  /** How many ids a run has issued. */
  function Issued(ops: seq<Op>): nat {
    if ops == [] then 0
    else Issued(ops[..|ops| - 1]) + (if Issues(ops[|ops| - 1]) then 1 else 0)
  }

  /** The id a registration at position i gets. */
  function IdAt(ops: seq<Op>, i: nat): Id
    requires i <= |ops|
  {
    (Issued(ops[..i]) + 1) % ID_RANGE
  }

  /** Operation i registered the descriptor, and no later one concerns it. */
  predicate LastRegistered(ops: seq<Op>, i: int, fd: int) {
    && 0 <= i < |ops| && ops[i] == Reg(fd) && fd >= 0
    && forall j :: i < j < |ops| ==> ops[j].fd != fd
  }

  function Then(listing: map<int, Id>, op: Op, id: Id): map<int, Id> {
    if op.Unreg? then listing - {op.fd} else if op.fd < 0 then listing else listing[op.fd := id]
  }

  /** What a run leaves registered: each registration gives its descriptor the next number. */
  function Replay(ops: seq<Op>): map<int, Id> {
    if ops == [] then map[]
    else
      var n := |ops| - 1;
      Then(Replay(ops[..n]), ops[n], IdAt(ops, n))
  }

  /** The operation does not take an id that another descriptor holds at that moment. */
  predicate Fitting(listing: map<int, Id>, op: Op, id: Id) {
    Issues(op) ==> !Taken(listing, op.fd, id)
  }

  /** All operations of the run are fitting. */
  predicate Clean(ops: seq<Op>) {
    ops == [] ||
    var n := |ops| - 1;
    Clean(ops[..n]) && Fitting(Replay(ops[..n]), ops[n], IdAt(ops, n))
  }

  /**
    A descriptor is registered exactly when its last operation registered it, under the number
    of that registration.
  */
  lemma {:induction false} ReplayLookup(ops: seq<Op>, fd: int)
    ensures fd in Replay(ops) <==> exists i :: LastRegistered(ops, i, fd)
    ensures forall i :: LastRegistered(ops, i, fd) ==> Replay(ops)[fd] == IdAt(ops, i)
  {
    if ops != [] {
      var n := |ops| - 1;
      var init := ops[..n];
      ReplayLookup(init, fd);
      if ops[n].fd == fd {
        if ops[n].Reg? && fd >= 0 {
          assert LastRegistered(ops, n, fd);
        }
        assert fd < 0 ==> forall i :: !LastRegistered(init, i, fd);
      } else {
        forall i ensures LastRegistered(ops, i, fd) <==> LastRegistered(init, i, fd) {
          assert 0 <= i < n ==> init[i] == ops[i];
        }
        forall i | LastRegistered(init, i, fd) ensures init[..i] == ops[..i] {
        }
      }
    }
  }

  lemma {:induction false} IssuedGrows(ops: seq<Op>, i: nat, j: nat)
    requires i <= j <= |ops|
    ensures Issued(ops[..i]) <= Issued(ops[..j])
    decreases j
  {
    if i < j {
      IssuedGrows(ops, i, j - 1);
      assert ops[..j][..j - 1] == ops[..j - 1];
    }
  }

  /** The registration that issued the m-th id of a run. */
  lemma {:induction false} Nth(ops: seq<Op>, m: nat) returns (i: nat)
    requires 1 <= m <= Issued(ops)
    ensures i < |ops| && Issues(ops[i]) && Issued(ops[..i]) + 1 == m
  {
    var n := |ops| - 1;
    if Issued(ops) == m && Issues(ops[n]) {
      i := n;
    } else {
      i := Nth(ops[..n], m);
      assert ops[..n][..i] == ops[..i];
    }
  }

  lemma IssuedLater(ops: seq<Op>, i: nat, j: nat)
    requires i < j <= |ops| && Issues(ops[i])
    ensures Issued(ops[..i]) < Issued(ops[..j])
  {
    assert ops[..i + 1][..i] == ops[..i];
    IssuedGrows(ops, i + 1, j);
  }

  /** An id is issued for the first time exactly when fewer than 2 to the 64 were issued before it. */
  lemma NewExactly(ops: seq<Op>, j: nat)
    requires j <= |ops|
    ensures (forall i :: 0 <= i < j && Issues(ops[i]) ==> IdAt(ops, i) != IdAt(ops, j)) <==> Issued(ops[..j]) < ID_RANGE
  {
    if Issued(ops[..j]) < ID_RANGE {
      forall i | 0 <= i < j && Issues(ops[i]) ensures IdAt(ops, i) != IdAt(ops, j) {
        IssuedLater(ops, i, j);
      }
    } else {
      var i := Nth(ops[..j], Issued(ops[..j]) + 1 - ID_RANGE);
      assert ops[..j][..i] == ops[..i];
      assert IdAt(ops, i) == IdAt(ops, j);
    }
  }

  /** A run of at most 2 to the 64 registrations is clean: it never meets a used id. */
  lemma {:induction false} CleanWhenShort(ops: seq<Op>)
    requires Issued(ops) <= ID_RANGE
    ensures Clean(ops)
  {
    if ops != [] {
      var n := |ops| - 1;
      CleanWhenShort(ops[..n]);
      if Issues(ops[n]) {
        NewExactly(ops, n);
        NewIsFree(ops, n);
      }
    }
  }

  lemma NewIsFree(ops: seq<Op>, i: nat)
    requires i < |ops|
    requires forall h :: 0 <= h < i && Issues(ops[h]) ==> IdAt(ops, h) != IdAt(ops, i)
    ensures !Taken(Replay(ops[..i]), ops[i].fd, IdAt(ops, i))
  {
    var before := ops[..i];
    forall gd | gd in Replay(before) ensures Replay(before)[gd] != IdAt(ops, i) {
      ReplayLookup(before, gd);
      var h :| LastRegistered(before, h, gd);
      assert before[..h] == ops[..h] && before[h] == ops[h];
      assert Replay(before)[gd] == IdAt(before, h) == IdAt(ops, h);
    }
  }

  /**
    Any run on a new registry lists what Replay says. If it has been clean so far, the
    containers are consistent after its last operation exactly when that one was fitting too.
  */
  method Perform(ops: seq<Op>) returns (r: Registry)
    ensures fresh(r) && r.Ids() == Replay(ops) && r.nextId == IdAt(ops, |ops|)
    ensures ops == [] || Clean(ops[..|ops| - 1]) ==> (r.Valid() <==> Clean(ops))
  {
    r := new Registry();
    ghost var listing, clean, wasClean := map[], true, true;
    for n := 0 to |ops|
      invariant fresh(r) && r.Ids() == listing && r.nextId == IdAt(ops, n)
      invariant listing == Replay(ops[..n]) && clean == Clean(ops[..n]) && (n > 0 ==> wasClean == Clean(ops[..n - 1]))
      invariant (clean ==> wasClean) && (wasClean ==> (r.Valid() <==> clean))
    {
      OneMore(ops, n);
      wasClean, clean := clean, clean && Fitting(listing, ops[n], IdAt(ops, n));
      listing := Then(listing, ops[n], IdAt(ops, n));
      r.Apply(ops[n]);
    }
    assert ops[..|ops|] == ops;
  }

  lemma OneMore(ops: seq<Op>, i: nat)
    requires i < |ops|
    ensures Replay(ops[..i + 1]) == Then(Replay(ops[..i]), ops[i], IdAt(ops, i))
    ensures IdAt(ops, i + 1) == if Issues(ops[i]) then (IdAt(ops, i) + 1) % ID_RANGE else IdAt(ops, i)
    ensures Clean(ops[..i + 1]) == (Clean(ops[..i]) && Fitting(Replay(ops[..i]), ops[i], IdAt(ops, i)))
  {
    var after := ops[..i + 1];
    assert after != [] && |after| - 1 == i && after[..i] == ops[..i] && after[i] == ops[i];
    assert IdAt(after, i) == IdAt(ops, i);
    Counting(Issued(ops[..i]));
  }

  lemma Counting(n: nat)
    ensures (n + 2) % ID_RANGE == ((n + 1) % ID_RANGE + 1) % ID_RANGE
  {
  }

  lemma {:induction false} BusyRun(n: nat)
    ensures var ops := [Reg(0)] + seq(n, _ => Reg(1));
      Issued(ops) == n + 1 && 0 in Replay(ops) && Replay(ops)[0] == 1
  {
    var ops := [Reg(0)] + seq(n, _ => Reg(1));
    if n == 0 {
      assert ops == [Reg(0)] && ops[..0] == [];
    } else {
      BusyRun(n - 1);
      assert ops[..n] == [Reg(0)] + seq(n - 1, _ => Reg(1));
    }
  }

  /**
    Descriptor 0 registered once and descriptor 1 again and again: with registration
    number 2 to the 64 plus 1, id 1 comes round while descriptor 0 still holds it. That
    is the first operation of the run that is not clean, and it leaves the map wrong.
  */
  lemma WrapLosesConsistency(n: nat)
    requires n == ID_RANGE
    ensures var ops := [Reg(0)] + seq(n, _ => Reg(1));
      Clean(ops[..n]) && !Clean(ops)
  {
    var ops := [Reg(0)] + seq(n, _ => Reg(1));
    assert ops[..n] == [Reg(0)] + seq(n - 1, _ => Reg(1));
    BusyRun(n - 1);
    BusyRun(n);
    CleanWhenShort(ops[..n]);
    assert IdAt(ops, n) == 1 && ops[n] == Reg(1);
    assert !Fitting(Replay(ops[..n]), ops[n], IdAt(ops, n));
  }
}
