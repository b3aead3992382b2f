/** MessageParser: the parser object and its send loops over a scripted socket. */
module MessageParser {
  import opened Common
  import opened Framing

  // ---------------------------------------------------------------- one attempt per read

  /** How many items a buffer made of these chunks holds. */
  function Complete(chunks: seq<Bytes>): nat {
    |Parse(Concat(chunks))|
  }

  /** readMessage makes one parsing attempt per chunk received, so at most one more item per chunk is consumed. */
  function Served(chunks: seq<Bytes>): (n: nat)
    ensures n <= Complete(chunks)
  {
    if chunks == [] then 0
    else
      var reach := Served(chunks[..|chunks| - 1]) + 1;
      if reach <= Complete(chunks) then reach else Complete(chunks)
  }

  lemma {:induction false} ServedBound(chunks: seq<Bytes>, j: nat)
    requires j <= |chunks|
    ensures Served(chunks) <= Complete(chunks[..j]) + (|chunks| - j)
    decreases |chunks|
  {
    var n := |chunks|;
    if j == n {
      assert chunks[..n] == chunks;
    } else {
      ServedBound(chunks[..n - 1], j);
      assert chunks[..n - 1][..j] == chunks[..j];
    }
  }

  lemma {:induction false} ServedWitness(chunks: seq<Bytes>) returns (j: nat)
    ensures j <= |chunks| && Served(chunks) == Complete(chunks[..j]) + (|chunks| - j)
    decreases |chunks|
  {
    var n := |chunks|;
    if n == 0 || Served(chunks) == Complete(chunks) {
      j := n;
      assert chunks[..n] == chunks;
    } else {
      j := ServedWitness(chunks[..n - 1]);
      assert chunks[..n - 1][..j] == chunks[..j];
    }
  }

  /** The items consumed by then. */
  function Consumed(chunks: seq<Bytes>): seq<Item> {
    Parse(Concat(chunks))[..Served(chunks)]
  }

  /** No recent stretch of reads brought more items, counted up to the last message, than it had reads. */
  predicate KeptUp(chunks: seq<Bytes>) {
    forall j :: 0 <= j <= |chunks| ==> Needed(Parse(Concat(chunks))) <= Complete(chunks[..j]) + (|chunks| - j)
  }

  /**
    Every message received has been returned exactly under that condition; otherwise complete
    messages stay in the buffer.
  */
  lemma KeepsUp(chunks: seq<Bytes>)
    ensures Frames(Consumed(chunks)) == Frames(Parse(Concat(chunks))) <==> KeptUp(chunks)
  {
    NeededSuffices(Parse(Concat(chunks)), Served(chunks));
    if Needed(Parse(Concat(chunks))) <= Served(chunks) {
      forall j | 0 <= j <= |chunks|
        ensures Needed(Parse(Concat(chunks))) <= Complete(chunks[..j]) + (|chunks| - j)
      {
        ServedBound(chunks, j);
      }
    } else {
      var j := ServedWitness(chunks);
    }
  }

  lemma ConcatAppend(chunks: seq<Bytes>, c: Bytes)
    ensures Concat(chunks + [c]) == Concat(chunks) + c
  {
    assert (chunks + [c])[..|chunks|] == chunks;
  }

  lemma ServedAppend(chunks: seq<Bytes>, c: Bytes)
    ensures Served(chunks + [c]) ==
      if Served(chunks) + 1 <= Complete(chunks + [c]) then Served(chunks) + 1 else Complete(chunks + [c])
  {
    assert (chunks + [c])[..|chunks|] == chunks;
  }

  /** With the items `done` consumed, the next attempt yields the next item of the batch parse, if there is one. */
  lemma NextAttempt(buf: Bytes, done: seq<Item>)
    requires ValidItems(done) && |EncodeItems(done)| <= |buf| && buf[..|EncodeItems(done)|] == EncodeItems(done)
    ensures var rest := buf[|EncodeItems(done)|..];
      var a := TryParse(rest);
      && Parse(buf) == done + Parse(rest)
      && (a.Got? <==> |Parse(buf)| > |done|)
      && (a.Got? ==> a.item == Parse(buf)[|done|])
  {
    var rest := buf[|EncodeItems(done)|..];
    ParseComplete(done, rest);
    assert EncodeItems(done) + rest == buf;
    if TryParse(rest).Got? {
      EncodeOfParse(rest);
    }
  }

  /** And the cursor then stands behind that item's bytes. */
  lemma NextBytes(buf: Bytes, done: seq<Item>, p: nat)
    requires ValidItems(done) && p == |EncodeItems(done)| <= |buf| && buf[..p] == EncodeItems(done)
    requires TryParse(buf[p..]).Got?
    ensures var a := TryParse(buf[p..]);
      && p + a.size == |EncodeItems(done + [a.item])| <= |buf|
      && ValidItems(done + [a.item]) && buf[..p + a.size] == EncodeItems(done + [a.item])
  {
    var rest := buf[p..];
    var a := TryParse(rest);
    EncodeOfParse(rest);
    EncodeItemsAppend(done, [a.item]);
    assert EncodeItems([a.item]) == EncodeItem(a.item);
    SplitTwice(buf, p, a.size);
  }

  // ---------------------------------------------------------------- the transport

  /** A successful recv fills part of the 1024-byte temporary buffer. */
  const CHUNK_MAX: nat := 1024
  type Chunk = c: Bytes | 1 <= |c| <= CHUNK_MAX witness [0]

  datatype Recv = Data(bytes: Chunk) | Eof | TimedOut | Failed

  /**
    A socket whose peer and kernel are scripted: `incoming` are the results of future
    recv calls (after the last, the connection is closed), `room` the numbers of bytes
    the kernel is willing to take at future send calls, or an error if not positive.
  */
  class Socket {
    var incoming: seq<Recv>
    var room: seq<int>
    var wire: Bytes        // everything sent so far

    constructor (incoming: seq<Recv>, room: seq<int>)
      ensures this.incoming == incoming && this.room == room && wire == []
    {
      this.incoming, this.room, wire := incoming, room, [];
    }

    method Recv() returns (r: Recv)
      modifies this`incoming
      ensures old(incoming) == [] ==> r == Eof && incoming == []
      ensures old(incoming) != [] ==> r == old(incoming)[0] && incoming == old(incoming)[1..]
    {
      if incoming == [] {
        r := Eof;
      } else {
        r := incoming[0];
        incoming := incoming[1..];
      }
    }

    method Send(data: Bytes) returns (sent: int)
      modifies this`room, this`wire
      ensures sent == Accepted(old(room), |data|) && room == Later(old(room))
      ensures wire == old(wire) + (if sent > 0 then data[..sent] else [])
    {
      sent := Accepted(room, |data|);
      room := Later(room);
      if sent > 0 {
        wire := wire + data[..sent];
      }
    }
  }

  function Later(room: seq<int>): seq<int> {
    if room == [] then [] else room[1..]
  }

  /** What send returns when asked to take n bytes. */
  function Accepted(room: seq<int>, n: nat): (k: int)
    ensures k <= n
  {
    if room == [] then -1 else if room[0] > n then n else room[0]
  }

  /** How many of n bytes get through before they run out or a send fails, and the script left over. */
  function SendRun(room: seq<int>, n: nat): (r: (nat, seq<int>))
    ensures r.0 <= n
    decreases n
  {
    if n == 0 then (0, room)
    else
      var k := Accepted(room, n);
      if k <= 0 then (0, Later(room))
      else
        var r := SendRun(Later(room), n - k);
        (k + r.0, r.1)
  }

  /** The bytes a socket takes, sends in a row, before the first that fails. */
  function Offered(room: seq<int>): nat {
    if room == [] || room[0] <= 0 then 0 else room[0] + Offered(room[1..])
  }

  function Sum(room: seq<int>): int {
    if room == [] then 0 else room[0] + Sum(room[1..])
  }

  predicate AllTake(room: seq<int>) {
    forall i :: 0 <= i < |room| ==> room[i] > 0
  }

  function Min(a: nat, b: nat): nat {
    if a < b then a else b
  }

  /** Sending stops where the bytes end or the socket's willingness does, whichever is first. */
  lemma {:induction false} SentIsOffered(room: seq<int>, n: nat)
    ensures SendRun(room, n).0 == Min(n, Offered(room))
    decreases n
  {
    if n > 0 && Accepted(room, n) > 0 {
      SentIsOffered(Later(room), n - Accepted(room, n));
    }
  }

  /**
    Everything is sent exactly when some initial sends all succeed and take as much; and `used`
    is how many sends it takes: as few as do, or up to and including the one that fails.
  */
  lemma {:induction false} SendsNeeded(room: seq<int>, n: nat) returns (used: nat)
    ensures used <= |room| && SendRun(room, n).1 == room[used..]
    ensures if Offered(room) >= n
      then AllTake(room[..used]) && Sum(room[..used]) >= n && (used > 0 ==> Sum(room[..used - 1]) < n)
      else (used == |room| && AllTake(room)) || (used > 0 && AllTake(room[..used - 1]) && room[used - 1] <= 0)
    decreases n
  {
    if n == 0 {
      used := 0;
    } else if room == [] || room[0] <= 0 {
      used := if room == [] then 0 else 1;
    } else {
      var k := Accepted(room, n);
      var rest := SendsNeeded(room[1..], n - k);
      used := rest + 1;
      assert room[1..][rest..] == room[used..];
      FirstSend(room, rest);
    }
  }

  /** Some number of initial sends all succeed and together take n bytes. */
  predicate Willing(room: seq<int>, n: nat) {
    exists i :: 0 <= i <= |room| && AllTake(room[..i]) && Sum(room[..i]) >= n
  }

  lemma SendsAll(room: seq<int>, n: nat)
    ensures SendRun(room, n).0 == n <==> Willing(room, n)
  {
    SentIsOffered(room, n);
    if Offered(room) >= n {
      var used := SendsNeeded(room, n);
    }
    forall i | 0 <= i <= |room| && AllTake(room[..i]) ensures Sum(room[..i]) <= Offered(room) {
      OfferedCovers(room, i);
    }
  }

  lemma {:induction false} OfferedCovers(room: seq<int>, i: nat)
    requires i <= |room| && AllTake(room[..i])
    ensures Sum(room[..i]) <= Offered(room)
    decreases i
  {
    if i > 0 {
      assert room[..i][0] == room[0];
      FirstSend(room, i - 1);
      OfferedCovers(room[1..], i - 1);
    }
  }

  lemma FirstSend(room: seq<int>, rest: nat)
    requires room != [] && room[0] > 0 && rest <= |room[1..]|
    ensures Sum(room[..rest + 1]) == room[0] + Sum(room[1..][..rest])
    ensures rest > 0 ==> Sum(room[..rest]) == room[0] + Sum(room[1..][..rest - 1]) && room[1..][rest - 1] == room[rest]
    ensures AllTake(room[..rest + 1]) <==> AllTake(room[1..][..rest])
    ensures rest > 0 ==> (AllTake(room[..rest]) <==> AllTake(room[1..][..rest - 1]))
    ensures AllTake(room) <==> AllTake(room[1..])
  {
    assert room[..rest + 1] == [room[0]] + room[1..][..rest];
    assert rest > 0 ==> room[..rest] == [room[0]] + room[1..][..rest - 1];
    TakesFirst(room[0], room[1..][..rest]);
    TakesFirst(room[0], room[1..]);
    assert room == [room[0]] + room[1..];
    if rest > 0 {
      TakesFirst(room[0], room[1..][..rest - 1]);
    }
  }

  lemma TakesFirst(x: int, room: seq<int>)
    requires x > 0
    ensures AllTake([x] + room) <==> AllTake(room)
    ensures Sum([x] + room) == x + Sum(room)
  {
    assert ([x] + room)[1..] == room;
    assert forall i :: 0 <= i < |room| ==> ([x] + room)[i + 1] == room[i];
  }

  lemma SliceOn(data: Bytes, i: nat, n: nat)
    requires i + n <= |data|
    ensures data[..i] + data[i..][..n] == data[..i + n]
  {
  }

  /** The loop of sendAll, and again of sendPacketPayload. */
  method SendAll(sock: Socket, data: Bytes) returns (ok: bool)
    modifies sock`room, sock`wire
    ensures var r := SendRun(old(sock.room), |data|);
      && sock.wire == old(sock.wire) + data[..r.0] && sock.room == r.1
      && (ok <==> r.0 == |data|)
    ensures sock.wire == old(sock.wire) + data[..Min(|data|, Offered(old(sock.room)))]
    ensures ok <==> Offered(old(sock.room)) >= |data|
  {
    var totalSent := 0;
    var remaining: nat := |data|;
    SentIsOffered(sock.room, |data|);
    while remaining > 0
      invariant totalSent + remaining == |data|
      invariant sock.wire == old(sock.wire) + data[..totalSent]
      invariant var r, r0 := SendRun(sock.room, remaining), SendRun(old(sock.room), |data|);
        r0 == (totalSent + r.0, r.1)
      decreases remaining
    {
      var sent := sock.Send(data[totalSent..]);
      if sent <= 0 {
        return false;
      }
      SliceOn(data, totalSent, sent);
      Associative(old(sock.wire), data[..totalSent], data[totalSent..][..sent]);
      totalSent := totalSent + sent;
      remaining := remaining - sent;
    }
    ok := true;
  }

  /** The result of sending the header is dropped. */
  method SendPacketPayload(sock: Socket, header: Bytes, data: Bytes) returns (ok: bool)
    modifies sock`room, sock`wire
    ensures var h := SendRun(old(sock.room), |header|);
      var p := SendRun(h.1, |data|);
      && sock.wire == old(sock.wire) + (header[..h.0] + data[..p.0]) && sock.room == p.1
      && (ok <==> p.0 == |data|)
  {
    var headerOk := SendAll(sock, header);
    ok := SendAll(sock, data);
  }

  /** What sendPacketPayload puts on the wire, and what it reports. */
  function PacketSent(room: seq<int>, header: Bytes, data: Bytes): (Bytes, bool) {
    var h := SendRun(room, |header|);
    var p := SendRun(h.1, |data|);
    (header[..h.0] + data[..p.0], p.0 == |data|)
  }

  /** A reported success means the whole packet left exactly when the ignored header send had succeeded. */
  lemma ReportedPacketIsWhole(room: seq<int>, header: Bytes, data: Bytes)
    requires PacketSent(room, header, data).1
    ensures PacketSent(room, header, data).0 == header + data <==> SendRun(room, |header|).0 == |header|
  {
    var h := SendRun(room, |header|);
    var p := SendRun(h.1, |data|);
    PartsMakeWhole(header, h.0, data, p.0);
  }

  lemma PartsMakeWhole(header: Bytes, i: nat, data: Bytes, j: nat)
    requires i <= |header| && j == |data|
    ensures header[..i] + data[..j] == header + data <==> i == |header|
  {
    assert data[..j] == data;
    if i == |header| {
      assert header[..i] == header;
    } else {
      assert |header[..i] + data| < |header + data|;
    }
  }

  lemma SendAtOnce(room: seq<int>, n: nat)
    requires n > 0 && room != []
    ensures room[0] <= 0 ==> SendRun(room, n) == (0, room[1..])
    ensures room[0] >= n ==> SendRun(room, n) == (n, room[1..])
  {
    if room[0] >= n {
      assert SendRun(Later(room), 0) == (0, room[1..]);
    }
  }

  /** One failed send followed by a good one: success is reported and the header is missing. */
  lemma HeaderCanBeLost(seqNum: nat, b: Byte, room: seq<int>)
    requires room == [-1, 1]
    ensures PacketSent(room, DataHeader(seqNum, 1), [b]) == ([b], true)
  {
    var header := DataHeader(seqNum, 1);
    SendAtOnce(room, |header|);
    SendAtOnce(room[1..], 1);
    assert header[..0] + [b][..1] == [b];
  }

  /** sendAuthResponce drops its last argument: the peer always parses sequence number 0. */
  method SendAuthResponse(sock: Socket, uuid: Bytes, restoreSeqNum: nat) returns (ok: bool)
    requires |uuid| == UUID_SIZE
    modifies sock`room, sock`wire
    ensures |old(sock.wire)| <= |sock.wire| && sock.wire[..|old(sock.wire)|] == old(sock.wire)
    ensures ok <==> Offered(old(sock.room)) >= AUTH_RESPONSE_SIZE
    ensures ok ==> Parse(sock.wire[|old(sock.wire)|..]) == [Frame(AuthResponse(uuid, 0))]
    ensures !ok ==> Parse(sock.wire[|old(sock.wire)|..]) == []
  {
    var frame := Encode(AuthResponse(uuid, 0));
    ok := SendAll(sock, frame);
    assert sock.wire[|old(sock.wire)|..] == frame[..|sock.wire| - |old(sock.wire)|];
    FrameOrNothing(AuthResponse(uuid, 0), |sock.wire| - |old(sock.wire)|);
  }

  method SendAuthRequest(sock: Socket, uuid: Bytes) returns (ok: bool)
    requires |uuid| == UUID_SIZE
    modifies sock`room, sock`wire
    ensures |old(sock.wire)| <= |sock.wire| && sock.wire[..|old(sock.wire)|] == old(sock.wire)
    ensures ok <==> Offered(old(sock.room)) >= AUTH_REQUEST_SIZE
    ensures ok ==> Parse(sock.wire[|old(sock.wire)|..]) == [Frame(AuthRequest(uuid))]
    ensures !ok ==> Parse(sock.wire[|old(sock.wire)|..]) == []
  {
    var frame := Encode(AuthRequest(uuid));
    ok := SendAll(sock, frame);
    assert sock.wire[|old(sock.wire)|..] == frame[..|sock.wire| - |old(sock.wire)|];
    FrameOrNothing(AuthRequest(uuid), |sock.wire| - |old(sock.wire)|);
  }

  /** What sendDataPkt puts on the wire: what gets through of the header, and then of a whole packet. */
  function DataPktSent(room: seq<int>, seqNum: nat, data: Bytes): Bytes {
    var header := DataHeader(seqNum, |data|);
    var first := SendRun(room, DATA_HEADER_SIZE);
    header[..first.0] + PacketSent(first.1, header, data).0
  }

  /** sendDataPkt as written: the header goes out here and again with the payload, and no result is looked at. */
  method SendDataPkt(sock: Socket, seqNum: nat, data: Bytes)
    requires seqNum < Pow256(8) && |data| < Pow256(4)
    modifies sock`room, sock`wire
    ensures sock.wire == old(sock.wire) + DataPktSent(old(sock.room), seqNum, data)
  {
    var header := DataHeader(seqNum, |data|);
    var headerOk := SendAll(sock, header);
    ghost var first := SendRun(old(sock.room), DATA_HEADER_SIZE);
    var payloadOk := SendPacketPayload(sock, header, data);
    Associative(old(sock.wire), header[..first.0], PacketSent(first.1, header, data).0);
  }

  /**
    If the first header send moves no byte, the packet arrives alone exactly when the second
    header and the payload go out whole.
  */
  lemma FirstHeaderLost(room: seq<int>, m: Message)
    requires ValidMessage(m) && m.DataPkt? && SendRun(room, DATA_HEADER_SIZE).0 == 0
    ensures var h := SendRun(SendRun(room, DATA_HEADER_SIZE).1, DATA_HEADER_SIZE);
      ArrivesAlone(DataPktSent(room, m.seqNum, m.payload), m) <==>
        (h.0 == DATA_HEADER_SIZE && SendRun(h.1, |m.payload|).0 == |m.payload|)
  {
    var header := DataHeader(m.seqNum, |m.payload|);
    var h := SendRun(SendRun(room, DATA_HEADER_SIZE).1, DATA_HEADER_SIZE);
    var p := SendRun(h.1, |m.payload|).0;
    assert header[..0] + (header[..h.0] + m.payload[..p]) == header[..h.0] + m.payload[..p];
    PartsArriveExactly(m, h.0, p);
  }

  /**
    If the first header and the payload go out whole, the packet arrives alone exactly when the
    second header send moves no byte.
  */
  lemma SecondHeaderLost(room: seq<int>, m: Message)
    requires ValidMessage(m) && m.DataPkt? && SendRun(room, DATA_HEADER_SIZE).0 == DATA_HEADER_SIZE
    requires var h := SendRun(SendRun(room, DATA_HEADER_SIZE).1, DATA_HEADER_SIZE);
      SendRun(h.1, |m.payload|).0 == |m.payload|
    ensures ArrivesAlone(DataPktSent(room, m.seqNum, m.payload), m) <==>
        SendRun(SendRun(room, DATA_HEADER_SIZE).1, DATA_HEADER_SIZE).0 == 0
  {
    var header := DataHeader(m.seqNum, |m.payload|);
    var h := SendRun(SendRun(room, DATA_HEADER_SIZE).1, DATA_HEADER_SIZE).0;
    assert header[..DATA_HEADER_SIZE] == header && m.payload[..|m.payload|] == m.payload;
    Associative(header, header[..h], m.payload);
    if h == 0 {
      assert header + header[..0] + m.payload == Encode(m);
      WholeArrivesAlone(m);
    } else {
      HeaderTooMany(m, h);
    }
  }

  /**
    For every send script: the packet arrives alone exactly when, the first header send having
    moved nothing, the second header and the payload go out whole; or, it having moved
    something, the bytes sent begin with the packet's own and go on with none of a known type.
  */
  lemma DeliversExactly(room: seq<int>, m: Message)
    requires ValidMessage(m) && m.DataPkt?
    ensures var first := SendRun(room, DATA_HEADER_SIZE);
      var second := SendRun(first.1, DATA_HEADER_SIZE);
      var wire := DataPktSent(room, m.seqNum, m.payload);
      ArrivesAlone(wire, m) <==>
        if first.0 == 0 then second.0 == DATA_HEADER_SIZE && SendRun(second.1, |m.payload|).0 == |m.payload|
        else Leads(wire, m)
  {
    var first := SendRun(room, DATA_HEADER_SIZE).0;
    if first == 0 {
      FirstHeaderLost(room, m);
    } else {
      var wire := DataPktSent(room, m.seqNum, m.payload);
      assert wire[0] == DataHeader(m.seqNum, |m.payload|)[..first][0] == DATA_PKT;
      ArrivesExactly(wire, m);
    }
  }

  /** So a failed first send can let the packet through. */
  lemma FailureDelivers(m: Message, room: seq<int>)
    requires ValidMessage(m) && m.DataPkt? && m.payload != [] && room == [-1, 13, |m.payload|]
    ensures ArrivesAlone(DataPktSent(room, m.seqNum, m.payload), m)
  {
    SendAtOnce(room, DATA_HEADER_SIZE);
    SendAtOnce(room[1..], DATA_HEADER_SIZE);
    SendAtOnce(room[1..][1..], |m.payload|);
    FirstHeaderLost(room, m);
  }

  /** And a second header that breaks off after one byte can stand in for a payload of that byte. */
  lemma HeaderByteDelivers(m: Message, room: seq<int>)
    requires ValidMessage(m) && m.DataPkt? && m.payload == [DATA_PKT] && room == [13, 1, -1, -1]
    ensures ArrivesAlone(DataPktSent(room, m.seqNum, m.payload), m)
  {
    var header := DataHeader(m.seqNum, 1);
    SendAtOnce(room, DATA_HEADER_SIZE);
    SendOneThenFail(room[1..], DATA_HEADER_SIZE);
    SendAtOnce(room[1..][1..][1..], 1);
    assert header[..13] == header && header[..1] == [DATA_PKT];
    assert header[..13] + (header[..1] + m.payload[..0]) == Encode(m);
    WholeArrivesAlone(m);
  }

  lemma SendOneThenFail(room: seq<int>, n: nat)
    requires n > 1 && |room| >= 2 && room[0] == 1 && room[1] <= 0
    ensures SendRun(room, n) == (1, room[1..][1..])
  {
    SendAtOnce(room[1..], n - 1);
  }

  /** A frame is parsed from all of its bytes and from no proper initial segment of them. */
  lemma FrameOrNothing(m: Message, n: nat)
    requires ValidMessage(m) && n <= |Encode(m)|
    ensures Parse(Encode(m)[..n]) == if n == |Encode(m)| then [Frame(m)] else []
  {
    var b := Encode(m);
    var items := [Frame(m)];
    assert EncodeItems(items) == b;
    ParseWhole(items);
    assert b[..|b|] == b;
    if n < |b| {
      BrokenStreamGivesPrefix(items, n);
      var got := Parse(b[..n]);
      if got == items {
        ParseSound(b[..n]);
      }
    }
  }

  // ---------------------------------------------------------------- the parser object

  /** The cursor stands behind `done`, which is the part of the batch parse that one attempt per chunk reaches. */
  ghost predicate Tracks(chunks: seq<Bytes>, done: seq<Item>, buf: Bytes, pos: nat) {
    && buf == Concat(chunks)
    && done == Consumed(chunks)
    && ValidItems(done)
    && pos == |EncodeItems(done)| <= |buf|
    && buf[..pos] == EncodeItems(done)
  }

  function Taken(a: Attempt): seq<Item> {
    if a.Got? then [a.item] else []
  }

  /** What one more chunk lets the parser consume. */
  lemma ConsumedAppend(chunks: seq<Bytes>, c: Bytes)
    ensures var all := Parse(Concat(chunks) + c);
      var n := Served(chunks);
      && n <= |all| && all[..n] == Consumed(chunks)
      && Consumed(chunks + [c]) == if n < |all| then all[..n] + [all[n]] else all
  {
    ConcatAppend(chunks, c);
    ServedAppend(chunks, c);
    ParseResumes(Concat(chunks), c);
    var n := Served(chunks);
    TakeMore(Parse(Concat(chunks)), Parse((Concat(chunks) + c)[Cursor(Concat(chunks))..]), n);
  }

  lemma TakeMore<T>(a: seq<T>, b: seq<T>, n: nat)
    requires n <= |a|
    ensures (a + b)[..n] == a[..n]
    ensures n < |a + b| ==> (a + b)[..n + 1] == (a + b)[..n] + [(a + b)[n]]
    ensures n == |a + b| ==> (a + b)[..n] == a + b
  {
  }

  /** The attempt after one more chunk finds exactly what that chunk lets the parser consume. */
  lemma AttemptConsumes(chunks: seq<Bytes>, done: seq<Item>, buf: Bytes, pos: nat, c: Bytes)
    requires Tracks(chunks, done, buf, pos)
    ensures Consumed(chunks + [c]) == done + Taken(TryParse((buf + c)[pos..]))
  {
    ConsumedAppend(chunks, c);
    assert (buf + c)[..pos] == buf[..pos];
    NextAttempt(buf + c, done);
    assert done + [] == done;
  }

  lemma TracksOn(chunks: seq<Bytes>, done: seq<Item>, buf: Bytes, pos: nat, c: Bytes)
    requires Tracks(chunks, done, buf, pos)
    ensures var a := TryParse((buf + c)[pos..]);
      Tracks(chunks + [c], done + Taken(a), buf + c, pos + (if a.Got? then a.size else 0))
  {
    ConcatAppend(chunks, c);
    AttemptConsumes(chunks, done, buf, pos, c);
    assert (buf + c)[..pos] == buf[..pos];
    if TryParse((buf + c)[pos..]).Got? {
      NextBytes(buf + c, done, pos);
    } else {
      assert done + [] == done;
    }
  }

  class Parser {
    const sock: Socket
    var recvBuffer: Bytes
    var parsedBytes: nat
    var isTimeout: bool
    ghost var heard: seq<Recv>      // the recv results so far
    ghost var done: seq<Item>       // what has been consumed

    constructor (sock: Socket)
      ensures Valid() && this.sock == sock && heard == [] && done == [] && !isTimeout
    {
      this.sock := sock;
      recvBuffer, parsedBytes, isTimeout, heard, done := [], 0, false, [], [];
    }

    ghost predicate Valid()
      reads this`heard, this`done, this`recvBuffer, this`parsedBytes
    {
      Tracks(Datas(heard), done, recvBuffer, parsedBytes)
    }

    /** readAvailable: one recv. */
    method ReadAvailable() returns (alive: bool)
      modifies this`recvBuffer, this`isTimeout, sock`incoming
      ensures var r := Next(old(sock.incoming));
        && alive == (r.Data? || r.TimedOut?)
        && isTimeout == (old(isTimeout) || r.TimedOut?)
        && recvBuffer == (if r.Data? then old(recvBuffer) + r.bytes else old(recvBuffer))
      ensures sock.incoming == Rest(old(sock.incoming))
    {
      var received := sock.Recv();
      match received {
        case Data(bytes) =>
          recvBuffer := recvBuffer + bytes;
          return true;
        case Eof =>
          return false;
        case TimedOut =>
          isTimeout := true;
          return true;
        case Failed =>
          return false;
      }
    }

    method ParseAuthRequest() returns (result: Option<Message>)
      requires parsedBytes < |recvBuffer| && recvBuffer[parsedBytes] == AUTH_REQUEST
      modifies this`parsedBytes
      ensures Attempted(TryParse(old(recvBuffer[parsedBytes..])), old(parsedBytes), result)
    {
      if |recvBuffer| - parsedBytes < AUTH_REQUEST_SIZE {
        return None;
      }
      ghost var b := recvBuffer[parsedBytes..];
      assert b[1..17] == recvBuffer[parsedBytes + 1..parsedBytes + 17];
      result := Some(AuthRequest(recvBuffer[parsedBytes + 1..parsedBytes + 17]));
      parsedBytes := parsedBytes + AUTH_REQUEST_SIZE;
    }

    method ParseAuthResponse() returns (result: Option<Message>)
      requires parsedBytes < |recvBuffer| && recvBuffer[parsedBytes] == AUTH_RESPONSE
      modifies this`parsedBytes
      ensures Attempted(TryParse(old(recvBuffer[parsedBytes..])), old(parsedBytes), result)
    {
      if |recvBuffer| - parsedBytes < AUTH_RESPONSE_SIZE {
        return None;
      }
      ghost var b := recvBuffer[parsedBytes..];
      assert b[1..17] == recvBuffer[parsedBytes + 1..parsedBytes + 17];
      assert b[17..25] == recvBuffer[parsedBytes + 17..parsedBytes + 25];
      result := Some(AuthResponse(recvBuffer[parsedBytes + 1..parsedBytes + 17],
                                  Value(recvBuffer[parsedBytes + 17..parsedBytes + 25])));
      parsedBytes := parsedBytes + AUTH_RESPONSE_SIZE;
    }

    method ParseDataPacket() returns (result: Option<Message>)
      requires parsedBytes < |recvBuffer| && recvBuffer[parsedBytes] == DATA_PKT
      modifies this`parsedBytes
      ensures Attempted(TryParse(old(recvBuffer[parsedBytes..])), old(parsedBytes), result)
    {
      if |recvBuffer| - parsedBytes < DATA_HEADER_SIZE {
        return None;
      }
      var header := recvBuffer[parsedBytes..parsedBytes + DATA_HEADER_SIZE];
      var seqNum, dataSize := Value(header[1..9]), Value(header[9..13]);
      ghost var b := recvBuffer[parsedBytes..];
      assert header == b[..13];
      assert b[..13][1..9] == b[1..9] && b[..13][9..13] == b[9..13];
      var totalSize := DATA_HEADER_SIZE + dataSize;
      if |recvBuffer| - parsedBytes < totalSize {
        return None;
      }
      var from := parsedBytes + DATA_HEADER_SIZE;
      assert recvBuffer[from..from + dataSize] == b[13..totalSize];
      result := Some(DataPkt(seqNum, recvBuffer[from..from + dataSize]));
      parsedBytes := parsedBytes + totalSize;
    }

    /** The cursor and the returned message are those of the attempt. */
    ghost predicate Attempted(a: Attempt, before: nat, result: Option<Message>)
      reads this`parsedBytes
    {
      && parsedBytes == before + (if a.Got? then a.size else 0)
      && result == (if a.Got? && a.item.Frame? then Some(a.item.msg) else None)
    }

    method TryParseMessage() returns (result: Option<Message>)
      requires parsedBytes <= |recvBuffer|
      modifies this`parsedBytes
      ensures Attempted(TryParse(old(recvBuffer[parsedBytes..])), old(parsedBytes), result)
    {
      if |recvBuffer| - parsedBytes < 1 {
        return None;
      }
      var kind := recvBuffer[parsedBytes];
      if kind == AUTH_REQUEST {
        result := ParseAuthRequest();
      } else if kind == AUTH_RESPONSE {
        result := ParseAuthResponse();
      } else if kind == DATA_PKT {
        result := ParseDataPacket();
      } else {
        parsedBytes := parsedBytes + 1;
        result := None;
      }
    }

    /** The parsing attempt after a recv that appended `bytes` to `buf`. */
    method Consume(ghost chunks: seq<Bytes>, ghost buf: Bytes, ghost bytes: Bytes) returns (result: Option<Message>)
      requires Tracks(chunks, done, buf, parsedBytes) && recvBuffer == buf + bytes && Datas(heard) == chunks + [bytes]
      modifies this`parsedBytes, this`done
      ensures Valid()
      ensures Frames(done) == Frames(old(done)) + (if result.Some? then [result.value] else [])
    {
      ghost var a := TryParse(recvBuffer[parsedBytes..]);
      TracksOn(chunks, done, buf, parsedBytes, bytes);
      FramesAppend(done, Taken(a));
      assert Frames(Taken(a)) == if a.Got? && a.item.Frame? then [a.item.msg] else [];
      done := done + Taken(a);
      result := TryParseMessage();
    }

    /** One turn of readMessage's loop: one recv and, if it brought bytes, one parsing attempt. */
    method Turn() returns (alive: bool, result: Option<Message>)
      requires Valid() && !isTimeout
      modifies this, sock`incoming
      ensures Valid()
      ensures heard == old(heard) + Head(old(sock.incoming)) && sock.incoming == Rest(old(sock.incoming))
      ensures var r := Next(old(sock.incoming));
        && alive == (r.Data? || r.TimedOut?) && isTimeout == r.TimedOut?
        && (result.Some? ==> r.Data?)
      ensures Frames(done) == Frames(old(done)) + (if result.Some? then [result.value] else [])
    {
      ghost var chunks, buf, rs := Datas(heard), recvBuffer, sock.incoming;
      HeardOne(heard, rs);
      heard := heard + Head(rs);
      result := None;
      alive := ReadAvailable();
      if alive && !isTimeout {
        result := Consume(chunks, buf, Next(rs).bytes);
      } else {
        assert recvBuffer == buf && Datas(heard) == chunks;
      }
    }

    /**
      Every message returned is the next frame of the batch parse of all bytes received;
      when none is returned, none has been passed over. No recv result is skipped or used twice.
    */
    method ReadMessage(waitTimeout: bool := true) returns (result: Option<Message>)
      requires Valid() && !isTimeout
      modifies this, sock`incoming
      ensures Valid() && !isTimeout
      ensures heard + sock.incoming == old(heard) + old(sock.incoming)
      ensures Frames(done) == Frames(old(done)) + (if result.Some? then [result.value] else [])
      ensures Returned(|old(heard)|, heard, sock.incoming, waitTimeout, result)
    {
      ghost var n, script, messages := |heard|, heard + sock.incoming, Frames(done);
      while true
        invariant Valid() && !isTimeout
        invariant n <= |heard| && heard + sock.incoming == script && Frames(done) == messages
        invariant forall i :: n <= i < |heard| ==> Passes(heard[i], waitTimeout)
        decreases |sock.incoming|
      {
        ghost var h, rs := heard, sock.incoming;
        HeadAndRest(h, rs);
        var alive: bool;
        alive, result := Turn();
        if !alive {
          Stops(n, h, rs, waitTimeout, None);
          return None;
        }
        if isTimeout {
          isTimeout := false;
          if waitTimeout {
            continue;
          }
          Stops(n, h, rs, waitTimeout, None);
          return None;
        }
        if result.Some? {
          Stops(n, h, rs, waitTimeout, result);
          return result;
        }
      }
    }
  }

  /** The result of the next recv; behind the end of the script the connection is closed. */
  function Next(rs: seq<Recv>): Recv {
    if rs == [] then Eof else rs[0]
  }

  function Head(rs: seq<Recv>): seq<Recv> {
    if rs == [] then [] else [rs[0]]
  }

  function Rest(rs: seq<Recv>): seq<Recv> {
    if rs == [] then [] else rs[1..]
  }

  lemma HeadAndRest(h: seq<Recv>, rs: seq<Recv>)
    ensures (h + Head(rs)) + Rest(rs) == h + rs
  {
  }

  function DataOf(r: Recv): seq<Bytes> {
    if r.Data? then [r.bytes] else []
  }

  /** The chunks among recv results. */
  function Datas(rs: seq<Recv>): seq<Bytes> {
    if rs == [] then [] else DataOf(rs[0]) + Datas(rs[1..])
  }

  lemma {:induction false} DatasAdd(a: seq<Recv>, b: seq<Recv>)
    ensures Datas(a + b) == Datas(a) + Datas(b)
  {
    if a == [] {
      assert a + b == b;
    } else {
      assert (a + b)[1..] == a[1..] + b;
      DatasAdd(a[1..], b);
      Associative(DataOf(a[0]), Datas(a[1..]), Datas(b));
    }
  }

  lemma HeardOne(h: seq<Recv>, rs: seq<Recv>)
    ensures Datas(h + Head(rs)) == if Next(rs).Data? then Datas(h) + [Next(rs).bytes] else Datas(h)
  {
    DatasAdd(h, Head(rs));
    if rs != [] {
      assert [rs[0]][1..] == [];
      assert DataOf(rs[0]) + [] == DataOf(rs[0]);
    }
    assert Datas(h) + [] == Datas(h);
  }

  /** A recv result after which readMessage goes on: bytes, or a timeout if it was told to wait. */
  predicate Passes(r: Recv, waitTimeout: bool) {
    r.Data? || (r.TimedOut? && waitTimeout)
  }

  /**
    Of the results heard, all but the first n came during this call. A message comes with a
    chunk; nothing is returned only at the end of the stream or, unless told to wait, on a timeout,
    which is then the only one.
  */
  predicate Returned(n: nat, heard: seq<Recv>, rest: seq<Recv>, waitTimeout: bool, result: Option<Message>) {
    && (forall i :: n <= i < |heard| - 1 ==> Passes(heard[i], waitTimeout))
    && if n < |heard| then
      var last := heard[|heard| - 1];
      if result.Some? then last.Data?
      else rest == [] || last.Eof? || last.Failed? || (last.TimedOut? && !waitTimeout)
    else n == |heard| && result.None? && rest == []
  }

  lemma Stops(n: nat, h: seq<Recv>, rs: seq<Recv>, waitTimeout: bool, result: Option<Message>)
    requires n <= |h| && forall i :: n <= i < |h| ==> Passes(h[i], waitTimeout)
    requires var r := Next(rs);
      if result.Some? then r.Data? else r.Eof? || r.Failed? || (r.TimedOut? && !waitTimeout)
    ensures Returned(n, h + Head(rs), Rest(rs), waitTimeout, result)
  {
  }

  // ---------------------------------------------------------------- end to end

  lemma FramesPrefix(items: seq<Item>, n: nat)
    requires n <= |items|
    ensures IsPrefix(Frames(items[..n]), Frames(items))
  {
    FramesAppend(items[..n], items[n..]);
    assert items[..n] + items[n..] == items;
  }

  lemma PrefixTransitive<T>(a: seq<T>, b: seq<T>, c: seq<T>)
    requires IsPrefix(a, b) && IsPrefix(b, c)
    ensures IsPrefix(a, c)
  {
  }

  lemma {:induction false} ConcatAdd(a: seq<Bytes>, b: seq<Bytes>)
    ensures Concat(a + b) == Concat(a) + Concat(b)
  {
    if b == [] {
      assert a + b == a;
    } else {
      var init, last := b[..|b| - 1], b[|b| - 1];
      assert a + b == (a + init) + [last];
      ConcatAppend(a + init, last);
      ConcatAdd(a, init);
      Associative(Concat(a), Concat(init), last);
    }
  }

  /** What a reader has consumed by any point of the script is an initial part of what the whole script holds. */
  lemma ReadIsPrefix(heard: seq<Recv>, rest: seq<Recv>)
    ensures IsPrefix(Frames(Consumed(Datas(heard))), Frames(Parse(Concat(Datas(heard + rest)))))
  {
    var part, more := Concat(Datas(heard)), Concat(Datas(rest));
    FramesPrefix(Parse(part), Served(Datas(heard)));
    DatasAdd(heard, rest);
    ConcatAdd(Datas(heard), Datas(rest));
    ParseResumes(part, more);
    var later := Parse((part + more)[Cursor(part)..]);
    FramesAppend(Parse(part), later);
    PrefixOfSum(Frames(Parse(part)), Frames(later));
    PrefixTransitive(Frames(Consumed(Datas(heard))), Frames(Parse(part)), Frames(Parse(part + more)));
  }

  /** The reader has come to the end of the script, or to an end of the connection in it. */
  predicate Ended(heard: seq<Recv>, rest: seq<Recv>) {
    rest == [] || (heard != [] && (heard[|heard| - 1].Eof? || heard[|heard| - 1].Failed?))
  }

  /** The loop of ReadAll. */
  method ReadToEnd(p: Parser) returns (msgs: seq<Message>)
    requires p.Valid() && !p.isTimeout && p.done == []
    modifies p, p.sock`incoming
    ensures p.Valid() && !p.isTimeout && Ended(p.heard, p.sock.incoming)
    ensures p.heard + p.sock.incoming == old(p.heard) + old(p.sock.incoming)
    ensures msgs == Frames(p.done)
  {
    msgs := [];
    ghost var script := p.heard + p.sock.incoming;
    while true
      invariant p.Valid() && !p.isTimeout
      invariant p.heard + p.sock.incoming == script && Frames(p.done) == msgs
      decreases |p.sock.incoming|
    {
      var result := p.ReadMessage();
      if result.None? {
        return;
      }
      assert |p.heard| + |p.sock.incoming| == |script|;
      msgs := msgs + [result.value];
    }
  }

  /**
    Calling readMessage on a new parser until it returns nothing. The messages are an initial
    part of those that the whole recv script holds, and all the messages received by the time
    the reader stops exactly if it kept up.
  */
  method ReadAll(p: Parser) returns (msgs: seq<Message>)
    requires p.Valid() && !p.isTimeout && p.heard == [] && p.done == []
    modifies p, p.sock`incoming
    ensures p.Valid() && !p.isTimeout && Ended(p.heard, p.sock.incoming)
    ensures p.heard + p.sock.incoming == old(p.sock.incoming)
    ensures IsPrefix(msgs, Frames(Parse(Concat(Datas(old(p.sock.incoming))))))
    ensures msgs == Frames(Consumed(Datas(p.heard)))
    ensures msgs == Frames(Parse(Concat(Datas(p.heard)))) <==> KeptUp(Datas(p.heard))
  {
    ghost var script := p.sock.incoming;
    msgs := ReadToEnd(p);
    assert p.heard + p.sock.incoming == [] + script == script;
    ReadIsPrefix(p.heard, p.sock.incoming);
    KeepsUp(Datas(p.heard));
  }

  /**
    Whatever initial part of the sender's bytes the recv script brings, in whatever chunks,
    the messages read are an initial part of those sent; and if everything has arrived, they
    are all of them exactly if the reader kept up.
  */
  lemma EndToEnd(items: seq<Item>, n: nat, heard: seq<Recv>, rest: seq<Recv>)
    requires ValidItems(items) && n <= |EncodeItems(items)|
    requires Concat(Datas(heard + rest)) == EncodeItems(items)[..n]
    ensures IsPrefix(Frames(Consumed(Datas(heard))), Frames(items))
    ensures Concat(Datas(heard)) == EncodeItems(items)
      ==> (Frames(Consumed(Datas(heard))) == Frames(items) <==> KeptUp(Datas(heard)))
  {
    ReadIsPrefix(heard, rest);
    BrokenStreamGivesPrefix(items, n);
    PrefixTransitive(Frames(Consumed(Datas(heard))), Frames(Parse(EncodeItems(items)[..n])), Frames(items));
    ParseWhole(items);
    KeepsUp(Datas(heard));
  }

  lemma OneItem(m: Message)
    ensures EncodeItems([Frame(m)]) == Encode(m) && Frames([Frame(m)]) == [m]
  {
    assert [Frame(m)][1..] == [];
    assert Encode(m) + [] == Encode(m) && [m] + [] == [m];
  }

  lemma TwoItems(m: Message)
    requires ValidMessage(m)
    ensures Parse(Encode(m) + Encode(m)) == [Frame(m)] + [Frame(m)]
    ensures Frames([Frame(m)] + [Frame(m)]) == [m] + [m]
  {
    OneItem(m);
    EncodeItemsAppend([Frame(m)], [Frame(m)]);
    FramesAppend([Frame(m)], [Frame(m)]);
    ParseWhole([Frame(m)] + [Frame(m)]);
  }

  lemma OneChunk(c: Bytes)
    requires |Parse(c)| > 0
    ensures Concat([c]) == c && Consumed([c]) == Parse(c)[..1]
  {
    ConcatAppend([], c);
    ServedAppend([], c);
    assert [] + [c] == [c];
    assert Concat([]) + c == c;
  }

  /** A second frame in the chunk that brought the first is still in the buffer when the connection closes. */
  lemma TwoFramesOneChunk(m: Message)
    requires ValidMessage(m) && 2 * |Encode(m)| <= CHUNK_MAX
    ensures var c: Chunk := Encode(m) + Encode(m);
      Frames(Parse(Concat([c]))) == [m] + [m] && Frames(Consumed([c])) == [m]
  {
    TwoItems(m);
    OneItem(m);
    OneChunk(Encode(m) + Encode(m));
    PrefixOfSum([Frame(m)], [Frame(m)]);
  }
}
