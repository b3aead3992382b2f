/**
  The wire format of netlib/serialization.h and the incremental parser over an
  append-only buffer with a cursor, as functions. Multi-byte integers are
  little-endian, the host order the packed structures are copied in.
*/
module Framing {
  newtype Byte = x: int | 0 <= x < 256
  type Bytes = seq<Byte>

  const AUTH_REQUEST: Byte := 1
  const AUTH_RESPONSE: Byte := 2
  const DATA_PKT: Byte := 3
  const UUID_SIZE: nat := 16
  const AUTH_REQUEST_SIZE: nat := 17
  const AUTH_RESPONSE_SIZE: nat := 25
  const DATA_HEADER_SIZE: nat := 13

  datatype Message =
    | AuthRequest(uuid: Bytes)
    | AuthResponse(uuid: Bytes, restoreSeqNum: nat)
    | DataPkt(seqNum: nat, payload: Bytes)

  /** What one successful parsing step consumes: a frame, or one byte of no known type. */
  datatype Item = Frame(msg: Message) | Noise(byte: Byte)

  datatype Attempt = Got(item: Item, size: nat) | Starved

  predicate KnownType(b: Byte) {
    b == AUTH_REQUEST || b == AUTH_RESPONSE || b == DATA_PKT
  }

  predicate ValidMessage(m: Message) {
    match m
    case AuthRequest(uuid) => |uuid| == UUID_SIZE
    case AuthResponse(uuid, restore) => |uuid| == UUID_SIZE && restore < Pow256(8)
    case DataPkt(seqNum, payload) => seqNum < Pow256(8) && |payload| < Pow256(4)
  }

  predicate ValidItem(i: Item) {
    match i
    case Frame(m) => ValidMessage(m)
    case Noise(b) => !KnownType(b)
  }

  predicate ValidItems(items: seq<Item>) {
    forall i :: 0 <= i < |items| ==> ValidItem(items[i])
  }

  function Pow256(k: nat): (p: nat)
    ensures p > 0
  {
    if k == 0 then 1 else 256 * Pow256(k - 1)
  }

  function LittleEndian(n: nat, k: nat): (bs: Bytes)
    ensures |bs| == k
  {
    if k == 0 then [] else [(n % 256) as Byte] + LittleEndian(n / 256, k - 1)
  }

  function Value(bs: Bytes): nat {
    if bs == [] then 0 else bs[0] as int + 256 * Value(bs[1..])
  }

  /** The bytes of one frame: the packed header and, for data, the payload. */
  function Encode(m: Message): Bytes {
    match m
    case AuthRequest(uuid) => [AUTH_REQUEST] + uuid
    case AuthResponse(uuid, restore) => [AUTH_RESPONSE] + uuid + LittleEndian(restore, 8)
    case DataPkt(seqNum, payload) => DataHeader(seqNum, |payload|) + payload
  }

  function DataHeader(seqNum: nat, size: nat): (h: Bytes)
    ensures |h| == DATA_HEADER_SIZE
  {
    [DATA_PKT] + LittleEndian(seqNum, 8) + LittleEndian(size, 4)
  }

  function EncodeItem(i: Item): (bs: Bytes)
    ensures |bs| > 0
  {
    match i
    case Frame(m) => Encode(m)
    case Noise(b) => [b]
  }

  function EncodeItems(items: seq<Item>): Bytes {
    if items == [] then [] else EncodeItem(items[0]) + EncodeItems(items[1..])
  }

  /** One call of tryParseMessage; b is the part of the buffer behind the cursor. */
  function TryParse(b: Bytes): Attempt {
    if |b| < 1 then Starved
    else if b[0] == AUTH_REQUEST then
      if |b| < AUTH_REQUEST_SIZE then Starved
      else Got(Frame(AuthRequest(b[1..17])), AUTH_REQUEST_SIZE)
    else if b[0] == AUTH_RESPONSE then
      if |b| < AUTH_RESPONSE_SIZE then Starved
      else Got(Frame(AuthResponse(b[1..17], Value(b[17..25]))), AUTH_RESPONSE_SIZE)
    else if b[0] == DATA_PKT then
      if |b| < DATA_HEADER_SIZE then Starved
      else
        var total := DATA_HEADER_SIZE + Value(b[9..13]);
        if |b| < total then Starved
        else Got(Frame(DataPkt(Value(b[1..9]), b[13..total])), total)
    else Got(Noise(b[0]), 1)
  }

  /** Calling tryParseMessage until the cursor stops moving. */
  function Parse(b: Bytes): seq<Item>
    decreases |b|
  {
    match TryParse(b)
    case Starved => []
    case Got(item, size) => if 0 < size <= |b| then [item] + Parse(b[size..]) else []
  }

  function FrameOf(i: Item): seq<Message> {
    if i.Frame? then [i.msg] else []
  }

  function Frames(items: seq<Item>): seq<Message> {
    if items == [] then [] else FrameOf(items[0]) + Frames(items[1..])
  }

  /** How many items must be taken to have all the messages: those up to the last frame. */
  function Needed(items: seq<Item>): (n: nat)
    ensures n <= |items|
  {
    if items == [] then 0
    else if items[|items| - 1].Frame? then |items|
    else Needed(items[..|items| - 1])
  }

  // ---------------------------------------------------------------- integers

  lemma {:induction false} ValueOfLittleEndian(n: nat, k: nat)
    requires n < Pow256(k)
    ensures Value(LittleEndian(n, k)) == n
  {
    if k > 0 {
      ValueOfLittleEndian(n / 256, k - 1);
      assert LittleEndian(n, k)[1..] == LittleEndian(n / 256, k - 1);
    }
  }

  lemma {:induction false} LittleEndianOfValue(bs: Bytes)
    ensures Value(bs) < Pow256(|bs|)
    ensures LittleEndian(Value(bs), |bs|) == bs
  {
    if bs != [] {
      LittleEndianOfValue(bs[1..]);
      assert Value(bs) % 256 == bs[0] as int && Value(bs) / 256 == Value(bs[1..]);
    }
  }

  // ---------------------------------------------------------------- one item

  lemma Associative<T>(a: seq<T>, b: seq<T>, c: seq<T>)
    ensures (a + b) + c == a + (b + c)
  {
  }

  lemma HeaderFields(seqNum: nat, size: nat, tail: Bytes)
    requires seqNum < Pow256(8) && size < Pow256(4)
    ensures var b := DataHeader(seqNum, size) + tail;
      b[0] == DATA_PKT && Value(b[1..9]) == seqNum && Value(b[9..13]) == size && b[13..] == tail
  {
    var b := DataHeader(seqNum, size) + tail;
    ValueOfLittleEndian(seqNum, 8);
    ValueOfLittleEndian(size, 4);
    assert b[1..9] == LittleEndian(seqNum, 8);
    assert b[9..13] == LittleEndian(size, 4);
  }

  lemma ParseOfAuth(m: Message, rest: Bytes)
    requires ValidMessage(m) && !m.DataPkt?
    ensures TryParse(Encode(m) + rest) == Got(Frame(m), |Encode(m)|)
  {
    var b := Encode(m) + rest;
    assert b[1..17] == m.uuid;
    if m.AuthResponse? {
      assert b[17..25] == LittleEndian(m.restoreSeqNum, 8);
      ValueOfLittleEndian(m.restoreSeqNum, 8);
    }
  }

  lemma ParseOfData(m: Message, rest: Bytes)
    requires ValidMessage(m) && m.DataPkt?
    ensures TryParse(Encode(m) + rest) == Got(Frame(m), |Encode(m)|)
  {
    var header, n := DataHeader(m.seqNum, |m.payload|), |m.payload|;
    var b, tail := Encode(m) + rest, m.payload + rest;
    Associative(header, m.payload, rest);
    HeaderFields(m.seqNum, n, tail);
    assert b == header + tail && |b| == 13 + n + |rest|;
    assert b[13..13 + n] == b[13..][..n] == tail[..n] == m.payload;
  }

  /** The parser recovers an item from its own bytes, whatever follows them. */
  lemma ParseOfEncode(item: Item, rest: Bytes)
    requires ValidItem(item)
    ensures TryParse(EncodeItem(item) + rest) == Got(item, |EncodeItem(item)|)
  {
    match item
    case Noise(_) =>
    case Frame(m) =>
      if m.DataPkt? {
        ParseOfData(m, rest);
      } else {
        ParseOfAuth(m, rest);
      }
  }

  lemma EncodeOfAuth(b: Bytes)
    requires TryParse(b).Got? && (b[0] == AUTH_REQUEST || b[0] == AUTH_RESPONSE)
    ensures var a := TryParse(b);
      0 < a.size <= |b| && ValidItem(a.item) && b[..a.size] == EncodeItem(a.item)
  {
    if b[0] == AUTH_REQUEST {
      assert b[..17] == [AUTH_REQUEST] + b[1..17];
    } else {
      var tail := b[17..25];
      LittleEndianOfValue(tail);
      assert b[..25] == [AUTH_RESPONSE] + b[1..17] + tail;
    }
  }

  lemma EncodeOfData(b: Bytes)
    requires TryParse(b).Got? && b[0] == DATA_PKT
    ensures var a := TryParse(b);
      0 < a.size <= |b| && ValidItem(a.item) && b[..a.size] == EncodeItem(a.item)
  {
    var seqNum, size := b[1..9], b[9..13];
    LittleEndianOfValue(seqNum);
    LittleEndianOfValue(size);
    var header := DataHeader(Value(seqNum), Value(size));
    assert header == [DATA_PKT] + seqNum + size == b[..13];
    var total := DATA_HEADER_SIZE + Value(size);
    assert b[..total] == b[..13] + b[13..total];
  }

  /** Conversely, what the parser takes from the buffer is exactly the encoding of what it returns. */
  lemma EncodeOfParse(b: Bytes)
    requires TryParse(b).Got?
    ensures var a := TryParse(b);
      0 < a.size <= |b| && ValidItem(a.item) && b[..a.size] == EncodeItem(a.item)
  {
    if b[0] == DATA_PKT {
      EncodeOfData(b);
    } else if KnownType(b[0]) {
      EncodeOfAuth(b);
    }
  }

  /** A decision, once taken, is not changed by bytes that arrive later. */
  lemma TryParseStable(b: Bytes, ext: Bytes)
    requires TryParse(b).Got?
    ensures TryParse(b + ext) == TryParse(b)
  {
    EncodeOfParse(b);
    var a := TryParse(b);
    ParseOfEncode(a.item, b[a.size..] + ext);
    assert EncodeItem(a.item) + (b[a.size..] + ext) == b + ext;
  }

  // ---------------------------------------------------------------- the layout, byte by byte

  lemma {:induction false} ValueOfFour(b0: Byte, b1: Byte, b2: Byte, b3: Byte, more: Bytes)
    ensures Value([b0] + ([b1] + ([b2] + ([b3] + more))))
         == b0 as int + 0x100 * b1 as int + 0x1_0000 * b2 as int + 0x100_0000 * b3 as int + 0x1_0000_0000 * Value(more)
  {
    ValueFirst(b3, more);
    ValueFirst(b2, [b3] + more);
    ValueFirst(b1, [b2] + ([b3] + more));
    ValueFirst(b0, [b1] + ([b2] + ([b3] + more)));
  }

  lemma ValueFirst(b: Byte, more: Bytes)
    ensures Value([b] + more) == b as int + 256 * Value(more)
  {
    assert ([b] + more)[1..] == more;
  }

  /** A 32-bit field, least significant byte first. */
  lemma FieldOfFour(f: Bytes)
    requires |f| == 4
    ensures Value(f) == f[0] as int + 0x100 * f[1] as int + 0x1_0000 * f[2] as int + 0x100_0000 * f[3] as int
  {
    assert f == [f[0]] + ([f[1]] + ([f[2]] + ([f[3]] + [])));
    ValueOfFour(f[0], f[1], f[2], f[3], []);
  }

  /** A 64-bit field, least significant byte first. */
  lemma FieldOfEight(f: Bytes)
    requires |f| == 8
    ensures Value(f) == f[0] as int + 0x100 * f[1] as int + 0x1_0000 * f[2] as int + 0x100_0000 * f[3] as int
      + 0x1_0000_0000 * (f[4] as int + 0x100 * f[5] as int + 0x1_0000 * f[6] as int + 0x100_0000 * f[7] as int)
  {
    assert f == [f[0]] + ([f[1]] + ([f[2]] + ([f[3]] + f[4..])));
    ValueOfFour(f[0], f[1], f[2], f[3], f[4..]);
    FieldOfFour(f[4..]);
  }

  /** Type 1 and then 16 bytes of uuid. */
  lemma RequestLayout(uuid: Bytes, rest: Bytes)
    requires |uuid| == 16
    ensures TryParse([1] + uuid + rest) == Got(Frame(AuthRequest(uuid)), 17)
    ensures Encode(AuthRequest(uuid)) == [1] + uuid
  {
    assert ([1] + uuid + rest)[1..17] == uuid;
  }

  /** Type 2, 16 bytes of uuid and the 64-bit sequence number to restore. */
  lemma ResponseLayout(uuid: Bytes, seqNum: Bytes, rest: Bytes)
    requires |uuid| == 16 && |seqNum| == 8
    ensures TryParse([2] + uuid + seqNum + rest) == Got(Frame(AuthResponse(uuid, Value(seqNum))), 25)
    ensures Encode(AuthResponse(uuid, Value(seqNum))) == [2] + uuid + seqNum
  {
    var b := [2] + uuid + seqNum + rest;
    assert b[1..17] == uuid && b[17..25] == seqNum;
    LittleEndianOfValue(seqNum);
  }

  /** Type 3, the 64-bit sequence number, the 32-bit payload size and the payload. */
  lemma DataLayout(seqNum: Bytes, size: Bytes, payload: Bytes, rest: Bytes)
    requires |seqNum| == 8 && |size| == 4 && Value(size) == |payload|
    ensures TryParse([3] + seqNum + size + payload + rest)
         == Got(Frame(DataPkt(Value(seqNum), payload)), 13 + |payload|)
    ensures Encode(DataPkt(Value(seqNum), payload)) == [3] + seqNum + size + payload
  {
    var b := [3] + seqNum + size + payload + rest;
    assert b[1..9] == seqNum && b[9..13] == size && b[13..13 + |payload|] == payload;
    LittleEndianOfValue(seqNum);
    LittleEndianOfValue(size);
  }

  /** Any other first byte is one byte of noise; and nothing is parsed from no bytes. */
  lemma OtherTypes(b: Byte, rest: Bytes)
    ensures b != 1 && b != 2 && b != 3 ==> TryParse([b] + rest) == Got(Noise(b), 1)
    ensures KnownType(b) <==> b == 1 || b == 2 || b == 3
    ensures TryParse([]).Starved?
  {
  }

  // ---------------------------------------------------------------- streams

  lemma {:induction false} EncodeItemsAppend(a: seq<Item>, b: seq<Item>)
    ensures EncodeItems(a + b) == EncodeItems(a) + EncodeItems(b)
  {
    if a == [] {
      assert a + b == b;
    } else {
      assert (a + b)[1..] == a[1..] + b;
      EncodeItemsAppend(a[1..], b);
      Associative(EncodeItem(a[0]), EncodeItems(a[1..]), EncodeItems(b));
    }
  }

  lemma {:induction false} FramesAppend(a: seq<Item>, b: seq<Item>)
    ensures Frames(a + b) == Frames(a) + Frames(b)
  {
    if a == [] {
      assert a + b == b;
    } else {
      assert (a + b)[1..] == a[1..] + b;
      FramesAppend(a[1..], b);
      Associative(FrameOf(a[0]), Frames(a[1..]), Frames(b));
    }
  }

  /** An initial part of the items has all the messages exactly when it reaches the last frame. */
  lemma {:induction false} NeededSuffices(items: seq<Item>, n: nat)
    requires n <= |items|
    ensures Frames(items[..n]) == Frames(items) <==> Needed(items) <= n
    decreases |items|
  {
    var last := |items| - 1;
    if n == |items| {
      assert items[..n] == items;
    } else {
      var init := items[..last];
      assert init[..n] == items[..n] && items == init + [items[last]];
      FramesAppend(init, [items[last]]);
      assert Frames([items[last]]) == FrameOf(items[last]) + [];
      if items[last].Frame? {
        FramesAppend(init[..n], init[n..]);
        assert init == init[..n] + init[n..];
        assert |Frames(items[..n])| < |Frames(items)|;
      } else {
        NeededSuffices(init, n);
        assert Frames(items) == Frames(init);
      }
    }
  }

  /** Where the cursor stands once the parser has taken everything it can. */
  function Cursor(b: Bytes): (end: nat)
    ensures end <= |b|
  {
    ParseSound(b);
    |EncodeItems(Parse(b))|
  }

  lemma SplitTwice(b: Bytes, i: nat, j: nat)
    requires i <= |b| && j <= |b[i..]|
    ensures b[..i] + b[i..][..j] == b[..i + j] && b[i..][j..] == b[i + j..]
  {
  }

  /** The items are valid, their encoding is the consumed part of the buffer, and nothing further can be taken. */
  predicate Explains(items: seq<Item>, b: Bytes) {
    var end := |EncodeItems(items)|;
    ValidItems(items) && end <= |b| && b[..end] == EncodeItems(items) && TryParse(b[end..]).Starved?
  }

  lemma ExplainsOneMore(item: Item, items: seq<Item>, b: Bytes, size: nat)
    requires ValidItem(item) && size <= |b| && b[..size] == EncodeItem(item)
    requires Explains(items, b[size..])
    ensures Explains([item] + items, b)
  {
    assert ([item] + items)[1..] == items;
    SplitTwice(b, size, |EncodeItems(items)|);
  }

  /** Whatever the buffer, what has been parsed explains the bytes consumed. */
  lemma {:induction false} ParseSound(b: Bytes)
    ensures Explains(Parse(b), b)
    decreases |b|
  {
    var a := TryParse(b);
    if a.Got? {
      EncodeOfParse(b);
      ParseSound(b[a.size..]);
      ExplainsOneMore(a.item, Parse(b[a.size..]), b, a.size);
    } else {
      assert b[0..] == b;
    }
  }

  lemma ParseFirst(item: Item, more: Bytes)
    requires ValidItem(item)
    ensures Parse(EncodeItem(item) + more) == [item] + Parse(more)
  {
    ParseOfEncode(item, more);
    var b := EncodeItem(item) + more;
    assert b[|EncodeItem(item)|..] == more;
  }

  /** Any run of valid items is parsed back, and parsing then continues behind it. */
  lemma {:induction false} ParseComplete(items: seq<Item>, rest: Bytes)
    requires ValidItems(items)
    ensures Parse(EncodeItems(items) + rest) == items + Parse(rest)
    decreases |items|
  {
    if items == [] {
      assert EncodeItems(items) + rest == rest;
    } else {
      Associative(EncodeItem(items[0]), EncodeItems(items[1..]), rest);
      ParseFirst(items[0], EncodeItems(items[1..]) + rest);
      ParseComplete(items[1..], rest);
      Associative([items[0]], items[1..], Parse(rest));
      assert items == [items[0]] + items[1..];
    }
  }

  lemma ParseWhole(items: seq<Item>)
    requires ValidItems(items)
    ensures Parse(EncodeItems(items)) == items
  {
    ParseComplete(items, []);
    assert EncodeItems(items) + [] == EncodeItems(items);
    assert items + [] == items;
  }

  lemma SplitExtended(b: Bytes, ext: Bytes, end: nat)
    requires end <= |b|
    ensures b[..end] + (b + ext)[end..] == b + ext
  {
  }

  /** Parsing on from the cursor after more bytes have come equals parsing everything from the start. */
  lemma ParseResumes(b: Bytes, ext: Bytes)
    ensures Parse(b + ext) == Parse(b) + Parse((b + ext)[Cursor(b)..])
  {
    var end := Cursor(b);
    ParseSound(b);
    ParseComplete(Parse(b), (b + ext)[end..]);
    SplitExtended(b, ext, end);
  }

  function Concat(chunks: seq<Bytes>): Bytes {
    if chunks == [] then [] else Concat(chunks[..|chunks| - 1]) + chunks[|chunks| - 1]
  }

  /** The items returned when the parser is drained after each chunk. */
  function Drained(chunks: seq<Bytes>): seq<Item> {
    if chunks == [] then []
    else
      var before := Concat(chunks[..|chunks| - 1]);
      Drained(chunks[..|chunks| - 1]) + Parse((before + chunks[|chunks| - 1])[Cursor(before)..])
  }

  /** Incremental parsing is batch parsing: the split into chunks does not matter, to the items or to the cursor. */
  lemma {:induction false} ChunksDoNotMatter(chunks: seq<Bytes>)
    ensures Drained(chunks) == Parse(Concat(chunks))
    ensures |EncodeItems(Drained(chunks))| == Cursor(Concat(chunks))
    decreases |chunks|
  {
    if chunks != [] {
      ChunksDoNotMatter(chunks[..|chunks| - 1]);
      ParseResumes(Concat(chunks[..|chunks| - 1]), chunks[|chunks| - 1]);
    }
  }

  /** Frames, with any runs of unknown bytes between them, survive the wire and any chunking whole. */
  lemma RoundTrip(items: seq<Item>, chunks: seq<Bytes>)
    requires ValidItems(items) && Concat(chunks) == EncodeItems(items)
    ensures Drained(chunks) == items && Frames(Drained(chunks)) == Frames(items)
    ensures Cursor(Concat(chunks)) == |Concat(chunks)|
  {
    ChunksDoNotMatter(chunks);
    ParseWhole(items);
  }

  /** Different valid item sequences never have the same bytes. */
  lemma EncodingIsInjective(a: seq<Item>, b: seq<Item>)
    requires ValidItems(a) && ValidItems(b)
    ensures EncodeItems(a) == EncodeItems(b) <==> a == b
  {
    ParseWhole(a);
    ParseWhole(b);
  }

  predicate IsPrefix<T(==)>(a: seq<T>, b: seq<T>) {
    |a| <= |b| && a == b[..|a|]
  }

  lemma PrefixOfSum<T>(a: seq<T>, b: seq<T>)
    ensures IsPrefix(a, a + b)
  {
  }

  /** If the connection breaks anywhere, the receiver still gets an initial segment of the messages, in order. */
  lemma BrokenStreamGivesPrefix(items: seq<Item>, n: nat)
    requires ValidItems(items) && n <= |EncodeItems(items)|
    ensures IsPrefix(Parse(EncodeItems(items)[..n]), items)
    ensures IsPrefix(Frames(Parse(EncodeItems(items)[..n])), Frames(items))
  {
    var wire := EncodeItems(items);
    var arrived := wire[..n];
    assert arrived + wire[n..] == wire;
    ParseWhole(items);
    ParseResumes(arrived, wire[n..]);
    var later := Parse(wire[Cursor(arrived)..]);
    PrefixOfSum(Parse(arrived), later);
    FramesAppend(Parse(arrived), later);
    PrefixOfSum(Frames(Parse(arrived)), Frames(later));
  }

  // ---------------------------------------------------------------- sendDataPkt

  lemma {:induction false} NoiseBytes(items: seq<Item>)
    requires ValidItems(items) && Frames(items) == []
    ensures forall b :: b in EncodeItems(items) ==> !KnownType(b)
  {
    if items != [] {
      NoiseBytes(items[1..]);
    }
  }

  /** A valid stream with a single frame is that frame with noise on either side. */
  lemma {:induction false} OneFrame(items: seq<Item>, m: Message) returns (pre: seq<Item>, post: seq<Item>)
    requires ValidItems(items) && Frames(items) == [m]
    ensures items == pre + [Frame(m)] + post && Frames(pre) == [] && Frames(post) == []
  {
    if items[0].Frame? {
      assert Frames(items)[0] == items[0].msg && Frames(items)[1..] == Frames(items[1..]);
      pre, post := [], items[1..];
    } else {
      pre, post := OneFrame(items[1..], m);
      pre := [items[0]] + pre;
      assert pre[1..] + [Frame(m)] + post == items[1..];
    }
  }

  lemma SandwichBytes(pre: seq<Item>, m: Message, post: seq<Item>)
    ensures EncodeItems(pre + [Frame(m)] + post) == EncodeItems(pre) + Encode(m) + EncodeItems(post)
  {
    EncodeItemsAppend(pre + [Frame(m)], post);
    EncodeItemsAppend(pre, [Frame(m)]);
    assert EncodeItems([Frame(m)]) == Encode(m);
  }

  lemma SameBytesLeft(extra: Bytes, header: Bytes, payload: Bytes, pre: Bytes, post: Bytes)
    requires header + extra + payload == pre + (header + payload) + post
    requires extra != []
    ensures extra[0] in pre || extra[0] in post
  {
    var x := extra[0];
    var total := multiset(header + extra + payload);
    assert total == multiset(header) + multiset(extra) + multiset(payload);
    assert multiset(pre + (header + payload) + post)
        == multiset(pre) + (multiset(header) + multiset(payload)) + multiset(post);
    assert total[x] == multiset(header)[x] + multiset(extra)[x] + multiset(payload)[x];
    assert total[x] == multiset(pre)[x] + multiset(header)[x] + multiset(payload)[x] + multiset(post)[x];
    assert x in multiset(extra);
    assert multiset(pre)[x] > 0 || multiset(post)[x] > 0;
  }

  /** The receiver gets exactly this message and leaves nothing unread. */
  predicate ArrivesAlone(wire: Bytes, m: Message) {
    Frames(Parse(wire)) == [m] && Cursor(wire) == |wire|
  }

  /** What arrives alone is the message's own bytes, perhaps with bytes of no known type on either side. */
  lemma AloneIsSandwich(wire: Bytes, m: Message) returns (pre: Bytes, post: Bytes)
    requires ArrivesAlone(wire, m)
    ensures wire == pre + Encode(m) + post
    ensures forall b :: b in pre || b in post ==> !KnownType(b)
  {
    ParseSound(wire);
    assert wire[..|wire|] == wire;
    var before, after := OneFrame(Parse(wire), m);
    SandwichBytes(before, m, after);
    ValidParts(before, [Frame(m)], after);
    NoiseBytes(before);
    NoiseBytes(after);
    pre, post := EncodeItems(before), EncodeItems(after);
  }

  lemma WholeArrivesAlone(m: Message)
    requires ValidMessage(m)
    ensures ArrivesAlone(Encode(m), m)
  {
    var items := [Frame(m)];
    assert EncodeItems(items) == Encode(m) + [] == Encode(m);
    ParseWhole(items);
    assert Frames(items) == [m] + Frames([]);
  }

  /** A packet preceded by a further copy of some of its header is never received as that packet alone. */
  lemma HeaderTooMany(m: Message, h: nat)
    requires ValidMessage(m) && m.DataPkt? && 0 < h <= DATA_HEADER_SIZE
    ensures var header := DataHeader(m.seqNum, |m.payload|);
      !ArrivesAlone(header + header[..h] + m.payload, m)
  {
    var header := DataHeader(m.seqNum, |m.payload|);
    var wire := header + header[..h] + m.payload;
    if ArrivesAlone(wire, m) {
      assert header[..h][0] == DATA_PKT;
      var pre, post := AloneIsSandwich(wire, m);
      SameBytesLeft(header[..h], header, m.payload, pre, post);
    }
  }

  /**
    When every send completes, sendDataPkt writes the header itself and then calls
    sendPacketPayload, which writes it again. A receiver never sees that as the one packet it
    stands for: either the messages differ or unread bytes stay behind the cursor.
  */
  lemma DoubledHeaderNeverRoundTrips(m: Message)
    requires ValidMessage(m) && m.DataPkt?
    ensures !ArrivesAlone(DataHeader(m.seqNum, |m.payload|) + Encode(m), m)
  {
    var header := DataHeader(m.seqNum, |m.payload|);
    HeaderTooMany(m, DATA_HEADER_SIZE);
    assert header[..DATA_HEADER_SIZE] == header;
    Associative(header, header, m.payload);
  }

  /** The message's own bytes come first, and nothing but bytes of no known type after them. */
  predicate Leads(wire: Bytes, m: Message) {
    var n := |Encode(m)|;
    n <= |wire| && wire[..n] == Encode(m) && forall b :: b in wire[n..] ==> !KnownType(b)
  }

  lemma {:induction false} NoiseIsSkipped(b: Bytes)
    requires forall x :: x in b ==> !KnownType(x)
    ensures Frames(Parse(b)) == [] && Cursor(b) == |b|
    decreases |b|
  {
    if b != [] {
      NoiseIsSkipped(b[1..]);
      ParseFirst(Noise(b[0]), b[1..]);
      assert EncodeItem(Noise(b[0])) + b[1..] == b;
      FramesAppend([Noise(b[0])], Parse(b[1..]));
      EncodeItemsAppend([Noise(b[0])], Parse(b[1..]));
      assert EncodeItems([Noise(b[0])]) == [b[0]] + [];
    }
  }

  lemma LeadingArrives(wire: Bytes, m: Message)
    requires ValidMessage(m) && Leads(wire, m)
    ensures ArrivesAlone(wire, m)
  {
    var rest := wire[|Encode(m)|..];
    assert wire == EncodeItem(Frame(m)) + rest;
    ParseFirst(Frame(m), rest);
    NoiseIsSkipped(rest);
    FramesAppend([Frame(m)], Parse(rest));
    EncodeItemsAppend([Frame(m)], Parse(rest));
    assert EncodeItems([Frame(m)]) == Encode(m) + [] == Encode(m);
    assert Frames([Frame(m)]) == [m] + Frames([]);
  }

  lemma NothingBefore(wire: Bytes, pre: Bytes, frame: Bytes, post: Bytes)
    requires wire == pre + frame + post && wire != [] && KnownType(wire[0])
    requires forall b :: b in pre ==> !KnownType(b)
    ensures pre == []
  {
  }

  /** Bytes that begin with a known type are received as the message alone exactly when it leads them. */
  lemma ArrivesExactly(wire: Bytes, m: Message)
    requires ValidMessage(m) && wire != [] && KnownType(wire[0])
    ensures ArrivesAlone(wire, m) <==> Leads(wire, m)
  {
    if ArrivesAlone(wire, m) {
      var pre, post := AloneIsSandwich(wire, m);
      NothingBefore(wire, pre, Encode(m), post);
      assert wire == Encode(m) + post;
      assert wire[|Encode(m)|..] == post;
    }
    if Leads(wire, m) {
      LeadingArrives(wire, m);
    }
  }

  /**
    A beginning of the header followed by a beginning of the payload is received as the packet
    exactly when both are whole.
  */
  lemma PartsArriveExactly(m: Message, h: nat, p: nat)
    requires ValidMessage(m) && m.DataPkt? && h <= DATA_HEADER_SIZE && p <= |m.payload|
    ensures var header := DataHeader(m.seqNum, |m.payload|);
      ArrivesAlone(header[..h] + m.payload[..p], m) <==> h == DATA_HEADER_SIZE && p == |m.payload|
  {
    var header := DataHeader(m.seqNum, |m.payload|);
    var wire := header[..h] + m.payload[..p];
    if h == DATA_HEADER_SIZE && p == |m.payload| {
      assert header[..h] == header && m.payload[..p] == m.payload;
      WholeArrivesAlone(m);
    } else if ArrivesAlone(wire, m) {
      assert |wire| < |Encode(m)|;
      var pre, post := AloneIsSandwich(wire, m);
    }
  }

  lemma ValidParts(a: seq<Item>, b: seq<Item>, c: seq<Item>)
    requires ValidItems(a + b + c)
    ensures ValidItems(a) && ValidItems(c)
  {
    forall i | 0 <= i < |a| ensures ValidItem(a[i]) {
      assert (a + b + c)[i] == a[i];
    }
    forall i | 0 <= i < |c| ensures ValidItem(c[i]) {
      assert (a + b + c)[|a| + |b| + i] == c[i];
    }
  }
}
