/** Message frames of session.cpp: write_msg puts a message between a header word and a trailer word,
    and Recv cuts it out of the stream again. Words are little-endian. */
module Framing {
  import opened Words

  const TRAILER := 0xFF8859EA
  const CODE_UNIT := 0x10_0000
  const LENGTH_UNIT := 0x2000
  const ROOM := 0x2020 // bytes of a receive buffer

  type Payload = s: seq<Byte> | |s| < LENGTH_UNIT

  function LE32(x: Word32): (bytes: seq<Byte>)
    ensures |bytes| == 4
  {
    [x % 256, x / 256 % 256, x / 65536 % 256, x / 16777216]
  }

  /** The word at byte i. */
  function WordAt(b: seq<Byte>, i: nat): Word32
    requires i + 4 <= |b|
  {
    Join(b[i], b[i + 1], b[i + 2], b[i + 3])
  }

  function Join(a: int, b: int, c: int, d: int): int {
    a + 256 * b + 65536 * c + 16777216 * d
  }

  lemma WordRoundTrip(x: Word32)
    ensures WordAt(LE32(x), 0) == x
  {
    assert x / 65536 == x / 256 / 256 && x / 16777216 == x / 65536 / 256;
  }

  /** The length padded to whole words. */
  function Padded(n: nat): nat {
    if n % 4 == 0 then n else n + 4 - n % 4
  }

  function Zeros(n: nat): seq<Byte> {
    seq(n, (i: nat) => 0)
  }

  function Header(code: Word32, length: nat): Word32
    requires length < LENGTH_UNIT
  {
    assert code / CODE_UNIT < 4096 && code == code / CODE_UNIT * CODE_UNIT + code % CODE_UNIT;
    code - code % CODE_UNIT + length
  }

  /** A whole frame. */
  function Frame(code: Word32, payload: Payload): (frame: seq<Byte>)
    ensures |frame| == Padded(|payload|) + 8 <= ROOM
  {
    LE32(Header(code, |payload|)) + payload + Zeros(Padded(|payload|) - |payload|) + LE32(TRAILER)
  }

  lemma HeaderFields(code: Word32, length: nat)
    requires length < LENGTH_UNIT
    ensures Header(code, length) % LENGTH_UNIT == length
    ensures Header(code, length) / CODE_UNIT == code / CODE_UNIT
  {
    var h := Header(code, length);
    assert h == code / CODE_UNIT * CODE_UNIT + length;
    assert h == code / CODE_UNIT * 128 * LENGTH_UNIT + length;
  }

  // ----- sending -----

  method StoreWord(u8: array<Byte>, at: nat, x: Word32)
    requires at + 4 <= u8.Length
    modifies u8
    ensures u8[..at + 4] == old(u8[..at]) + LE32(x) && u8[at + 4..] == old(u8[at + 4..])
  {
    u8[at], u8[at + 1] := x % 256, x / 256 % 256;
    u8[at + 2], u8[at + 3] := x / 65536 % 256, x / 16777216;
  }

  method StoreHeader(u8: array<Byte>, n: nat, x: Word32)
    requires 4 + n <= u8.Length
    modifies u8
    ensures u8[..4 + n] == LE32(x) + old(u8[4..4 + n])
  {
    hide LE32;
    ghost var rest := u8[4..];
    StoreWord(u8, 0, x);
    assert u8[..4 + n] == u8[..4] + u8[4..][..n];
    assert rest[..n] == old(u8[4..4 + n]);
  }

  /** The body is padded to whole words with zero bytes. */
  method Pad(u8: array<Byte>, n: nat) returns (len: nat)
    requires n < LENGTH_UNIT && u8.Length >= LENGTH_UNIT + 8
    modifies u8
    ensures n <= len == Padded(n) <= LENGTH_UNIT && u8[..4 + len] == old(u8[..4 + n]) + Zeros(len - n)
  {
    len := n;
    while len % 4 != 0
      invariant n <= len <= Padded(n) <= LENGTH_UNIT && (n % 4 == 0 ==> len == n)
      invariant u8[..4 + len] == old(u8[..4 + n]) + Zeros(len - n)
      decreases Padded(n) - len
    {
      u8[4 + len] := 0;
      len := len + 1;
      assert u8[..4 + len] == old(u8[..4 + n]) + Zeros(len - 1 - n) + [0];
    }
  }

  /** isiSession::write_msg. The message body lies behind four bytes for the header; the result is
      the number of bytes to send. */
  method WriteMsg(u8: array<Byte>, length: nat, code: Word32) returns (total: nat)
    requires u8.Length >= LENGTH_UNIT + 8
    modifies u8
    ensures var n := length % LENGTH_UNIT;
      total == Padded(n) + 8 && u8[..total] == Frame(code, old(u8[4..4 + n]))
  {
    var n := length % LENGTH_UNIT;
    total := WriteFrame(u8, n, code);
  }

  /** Header, padding and trailer around a body of n bytes. */
  method WriteFrame(u8: array<Byte>, n: nat, code: Word32) returns (total: nat)
    requires u8.Length >= LENGTH_UNIT + 8 && n < LENGTH_UNIT
    modifies u8
    ensures total == Padded(n) + 8 && u8[..total] == Frame(code, old(u8[4..4 + n]))
  {
    hide LE32, Header, Frame, Padded;
    ghost var payload := u8[4..4 + n];
    StoreHeader(u8, n, Header(code, n));
    var len := Pad(u8, n);
    StoreWord(u8, 4 + len, TRAILER);
    total := 8 + len;
    FrameFrom(code, payload);
  }

  lemma FrameFrom(code: Word32, payload: Payload)
    ensures Frame(code, payload) ==
      LE32(Header(code, |payload|)) + payload + Zeros(Padded(|payload|) - |payload|) + LE32(TRAILER)
  {
  }

  // ----- receiving -----

  datatype Outcome = Pending | Invalid | Message(code: nat, payload: seq<Byte>)

  type Buffer = s: seq<Byte> | |s| == ROOM witness seq(0x2020, (i: nat) => 0)

  /** A session that is receiving: bytes received so far lie at the front of the buffer; `expected`
      is the length of the frame, 0 as long as it is not known. */
  datatype Receiver = Receiver(buffer: Buffer, index: nat, expected: nat)

  function FrameLength(b: Buffer): nat {
    Padded(WordAt(b, 0) % LENGTH_UNIT) + 8
  }

  /** What a complete frame at the front of the buffer says. */
  function Judge(b: Buffer): Outcome {
    var head := WordAt(b, 0);
    var length := head % LENGTH_UNIT;
    if WordAt(b, 4 + Padded(length)) != TRAILER then Invalid
    else Message(head / CODE_UNIT, b[4..4 + length])
  }

  function Overwrite(b: Buffer, at: nat, chunk: seq<Byte>): Buffer
    requires at + |chunk| <= ROOM
  {
    b[..at] + chunk + b[at + |chunk|..]
  }

  function Feed(r: Receiver, chunk: seq<Byte>): (Receiver, Outcome)
    requires r.index + |chunk| <= ROOM
  {
    var b := Overwrite(r.buffer, r.index, chunk);
    var index := r.index + |chunk|;
    var expected := if r.expected == 0 && index >= 4 then FrameLength(b) else r.expected;
    if index < expected then (Receiver(b, index, expected), Pending)
    else if Judge(b) == Invalid then (Receiver(b, index, expected), Invalid)
    else (Receiver(b, 0, 0), Judge(b))
  }

  class Client {
    const buf: array<Byte>
    var recv_index: nat
    var frame_length: nat

    constructor ()
      ensures Valid() && fresh(buf) && recv_index == 0 && frame_length == 0
    {
      buf := new Byte[ROOM](i => 0);
      recv_index, frame_length := 0, 0;
    }

    ghost predicate Valid() {
      buf.Length == ROOM
    }

    ghost function View(): Receiver
      requires Valid()
      reads this, buf
    {
      Receiver(buf[..], recv_index, frame_length)
    }

    method ReadWord(at: nat) returns (w: Word32)
      requires at + 4 <= buf.Length
      ensures w == WordAt(buf[..], at)
    {
      w := Join(buf[at], buf[at + 1], buf[at + 2], buf[at + 3]);
    }

    method Append(chunk: seq<Byte>)
      requires Valid() && recv_index + |chunk| <= ROOM
      modifies this`recv_index, buf
      ensures buf[..] == Overwrite(old(buf[..]), old(recv_index), chunk)
      ensures recv_index == old(recv_index) + |chunk|
    {
      for i := 0 to |chunk|
        invariant recv_index == old(recv_index)
        invariant buf[..] == old(buf[..recv_index]) + chunk[..i] + old(buf[recv_index + i..])
      {
        buf[recv_index + i] := chunk[i];
      }
      recv_index := recv_index + |chunk|;
    }

    /** With the first four bytes the length of the frame is known. */
    method Announce()
      requires Valid()
      modifies this`frame_length
      ensures frame_length ==
        if old(frame_length) == 0 && recv_index >= 4 then FrameLength(buf[..]) else old(frame_length)
    {
      if frame_length == 0 && recv_index >= 4 {
        var head := ReadWord(0);
        var f := head % LENGTH_UNIT;
        if f % 4 != 0 {
          f := f + 4 - f % 4;
        }
        frame_length := f + 8;
      }
    }

    /** The frame is cut out if its trailer is in place. */
    method CutOut() returns (outcome: Outcome)
      requires Valid()
      modifies this`recv_index, this`frame_length
      ensures outcome == Judge(buf[..])
      ensures (recv_index, frame_length) == if outcome == Invalid then old((recv_index, frame_length)) else (0, 0)
    {
      hide WordAt;
      var head := ReadWord(0);
      var length := head % LENGTH_UNIT;
      var last := ReadWord(4 + 4 * ((if length % 4 != 0 then 1 else 0) + length / 4));
      if last != TRAILER {
        return Invalid;
      }
      recv_index, frame_length := 0, 0;
      return Message(head / CODE_UNIT, buf[4..4 + length]);
    }

    /** isiSessionClient::Recv, given the bytes that the socket returned. */
    method Recv(chunk: seq<Byte>) returns (outcome: Outcome)
      requires Valid() && 0 < |chunk| && recv_index + |chunk| <= ROOM
      modifies this, buf
      ensures Valid() && (View(), outcome) == Feed(old(View()), chunk)
    {
      hide Judge, FrameLength, Overwrite;
      Append(chunk);
      Announce();
      if recv_index < frame_length {
        return Pending;
      }
      outcome := CutOut();
    }
  }

  // ----- from one end to the other -----

  lemma FourParts(a: seq<Byte>, b: seq<Byte>, c: seq<Byte>, d: seq<Byte>)
    ensures (a + b + c + d)[..|a|] == a
    ensures (a + b + c + d)[|a|..|a| + |b|] == b
    ensures (a + b + c + d)[|a| + |b| + |c|..] == d
  {
  }

  lemma FrameParts(code: Word32, payload: Payload)
    ensures var f := Frame(code, payload);
      |payload| <= Padded(|payload|) && |f| == Padded(|payload|) + 8 &&
      f[..4] == LE32(Header(code, |payload|)) && f[4..4 + |payload|] == payload &&
      f[4 + Padded(|payload|)..] == LE32(TRAILER)
  {
    hide LE32;
    FourParts(LE32(Header(code, |payload|)), payload, Zeros(Padded(|payload|) - |payload|), LE32(TRAILER));
  }

  lemma PrefixSlice(b: seq<Byte>, f: seq<Byte>, i: nat, j: nat)
    requires i <= j <= |f| <= |b| && b[..|f|] == f
    ensures b[i..j] == f[i..j]
  {
    assert b[..|f|][i..j] == b[i..j];
  }

  /** What the frame says, read from a buffer that begins with it. */
  lemma FrameIsRead(code: Word32, payload: Payload, b: Buffer)
    requires |Frame(code, payload)| <= ROOM && b[..|Frame(code, payload)|] == Frame(code, payload)
    ensures Judge(b) == Message(code / CODE_UNIT, payload)
  {
    hide LE32, WordAt, Frame;
    var n := |payload|;
    var f := Frame(code, payload);
    FrameParts(code, payload);
    PrefixSlice(b, f, 0, 4);
    FrameHead(code, payload, b);
    PrefixSlice(b, f, 4, 4 + n);
    PrefixSlice(b, f, 4 + Padded(n), |f|);
    assert b[4 + Padded(n)..][..4] == b[4 + Padded(n)..|f|];
    WordIn(b, 4 + Padded(n), TRAILER);
  }

  lemma WordIn(b: seq<Byte>, i: nat, x: Word32)
    requires i + 4 <= |b| && b[i..][..4] == LE32(x)
    ensures WordAt(b, i) == x
  {
    WordRoundTrip(x);
    assert forall k | 0 <= k < 4 :: b[i + k] == b[i..][..4][k];
  }

  /** The header is known as soon as four bytes are there. */
  lemma FrameHead(code: Word32, payload: Payload, b: Buffer)
    requires b[..4] == Frame(code, payload)[..4]
    ensures WordAt(b, 0) % LENGTH_UNIT == |payload| && WordAt(b, 0) / CODE_UNIT == code / CODE_UNIT
    ensures FrameLength(b) == |Frame(code, payload)| <= ROOM
  {
    hide LE32, WordAt, Frame;
    FrameParts(code, payload);
    HeaderFields(code, |payload|);
    assert b[0..][..4] == b[..4];
    WordIn(b, 0, Header(code, |payload|));
  }

  /** The receiver in the middle of a frame: it has its first n bytes. */
  predicate Receiving(r: Receiver, frame: seq<Byte>, n: nat) {
    r.index == n <= |frame| <= ROOM && r.buffer[..n] == frame[..n] &&
    r.expected == if n == 0 then 0 else |frame|
  }

  /** One chunk more. At the last byte the message is there, and the receiver is ready for another. */
  lemma FeedMore(code: Word32, payload: Payload, r: Receiver, n: nat, chunk: seq<Byte>)
    requires Receiving(r, Frame(code, payload), n) && 0 < |chunk| && (n == 0 ==> |chunk| >= 4)
    requires n + |chunk| <= |Frame(code, payload)| && chunk == Frame(code, payload)[n..n + |chunk|]
    ensures var (r', out) := Feed(r, chunk);
      if n + |chunk| < |Frame(code, payload)|
      then out == Pending && Receiving(r', Frame(code, payload), n + |chunk|)
      else out == Message(code / CODE_UNIT, payload) && r'.index == 0 && r'.expected == 0
  {
    hide Frame, Judge, FrameLength;
    var f := Frame(code, payload);
    var b := Overwrite(r.buffer, r.index, chunk);
    FrameParts(code, payload);
    assert b[..n + |chunk|] == f[..n] + chunk == f[..n + |chunk|];
    if n == 0 {
      assert b[..4] == b[..|chunk|][..4] && f[..4] == f[..|chunk|][..4];
      FrameHead(code, payload, b);
    }
    if n + |chunk| == |f| {
      assert f[..n + |chunk|] == f;
      FrameIsRead(code, payload, b);
    }
  }

  /** What the receiver says to each of a series of chunks. */
  function FeedAll(r: Receiver, chunks: seq<seq<Byte>>): seq<Outcome>
    decreases |chunks|
  {
    if |chunks| == 0 || r.index + |chunks[0]| > ROOM then []
    else
      var (r', out) := Feed(r, chunks[0]);
      [out] + FeedAll(r', chunks[1..])
  }

  /** The client, given one chunk after the other. */
  method RecvAll(client: Client, chunks: seq<seq<Byte>>) returns (outcomes: seq<Outcome>)
    requires client.Valid() && forall c | c in chunks :: |c| > 0
    modifies client, client.buf
    ensures client.Valid() && outcomes == FeedAll(old(client.View()), chunks)
  {
    hide Feed;
    outcomes := [];
    var k := 0;
    while k < |chunks| && client.recv_index + |chunks[k]| <= ROOM
      invariant k <= |chunks| && client.Valid()
      invariant FeedAll(old(client.View()), chunks) == outcomes + FeedAll(client.View(), chunks[k..])
    {
      assert chunks[k..][0] == chunks[k] && chunks[k..][1..] == chunks[k + 1..];
      var outcome := client.Recv(chunks[k]);
      outcomes := outcomes + [outcome];
      k := k + 1;
    }
  }

  function Concat(chunks: seq<seq<Byte>>): seq<Byte>
    decreases |chunks|
  {
    if |chunks| == 0 then [] else chunks[0] + Concat(chunks[1..])
  }

  lemma {:induction false} RestOfFrame(code: Word32, payload: Payload, r: Receiver, n: nat, chunks: seq<seq<Byte>>)
    requires Receiving(r, Frame(code, payload), n) && n < |Frame(code, payload)|
    requires forall c | c in chunks :: |c| > 0
    requires Concat(chunks) == Frame(code, payload)[n..] && (n == 0 ==> |chunks[0]| >= 4)
    ensures |FeedAll(r, chunks)| == |chunks| > 0
    ensures forall i | 0 <= i < |chunks| - 1 :: FeedAll(r, chunks)[i] == Pending
    ensures FeedAll(r, chunks)[|chunks| - 1] == Message(code / CODE_UNIT, payload)
    decreases |chunks|
  {
    hide Frame, Feed;
    FrameParts(code, payload);
    var f := Frame(code, payload);
    var chunk, rest := chunks[0], chunks[1..];
    var m := n + |chunk|;
    assert f[n..][..|chunk|] == chunk && f[n..][|chunk|..] == Concat(rest);
    assert f[n..m] == chunk && f[m..] == Concat(rest);
    FeedMore(code, payload, r, n, chunk);
    if m < |f| {
      RestOfFrame(code, payload, Feed(r, chunk).0, m, rest);
    } else {
      NothingLeft(rest);
    }
  }

  lemma NotEmpty(chunks: seq<seq<Byte>>)
    requires |chunks| > 0 && forall c | c in chunks :: |c| > 0
    ensures Concat(chunks) != []
  {
    assert chunks[0] in chunks;
  }

  lemma NothingLeft(chunks: seq<seq<Byte>>)
    requires Concat(chunks) == [] && forall c | c in chunks :: |c| > 0
    ensures chunks == []
  {
    if |chunks| > 0 {
      NotEmpty(chunks);
    }
  }

  /** All chunks but the last wait for more, and the last brings the message. */
  predicate Delivers(outcomes: seq<Outcome>, code: Word32, payload: Payload) {
    |outcomes| > 0 && outcomes[|outcomes| - 1] == Message(code / CODE_UNIT, payload) &&
    forall i | 0 <= i < |outcomes| - 1 :: outcomes[i] == Pending
  }

  /** Whatever the code and the payload, the bytes of write_msg, cut into any non-empty chunks, are
      delivered (exactly one message, with that code and payload, at the last chunk) if and only if
      the first chunk has at least four bytes. */
  lemma FrameIsDelivered(code: Word32, payload: Payload, r: Receiver, chunks: seq<seq<Byte>>)
    requires r.index == 0 && r.expected == 0
    requires Concat(chunks) == Frame(code, payload) && (forall c | c in chunks :: |c| > 0)
    ensures |chunks| > 0
    ensures |FeedAll(r, chunks)| == |chunks| && Delivers(FeedAll(r, chunks), code, payload) <==> |chunks[0]| >= 4
  {
    hide Frame, Feed, FeedAll;
    FrameParts(code, payload);
    assert Frame(code, payload)[0..] == Frame(code, payload);
    if |chunks[0]| >= 4 {
      RestOfFrame(code, payload, r, 0, chunks);
    } else {
      assert |Concat(chunks[1..])| > 0;
      JudgedAtOnce(r, chunks);
    }
  }

  /** With fewer than four bytes a receiver does not wait: it judges what it has not received. */
  lemma JudgedAtOnce(r: Receiver, chunks: seq<seq<Byte>>)
    requires r.index == 0 && r.expected == 0 && |chunks| > 0 && |chunks[0]| < 4
    ensures |FeedAll(r, chunks)| > 0 && FeedAll(r, chunks)[0] != Pending
  {
    hide FrameLength, WordAt, Overwrite;
  }

  /** The empty message of code 0, sent to a new receiver with its first byte alone in a chunk: no
      trailer is found, and the session is given up. */
  lemma ShortChunk()
    ensures Frame(0, [])[0] == 0
    ensures Feed(Receiver(Zeros(ROOM), 0, 0), [0]).1 == Invalid
  {
    hide WordAt;
    var b := Overwrite(Zeros(ROOM), 0, [0]);
    assert b == Zeros(ROOM);
    ZeroWord(0);
    ZeroWord(4);
  }

  lemma ZeroWord(i: nat)
    requires i + 4 <= ROOM
    ensures WordAt(Zeros(ROOM), i) == 0
  {
  }

  // ----- several frames -----

  datatype Sent = Sent(code: Word32, payload: Payload, chunks: seq<seq<Byte>>)

  /** The chunks are the frame, cut anywhere behind its first four bytes. */
  predicate WellCut(m: Sent) {
    Concat(m.chunks) == Frame(m.code, m.payload) && (forall c | c in m.chunks :: |c| > 0) &&
    |m.chunks| > 0 && |m.chunks[0]| >= 4
  }

  function AllChunks(ms: seq<Sent>): seq<seq<Byte>> {
    if |ms| == 0 then [] else ms[0].chunks + AllChunks(ms[1..])
  }

  /** The messages among the answers. */
  function Messages(outcomes: seq<Outcome>): seq<Outcome> {
    if |outcomes| == 0 then []
    else (if outcomes[0] == Pending then [] else [outcomes[0]]) + Messages(outcomes[1..])
  }

  /** The receiver after a series of chunks. */
  function AfterAll(r: Receiver, chunks: seq<seq<Byte>>): Receiver
    decreases |chunks|
  {
    if |chunks| == 0 || r.index + |chunks[0]| > ROOM then r else AfterAll(Feed(r, chunks[0]).0, chunks[1..])
  }

  lemma {:induction false} FeedTwice(r: Receiver, chunks: seq<seq<Byte>>, more: seq<seq<Byte>>)
    requires |FeedAll(r, chunks)| == |chunks|
    ensures FeedAll(r, chunks + more) == FeedAll(r, chunks) + FeedAll(AfterAll(r, chunks), more)
    decreases |chunks|
  {
    hide Feed;
    if |chunks| == 0 {
      assert chunks + more == more;
    } else {
      assert (chunks + more)[0] == chunks[0] && (chunks + more)[1..] == chunks[1..] + more;
      FeedTwice(Feed(r, chunks[0]).0, chunks[1..], more);
    }
  }

  lemma {:induction false} OneMessage(outcomes: seq<Outcome>, code: Word32, payload: Payload, more: seq<Outcome>)
    requires Delivers(outcomes, code, payload)
    ensures Messages(outcomes + more) == [Message(code / CODE_UNIT, payload)] + Messages(more)
    decreases |outcomes|
  {
    assert (outcomes + more)[1..] == outcomes[1..] + more;
    if |outcomes| > 1 {
      OneMessage(outcomes[1..], code, payload, more);
    } else {
      assert outcomes[1..] + more == more;
    }
  }

  /** The receiver is ready for the next frame at the end of one. */
  lemma {:induction false} ReadyAgain(code: Word32, payload: Payload, r: Receiver, n: nat, chunks: seq<seq<Byte>>)
    requires Receiving(r, Frame(code, payload), n) && n < |Frame(code, payload)|
    requires forall c | c in chunks :: |c| > 0
    requires Concat(chunks) == Frame(code, payload)[n..] && (n == 0 ==> |chunks[0]| >= 4)
    ensures AfterAll(r, chunks).index == 0 && AfterAll(r, chunks).expected == 0
    decreases |chunks|
  {
    hide Frame, Feed;
    FrameParts(code, payload);
    var f := Frame(code, payload);
    var chunk, rest := chunks[0], chunks[1..];
    var m := n + |chunk|;
    assert f[n..][..|chunk|] == chunk && f[n..][|chunk|..] == Concat(rest);
    assert f[n..m] == chunk && f[m..] == Concat(rest);
    FeedMore(code, payload, r, n, chunk);
    if m < |f| {
      ReadyAgain(code, payload, Feed(r, chunk).0, m, rest);
    } else {
      NothingLeft(rest);
    }
  }

  /** Any number of frames, each cut anywhere behind its first four bytes and at its own end, are
      delivered one after the other: all messages, in order, and nothing else. */
  lemma {:induction false} FramesAreDelivered(r: Receiver, ms: seq<Sent>)
    requires r.index == 0 && r.expected == 0 && forall m | m in ms :: WellCut(m)
    ensures |FeedAll(r, AllChunks(ms))| == |AllChunks(ms)|
    ensures Messages(FeedAll(r, AllChunks(ms))) ==
      seq(|ms|, (i: nat) requires i < |ms| => Message(ms[i].code / CODE_UNIT, ms[i].payload))
    decreases |ms|
  {
    hide Feed, Frame, Delivers;
    if |ms| > 0 {
      var m, rest := ms[0], ms[1..];
      assert WellCut(m);
      FrameIsDelivered(m.code, m.payload, r, m.chunks);
      FrameParts(m.code, m.payload);
      assert Frame(m.code, m.payload)[0..] == Frame(m.code, m.payload);
      ReadyAgain(m.code, m.payload, r, 0, m.chunks);
      var r' := AfterAll(r, m.chunks);
      FeedTwice(r, m.chunks, AllChunks(rest));
      FramesAreDelivered(r', rest);
      OneMessage(FeedAll(r, m.chunks), m.code, m.payload, FeedAll(r', AllChunks(rest)));
    }
  }

  // ----- the bytes themselves -----

  /** A frame byte by byte: the length and the upper twelve bits of the code, the payload, zeros up to a
      multiple of four, and the trailer. */
  lemma WireFormat(code: Word32, payload: Payload)
    ensures var f, n := Frame(code, payload), |payload|;
      |f| % 4 == 0 && n + 8 <= |f| <= n + 11 &&
      f[0] == n % 256 && f[1] == n / 256 && f[2] == code / 0x10_0000 % 16 * 16 && f[3] == code / 0x100_0000 &&
      f[4..4 + n] == payload && (forall i | 4 + n <= i < |f| - 4 :: f[i] == 0) &&
      f[|f| - 4..] == [0xEA, 0x59, 0x88, 0xFF]
  {
    var n := |payload|;
    HeaderBytes(code, n);
    TrailerBytes();
    Parts(code, payload);
  }

  lemma HeaderBytes(code: Word32, n: nat)
    requires n < LENGTH_UNIT
    ensures LE32(Header(code, n)) == [n % 256, n / 256, code / 0x10_0000 % 16 * 16, code / 0x100_0000]
  {
    var c := code / 0x10_0000;
    var h := Header(code, n);
    assert h == c * 0x10_0000 + n;
    Divided(h, 256, c * 4096 + n / 256, n % 256);
    Divided(c * 4096 + n / 256, 256, c * 16, n / 256);
    Divided(h, 65536, c * 16, n);
    Divided(c * 16, 256, c / 16, c % 16 * 16);
    Divided(h, 16777216, c / 16, c % 16 * 0x10_0000 + n);
    Divided(code, 0x100_0000, c / 16, c % 16 * 0x10_0000 + code % 0x10_0000);
  }

  lemma Divided(x: nat, d: nat, q: nat, r: nat)
    requires 0 <= r < d && x == q * d + r
    ensures x / d == q && x % d == r
  {
    DivBetween(x, d, q);
  }

  lemma TrailerBytes()
    ensures LE32(TRAILER) == [0xEA, 0x59, 0x88, 0xFF]
  {
  }

  lemma Parts(code: Word32, payload: Payload)
    ensures var f, n := Frame(code, payload), |payload|;
      |f| % 4 == 0 && n + 8 <= |f| <= n + 11 && f[..4] == LE32(Header(code, n)) && f[4..4 + n] == payload &&
      (forall i | 4 + n <= i < |f| - 4 :: f[i] == 0) && f[|f| - 4..] == LE32(TRAILER)
  {
    hide LE32, Header;
    FrameParts(code, payload);
  }

  /** A frame is judged by the four bytes behind its padded body alone; the code and the length are those
      of its first four bytes. */
  lemma JudgedByTrailer(b: Buffer)
    ensures var n := (b[0] + 256 * (b[1] as int)) % 8192;
      var at := 4 + Padded(n);
      (Judge(b) == Invalid <==> b[at..at + 4] != [0xEA, 0x59, 0x88, 0xFF]) &&
      (Judge(b) != Invalid ==> Judge(b) == Message((b[3] as int) * 16 + b[2] / 16, b[4..4 + n]))
  {
    FirstWord(b[0], b[1], b[2], b[3]);
    var n := (b[0] + 256 * (b[1] as int)) % 8192;
    var at := 4 + Padded(n);
    TrailerWord(b[at], b[at + 1], b[at + 2], b[at + 3]);
    assert b[at..at + 4] == [b[at], b[at + 1], b[at + 2], b[at + 3]];
    hide Join, Padded;
  }

  lemma FirstWord(a: Byte, b: Byte, c: Byte, d: Byte)
    ensures 0 <= Join(a, b, c, d) < 0x1_0000_0000
    ensures Join(a, b, c, d) % LENGTH_UNIT == (a + 256 * (b as int)) % 8192
    ensures Join(a, b, c, d) / CODE_UNIT == (d as int) * 16 + c / 16
  {
    var x := a + 256 * (b as int);
    assert Join(a, b, c, d) == x + 8192 * (8 * c + 2048 * d);
    assert Join(a, b, c, d) == CODE_UNIT * (16 * d + c / 16) + 65536 * (c % 16) + x;
  }

  lemma TrailerWord(a: Byte, b: Byte, c: Byte, d: Byte)
    ensures Join(a, b, c, d) == TRAILER <==> [a, b, c, d] == [0xEA, 0x59, 0x88, 0xFF]
  {
    if Join(a, b, c, d) == TRAILER {
      assert a == TRAILER % 256;
      assert b + 256 * (c as int) + 65536 * d == TRAILER / 256;
      assert b == TRAILER / 256 % 256;
      assert c + 256 * (d as int) == TRAILER / 65536;
    }
  }
}
