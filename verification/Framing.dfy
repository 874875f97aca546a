/**
  Length-prefixed frames on a socket: client-ts/src/socket_connection.ts (the
  incremental parser) and mkdb/server/coms/socket_protocol.py (the blocking reader).

  A payload is its bytes; reading JSON from it is the parameter `classify`.
 */
module Framing {
  import opened Json

  type byte = x: int | 0 <= x < 256

  type Bytes = seq<byte>

  const LIMIT: nat := 0x1_0000_0000

  /** The 10 MB limit of the blocking reader. */
  const MAX_FRAME_SIZE: nat := 10 * 1024 * 1024

  // ---------- the length ----------

  /** A 32-bit length, most significant byte first. */
  function Length(n: nat): (b: Bytes)
    requires n < LIMIT
    ensures |b| == 4
  {
    [n / 0x100_0000, n / 0x1_0000 % 0x100, n / 0x100 % 0x100, n % 0x100]
  }

  function ReadLength(b: Bytes): (n: nat)
    requires |b| >= 4
    ensures n < LIMIT
  {
    b[0] as int * 0x100_0000 + b[1] as int * 0x1_0000 + b[2] as int * 0x100 + b[3] as int
  }

  lemma LengthInverse(n: nat, rest: Bytes)
    requires n < LIMIT
    ensures ReadLength(Length(n) + rest) == n
  {
    var a, b, c := n / 0x100, n / 0x1_0000, n / 0x100_0000;
    assert a / 0x100 == b && b / 0x100 == c;
  }

  /** The first byte counts most. */
  lemma MostSignificantFirst(m: nat, n: nat)
    requires m < n < LIMIT
    ensures exists k :: 0 <= k < 4 && Length(m)[..k] == Length(n)[..k] && Length(m)[k] < Length(n)[k]
  {
    var a, b := Length(m), Length(n);
    var x, y := ReadLength(a), ReadLength(b);
    LengthInverse(m, []);
    LengthInverse(n, []);
    assert a + [] == a && b + [] == b;
    var k := if a[0] != b[0] then 0 else if a[1] != b[1] then 1 else if a[2] != b[2] then 2 else 3;
    assert a[..k] == b[..k] && x == m && y == n;
    assert a[k] >= b[k] ==> x >= y;
  }

  lemma ReadLengthInverse(b: Bytes)
    requires |b| == 4
    ensures Length(ReadLength(b)) == b
  {
    var n := ReadLength(b);
    var b0, b1, b2, b3 := b[0] as int, b[1] as int, b[2] as int, b[3] as int;
    assert n / 0x100 == b0 * 0x1_0000 + b1 * 0x100 + b2;
    assert n / 0x1_0000 == b0 * 0x100 + b1;
    assert n / 0x100_0000 == b0;
  }

  // ---------- printing ----------

  /** encode_message and send; None when the length does not fit 32 bits. */
  function Encode(payload: Bytes): Option<Bytes>
  {
    if |payload| < LIMIT then Some(Length(|payload|) + payload) else None
  }

  predicate Encodable(payloads: seq<Bytes>) { forall i :: 0 <= i < |payloads| ==> |payloads[i]| < LIMIT }

  /** All frames one after the other. */
  function Wire(payloads: seq<Bytes>): Bytes
    requires Encodable(payloads)
  {
    if payloads == [] then [] else Encode(payloads[0]).value + Wire(payloads[1..])
  }

  // ---------- the incremental parser ----------

  /** There is a whole frame at the front. */
  predicate Whole(buffer: Bytes) { |buffer| >= 4 && |buffer| >= ReadLength(buffer) + 4 }

  datatype Parse = Parse(payloads: seq<Bytes>, rest: Bytes)

  /** The whole frames at the front of a buffer, and what is left. */
  function Frames(buffer: Bytes): (p: Parse)
    ensures !Whole(p.rest)
    decreases |buffer|
  {
    if !Whole(buffer) then Parse([], buffer)
    else
      var n := ReadLength(buffer);
      var p := Frames(buffer[n + 4..]);
      Parse([buffer[4..n + 4]] + p.payloads, p.rest)
  }

  lemma EncodedIsWhole(payload: Bytes, rest: Bytes)
    requires |payload| < LIMIT
    ensures Whole(Encode(payload).value + rest) && ReadLength(Encode(payload).value + rest) == |payload|
    ensures (Encode(payload).value + rest)[4..|payload| + 4] == payload
    ensures (Encode(payload).value + rest)[|payload| + 4..] == rest
  {
    LengthInverse(|payload|, payload + rest);
    assert Encode(payload).value + rest == Length(|payload|) + (payload + rest);
  }

  /** The parser takes a wire apart into exactly the payloads it was made of. */
  lemma {:induction false} FramesOfWire(payloads: seq<Bytes>, tail: Bytes)
    requires Encodable(payloads) && !Whole(tail)
    ensures Frames(Wire(payloads) + tail) == Parse(payloads, tail)
    decreases |payloads|
  {
    if payloads == [] {
      assert Wire(payloads) + tail == tail;
    } else {
      var rest := Wire(payloads[1..]) + tail;
      assert Wire(payloads) + tail == Encode(payloads[0]).value + rest;
      EncodedIsWhole(payloads[0], rest);
      FramesOfWire(payloads[1..], tail);
    }
  }

  /** A frame that is whole stays the same frame when more bytes come. */
  lemma WholePrefix(a: Bytes, b: Bytes)
    requires Whole(a)
    ensures Whole(a + b) && ReadLength(a + b) == ReadLength(a)
    ensures (a + b)[4..ReadLength(a) + 4] == a[4..ReadLength(a) + 4]
    ensures (a + b)[ReadLength(a) + 4..] == a[ReadLength(a) + 4..] + b
  {
  }

  /** Parsing what is there and then the rest is parsing it all. */
  lemma {:induction false} FramesInTwo(a: Bytes, b: Bytes)
    ensures Frames(a + b).payloads == Frames(a).payloads + Frames(Frames(a).rest + b).payloads
    ensures Frames(a + b).rest == Frames(Frames(a).rest + b).rest
    decreases |a|
  {
    hide ReadLength;
    if Whole(a) {
      WholePrefix(a, b);
      FramesInTwo(a[ReadLength(a) + 4..], b);
    }
  }

  function Concat(chunks: seq<Bytes>): Bytes
  {
    if chunks == [] then [] else Concat(chunks[..|chunks| - 1]) + chunks[|chunks| - 1]
  }

  lemma FrameBack(buffer: Bytes)
    requires Whole(buffer)
    ensures var n := ReadLength(buffer);
            Encode(buffer[4..n + 4]).Some? && Encode(buffer[4..n + 4]).value + buffer[n + 4..] == buffer
  {
    hide Length, ReadLength;
    var n := ReadLength(buffer);
    LengthOfPrefix(buffer);
    ReadLengthInverse(buffer[..4]);
    assert buffer == buffer[..4] + buffer[4..n + 4] + buffer[n + 4..];
  }

  lemma LengthOfPrefix(buffer: Bytes)
    requires |buffer| >= 4
    ensures ReadLength(buffer) == ReadLength(buffer[..4])
  {
  }

  /** Every stream is a wire followed by an incomplete frame: the parser loses no byte. */
  lemma {:induction false} NothingLost(buffer: Bytes)
    ensures Encodable(Frames(buffer).payloads)
    ensures Wire(Frames(buffer).payloads) + Frames(buffer).rest == buffer
    decreases |buffer|
  {
    hide ReadLength, Encode;
    if Whole(buffer) {
      var n := ReadLength(buffer);
      var tail := buffer[n + 4..];
      NothingLost(tail);
      FrameBack(buffer);
      assert Frames(buffer).payloads[1..] == Frames(tail).payloads;
      var first := Encode(buffer[4..n + 4]).value;
      assert first + Wire(Frames(tail).payloads) + Frames(tail).rest == first + tail;
    }
  }

  // ---------- the client connection ----------

  /** What JSON.parse and the type tests make of a payload; Other also stands for one that does not parse. */
  datatype Message = Response(id: string, ok: bool) | Update | Other

  /** What becomes of a request: an error at once, the bytes written, or a rejected promise. */
  datatype Sending = NotConnected | Written(bytes: Bytes) | Rejected

  /** The requests waiting, the promises settled by responses so far and the updates emitted. */
  datatype Client = Client(pending: set<string>, settled: seq<(string, bool)>, updates: seq<Bytes>)

  function Handle(c: Client, m: Message, payload: Bytes): Client
  {
    match m
    case Response(id, ok) =>
      if id in c.pending then c.(pending := c.pending - {id}, settled := c.settled + [(id, ok)]) else c
    case Update => c.(updates := c.updates + [payload])
    case Other => c
  }

  function HandleAll(classify: Bytes -> Message, c: Client, payloads: seq<Bytes>): Client
  {
    if payloads == [] then c
    else
      var last := payloads[|payloads| - 1];
      Handle(HandleAll(classify, c, payloads[..|payloads| - 1]), classify(last), last)
  }

  /** The first response to a request is at j. */
  predicate FirstResponse(classify: Bytes -> Message, payloads: seq<Bytes>, id: string, ok: bool, j: nat)
  {
    && j < |payloads| && classify(payloads[j]) == Response(id, ok)
    && forall k :: 0 <= k < j ==> !(classify(payloads[k]).Response? && classify(payloads[k]).id == id)
  }

  predicate Answered(classify: Bytes -> Message, payloads: seq<Bytes>, id: string)
  {
    exists k :: 0 <= k < |payloads| && classify(payloads[k]).Response? && classify(payloads[k]).id == id
  }

  lemma FirstResponseExtends(classify: Bytes -> Message, before: seq<Bytes>, last: Bytes, id: string, ok: bool)
    ensures (exists j :: FirstResponse(classify, before + [last], id, ok, j))
       <==> (exists j :: FirstResponse(classify, before, id, ok, j))
            || (!Answered(classify, before, id) && classify(last) == Response(id, ok))
    ensures Answered(classify, before + [last], id)
       <==> Answered(classify, before, id) || (classify(last).Response? && classify(last).id == id)
  {
    var all := before + [last];
    assert all[|before|] == last;
    assert forall k :: 0 <= k < |before| ==> all[k] == before[k];
    if j: nat :| FirstResponse(classify, before, id, ok, j) {
      assert FirstResponse(classify, all, id, ok, j);
    }
    if j: nat :| FirstResponse(classify, all, id, ok, j) {
      if j < |before| { assert FirstResponse(classify, before, id, ok, j); }
    }
    if !Answered(classify, before, id) && classify(last) == Response(id, ok) {
      assert FirstResponse(classify, all, id, ok, |before|);
    }
  }

  /**
    A waiting request is settled exactly when a response to it arrives, by the first one,
    and never again; what did not wait is not settled.
   */
  lemma {:induction false} SettledByFirstResponse(classify: Bytes -> Message, waiting: set<string>,
                                                  payloads: seq<Bytes>,
                                                  id: string)
    ensures var c := HandleAll(classify, Client(waiting, [], []), payloads);
            && (id in c.pending <==> id in waiting && !Answered(classify, payloads, id))
            && (forall ok :: (id, ok) in c.settled
                  <==> id in waiting && exists j :: FirstResponse(classify, payloads, id, ok, j))
            && (forall a, b :: 0 <= a < b < |c.settled| ==> !(c.settled[a].0 == id && c.settled[b].0 == id))
    decreases |payloads|
  {
    if payloads != [] {
      var before, last := payloads[..|payloads| - 1], payloads[|payloads| - 1];
      assert payloads == before + [last];
      SettledByFirstResponse(classify, waiting, before, id);
      var c0 := HandleAll(classify, Client(waiting, [], []), before);
      forall ok ensures
        && ((exists j :: FirstResponse(classify, payloads, id, ok, j))
            <==> (exists j :: FirstResponse(classify, before, id, ok, j))
                 || (!Answered(classify, before, id) && classify(last) == Response(id, ok)))
        && (Answered(classify, payloads, id)
            <==> Answered(classify, before, id) || (classify(last).Response? && classify(last).id == id))
      {
        FirstResponseExtends(classify, before, last, id, ok);
      }
      forall a | 0 <= a < |c0.settled| && c0.settled[a].0 == id ensures id !in c0.pending {
        assert (id, c0.settled[a].1) in c0.settled;
        FirstIsAnswer(classify, before, id, c0.settled[a].1);
      }
    }
  }

  lemma FirstIsAnswer(classify: Bytes -> Message, payloads: seq<Bytes>, id: string, ok: bool)
    ensures (exists j :: FirstResponse(classify, payloads, id, ok, j)) ==> Answered(classify, payloads, id)
  {
  }

  /** The updates emitted are the payloads that are updates, in the order they came. */
  lemma {:induction false} UpdatesInOrder(classify: Bytes -> Message, c: Client, payloads: seq<Bytes>)
      returns (at: seq<nat>)
    ensures forall j, k :: 0 <= j < k < |at| ==> at[j] < at[k]
    ensures forall i: nat :: i in at <==> i < |payloads| && classify(payloads[i]).Update?
    ensures |HandleAll(classify, c, payloads).updates| == |c.updates| + |at|
    ensures HandleAll(classify, c, payloads).updates[..|c.updates|] == c.updates
    ensures forall k :: 0 <= k < |at| ==>
              at[k] < |payloads| && HandleAll(classify, c, payloads).updates[|c.updates| + k] == payloads[at[k]]
    decreases |payloads|
  {
    if payloads == [] {
      at := [];
    } else {
      var before, last := payloads[..|payloads| - 1], payloads[|payloads| - 1];
      at := UpdatesInOrder(classify, c, before);
      forall k | 0 <= k < |at| ensures at[k] < |before| { assert at[k] in at; }
      if classify(last).Update? { at := at + [|before|]; }
    }
  }

  lemma NothingHandled(classify: Bytes -> Message, c: Client)
    ensures HandleAll(classify, c, []) == c
  {
  }

  lemma HandleOne(classify: Bytes -> Message, c: Client, done: seq<Bytes>, payload: Bytes)
    ensures HandleAll(classify, c, done + [payload])
         == Handle(HandleAll(classify, c, done), classify(payload), payload)
  {
    assert (done + [payload])[..|done|] == done;
  }

  lemma FirstFrame(buffer: Bytes)
    requires Whole(buffer)
    ensures var n, p := ReadLength(buffer), Frames(buffer[ReadLength(buffer) + 4..]);
            Frames(buffer).payloads == [buffer[4..n + 4]] + p.payloads && Frames(buffer).rest == p.rest
  {
  }

  class SocketConnection {
    const classify: Bytes -> Message
    var buffer: Bytes
    var pending: set<string>
    var settled: seq<(string, bool)>
    var updates: seq<Bytes>

    ghost function State(): Client
      reads this
    {
      Client(pending, settled, updates)
    }

    constructor (classify: Bytes -> Message)
      ensures buffer == [] && State() == Client({}, [], []) && this.classify == classify
    {
      this.classify := classify;
      buffer, pending, settled, updates := [], {}, [], [];
    }

    /**
      The request waits from before anything is written.  A payload too long for the header
      makes writeUInt32BE throw: the promise is rejected, and the entry of the request stays.
     */
    method Send(connected: bool, id: string, payload: Bytes) returns (r: Sending)
      modifies this`pending
      ensures !connected ==> r == NotConnected && pending == old(pending)
      ensures connected ==> pending == old(pending) + {id}
      ensures connected ==> r == if Encode(payload).Some? then Written(Encode(payload).value) else Rejected
    {
      if !connected {
        return NotConnected;
      }
      pending := pending + {id};
      if |payload| >= LIMIT {
        return Rejected;
      }
      var header := Length(|payload|);
      return Written(header + payload);
    }

    method ProcessBuffer()
      modifies this
      ensures buffer == Frames(old(buffer)).rest
      ensures State() == HandleAll(classify, old(State()), Frames(old(buffer)).payloads)
    {
      hide ReadLength, Handle, HandleAll, Frames;
      ghost var done: seq<Bytes> := [];
      NothingHandled(classify, State());
      while |buffer| >= 4
        invariant Frames(old(buffer)).payloads == done + Frames(buffer).payloads
        invariant Frames(old(buffer)).rest == Frames(buffer).rest
        invariant State() == HandleAll(classify, old(State()), done)
        decreases |buffer|
      {
        var length := ReadLength(buffer);
        if |buffer| < length + 4 {
          break;
        }
        FirstFrame(buffer);
        var payload := buffer[4..length + 4];
        HandleOne(classify, old(State()), done, payload);
        done := done + [payload];
        buffer := buffer[length + 4..];
        HandleMessage(classify(payload), payload);
      }
      NoFrame(buffer);
      assert done + [] == done;
    }

    method HandleMessage(m: Message, payload: Bytes)
      modifies `pending, `settled, `updates
      ensures State() == Handle(old(State()), m, payload)
    {
      match m
      case Response(id, ok) =>
        if id in pending {
          pending := pending - {id};
          settled := settled + [(id, ok)];
        }
      case Update => updates := updates + [payload];
      case Other =>
    }

    method OnData(chunk: Bytes)
      modifies this
      ensures buffer == Frames(old(buffer) + chunk).rest
      ensures State() == HandleAll(classify, old(State()), Frames(old(buffer) + chunk).payloads)
    {
      buffer := buffer + chunk;
      ProcessBuffer();
    }
  }

  lemma {:induction false} HandleInTwo(classify: Bytes -> Message, c: Client, a: seq<Bytes>, b: seq<Bytes>)
    ensures HandleAll(classify, HandleAll(classify, c, a), b) == HandleAll(classify, c, a + b)
    decreases |b|
  {
    if b == [] {
      assert a + b == a;
    } else {
      assert (a + b)[..|a + b| - 1] == a + b[..|b| - 1];
      HandleInTwo(classify, c, a, b[..|b| - 1]);
    }
  }

  /** However a stream is cut into chunks, the client handles the frames of the whole stream in order. */
  method Receive(s: SocketConnection, chunks: seq<Bytes>)
    requires !Whole(s.buffer)
    modifies s
    ensures s.buffer == Frames(old(s.buffer) + Concat(chunks)).rest
    ensures s.State() == HandleAll(s.classify, old(s.State()), Frames(old(s.buffer) + Concat(chunks)).payloads)
  {
    hide ReadLength, Whole, Handle;
    ghost var before, c := s.buffer, s.State();
    assert before + [] == before;
    assert Frames(before) == Parse([], before) by { NoFrame(before); }
    for n := 0 to |chunks|
      invariant s.buffer == Frames(before + Concat(chunks[..n])).rest
      invariant s.State() == HandleAll(s.classify, c, Frames(before + Concat(chunks[..n])).payloads)
    {
      assert chunks[..n + 1][..n] == chunks[..n];
      ghost var sofar := before + Concat(chunks[..n]);
      assert before + Concat(chunks[..n + 1]) == sofar + chunks[n];
      FramesInTwo(sofar, chunks[n]);
      HandleInTwo(s.classify, c, Frames(sofar).payloads, Frames(s.buffer + chunks[n]).payloads);
      s.OnData(chunks[n]);
    }
    assert chunks[..|chunks|] == chunks;
  }

  lemma NoFrame(buffer: Bytes)
    requires !Whole(buffer)
    ensures Frames(buffer) == Parse([], buffer)
  {
  }

  // ---------- the blocking reader ----------

  datatype Frame = Payload(bytes: Bytes) | EmptyObject | TooLarge(length: nat) | Closed

  /** What read_frame makes of all bytes the peer sends before it closes, and what it leaves unread. */
  function FrameOf(data: Bytes): (r: (Frame, Bytes))
  {
    if |data| < 4 then (Closed, [])
    else
      var n := ReadLength(data);
      if n == 0 then (EmptyObject, data[4..])
      else if n > MAX_FRAME_SIZE then (TooLarge(n), data[4..])
      else if |data| < n + 4 then (Closed, [])
      else (Payload(data[4..n + 4]), data[n + 4..])
  }

  class Socket {
    var data: Bytes    // sent by the peer and not yet received

    /** recv(): some bytes, at most n; none only when the peer has closed. */
    method Recv(n: nat) returns (chunk: Bytes)
      requires n > 0
      modifies this
      ensures chunk + data == old(data) && |chunk| <= n && (chunk == [] ==> old(data) == [])
    {
      if data == [] {
        return [];
      }
      var k: nat :| 1 <= k <= n && k <= |data|;
      chunk := data[..k];
      data := data[k..];
    }

    /** _recv_exact; None is the ConnectionError. */
    method RecvExact(n: nat) returns (r: Option<Bytes>)
      modifies this
      ensures if |old(data)| >= n then r == Some(old(data)[..n]) && data == old(data)[n..] else r == None && data == []
    {
      var buf: Bytes := [];
      while |buf| < n
        invariant buf + data == old(data) && |buf| <= n
        decreases n - |buf|
      {
        var chunk := Recv(n - |buf|);
        if chunk == [] {
          return None;
        }
        buf := buf + chunk;
      }
      return Some(buf);
    }

    method ReadFrame() returns (f: Frame)
      modifies this
      ensures (f, data) == FrameOf(old(data))
    {
      hide ReadLength;
      var header := RecvExact(4);
      if header.None? {
        return Closed;
      }
      LengthOfPrefix(old(data));
      var n := ReadLength(header.value);
      if n == 0 {
        return EmptyObject;
      }
      if n > MAX_FRAME_SIZE {
        return TooLarge(n);
      }
      var payload := RecvExact(n);
      if payload.None? {
        return Closed;
      }
      assert old(data)[4..][..n] == old(data)[4..n + 4] && old(data)[4..][n..] == old(data)[n + 4..];
      return Payload(payload.value);
    }
  }

  /** On a whole frame the two parsers agree exactly when it is not empty and within the limit. */
  lemma ReadersAgree(data: Bytes)
    requires Whole(data)
    ensures FrameOf(data) == (Payload(Frames(data).payloads[0]), data[ReadLength(data) + 4..])
       <==> 0 < ReadLength(data) <= MAX_FRAME_SIZE
  {
    hide ReadLength;
  }

  /** Reading what was sent, frame by frame; after one that is too large the stream is out of step. */
  lemma ReadSent(payload: Bytes, rest: Bytes)
    requires |payload| < LIMIT
    ensures FrameOf(Encode(payload).value + rest)
         == if payload == [] then (EmptyObject, rest)
            else if |payload| <= MAX_FRAME_SIZE then (Payload(payload), rest)
            else (TooLarge(|payload|), payload + rest)
  {
    hide ReadLength;
    EncodedIsWhole(payload, rest);
    assert (Encode(payload).value + rest)[4..] == payload + rest;
  }
}
