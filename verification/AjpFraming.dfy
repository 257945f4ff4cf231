/** AjpBaseSocket::OnRawData: packets cut out of a byte stream. */
module AjpFraming {
  import opened Bytes

  const MESSAGE_SIZE: nat := 8192
  const HEADER_SIZE: nat := 4

  /** The calls of OnHeader and OnPacket. */
  datatype Event = Header(id: int, length: int) | Packet(data: bytes)

  /** m_state 0 gathers a header, 1 a packet; `got` is what m_message holds of `length` bytes. A packet
      that m_message cannot hold is a failure, after which nothing is said. */
  datatype Ajp = Ajp(header: bool, length: nat, got: bytes, events: seq<Event>, failed: bool)

  const START := Ajp(true, HEADER_SIZE, [], [], false)

  /** A 16-bit number in network order, as a short. */
  function Short(hi: byte, lo: byte): (n: int)
    ensures -0x8000 <= n < 0x8000
  {
    var n := hi * 256 + lo;
    if n >= 0x8000 then n - 0x1_0000 else n
  }

  predicate Ok(s: Ajp) {
    && |s.got| < s.length <= MESSAGE_SIZE && (s.header ==> s.length == HEADER_SIZE)
  }

  /** Also when a packet without payload is about to be handed over. */
  predicate Almost(s: Ajp) {
    Ok(s) || (!s.header && s.length == 0 && s.got == [])
  }

  function PacketDone(s: Ajp): Ajp {
    Ajp(true, HEADER_SIZE, [], s.events + [Packet(s.got)], false)
  }

  /** An empty packet is complete at once. */
  function Settle(s: Ajp): (r: Ajp)
    requires Almost(s)
    ensures Ok(r)
  {
    if !s.header && s.length == 0 then PacketDone(s) else s
  }

  function HeaderDone(s: Ajp): (r: Ajp)
    requires |s.got| == HEADER_SIZE
    ensures Almost(r) && (r.failed ==> Ok(r))
  {
    var id, length := Short(s.got[0], s.got[1]), Short(s.got[2], s.got[3]);
    if 0 <= length <= MESSAGE_SIZE then Ajp(false, length, [], s.events + [Header(id, length)], false)
    else START.(events := s.events + [Header(id, length)], failed := true)
  }

  function Step(s: Ajp, c: byte): (r: Ajp)
    requires Ok(s)
    ensures Ok(r)
  {
    var got := s.(got := s.got + [c]);
    if s.failed then s
    else if |got.got| < s.length then got
    else if s.header then Settle(HeaderDone(got))
    else PacketDone(got)
  }

  function Run(s: Ajp, data: bytes): (r: Ajp)
    requires Ok(s)
    ensures Ok(r)
    decreases |data|
  {
    if data == [] then s else Run(Step(s, data[0]), data[1..])
  }

  lemma {:induction false} RunConcat(s: Ajp, a: bytes, b: bytes)
    requires Ok(s)
    ensures Run(s, a + b) == Run(Run(s, a), b)
    decreases |a|
  {
    if a == [] {
      assert [] + b == b;
    } else {
      assert (a + b)[1..] == a[1..] + b;
      RunConcat(Step(s, a[0]), a[1..], b);
    }
  }

  /** Bytes up to the end of a header or a packet only gather. */
  lemma {:induction false} RunGathers(s: Ajp, data: bytes)
    requires Ok(s) && !s.failed && |s.got| + |data| < s.length
    ensures Run(s, data) == s.(got := s.got + data)
    decreases |data|
  {
    if data == [] {
      assert s.got + [] == s.got;
    } else {
      RunGathers(Step(s, data[0]), data[1..]);
      assert s.got + [data[0]] + data[1..] == s.got + data;
    }
  }

  lemma RunCompletes(s: Ajp, data: bytes)
    requires Ok(s) && !s.failed && |s.got| + |data| == s.length
    ensures var got := s.(got := s.got + data);
      Run(s, data) == if s.header then Settle(HeaderDone(got)) else PacketDone(got)
  {
    var n := |data| - 1;
    RunGathers(s, data[..n]);
    RunConcat(s, data[..n], [data[n]]);
    assert data == data[..n] + [data[n]];
    assert s.got + data[..n] + [data[n]] == s.got + data;
    var t := Run(s, data[..n]);
    assert Run(t, [data[n]]) == Step(t, data[n]);
  }

  lemma {:induction false} RunFailed(s: Ajp, data: bytes)
    requires Ok(s) && s.failed
    ensures Run(s, data) == s
    decreases |data|
  {
    if data != [] {
      RunFailed(s, data[1..]);
    }
  }

  /** All reads, one after the other. */
  function RunAll(s: Ajp, blocks: seq<bytes>): (r: Ajp)
    requires Ok(s)
    ensures Ok(r)
    decreases |blocks|
  {
    if blocks == [] then s else RunAll(Run(s, blocks[0]), blocks[1..])
  }

  lemma {:induction false} RunAllConcat(s: Ajp, blocks: seq<bytes>)
    requires Ok(s)
    ensures RunAll(s, blocks) == Run(s, Concat(blocks))
    decreases |blocks|
  {
    if blocks != [] {
      RunAllConcat(Run(s, blocks[0]), blocks[1..]);
      RunConcat(s, blocks[0], Concat(blocks[1..]));
    }
  }

  datatype Frame = Frame(id: int, payload: bytes)

  predicate Fits(f: Frame) { -0x8000 <= f.id < 0x8000 && |f.payload| <= MESSAGE_SIZE }

  predicate AllFit(frames: seq<Frame>) { forall i :: 0 <= i < |frames| ==> Fits(frames[i]) }

  /** A short in network order. */
  function ShortBytes(n: int): (r: bytes)
    requires -0x8000 <= n < 0x8000
    ensures |r| == 2 && Short(r[0], r[1]) == n
  {
    var u := if n < 0 then n + 0x1_0000 else n;
    [u / 256, u % 256]
  }

  function Encoded(frames: seq<Frame>): bytes
    requires AllFit(frames)
  {
    if frames == [] then []
    else ShortBytes(frames[0].id) + ShortBytes(|frames[0].payload|) + frames[0].payload + Encoded(frames[1..])
  }

  function Calls(frames: seq<Frame>): seq<Event> {
    if frames == [] then []
    else [Header(frames[0].id, |frames[0].payload|), Packet(frames[0].payload)] + Calls(frames[1..])
  }

  lemma RunFrame(s: Ajp, f: Frame)
    requires Ok(s) && s.header && s.got == [] && !s.failed && Fits(f)
    ensures Run(s, ShortBytes(f.id) + ShortBytes(|f.payload|) + f.payload) ==
            s.(events := s.events + [Header(f.id, |f.payload|), Packet(f.payload)])
  {
    var head := ShortBytes(f.id) + ShortBytes(|f.payload|);
    RunConcat(s, head, f.payload);
    RunCompletes(s, head);
    assert s.got + head == head;
    var t := Run(s, head);
    if f.payload != [] {
      RunCompletes(t, f.payload);
      assert t.got + f.payload == f.payload;
    }
    assert s.events + [Header(f.id, |f.payload|)] + [Packet(f.payload)] ==
           s.events + [Header(f.id, |f.payload|), Packet(f.payload)];
  }

  lemma {:induction false} RunFrames(s: Ajp, frames: seq<Frame>)
    requires Ok(s) && s.header && s.got == [] && !s.failed && AllFit(frames)
    ensures Run(s, Encoded(frames)) == s.(events := s.events + Calls(frames))
    decreases |frames|
  {
    if frames == [] {
      assert s.events + [] == s.events;
    } else {
      var f := frames[0];
      var first := ShortBytes(f.id) + ShortBytes(|f.payload|) + f.payload;
      RunFrame(s, f);
      RunConcat(s, first, Encoded(frames[1..]));
      RunFrames(Run(s, first), frames[1..]);
      assert s.events + [Header(f.id, |f.payload|), Packet(f.payload)] + Calls(frames[1..]) == s.events + Calls(frames);
    }
  }

  /** However the stream of some frames is cut into reads, the calls are the frames in order, and the
      next frame is awaited. */
  lemma FramesIgnoreReads(frames: seq<Frame>, blocks: seq<bytes>)
    requires AllFit(frames)
    requires Concat(blocks) == Encoded(frames)
    ensures RunAll(START, blocks) == START.(events := Calls(frames))
  {
    RunAllConcat(START, blocks);
    RunFrames(START, frames);
    assert [] + Calls(frames) == Calls(frames);
  }

  /** Two bytes are a short in network order: the high one comes first. */
  predicate InOrder(hi: byte, lo: byte, n: int) {
    256 * hi + lo == if n < 0 then n + 0x1_0000 else n
  }

  lemma NetworkOrder(n: int, hi: byte, lo: byte)
    requires -0x8000 <= n < 0x8000
    ensures ShortBytes(n) == [hi, lo] <==> InOrder(hi, lo, n)
    ensures Short(hi, lo) == n <==> InOrder(hi, lo, n)
  {
    var u := if n < 0 then n + 0x1_0000 else n;
    assert u == 256 * (u / 256) + u % 256;
  }

  /** The calls of one frame, from its bytes: the id, the length and the payload. */
  lemma FrameOfBytes(s: Ajp, a: byte, b: byte, c: byte, d: byte, payload: bytes)
    requires Ok(s) && s.header && s.got == [] && !s.failed
    requires |payload| == 256 * c + d <= MESSAGE_SIZE
    ensures var id := if a < 128 then 256 * a + b else 256 * a + b - 0x1_0000;
      Run(s, [a, b, c, d] + payload) == s.(events := s.events + [Header(id, |payload|), Packet(payload)])
  {
    hide Run, ShortBytes, Short;
    var id := if a < 128 then 256 * a + b else 256 * a + b - 0x1_0000;
    NetworkOrder(id, a, b);
    NetworkOrder(|payload|, c, d);
    assert [a, b] + [c, d] + payload == [a, b, c, d] + payload;
    RunFrame(s, Frame(id, payload));
  }

  /** A header that announces more than m_message holds, or less than nothing, is where the model ends. */
  lemma OnlyBadLengthsFail(s: Ajp, id: int, length: int)
    requires Ok(s) && s.header && s.got == [] && !s.failed
    requires -0x8000 <= id < 0x8000 && -0x8000 <= length < 0x8000
    ensures Run(s, ShortBytes(id) + ShortBytes(length)).failed <==> !(0 <= length <= MESSAGE_SIZE)
  {
    var head := ShortBytes(id) + ShortBytes(length);
    RunCompletes(s, head);
    assert s.got + head == head;
  }

  class AjpBaseSocket {
    const message: array<byte>
    var state: nat
    var length: nat
    var ptr: nat
    var failed: bool
    ghost var events: seq<Event>

    ghost predicate Shape()
      reads this
    {
      message.Length == MESSAGE_SIZE && state <= 1 && ptr <= length <= MESSAGE_SIZE
    }

    ghost function State(): Ajp
      requires Shape()
      reads this, message
    {
      Ajp(state == 0, length, message[..ptr], events, failed)
    }

    ghost predicate Valid()
      reads this, message
    {
      Shape() && Ok(State())
    }

    constructor ()
      ensures Valid() && fresh(message) && State() == START
    {
      message := new byte[MESSAGE_SIZE];
      state, length, ptr, failed, events := 0, HEADER_SIZE, 0, false, [];
    }

    /** memcpy into m_message of as much as is missing, or left. */
    method Gather(buf: bytes, at: nat) returns (next: nat)
      requires Shape() && at <= |buf|
      modifies this`ptr, message
      ensures Shape() && at <= next <= |buf| && ptr == old(ptr) + (next - at)
      ensures message[..ptr] == old(message[..ptr]) + buf[at..next]
      ensures ptr == length || next == |buf|
    {
      var left, missing := |buf| - at, length - ptr;
      var len := if missing < left then missing else left;
      forall k | 0 <= k < len {
        message[ptr + k] := buf[at + k];
      }
      next := at + len;
      assert message[..ptr + len] == old(message[..ptr]) + buf[at..next];
      ptr := ptr + len;
    }

    method OnRawData(buf: bytes)
      requires Valid()
      modifies this, message
      ensures Valid() && State() == Run(old(State()), buf)
    {
      if failed {
        RunFailed(State(), buf);
        return;
      }
      ghost var goal := Run(State(), buf);
      var at := 0;
      assert buf[0..] == buf;
      while !failed
        invariant Shape() && at <= |buf| && Almost(State())
        invariant Run(Settle(State()), buf[at..]) == goal && (failed ==> Ok(State()))
        decreases !failed, |buf| - at, state
      {
        ghost var before := State();
        ghost var start := at;
        at := Gather(buf, at);
        ghost var got := State();
        assert got == before.(got := before.got + buf[start..at]);
        assert buf[start..] == buf[start..at] + buf[at..];
        if ptr < length {
          RunGathers(before, buf[start..]);
          return;
        }
        if Ok(before) {
          RunConcat(before, buf[start..at], buf[at..]);
          RunCompletes(before, buf[start..at]);
        }
        if state == 0 {
          EndHeader();
        } else {
          events := events + [Packet(message[..ptr])];
          state, length, ptr := 0, HEADER_SIZE, 0;
          assert State() == PacketDone(got);
        }
      }
      RunFailed(State(), buf[at..]);
    }

    method EndHeader()
      requires Shape() && state == 0 && ptr == length == HEADER_SIZE && !failed
      modifies this
      ensures Shape() && State() == HeaderDone(old(State()))
    {
      var id, len := Short(message[0], message[1]), Short(message[2], message[3]);
      events := events + [Header(id, len)];
      ptr := 0;
      if 0 <= len <= MESSAGE_SIZE {
        state, length := 1, len;
      } else {
        failed := true;
      }
    }
  }
}
