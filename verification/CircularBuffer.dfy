/** TcpSocket::CircularBuffer, a ring whose array is doubled so that what it holds is always
    contiguous somewhere. */
module CircularBuffer {
  import opened Bytes

  /** An index modulo `max`, for indices below `2 * max`. */
  function Wrap(i: nat, max: nat): nat { if i < max then i else i - max }

  /** The top index is the start index plus the length, around the ring. */
  predicate Shape(max: nat, b: nat, t: nat, q: nat) {
    q <= max && (b < max || b == max == 0) && t == if b + q < max then b + q else b + q - max
  }

  /** The queue is in the buffer twice: from the start index straight on, and around the ring. */
  ghost predicate Images(buf: bytes, max: nat, b: nat, queue: bytes) {
    && |buf| == 2 * max && |queue| <= max && (b < max || b == max == 0)
    && (forall k :: 0 <= k < |queue| ==> buf[b + k] == queue[k])
    && (forall k :: 0 <= k < |queue| ==> buf[Wrap(b + k, max)] == queue[k])
  }

  /** A write that crosses the end of the ring. */
  lemma ImagesAcross(buf: bytes, max: nat, b: nat, t: nat, queue: bytes, s: bytes)
    requires Shape(max, b, t, |queue|) && Images(buf, max, b, queue)
    requires |queue| + |s| <= max < t + |s|
    ensures Images(Copied(Copied(buf, t, s), 0, s[max - t..]), max, b, queue + s)
  {
    hide Copied;
    var next := Copied(Copied(buf, t, s), 0, s[max - t..]);
    assert t == b + |queue|;
    forall k | 0 <= k < |queue + s|
      ensures next[b + k] == (queue + s)[k] && next[Wrap(b + k, max)] == (queue + s)[k]
    {
      if k < |queue| {
        assert buf[b + k] == queue[k] && buf[Wrap(b + k, max)] == queue[k];
      }
    }
  }

  /** A write that does not. */
  lemma ImagesInside(buf: bytes, max: nat, b: nat, t: nat, queue: bytes, s: bytes)
    requires Shape(max, b, t, |queue|) && Images(buf, max, b, queue)
    requires |queue| + |s| <= max && t + |s| <= max
    ensures Images(Copied(Copied(buf, t, s), max + t, s), max, b, queue + s)
  {
    hide Copied;
    var next := Copied(Copied(buf, t, s), max + t, s);
    forall k | 0 <= k < |queue + s|
      ensures next[b + k] == (queue + s)[k] && next[Wrap(b + k, max)] == (queue + s)[k]
    {
      if k < |queue| {
        assert buf[b + k] == queue[k] && buf[Wrap(b + k, max)] == queue[k];
      }
    }
  }

  /** The start index moved past `l` bytes. */
  lemma ImagesAdvanced(buf: bytes, max: nat, b: nat, queue: bytes, l: nat)
    requires Images(buf, max, b, queue) && l <= |queue|
    ensures Images(buf, max, Wrap(b + l, max), queue[l..])
    ensures l == |queue| ==> Images(buf, max, 0, [])
  {
    forall k | 0 <= k < |queue[l..]|
      ensures buf[Wrap(b + l, max) + k] == queue[l..][k] && buf[Wrap(Wrap(b + l, max) + k, max)] == queue[l..][k]
    {
      assert buf[b + (l + k)] == queue[l + k] && buf[Wrap(b + (l + k), max)] == queue[l + k];
    }
  }

  class CircularBuffer {
    const buf: array<byte>
    const max: nat
    var q: nat
    var b: nat
    var t: nat
    ghost var queue: bytes

    ghost predicate Valid()
      reads this, buf
    {
      && buf.Length == 2 * max && |queue| == q && (q == 0 ==> b == 0)
      && Shape(max, b, t, q) && Images(buf[..], max, b, queue)
    }

    constructor (size: nat)
      ensures Valid() && queue == [] && max == size && fresh(buf)
    {
      buf := new byte[2 * size];
      max := size;
      q, b, t := 0, 0, 0;
      queue := [];
    }

    /** memcpy into the array. */
    method Copy(at: nat, s: bytes)
      requires at + |s| <= buf.Length
      modifies buf
      ensures buf[..] == Copied(old(buf[..]), at, s)
    {
      forall k | 0 <= k < |s| {
        buf[at + k] := s[k];
      }
    }

    /** The copies of Write: always all of `s` from the top index on, and again for the other image. */
    method CopyTwice(s: bytes)
      requires Valid() && |queue| + |s| <= max
      modifies buf
      ensures Images(buf[..], max, b, queue + s)
    {
      hide Images, Copied;
      ghost var before := buf[..];
      Copy(t, s);
      if t + |s| > max {
        ImagesAcross(before, max, b, t, queue, s);
        Copy(0, s[max - t..]);
      } else {
        ImagesInside(before, max, b, t, queue, s);
        Copy(max + t, s);
      }
    }

    method Write(s: bytes) returns (ok: bool)
      requires Valid()
      modifies this, buf
      ensures Valid()
      ensures ok <==> |old(queue)| + |s| <= max
      ensures queue == if ok then old(queue) + s else old(queue)
    {
      hide Images;
      if q + |s| > max {
        return false;
      }
      CopyTwice(s);
      if t + |s| > max {
        t := |s| - (max - t);
      } else {
        t := t + |s|;
        if t >= max {
          t := t - max;
        }
      }
      q := q + |s|;
      queue := queue + s;
      return true;
    }

    /** Moves the start past `l` bytes. */
    method Advance(l: nat)
      requires Valid() && l <= q
      modifies this
      ensures Valid() && queue == old(queue)[l..]
    {
      hide Images;
      ImagesAdvanced(buf[..], max, b, queue, l);
      if b + l > max {
        b := b + l - max;
      } else {
        b := b + l;
        if b >= max {
          b := b - max;
        }
      }
      q := q - l;
      queue := queue[l..];
      if q == 0 {
        b, t := 0, 0;
      }
    }

    method Read(l: nat) returns (ok: bool, s: bytes)
      requires Valid()
      modifies this
      ensures Valid()
      ensures ok <==> l <= |old(queue)|
      ensures s == if ok then old(queue)[..l] else []
      ensures queue == if ok then old(queue)[l..] else old(queue)
    {
      if l > q {
        return false, [];
      }
      if b + l > max {
        var l1 := max - b;
        s := buf[b..b + l1] + buf[..l - l1];
        assert forall k :: l1 <= k < l ==> s[k] == buf[Wrap(b + k, max)];
      } else {
        s := buf[b..b + l];
      }
      assert s == queue[..l];
      Advance(l);
      ok := true;
    }

    method Remove(l: nat) returns (ok: bool)
      requires Valid()
      modifies this
      ensures Valid()
      ensures ok <==> l <= |old(queue)|
      ensures queue == if ok then old(queue)[l..] else old(queue)
    {
      ok := l <= q;
      if ok {
        Advance(l);
      }
    }

    method ReadString(l: nat) returns (s: bytes)
      requires Valid()
      modifies this
      ensures Valid()
      ensures s == if l <= |old(queue)| then UpTo(old(queue)[..l], 0) else []
      ensures queue == if l <= |old(queue)| then old(queue)[l..] else old(queue)
    {
      var ok, sz := Read(l);
      s := if ok then UpTo(sz, 0) else [];
    }

    /** Where the bytes held start: all of them can be read from there on, wrapped or not. */
    method GetStart() returns (start: nat)
      requires Valid()
      ensures start + |queue| <= buf.Length && buf[start..start + |queue|] == queue
    {
      start := b;
    }

    method GetLength() returns (n: nat)
      requires Valid()
      ensures n == |queue|
    {
      n := q;
    }

    /** How much can be read from the start before the end of the ring. */
    method GetL() returns (n: nat)
      requires Valid()
      ensures n <= |queue| && b + n <= max && (n == |queue| || b + n == max)
    {
      n := if b + q > max then max - b else q;
    }

    method Space() returns (n: nat)
      requires Valid()
      ensures n == max - |queue|
    {
      n := max - q;
    }
  }

  datatype Op = Write(s: bytes) | Read(l: nat) | Remove(n: nat)

  datatype Answer = Answer(ok: bool, data: bytes)

  /** What a queue of at most `max` bytes answers. */
  function Did(queue: bytes, max: nat, op: Op): Answer {
    match op
    case Write(s) => Answer(|queue| + |s| <= max, [])
    case Read(l) => if l <= |queue| then Answer(true, queue[..l]) else Answer(false, [])
    case Remove(n) => Answer(n <= |queue|, [])
  }

  /** The queue after the operation. */
  function Next(queue: bytes, max: nat, op: Op): bytes {
    if !Did(queue, max, op).ok then queue
    else
      match op
      case Write(s) => queue + s
      case Read(l) => queue[l..]
      case Remove(n) => queue[n..]
  }

  /** All the answers of a run. */
  function Fifo(queue: bytes, max: nat, ops: seq<Op>): (answers: seq<Answer>)
    ensures |answers| == |ops|
    decreases |ops|
  {
    if ops == [] then []
    else [Did(queue, max, ops[0])] + Fifo(Next(queue, max, ops[0]), max, ops[1..])
  }

  /** The queue after all operations. */
  function After(queue: bytes, max: nat, ops: seq<Op>): bytes
    decreases |ops|
  {
    if ops == [] then queue else After(Next(queue, max, ops[0]), max, ops[1..])
  }

  /** The bytes that were written. */
  function In(ops: seq<Op>, answers: seq<Answer>): bytes
    requires |ops| == |answers|
  {
    if ops == [] then []
    else (if ops[0].Write? && answers[0].ok then ops[0].s else []) + In(ops[1..], answers[1..])
  }

  /** The bytes that an operation takes off the front. */
  function Taken(queue: bytes, max: nat, op: Op): bytes {
    if !Did(queue, max, op).ok then []
    else
      match op
      case Write(_) => []
      case Read(_) => Did(queue, max, op).data
      case Remove(n) => queue[..n]
  }

  function Out(queue: bytes, max: nat, ops: seq<Op>): bytes
    decreases |ops|
  {
    if ops == [] then [] else Taken(queue, max, ops[0]) + Out(Next(queue, max, ops[0]), max, ops[1..])
  }

  /** What was read and removed, followed by what is left, is what was written. */
  lemma {:induction false} FirstInFirstOut(queue: bytes, max: nat, ops: seq<Op>)
    requires |queue| <= max
    ensures Out(queue, max, ops) + After(queue, max, ops) == queue + In(ops, Fifo(queue, max, ops))
    ensures |After(queue, max, ops)| <= max
    decreases |ops|
  {
    if ops == [] {
      assert [] + queue == queue + [];
    } else {
      var next := Next(queue, max, ops[0]);
      var answer := Did(queue, max, ops[0]);
      var taken := Taken(queue, max, ops[0]);
      var rest := Fifo(next, max, ops[1..]);
      FirstInFirstOut(next, max, ops[1..]);
      assert Fifo(queue, max, ops)[1..] == rest;
      var written := if ops[0].Write? && answer.ok then ops[0].s else [];
      assert taken + next == queue + written;
      var out, left := Out(next, max, ops[1..]), After(next, max, ops[1..]);
      Reassociate(taken, out, left, queue, written, In(ops[1..], rest), next);
    }
  }

  lemma Reassociate(a: bytes, b: bytes, c: bytes, d: bytes, e: bytes, f: bytes, next: bytes)
    requires a + next == d + e && b + c == next + f
    ensures a + b + c == d + (e + f)
  {
    assert a + b + c == a + (b + c) == (a + next) + f == (d + e) + f;
  }

  method Do(ring: CircularBuffer, op: Op) returns (answer: Answer)
    requires ring.Valid()
    modifies ring, ring.buf
    ensures ring.Valid() && answer == Did(old(ring.queue), ring.max, op)
    ensures ring.queue == Next(old(ring.queue), ring.max, op)
  {
    match op {
      case Write(s) =>
        var ok := ring.Write(s);
        answer := Answer(ok, []);
      case Read(l) =>
        var ok, s := ring.Read(l);
        answer := Answer(ok, s);
      case Remove(l) =>
        var ok := ring.Remove(l);
        answer := Answer(ok, []);
    }
  }

  /** Any run of the ring answers as the queue does. */
  method Run(max: nat, ops: seq<Op>) returns (answers: seq<Answer>)
    ensures answers == Fifo([], max, ops)
  {
    var ring := new CircularBuffer(max);
    answers := [];
    for i := 0 to |ops|
      invariant ring.Valid() && ring.max == max && fresh(ring) && fresh(ring.buf)
      invariant answers + Fifo(ring.queue, max, ops[i..]) == Fifo([], max, ops)
    {
      assert ops[i..][1..] == ops[i + 1..];
      var answer := Do(ring, ops[i]);
      answers := answers + [answer];
    }
  }
}
