/** The output side of TcpSocket: data that cannot be sent at once waits in a list of blocks. */
module Output {
  import opened Bytes

  const CAPACITY: nat := 1024000    // TCP_OUTPUT_CAPACITY

  /** TcpSocket::OUTPUT, a block filled from the left and emptied from the left. */
  class Block {
    const buf: array<byte>
    var b: nat
    var t: nat
    var q: nat
    ghost var contents: bytes

    ghost predicate Valid()
      reads this, buf
    {
      buf.Length == CAPACITY && b + q == t <= CAPACITY && contents == buf[b..t]
    }

    constructor ()
      ensures Valid() && contents == [] && t == 0
      ensures fresh(buf)
    {
      buf := new byte[CAPACITY];
      b, t, q, contents := 0, 0, 0, [];
    }

    method Space() returns (n: nat)
      requires Valid()
      ensures n == CAPACITY - t
    {
      n := CAPACITY - t;
    }

    method Add(src: bytes)
      requires Valid() && |src| <= CAPACITY - t
      modifies this, buf
      ensures Valid() && contents == old(contents) + src && t == old(t) + |src|
    {
      forall k | 0 <= k < |src| {
        buf[t + k] := src[k];
      }
      assert buf[b..t] == old(buf[b..t]);
      assert buf[t..t + |src|] == src;
      assert buf[b..t + |src|] == buf[b..t] + buf[t..t + |src|];
      t := t + |src|;
      q := q + |src|;
      contents := contents + src;
    }

    method Remove(len: nat) returns (left: nat)
      requires Valid() && len <= q
      modifies this
      ensures Valid() && contents == old(contents)[len..] && left == |contents| && t == old(t)
    {
      b := b + len;
      q := q - len;
      contents := contents[len..];
      left := q;
    }
  }

  /** What a call of send or SSL_write comes back with. */
  datatype Outcome =
    | Wrote(n: nat)      // at most what was offered
    | TryLater           // EWOULDBLOCK, SSL_ERROR_WANT_READ, SSL_ERROR_WANT_WRITE
    | Broken

  /** The calls to the user: what waits when they are made, and the number of calls they are made from within. */
  datatype Notice = WriteComplete(depth: nat, left: nat) | TransferLimit(depth: nat, left: nat)

  /** The calls made from one depth. */
  function AtDepth(calls: seq<Notice>, depth: nat): seq<Notice> {
    if calls == [] then []
    else (if calls[0].depth == depth then [calls[0]] else []) + AtDepth(calls[1..], depth)
  }

  predicate AllFrom(calls: seq<Notice>, depth: nat) { forall i :: 0 <= i < |calls| ==> calls[i].depth >= depth }

  /** `after` is `before` and some calls from that depth on. */
  predicate Called(before: seq<Notice>, after: seq<Notice>, depth: nat) {
    before <= after && AllFrom(after[|before|..], depth)
  }

  lemma {:induction false} DeeperCalls(calls: seq<Notice>, depth: nat)
    requires AllFrom(calls, depth + 1)
    ensures AtDepth(calls, depth) == []
  {
    if calls != [] { DeeperCalls(calls[1..], depth); }
  }

  lemma {:induction false} AtDepthConcat(a: seq<Notice>, b: seq<Notice>, depth: nat)
    ensures AtDepth(a + b, depth) == AtDepth(a, depth) + AtDepth(b, depth)
  {
    if a == [] {
      assert a + b == b;
    } else {
      assert (a + b)[0] == a[0] && (a + b)[1..] == a[1..] + b;
      AtDepthConcat(a[1..], b, depth);
      var first := if a[0].depth == depth then [a[0]] else [];
      assert AtDepth(a + b, depth) == first + AtDepth(a[1..] + b, depth) by { assert a + b != []; }
      assert AtDepth(a, depth) == first + AtDepth(a[1..], depth);
    }
  }

  lemma CalledTwice(a: seq<Notice>, b: seq<Notice>, c: seq<Notice>, depth: nat)
    requires Called(a, b, depth) && Called(b, c, depth)
    ensures Called(a, c, depth) && AtDepth(c[|a|..], depth) == AtDepth(b[|a|..], depth) + AtDepth(c[|b|..], depth)
  {
    assert c[|a|..] == b[|a|..] + c[|b|..];
    AtDepthConcat(b[|a|..], c[|b|..], depth);
  }

  lemma CalledNone(a: seq<Notice>, depth: nat)
    ensures Called(a, a, depth) && AtDepth(a[|a|..], depth) == []
  {
  }

  /** A call and what it made the user do. */
  lemma CalledOne(a: seq<Notice>, call: Notice, b: seq<Notice>)
    requires Called(a + [call], b, call.depth + 1)
    ensures Called(a, b, call.depth) && AtDepth(b[|a|..], call.depth) == [call]
  {
    var more := b[|a| + 1..];
    assert b[|a|..] == [call] + more && (a + [call])[|a|] == call;
    DeeperCalls(more, call.depth);
    assert [call][1..] == [];
    AtDepthConcat([call], more, call.depth);
  }

  /** An SSL_write: the bytes offered, and whether it asked to be repeated. */
  datatype Attempt = Attempt(data: bytes, again: bool)

  /** More data at the end of the last block. */
  lemma ConcatGrow(pieces: seq<bytes>, x: bytes)
    requires pieces != []
    ensures var n := |pieces| - 1; Concat(pieces[n := pieces[n] + x]) == Concat(pieces) + x
  {
    var n := |pieces| - 1;
    var init := pieces[..n];
    ConcatAppend(init, pieces[n]);
    ConcatAppend(init, pieces[n] + x);
    assert pieces == init + [pieces[n]] && pieces[n := pieces[n] + x] == init + [pieces[n] + x];
  }

  /** Less data at the front of the first block. */
  lemma ConcatShrink(pieces: seq<bytes>, n: nat)
    requires pieces != [] && n <= |pieces[0]|
    ensures n <= |Concat(pieces)| && Concat(pieces)[..n] == pieces[0][..n]
    ensures Concat(pieces[0 := pieces[0][n..]]) == Concat(pieces)[n..]
    ensures n == |pieces[0]| ==> Concat(pieces[1..]) == Concat(pieces)[n..]
  {
    assert pieces[0 := pieces[0][n..]][1..] == pieces[1..];
  }

  /** None of the first `n` pieces is empty. */
  ghost predicate Full(pieces: seq<bytes>, n: int) {
    forall i :: 0 <= i < n && i < |pieces| ==> pieces[i] != []
  }

  /** The first piece, if there was one, has at most got longer. */
  ghost predicate Grown(before: seq<bytes>, after: seq<bytes>) {
    |before| <= |after| && (before != [] ==> before[0] <= after[0])
  }

  /** What the first block of an empty list holds of the data. */
  function Head(data: bytes): bytes { data[..if |data| < CAPACITY then |data| else CAPACITY] }

  lemma HeadIsFirst(before: seq<bytes>, pieces: seq<bytes>, data: bytes)
    requires before == [] && pieces != [] && Concat(pieces) == Concat(before) + data
    requires Head(data) <= pieces[0] && |pieces[0]| <= CAPACITY
    ensures pieces[0] == Head(data)
  {
  }

  /** m_obuf and m_obuf_top: blocks in sending order, and the last of them. */
  class BlockList {
    var obuf: seq<Block>
    var top: Block?
    ghost var pieces: seq<bytes>
    ghost var Repr: set<object>

    /** The blocks are distinct objects with buffers of their own and hold the pieces. */
    ghost predicate Valid()
      reads this, Repr
      ensures Valid() ==> this in Repr && |obuf| == |pieces| && (top == null <==> obuf == [])
    {
      && this in Repr
      && |obuf| == |pieces|
      && (forall i :: 0 <= i < |obuf| ==> obuf[i] in Repr && obuf[i].buf in Repr && obuf[i].Valid())
      && (forall i :: 0 <= i < |obuf| ==> obuf[i].contents == pieces[i])
      && (forall i, j :: 0 <= i < j < |obuf| ==> obuf[i] != obuf[j] && obuf[i].buf != obuf[j].buf)
      && (if obuf == [] then top == null else top == obuf[|obuf| - 1])
    }

    constructor ()
      ensures Valid() && fresh(Repr) && pieces == []
    {
      obuf, top, pieces := [], null, [];
      Repr := {this};
    }

    /** Free space of the last block. */
    method Space() returns (n: nat)
      requires Valid()
      ensures n == if top == null then 0 else CAPACITY - top.t
      ensures top == null <==> pieces == []
    {
      n := 0;
      if top != null {
        n := top.Space();
      }
    }

    method AddToTop(src: bytes)
      requires Valid() && top != null && |src| <= CAPACITY - top.t
      modifies Repr
      ensures Valid() && Repr == old(Repr)
      ensures pieces == old(pieces)[|old(pieces)| - 1 := old(pieces)[|old(pieces)| - 1] + src]
    {
      var n := |obuf| - 1;
      top.Add(src);
      pieces := pieces[n := pieces[n] + src];
    }

    method NewTop()
      requires Valid()
      modifies this
      ensures Valid() && fresh(Repr - old(Repr))
      ensures pieces == old(pieces) + [[]] && top != null && top.t == 0
    {
      var block := new Block();
      top := block;
      obuf := obuf + [block];
      pieces := pieces + [[]];
      Repr := Repr + {block, block.buf};
    }

    lemma PieceFits()
      requires Valid() && pieces != []
      ensures |pieces[0]| <= CAPACITY
    {
      assert obuf[0].Valid();
    }

    /** One round of Append: fill up the last block, or start another one. */
    method AppendSome(src: bytes) returns (n: nat)
      requires Valid() && src != [] && Full(pieces, |pieces| - 1)
      requires Full(pieces, |pieces|) || (top != null && top.t < CAPACITY)
      modifies Repr
      ensures Valid() && fresh(Repr - old(Repr)) && n <= |src|
      ensures Grown(old(pieces), pieces) && Concat(pieces) == Concat(old(pieces)) + src[..n]
      ensures Full(pieces, |pieces| - 1) && (n > 0 ==> Full(pieces, |pieces|))
      ensures n == 0 ==> top != null && top.t == 0 && old(top == null || top.t >= CAPACITY)
      ensures old(pieces) == [] ==> n == 0 && pieces == [[]]
      ensures old(pieces == [[]] && top.t == 0) ==> n == |Head(src)| && pieces == [Head(src)]
    {
      hide Concat, Valid;
      var space := Space();
      n := 0;
      if space > 0 {
        n := if space >= |src| then |src| else space;
        ConcatGrow(pieces, src[..n]);
        assert pieces == [[]] ==> pieces[0] + src[..n] == src[..n];
        AddToTop(src[..n]);
        assert old(pieces) == [[]] ==> pieces == [src[..n]];
      } else {
        ConcatAppend(pieces, []);
        NewTop();
      }
    }

    /** Append to the last block, adding blocks as they fill up. */
    method Append(data: bytes)
      requires Valid() && Full(pieces, |pieces|)
      modifies Repr
      ensures Valid() && fresh(Repr - old(Repr)) && Full(pieces, |pieces|)
      ensures Grown(old(pieces), pieces) && Concat(pieces) == Concat(old(pieces)) + data
      ensures old(pieces) == [] && data != [] ==> pieces != [] && pieces[0] == Head(data)
    {
      hide Concat, Valid;
      var ptr := 0;
      while ptr < |data|
        invariant 0 <= ptr <= |data| && Valid() && fresh(Repr - old(Repr))
        invariant Concat(pieces) == Concat(old(pieces)) + data[..ptr]
        invariant Grown(old(pieces), pieces) && Full(pieces, |pieces| - 1)
        invariant old(pieces) == [] && ptr == 0 ==> pieces == [] || (pieces == [[]] && top.t == 0)
        invariant old(pieces) == [] && ptr > 0 ==> pieces != [] && Head(data) <= pieces[0]
        invariant Full(pieces, |pieces|) || (ptr < |data| && top != null && top.t < CAPACITY)
        decreases |data| - ptr, if top != null && top.t < CAPACITY then 0 else 1
      {
        var n := AppendSome(data[ptr..]);
        assert data[..ptr] + data[ptr..][..n] == data[..ptr + n];
        ptr := ptr + n;
      }
      assert data[..|data|] == data;
      if old(pieces) == [] && data != [] {
        PieceFits();
        HeadIsFirst(old(pieces), pieces, data);
      }
    }

    /** What the next write is given. */
    method First() returns (data: bytes)
      requires Valid() && pieces != []
      ensures data == pieces[0]
    {
      data := obuf[0].buf[obuf[0].b..obuf[0].t];
    }

    /** Takes `n` bytes off the first block. */
    method Trim(n: nat) returns (emptied: bool)
      requires Valid() && pieces != [] && n <= |pieces[0]|
      modifies Repr
      ensures Valid() && Repr == old(Repr) && emptied == (n == |old(pieces)[0]|)
      ensures pieces == old(pieces)[0 := old(pieces)[0][n..]]
    {
      var left := obuf[0].Remove(n);
      emptied := left == 0;
      pieces := pieces[0 := pieces[0][n..]];
    }

    method DropFirst()
      requires Valid() && pieces != []
      modifies this
      ensures Valid() && Repr == old(Repr) && pieces == old(pieces)[1..]
    {
      hide Block.Valid;
      obuf := obuf[1..];
      pieces := pieces[1..];
      if obuf == [] {
        top := null;
      }
    }

    /** Takes `n` bytes off the first block; an empty block leaves the list. */
    method Remove(n: nat) returns (emptied: bool)
      requires Valid() && pieces != [] && n <= |pieces[0]|
      modifies Repr
      ensures Valid() && Repr == old(Repr)
      ensures emptied <==> n == |old(pieces)[0]|
      ensures pieces == if emptied then old(pieces)[1..] else old(pieces)[0 := old(pieces)[0][n..]]
    {
      hide Valid;
      emptied := Trim(n);
      if emptied {
        DropFirst();
      }
    }
  }

  /** Every byte accepted is sent or waiting, once and in order. */
  ghost predicate Conserves(sent: bytes, pieces: seq<bytes>, accepted: bytes, outputLength: nat) {
    && sent + Concat(pieces) == accepted
    && outputLength == |Concat(pieces)|
    && Full(pieces, |pieces|)
  }

  /** What is sent from the first block is no longer waiting. */
  lemma ConservesShrink(sent: bytes, pieces: seq<bytes>, accepted: bytes, outputLength: nat, n: nat)
    requires Conserves(sent, pieces, accepted, outputLength) && pieces != [] && n <= |pieces[0]|
    ensures n <= outputLength
    ensures Conserves(sent + pieces[0][..n], if n == |pieces[0]| then pieces[1..] else pieces[0 := pieces[0][n..]],
                      accepted, outputLength - n)
  {
    hide Concat;
    ConcatShrink(pieces, n);
    assert Concat(pieces) == pieces[0][..n] + Concat(pieces)[n..];
  }

  /** An SSL_write that asked to be repeated was followed by one with the same bytes. */
  ghost predicate RepeatsAgree(attempts: seq<Attempt>) {
    forall i :: 0 <= i < |attempts| - 1 && attempts[i].again ==> attempts[i + 1].data == attempts[i].data
  }

  /** The last SSL_write is still to be repeated. */
  predicate Pending(attempts: seq<Attempt>) { attempts != [] && attempts[|attempts| - 1].again }

  /** The repeat length covers what the first block still holds, and is what was last offered. */
  ghost predicate RepeatReady(attempts: seq<Attempt>, pieces: seq<bytes>, repeatLength: nat) {
    && (repeatLength != 0 ==> pieces != [] && repeatLength <= |pieces[0]|)
    && (Pending(attempts) ==>
          repeatLength == |attempts[|attempts| - 1].data| > 0 &&
          attempts[|attempts| - 1].data == pieces[0][..repeatLength])
  }

  /** Appending to the last block leaves the front of the first one alone. */
  lemma RepeatSurvivesGrowth(attempts: seq<Attempt>, pieces: seq<bytes>, more: seq<bytes>, repeatLength: nat)
    requires RepeatReady(attempts, pieces, repeatLength) && Grown(pieces, more)
    ensures RepeatReady(attempts, more, repeatLength)
  {
    if repeatLength != 0 {
      assert pieces[0][..repeatLength] == more[0][..repeatLength];
    }
  }

  lemma NothingToRepeat(attempts: seq<Attempt>, pieces: seq<bytes>, repeatLength: nat)
    ensures RepeatReady(attempts, pieces, repeatLength) && pieces == [] ==> repeatLength == 0
  {
  }

  /** How much of a buffer the next write takes. An SSL_write to be repeated offers its own length. */
  function Took(len: nat, repeatLength: nat, outcomes: seq<Outcome>): (n: nat)
    requires repeatLength <= len
    ensures n <= len
  {
    var offered := if repeatLength != 0 then repeatLength else len;
    if outcomes == [] || !outcomes[0].Wrote? then 0
    else if outcomes[0].n < offered then outcomes[0].n
    else offered
  }

  /** What goes out when blocks are written until one is not taken in full. */
  function Drained(pieces: seq<bytes>, repeatLength: nat, outcomes: seq<Outcome>): (out: bytes)
    requires pieces != [] ==> repeatLength <= |pieces[0]|
    ensures out <= Concat(pieces)
  {
    if pieces == [] then []
    else
      var n := Took(|pieces[0]|, repeatLength, outcomes);
      assert pieces[0][..n] <= Concat(pieces);
      if 0 < n == |pieces[0]| then pieces[0] + Drained(pieces[1..], 0, outcomes[1..])
      else pieces[0][..n]
  }

  /** Drained, one write at a time. */
  lemma DrainedStep(pieces: seq<bytes>, repeatLength: nat, outcomes: seq<Outcome>)
    requires pieces != [] && repeatLength <= |pieces[0]|
    ensures var n := Took(|pieces[0]|, repeatLength, outcomes);
      Drained(pieces, repeatLength, outcomes) ==
        if 0 < n == |pieces[0]| then pieces[0][..n] + Drained(pieces[1..], 0, outcomes[1..])
        else pieces[0][..n]
    ensures Took(|pieces[0]|, repeatLength, outcomes) > 0 ==> outcomes != []
  {
    assert pieces[0][..|pieces[0]|] == pieces[0];
  }

  /** The kernel takes every block that waits in full; a repeated SSL_write must be for a whole block. */
  predicate TakesAll(pieces: seq<bytes>, repeatLength: nat, outcomes: seq<Outcome>) {
    && pieces != [] && |pieces| <= |outcomes| && (repeatLength == 0 || repeatLength == |pieces[0]|)
    && forall i :: 0 <= i < |pieces| ==> outcomes[i].Wrote? && outcomes[i].n >= |pieces[i]|
  }

  /** A first block that is taken in full. */
  lemma DrainedWhole(pieces: seq<bytes>, repeatLength: nat, outcomes: seq<Outcome>)
    requires pieces != [] && pieces[0] != [] && (repeatLength == 0 || repeatLength == |pieces[0]|)
    requires outcomes != [] && outcomes[0].Wrote? && outcomes[0].n >= |pieces[0]|
    ensures Drained(pieces, repeatLength, outcomes) == pieces[0] + Drained(pieces[1..], 0, outcomes[1..])
  {
  }

  /** Blocks that are taken in full, and what follows them. */
  lemma {:induction false} DrainedPrefix(pieces: seq<bytes>, repeatLength: nat, outcomes: seq<Outcome>, k: nat)
    requires pieces != [] ==> repeatLength <= |pieces[0]|
    requires k <= |pieces| && k <= |outcomes| && (k > 0 ==> repeatLength == 0 || repeatLength == |pieces[0]|)
    requires forall i :: 0 <= i < k ==> pieces[i] != [] && outcomes[i].Wrote? && outcomes[i].n >= |pieces[i]|
    ensures Drained(pieces, repeatLength, outcomes) ==
      Concat(pieces[..k]) + Drained(pieces[k..], if k == 0 then repeatLength else 0, outcomes[k..])
    decreases k
  {
    hide Drained;
    if k == 0 {
      assert pieces[..0] == [] && pieces[0..] == pieces && outcomes[0..] == outcomes;
    } else {
      var rest, later := pieces[1..], outcomes[1..];
      DrainedPrefix(rest, 0, later, k - 1);
      DrainedWhole(pieces, repeatLength, outcomes);
      assert pieces[..k][0] == pieces[0] && pieces[..k][1..] == rest[..k - 1];
      assert rest[k - 1..] == pieces[k..] && later[k - 1..] == outcomes[k..];
      var tail := Drained(pieces[k..], 0, outcomes[k..]);
      assert pieces[0] + (Concat(rest[..k - 1]) + tail) == (pieces[0] + Concat(rest[..k - 1])) + tail;
    }
  }

  /** What the writes take: `k` blocks in full, and what one more write takes of the block behind them. */
  lemma DrainedIs(pieces: seq<bytes>, repeatLength: nat, outcomes: seq<Outcome>, k: nat)
    requires forall i :: 0 <= i < |pieces| ==> pieces[i] != []
    requires pieces != [] ==> repeatLength <= |pieces[0]|
    requires k <= |pieces| && k <= |outcomes| && (k > 0 ==> repeatLength == 0 || repeatLength == |pieces[0]|)
    requires forall i :: 0 <= i < k ==> outcomes[i].Wrote? && outcomes[i].n >= |pieces[i]|
    requires k < |pieces| ==>
      var offered := if k == 0 && repeatLength != 0 then repeatLength else |pieces[k]|;
      offered < |pieces[k]| || k == |outcomes| || !outcomes[k].Wrote? || outcomes[k].n < |pieces[k]|
    ensures k == |pieces| ==> Drained(pieces, repeatLength, outcomes) == Concat(pieces)
    ensures k < |pieces| ==>
      var offered := if k == 0 && repeatLength != 0 then repeatLength else |pieces[k]|;
      Drained(pieces, repeatLength, outcomes) == Concat(pieces[..k]) +
        pieces[k][..if k == |outcomes| || !outcomes[k].Wrote? then 0
                    else if outcomes[k].n < offered then outcomes[k].n else offered]
  {
    hide Concat;
    DrainedPrefix(pieces, repeatLength, outcomes, k);
    if k < |pieces| {
      var rest, later := pieces[k..], outcomes[k..];
      assert rest[0] == pieces[k] && (k < |outcomes| ==> later[0] == outcomes[k]);
    } else {
      assert pieces[..k] == pieces && Drained([], 0, outcomes[k..]) == [];
    }
  }

  /** TakesAll, one write at a time. */
  lemma TakesAllStep(pieces: seq<bytes>, repeatLength: nat, outcomes: seq<Outcome>)
    requires pieces != [] && pieces[0] != [] && repeatLength <= |pieces[0]|
    ensures Took(|pieces[0]|, repeatLength, outcomes) == |pieces[0]| ==> outcomes != []
    ensures TakesAll(pieces, repeatLength, outcomes) <==>
      Took(|pieces[0]|, repeatLength, outcomes) == |pieces[0]|
      && (|pieces| == 1 || TakesAll(pieces[1..], 0, outcomes[1..]))
  {
    if Took(|pieces[0]|, repeatLength, outcomes) == |pieces[0]| {
      var rest, later := pieces[1..], outcomes[1..];
      if TakesAll(pieces, repeatLength, outcomes) {
        forall i | 0 <= i < |rest| ensures later[i].Wrote? && later[i].n >= |rest[i]| {
          assert outcomes[i + 1].Wrote?;
        }
      }
    }
  }

  /** What is no longer waiting has been sent. */
  lemma LengthLeft(sent: bytes, pieces: seq<bytes>, now: bytes, left: seq<bytes>, accepted: bytes, before: nat,
                   after: nat, out: bytes)
    requires Conserves(sent, pieces, accepted, before) && Conserves(now, left, accepted, after)
    requires now == sent + out
    ensures after == before - |out| && (left == [] ==> after == 0)
  {
    assert |sent + Concat(pieces)| == |accepted| == |now + Concat(left)|;
  }

  lemma FirstIsReady(accepted: bytes, sent: bytes, outputLength: nat, attempts: seq<Attempt>, pieces: seq<bytes>,
                     repeatLength: nat)
    requires Conserves(sent, pieces, accepted, outputLength) && pieces != []
    requires RepeatReady(attempts, pieces, repeatLength)
    ensures pieces[0] != [] && repeatLength <= |pieces[0]| && RepeatReady(attempts, [pieces[0]], repeatLength)
  {
  }

  lemma ReadyForAll(attempts: seq<Attempt>, pieces: seq<bytes>, repeatLength: nat)
    requires pieces != []
    ensures RepeatReady(attempts, [pieces[0]], repeatLength) ==> RepeatReady(attempts, pieces, repeatLength)
  {
  }

  lemma NoRepeatIsReady(attempts: seq<Attempt>, pieces: seq<bytes>)
    ensures !Pending(attempts) ==> RepeatReady(attempts, pieces, 0)
  {
  }

  lemma DrainedAfter(sent: bytes, pieces: seq<bytes>, repeatLength: nat, outcomes: seq<Outcome>)
    requires pieces != [] && repeatLength <= |pieces[0]|
    ensures var n := Took(|pieces[0]|, repeatLength, outcomes);
      sent + Drained(pieces, repeatLength, outcomes) ==
        if 0 < n == |pieces[0]| then sent + pieces[0][..n] + Drained(pieces[1..], 0, outcomes[1..])
        else sent + pieces[0][..n]
    ensures Took(|pieces[0]|, repeatLength, outcomes) > 0 ==> outcomes != []
  {
    hide Took, Drained;
    DrainedStep(pieces, repeatLength, outcomes);
    var n := Took(|pieces[0]|, repeatLength, outcomes);
    if 0 < n == |pieces[0]| {
      var a, b := pieces[0][..n], Drained(pieces[1..], 0, outcomes[1..]);
      assert sent + (a + b) == sent + a + b;
    }
  }

  class TcpOutput {
    const ssl: bool
    const blocks: BlockList
    var outputLength: nat
    var repeatLength: nat
    var transferLimit: nat
    var socketValid: bool
    var connecting: bool
    var connected: bool
    var closeAndDelete: bool
    // the environment: results of the coming writes, and what the coming callbacks send
    var outcomes: seq<Outcome>
    var callbacks: seq<seq<bytes>>
    // what was handed to the kernel, what the user's sends added up to, and the SSL_write calls
    ghost var sent: bytes
    ghost var accepted: bytes
    ghost var attempts: seq<Attempt>
    ghost var calls: seq<Notice>

    ghost predicate Shape()
      reads this, blocks, blocks.Repr
    {
      blocks.Valid() && this !in blocks.Repr
    }

    ghost predicate Valid()
      reads this, blocks, blocks.Repr
    {
      && Shape()
      && Conserves(sent, blocks.pieces, accepted, outputLength)
      && RepeatsAgree(attempts) && RepeatReady(attempts, blocks.pieces, repeatLength)
      && (!ssl ==> repeatLength == 0 && attempts == [])
    }

    constructor (ssl: bool, transferLimit: nat, outcomes: seq<Outcome>, callbacks: seq<seq<bytes>>)
      ensures Valid() && fresh(blocks) && fresh(blocks.Repr)
      ensures sent == [] && accepted == [] && blocks.pieces == []
    {
      this.ssl, this.transferLimit, this.outcomes, this.callbacks := ssl, transferLimit, outcomes, callbacks;
      outputLength, repeatLength := 0, 0;
      socketValid, connecting, connected, closeAndDelete := true, false, true, false;
      sent, accepted, attempts, calls := [], [], [], [];
      blocks := new BlockList();
    }

    /** Whether SendBuf takes data at all. */
    predicate Accepts()
      reads this
    {
      (socketValid && !connecting && !closeAndDelete) || connecting
    }

    /** The connection is given up after an error, and after an SSL_write of nothing. */
    predicate Fails(outcomes: seq<Outcome>, n: nat) {
      outcomes != [] && (outcomes[0].Broken? || (ssl && outcomes[0].Wrote? && n == 0))
    }

    /** send or SSL_write, given a buffer; the number of bytes taken. On SSL a repeat length
        replaces the length of the buffer. */
    method TryWrite(data: bytes) returns (n: nat)
      requires RepeatsAgree(attempts)
      requires ssl ==> data != [] && RepeatReady(attempts, [data], repeatLength)
      requires !ssl ==> repeatLength == 0 && attempts == []
      modifies this`outcomes, this`repeatLength, this`closeAndDelete, this`attempts, this`sent
      ensures n <= |data| && sent == old(sent) + data[..n]
      ensures n == Took(|data|, old(repeatLength), old(outcomes))
      ensures outcomes == if old(outcomes) == [] then [] else old(outcomes)[1..]
      ensures closeAndDelete == (old(closeAndDelete) || Fails(old(outcomes), n))
      ensures RepeatsAgree(attempts)
      ensures ssl && n == 0 ==> RepeatReady(attempts, [data], repeatLength)
      ensures n > 0 ==> repeatLength == 0 && !Pending(attempts)
      ensures !ssl ==> repeatLength == 0 && attempts == []
    {
      var offered := if repeatLength != 0 then data[..repeatLength] else data;
      var outcome := if outcomes == [] then TryLater else outcomes[0];
      outcomes := if outcomes == [] then [] else outcomes[1..];
      if ssl {
        attempts := attempts + [Attempt(offered, outcome.TryLater?)];
      }
      n := 0;
      match outcome {
        case TryLater =>
          if ssl {
            repeatLength := |offered|;
          }
        case Broken =>
          closeAndDelete := true;
        case Wrote(m) =>
          n := if m < |offered| then m else |offered|;
          if ssl {
            if n == 0 {
              closeAndDelete := true;
            }
            repeatLength := 0;
          }
      }
      assert offered[..n] == data[..n];
      sent := sent + data[..n];
    }

    method Buffer(data: bytes)
      requires Valid()
      modifies this`outputLength, this`accepted, blocks, blocks.Repr
      ensures Valid() && fresh(blocks.Repr - old(blocks.Repr))
      ensures accepted == old(accepted) + data
      ensures old(blocks.pieces) == [] && data != [] ==>
        blocks.pieces != [] && Head(data) == blocks.pieces[0] && repeatLength == 0
    {
      hide Concat, RepeatReady, RepeatsAgree;
      ghost var before := blocks.pieces;
      outputLength := outputLength + |data|;
      blocks.Append(data);
      RepeatSurvivesGrowth(attempts, before, blocks.pieces, repeatLength);
      NothingToRepeat(attempts, before, repeatLength);
      accepted := accepted + data;
      assert sent + (Concat(before) + data) == (sent + Concat(before)) + data;
    }

    /** One round of the loop of SendFromOutputBuffer. */
    method WriteFirst() returns (emptied: bool)
      requires Valid() && blocks.pieces != []
      modifies this`outcomes, this`repeatLength, this`closeAndDelete, this`attempts, this`sent, this`outputLength
      modifies blocks, blocks.Repr
      ensures Valid() && blocks.Repr == old(blocks.Repr)
      ensures |blocks.pieces| == |old(blocks.pieces)| - if emptied then 1 else 0
      ensures old(sent + Drained(blocks.pieces, repeatLength, outcomes)) ==
              if emptied then sent + Drained(blocks.pieces, repeatLength, outcomes) else sent
      ensures old(TakesAll(blocks.pieces, repeatLength, outcomes)) <==>
        emptied && (blocks.pieces == [] || TakesAll(blocks.pieces, repeatLength, outcomes))
    {
      hide BlockList.Valid, Drained, TakesAll, Took, Fails, RepeatsAgree, RepeatReady, Conserves, Pending;
      ghost var pieces, before := blocks.pieces, sent;
      var data := blocks.First();
      FirstIsReady(accepted, sent, outputLength, attempts, pieces, repeatLength);
      DrainedAfter(sent, pieces, repeatLength, outcomes);
      TakesAllStep(pieces, repeatLength, outcomes);
      var n := TryWrite(data);
      emptied := false;
      if n > 0 {
        ConservesShrink(before, pieces, accepted, outputLength, n);
        emptied := blocks.Remove(n);
        outputLength := outputLength - n;
        NoRepeatIsReady(attempts, blocks.pieces);
      } else {
        assert before + data[..0] == before;
        ReadyForAll(attempts, pieces, repeatLength);
      }
    }

    /** The loop of SendFromOutputBuffer up to the callback, which ends it: write blocks until
        one is not sent in full. */
    method WriteBlocks() returns (complete: bool)
      requires Valid()
      modifies this`outcomes, this`repeatLength, this`closeAndDelete, this`attempts, this`sent, this`outputLength
      modifies blocks, blocks.Repr
      ensures Valid() && blocks.Repr == old(blocks.Repr)
      ensures sent == old(sent + Drained(blocks.pieces, repeatLength, outcomes))
      ensures complete <==> blocks.pieces == [] && old(blocks.pieces) != []
      ensures complete <==> old(TakesAll(blocks.pieces, repeatLength, outcomes))
      ensures outputLength == old(outputLength - |Drained(blocks.pieces, repeatLength, outcomes)|)
      ensures complete ==> outputLength == 0
    {
      hide Conserves, RepeatsAgree, BlockList.Valid, Took, Drained;
      ghost var out := sent + Drained(blocks.pieces, repeatLength, outcomes);
      complete := false;
      var repeat := blocks.obuf != [];
      while repeat
        invariant Valid() && blocks.Repr == old(blocks.Repr)
        invariant repeat ==> blocks.pieces != [] && !complete
        invariant !repeat ==> complete == (blocks.pieces == [] && old(blocks.pieces) != [])
        invariant old(TakesAll(blocks.pieces, repeatLength, outcomes)) ==
          if repeat then TakesAll(blocks.pieces, repeatLength, outcomes) else complete
        invariant out == sent + if repeat then Drained(blocks.pieces, repeatLength, outcomes) else []
        decreases repeat, |blocks.pieces|
      {
        var emptied := WriteFirst();
        repeat := emptied && blocks.obuf != [];
        complete := emptied && blocks.obuf == [];
      }
      LengthLeft(old(sent), old(blocks.pieces), sent, blocks.pieces, accepted, old(outputLength), outputLength,
                 old(Drained(blocks.pieces, repeatLength, outcomes)));
    }

    /** Nothing is waiting and there is no SSL: write, and keep what was not taken. */
    method SendNow(data: bytes)
      requires Valid() && blocks.pieces == [] && !ssl
      modifies this`outcomes, this`repeatLength, this`closeAndDelete, this`attempts, this`sent
      modifies this`outputLength, this`accepted, blocks, blocks.Repr
      ensures Valid() && fresh(blocks.Repr - old(blocks.Repr))
      ensures sent == old(sent) + data[..Took(|data|, 0, old(outcomes))] && accepted == old(accepted) + data
    {
      hide RepeatsAgree, BlockList.Valid;
      var n := TryWrite(data);
      accepted := accepted + data[..n];
      assert sent + [] == sent && old(sent) + [] == old(sent);
      if n < |data| {
        Buffer(data[n..]);
        assert data == data[..n] + data[n..];
      } else {
        assert data == data[..n];
      }
    }

    /** OnWriteComplete or OnTransferLimit: the user sends more. */
    method Callback(ghost call: Notice)
      requires Valid() && call.left == outputLength
      modifies this, blocks, blocks.Repr
      ensures Valid() && fresh(blocks.Repr - old(blocks.Repr))
      ensures |callbacks| <= |old(callbacks)| && (old(callbacks) != [] ==> |callbacks| < |old(callbacks)|)
      ensures old(accepted) <= accepted && old(sent) <= sent
      ensures old(callbacks) == [] ==>
        accepted == old(accepted) && sent == old(sent) && outputLength == old(outputLength)
      ensures unchanged(this`transferLimit, this`connected, this`connecting, this`socketValid)
      ensures Called(old(calls) + [call], calls, call.depth + 1)
      ensures old(callbacks) == [] ==> calls == old(calls) + [call]
      ensures old(callbacks != [] && callbacks[0] != [] && Accepts()) ==> old(accepted + callbacks[0][0]) <= accepted
      decreases |callbacks|, 0
    {
      hide Called;
      calls := calls + [call];
      ghost var first := calls;
      CalledNone(first, call.depth + 1);
      if callbacks != [] {
        var script := callbacks[0];
        callbacks := callbacks[1..];
        for i := 0 to |script|
          invariant Valid() && fresh(blocks.Repr - old(blocks.Repr))
          invariant |callbacks| < |old(callbacks)|
          invariant old(accepted) <= accepted && old(sent) <= sent
          invariant unchanged(this`transferLimit, this`connected, this`connecting, this`socketValid)
          invariant i > 0 && old(Accepts()) ==> old(accepted) + script[0] <= accepted
          invariant i == 0 ==> Accepts() == old(Accepts()) && accepted == old(accepted)
          invariant Called(first, calls, call.depth + 1)
        {
          ghost var before := calls;
          SendBuf(script[i], call.depth + 1);
          CalledTwice(first, before, calls, call.depth + 1);
        }
      }
    }

    /** Send waiting blocks; report when all is sent and when little enough is left. `rest` is what waits
        once the writes and OnWriteComplete are over. */
    method SendFromOutputBuffer(ghost depth: nat) returns (ghost rest: nat)
      requires Valid()
      modifies this, blocks, blocks.Repr
      ensures Valid() && fresh(blocks.Repr - old(blocks.Repr))
      ensures |callbacks| <= |old(callbacks)| && old(accepted) <= accepted
      ensures old(sent + Drained(blocks.pieces, repeatLength, outcomes)) <= sent
      ensures callbacks == old(callbacks) ==> accepted == old(accepted)
      ensures callbacks == old(callbacks) ==> sent == old(sent + Drained(blocks.pieces, repeatLength, outcomes))
      ensures unchanged(this`transferLimit, this`connected, this`connecting, this`socketValid)
      ensures Called(old(calls), calls, depth)
      ensures AtDepth(calls[|old(calls)|..], depth) ==
        (if old(TakesAll(blocks.pieces, repeatLength, outcomes)) then [WriteComplete(depth, 0)] else [])
        + (if transferLimit != 0 && old(outputLength) > transferLimit && rest < transferLimit
           then [TransferLimit(depth, rest)] else [])
      ensures !(transferLimit != 0 && old(outputLength) > transferLimit && rest < transferLimit) ==>
        rest == outputLength
      ensures !old(TakesAll(blocks.pieces, repeatLength, outcomes)) ==>
        rest == old(outputLength - |Drained(blocks.pieces, repeatLength, outcomes)|)
      ensures old(TakesAll(blocks.pieces, repeatLength, outcomes) && callbacks == []) ==> rest == 0
      decreases |callbacks|, 1
    {
      hide Conserves, RepeatsAgree, RepeatReady, BlockList.Valid, Drained, Called, TakesAll;
      ghost var first, all := calls, TakesAll(blocks.pieces, repeatLength, outcomes);
      CalledNone(first, depth);
      var size := if transferLimit != 0 then outputLength else 0;
      var complete := WriteBlocks();
      if complete {
        Callback(WriteComplete(depth, 0));
        CalledOne(first, WriteComplete(depth, 0), calls);
      }
      rest := outputLength;
      ghost var middle := calls;
      CalledNone(middle, depth);
      if transferLimit != 0 && size > transferLimit && outputLength < transferLimit {
        Callback(TransferLimit(depth, rest));
        CalledOne(middle, TransferLimit(depth, rest), calls);
      }
      CalledTwice(first, middle, calls, depth);
    }

    /** Send now what can be sent, and keep the rest. */
    method SendBuf(data: bytes, ghost depth: nat)
      requires Valid()
      modifies this, blocks, blocks.Repr
      ensures Valid() && fresh(blocks.Repr - old(blocks.Repr))
      ensures |callbacks| <= |old(callbacks)| && old(sent) <= sent
      ensures old(Accepts()) ==> old(accepted) + data <= accepted
      ensures callbacks == old(callbacks) ==> accepted == old(accepted) + if old(Accepts()) then data else []
      ensures old(Accepts() && (!connected || blocks.top != null)) ==> sent == old(sent)
      ensures old(Accepts() && connected && !ssl && blocks.top == null) ==>
        sent == old(sent) + data[..Took(|data|, 0, old(outcomes))]
      ensures old(Accepts() && connected && ssl && blocks.top == null) && data != [] ==>
        old(sent) + Head(data)[..Took(|Head(data)|, 0, old(outcomes))] <= sent
      ensures !old(Accepts()) ==> unchanged(this) && unchanged(blocks) && unchanged(blocks.Repr)
      ensures unchanged(this`transferLimit, this`connected, this`connecting, this`socketValid)
      ensures Called(old(calls), calls, depth)
      ensures !(old(Accepts()) && connected && ssl && old(blocks.top) == null) ==> calls == old(calls)
      decreases |callbacks|, 2
    {
      hide Concat, RepeatsAgree, RepeatReady, BlockList.Valid, Called;
      CalledNone(calls, depth);
      if !Accepts() {
        return;
      }
      if !connected || blocks.top != null {
        Buffer(data);
      } else if ssl {
        Buffer(data);
        if data != [] {
          DrainedStep(blocks.pieces, repeatLength, outcomes);
        }
        ghost var rest := SendFromOutputBuffer(depth);
      } else {
        SendNow(data);
      }
    }
  }
}
