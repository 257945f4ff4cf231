/** MemFile: a file held in memory as a chain of blocks. */
module MemFile {
  import opened Bytes

  const BLOCKSIZE: nat := 32768

  /** m_write_ptr is cast to a 32-bit int when a write begins. */
  const INT_MAX: nat := 0x7fff_ffff

  /** What a file amounts to. `lag` is how far the block being read is behind the read pointer. */
  datatype File = File(contents: bytes, readPtr: nat, lag: nat, blocks: nat, eof: bool)

  predicate Ok(f: File) {
    && f.lag <= f.readPtr <= |f.contents| && f.lag % BLOCKSIZE == 0
    && f.readPtr - f.lag < f.blocks * BLOCKSIZE
    && (f.blocks - 1) * BLOCKSIZE <= |f.contents| <= f.blocks * BLOCKSIZE
  }

  const EMPTY := File([], 0, 0, 1, false)

  /** A new block is added where the chain is full and for what does not fit. */
  function BlocksFor(size: nat, blocks: nat, len: nat): (n: nat)
    requires size <= blocks * BLOCKSIZE
    ensures blocks <= n && size + len <= n * BLOCKSIZE
    ensures size < n * BLOCKSIZE || len == 0 || size + len == n * BLOCKSIZE
  {
    var n := if size == blocks * BLOCKSIZE then blocks + 1 else blocks;
    if size + len <= n * BLOCKSIZE then n else (size + len + BLOCKSIZE - 1) / BLOCKSIZE
  }

  /** Where in which block a write begins. */
  lemma LastBlock(size: nat, blocks: nat)
    requires (blocks - 1) * BLOCKSIZE <= size <= blocks * BLOCKSIZE && blocks > 0
    ensures if size == blocks * BLOCKSIZE then size / BLOCKSIZE == blocks && size % BLOCKSIZE == 0
            else size / BLOCKSIZE == blocks - 1 && size % BLOCKSIZE == size - (blocks - 1) * BLOCKSIZE
  {
  }

  lemma BlocksForIs(size: nat, blocks: nat, len: nat, n: nat)
    requires size <= blocks * BLOCKSIZE
    requires var m := if size == blocks * BLOCKSIZE then blocks + 1 else blocks;
      if size + len <= m * BLOCKSIZE then n == m else size + len <= n * BLOCKSIZE < size + len + BLOCKSIZE
    ensures BlocksFor(size, blocks, len) == n
  {
  }

  function Written(f: File, s: bytes): (g: File)
    requires Ok(f)
    ensures Ok(g)
  {
    f.(contents := f.contents + s, blocks := BlocksFor(|f.contents|, f.blocks, |s|))
  }

  function Count(f: File, n: nat): (m: nat)
    requires Ok(f)
    ensures f.readPtr + m <= |f.contents|
  {
    if n > |f.contents| - f.readPtr then |f.contents| - f.readPtr else n
  }

  /** What a read of `n` bytes hands over. */
  function Data(f: File, n: nat): bytes
    requires Ok(f)
  {
    f.contents[f.readPtr - f.lag..f.readPtr - f.lag + Count(f, n)]
  }

  /** A read that ends with a block moves on to the next one only if it ends the block that it
      started in, and only if there is a next one by then. */
  predicate FallsBehind(readPtr: nat, lag: nat, m: nat, blocks: nat)
    requires lag <= readPtr
  {
    && m > 0 && (readPtr + m) % BLOCKSIZE == 0
    && (readPtr % BLOCKSIZE + m > BLOCKSIZE || readPtr - lag + m == blocks * BLOCKSIZE)
  }

  /** The lag after a read of `m` bytes that are there. */
  function LagAfter(readPtr: nat, lag: nat, m: nat, blocks: nat): (r: nat)
    requires lag <= readPtr && lag % BLOCKSIZE == 0
    requires readPtr - lag < blocks * BLOCKSIZE && readPtr - lag + m <= blocks * BLOCKSIZE
    ensures r <= readPtr + m && r % BLOCKSIZE == 0 && readPtr + m - r < blocks * BLOCKSIZE
  {
    var at := readPtr - lag;
    assert at % BLOCKSIZE == readPtr % BLOCKSIZE;
    assert readPtr + m == lag + (at + m);
    if FallsBehind(readPtr, lag, m, blocks) then lag + BLOCKSIZE else lag
  }

  function AfterRead(f: File, n: nat): (g: File)
    requires Ok(f)
    ensures Ok(g)
  {
    f.(readPtr := f.readPtr + Count(f, n),
       lag := LagAfter(f.readPtr, f.lag, Count(f, n), f.blocks),
       eof := f.eof || n > |f.contents| - f.readPtr)
  }

  /** A read beyond the end is a read up to the end, but for the flag. */
  lemma AfterClipped(f: File, n: nat)
    requires Ok(f)
    ensures var m := Count(f, n);
      var g := f.(eof := f.eof || n > |f.contents| - f.readPtr);
      && Data(g, m) == Data(f, n) && AfterRead(g, m) == AfterRead(f, n)
      && (m == 0 ==> Data(f, n) == [] && AfterRead(f, n) == g)
  {
  }

  function Rewound(f: File): (g: File)
    requires Ok(f)
    ensures Ok(g)
  {
    f.(readPtr := 0, lag := 0)
  }

  /** How many blocks a read of `n` bytes from offset `p` moves on, of `left` blocks with the first. */
  function Moved(p: nat, n: nat, left: nat): nat {
    if p + n < BLOCKSIZE then 0
    else if p + n == BLOCKSIZE then if left > 1 then 1 else 0
    else (p + n - 1) / BLOCKSIZE
  }

  lemma MovedOrBehind(readPtr: nat, readNr: nat, n: nat, blocks: nat)
    requires n > 0 && readNr < blocks && readNr * BLOCKSIZE <= readPtr
    requires readNr * BLOCKSIZE + readPtr % BLOCKSIZE + n <= blocks * BLOCKSIZE
    ensures var p := readPtr % BLOCKSIZE;
      var lag := readPtr - p - readNr * BLOCKSIZE;
      var next := readPtr + n;
      var moved := Moved(p, n, blocks - readNr);
      next - next % BLOCKSIZE - (readNr + moved) * BLOCKSIZE ==
      if next % BLOCKSIZE == 0 && (p + n > BLOCKSIZE || readPtr - lag + n == blocks * BLOCKSIZE)
      then lag + BLOCKSIZE else lag
  {
  }

  function Part(s: bytes, at: nat, n: nat): (r: bytes)
    requires at + n <= |s|
    ensures |r| == n
  {
    s[at..at + n]
  }

  lemma Adjacent(s: bytes, at: nat, m: nat, n: nat)
    requires at + m + n <= |s|
    ensures Part(s, at, m) + Part(s, at + m, n) == Part(s, at, m + n)
  {
  }

  class Block {
    const data: array<byte>
    var next: Block?

    constructor ()
      ensures data.Length == BLOCKSIZE && next == null && fresh(data)
    {
      data := new byte[BLOCKSIZE];
      next := null;
    }
  }

  /** The blocks from m_base to m_current_write, the last one. */
  class Chain {
    const base: Block
    var currentWrite: Block
    var currentWriteNr: nat
    ghost var blocks: seq<Block>
    ghost var held: seq<bytes>
    ghost var Repr: set<object>

    ghost predicate Valid()
      reads this, Repr
      ensures Valid() ==> this in Repr && held != [] && currentWriteNr == |held| - 1 && |blocks| == |held|
      ensures Valid() ==> blocks[0] == base && |held[currentWriteNr]| == BLOCKSIZE
      ensures Valid() ==> currentWrite in Repr && currentWrite.data in Repr
    {
      && Own() && blocks[0] == base
      && (forall i :: 0 <= i < |blocks| ==> blocks[i].data.Length == BLOCKSIZE && blocks[i].data[..] == held[i])
      && (forall i, j :: 0 <= i && j == i + 1 && j < |blocks| ==> blocks[i].next == blocks[j])
      && currentWriteNr == |blocks| - 1
      && currentWrite == blocks[currentWriteNr] && currentWrite.next == null
    }

    /** The blocks of the chain, none of them twice, belong to it. */
    ghost predicate Own()
      reads this, Repr
    {
      && this in Repr && blocks != [] && |held| == |blocks|
      && (forall i :: 0 <= i < |blocks| ==> blocks[i] in Repr && blocks[i].data in Repr)
      && (forall i, j :: 0 <= i < j < |blocks| ==> blocks[i] != blocks[j] && blocks[i].data != blocks[j].data)
    }

    constructor ()
      ensures Valid() && fresh(Repr) && |held| == 1
    {
      var block := new Block();
      base, currentWrite, currentWriteNr := block, block, 0;
      blocks, held := [block], [block.data[..]];
      Repr := {this, block, block.data};
    }

    /** memcpy into the block being written. */
    method Put(p: nat, s: bytes)
      requires Valid() && p + |s| <= BLOCKSIZE
      modifies this`held, currentWrite.data
      ensures Valid() && held == old(held)[currentWriteNr := Copied(old(held)[currentWriteNr], p, s)]
    {
      var data := currentWrite.data;
      forall k | 0 <= k < |s| {
        data[p + k] := s[k];
      }
      held := held[currentWriteNr := Copied(held[currentWriteNr], p, s)];
    }

    /** Links another block to the chain. */
    method Extend()
      requires Valid()
      modifies this, currentWrite`next
      ensures Valid() && fresh(Repr - old(Repr))
      ensures |held| == |old(held)| + 1 && held[..|old(held)|] == old(held) && blocks[..|old(held)|] == old(blocks)
      ensures |held[|old(held)|]| == BLOCKSIZE && fresh(currentWrite.data)
    {
      var next := new Block();
      currentWrite.next := next;
      currentWrite := next;
      currentWriteNr := currentWriteNr + 1;
      blocks, held := blocks + [next], held + [next.data[..]];
      Repr := Repr + {next, next.data};
    }

    /** Bytes of block number `i`. */
    method Get(block: Block, ghost i: nat, p: nat, n: nat) returns (s: bytes)
      requires Valid() && i < |blocks| && block == blocks[i] && p + n <= BLOCKSIZE
      ensures |held[i]| == BLOCKSIZE && s == held[i][p..p + n]
    {
      s := block.data[p..p + n];
    }

    method Next(block: Block, ghost i: nat) returns (next: Block?)
      requires Valid() && i < |blocks| && block == blocks[i]
      ensures next == if i + 1 < |blocks| then blocks[i + 1] else null
    {
      next := block.next;
    }
  }

  /** Block number `i` holds its share of the contents. */
  ghost predicate Holds(data: bytes, contents: bytes, i: nat) {
    forall k :: 0 <= k < |data| && i * BLOCKSIZE + k < |contents| ==> data[k] == contents[i * BLOCKSIZE + k]
  }

  /** The blocks, one after the other, begin with the contents and have no whole block to spare. */
  ghost predicate Stored(held: seq<bytes>, contents: bytes) {
    && held != [] && (|held| - 1) * BLOCKSIZE <= |contents| <= |held| * BLOCKSIZE
    && forall i :: 0 <= i < |held| ==> |held[i]| == BLOCKSIZE && Holds(held[i], contents, i)
  }

  lemma StoredFilled(held: seq<bytes>, contents: bytes, p: nat, s: bytes)
    requires Stored(held, contents) && p == |contents| - (|held| - 1) * BLOCKSIZE
    requires |held[|held| - 1]| == BLOCKSIZE && p + |s| <= BLOCKSIZE
    ensures Stored(held[|held| - 1 := Copied(held[|held| - 1], p, s)], contents + s)
  {
    hide Copied;
    var n := |held| - 1;
    var next := held[n := Copied(held[n], p, s)];
    forall i | 0 <= i < |held|
      ensures |next[i]| == BLOCKSIZE && Holds(next[i], contents + s, i)
    {
      assert Holds(held[i], contents, i);
    }
  }

  class MemFile {
    const chain: Chain
    var currentRead: Block
    var readPtr: nat
    var writePtr: nat
    var readCausedEof: bool
    ghost var readNr: nat
    ghost var contents: bytes

    ghost predicate Valid()
      reads this, chain, chain.Repr
      ensures Valid() ==> this !in chain.Repr && chain in chain.Repr && chain.currentWriteNr == |chain.held| - 1
      ensures Valid() ==> chain.currentWrite in chain.Repr && chain.currentWrite.data in chain.Repr
      ensures Valid() ==> (|chain.held| - 1) * BLOCKSIZE <= |contents| <= |chain.held| * BLOCKSIZE
      ensures Valid() ==> writePtr == |contents| && readNr < |chain.held| && readNr * BLOCKSIZE <= readPtr <= writePtr
    {
      && chain.Valid() && this !in chain.Repr
      && Stored(chain.held, contents) && writePtr == |contents|
      && readNr < |chain.held| && currentRead == chain.blocks[readNr]
      && readNr * BLOCKSIZE <= readPtr <= writePtr
    }

    ghost function State(): (f: File)
      requires Valid()
      reads this, chain, chain.Repr
      ensures Ok(f)
    {
      File(contents, readPtr, readPtr - readPtr % BLOCKSIZE - readNr * BLOCKSIZE, |chain.held|, readCausedEof)
    }

    constructor ()
      ensures Valid() && fresh(chain) && fresh(chain.Repr) && State() == EMPTY
    {
      var blocks := new Chain();
      chain, currentRead := blocks, blocks.base;
      readPtr, writePtr, readCausedEof := 0, 0, false;
      readNr, contents := 0, [];
    }

    /** memcpy into the block being written. */
    method Fill(p: nat, s: bytes)
      requires Valid() && p == writePtr - (|chain.held| - 1) * BLOCKSIZE && p + |s| <= BLOCKSIZE
      modifies this`writePtr, this`contents, chain`held, chain.currentWrite.data
      ensures Valid() && contents == old(contents) + s && |chain.held| == |old(chain.held)|
    {
      hide Chain.Valid, Stored, Copied;
      StoredFilled(chain.held, contents, p, s);
      chain.Put(p, s);
      writePtr := writePtr + |s|;
      contents := contents + s;
    }

    method Extend()
      requires Valid() && writePtr == |chain.held| * BLOCKSIZE
      modifies chain, chain.currentWrite`next
      ensures Valid() && fresh(chain.Repr - old(chain.Repr))
      ensures |chain.held| == |old(chain.held)| + 1 && fresh(chain.currentWrite.data)
    {
      chain.Extend();
    }

    /** Go on to a new block and copy into it. */
    method FillNext(s: bytes)
      requires Valid() && writePtr == |chain.held| * BLOCKSIZE && |s| <= BLOCKSIZE
      modifies this`writePtr, this`contents, chain, chain.Repr
      ensures Valid() && fresh(chain.Repr - old(chain.Repr))
      ensures |chain.held| == |old(chain.held)| + 1 && contents == old(contents) + s
    {
      hide Valid;
      Extend();
      Fill(0, s);
    }

    /** What does not fit into the current block. */
    method FillOn(s: bytes)
      requires Valid() && writePtr == |chain.held| * BLOCKSIZE && s != []
      modifies this`writePtr, this`contents, chain, chain.Repr
      ensures Valid() && fresh(chain.Repr - old(chain.Repr)) && contents == old(contents) + s
      ensures |contents| <= |chain.held| * BLOCKSIZE < |contents| + BLOCKSIZE
    {
      hide Valid;
      var sz1 := 0;
      var sz2 := |s|;
      while sz2 > BLOCKSIZE
        invariant Valid() && fresh(chain.Repr - old(chain.Repr)) && 0 < sz2 == |s| - sz1
        invariant contents == old(contents) + s[..sz1] && |contents| == |chain.held| * BLOCKSIZE
      {
        FillNext(s[sz1..sz1 + BLOCKSIZE]);
        assert s[..sz1] + s[sz1..sz1 + BLOCKSIZE] == s[..sz1 + BLOCKSIZE];
        sz1 := sz1 + BLOCKSIZE;
        sz2 := sz2 - BLOCKSIZE;
      }
      FillNext(s[sz1..]);
      assert s[..sz1] + s[sz1..] == s;
    }

    /** The first bytes of a write that does not fit fill the block, the others go on. */
    method FillAll(p: nat, s: bytes)
      requires Valid() && p == writePtr - (|chain.held| - 1) * BLOCKSIZE && p <= BLOCKSIZE < p + |s|
      modifies this`writePtr, this`contents, chain, chain.Repr
      ensures Valid() && fresh(chain.Repr - old(chain.Repr)) && contents == old(contents) + s
      ensures |contents| <= |chain.held| * BLOCKSIZE < |contents| + BLOCKSIZE
    {
      hide Valid;
      var sz1 := BLOCKSIZE - p;
      Fill(p, s[..sz1]);
      FillOn(s[sz1..]);
      assert s[..sz1] + s[sz1..] == s;
    }

    method Write(s: bytes)
      requires Valid() && |contents| <= INT_MAX
      modifies this, chain, chain.Repr
      ensures Valid() && fresh(chain.Repr - old(chain.Repr))
      ensures State() == Written(old(State()), s)
    {
      hide Valid, BlocksFor;
      ghost var size, blocks := |contents|, |chain.held|;
      LastBlock(size, blocks);
      var p := writePtr % BLOCKSIZE;
      var nr := writePtr / BLOCKSIZE;
      if chain.currentWriteNr < nr {
        Extend();
      }
      if p + |s| <= BLOCKSIZE {
        Fill(p, s);
      } else {
        FillAll(p, s);
      }
      BlocksForIs(size, blocks, |s|, |chain.held|);
    }

    /** Bytes of the block being read. */
    method Take(p: nat, n: nat, ghost at: nat) returns (data: bytes)
      requires Valid() && p + n <= BLOCKSIZE && at == readNr * BLOCKSIZE + p && at + n <= |contents|
      requires readPtr + n <= writePtr
      modifies this`readPtr
      ensures Valid() && data == Part(contents, at, n)
      ensures readPtr == old(readPtr) + n
    {
      data := chain.Get(currentRead, readNr, p, n);
      assert Holds(chain.held[readNr], contents, readNr);
      readPtr := readPtr + n;
    }

    /** Go on to the next block, if there is one. */
    method NextBlock() returns (more: bool)
      requires Valid() && (readNr + 1) * BLOCKSIZE <= readPtr
      modifies this`currentRead, this`readNr
      ensures Valid() && more == (old(readNr) + 1 < |chain.held|)
      ensures readNr == if more then old(readNr) + 1 else old(readNr)
    {
      var next := chain.Next(currentRead, readNr);
      more := next != null;
      if more {
        currentRead := next;
        readNr := readNr + 1;
      }
    }

    /** What the rest of the chain has of a read that ends the block it started in. */
    method TakeOn(n: nat) returns (data: bytes)
      requires Valid() && (readNr + 1) * BLOCKSIZE <= readPtr && readPtr + n <= writePtr
      modifies this`readPtr, this`currentRead, this`readNr
      ensures Valid() && readPtr == old(readPtr) + n
      ensures var at := (old(readNr) + 1) * BLOCKSIZE; data == Part(contents, at, n)
      ensures n == 0 ==> readNr == if old(readNr) + 1 < |chain.held| then old(readNr) + 1 else old(readNr)
      ensures n > 0 ==> (readNr - old(readNr) - 1) * BLOCKSIZE < n <= (readNr - old(readNr)) * BLOCKSIZE
    {
      hide Valid, Part;
      ghost var at := (readNr + 1) * BLOCKSIZE;
      var sz1, sz2 := 0, n;
      data := [];
      var more := NextBlock();
      while more && sz2 > BLOCKSIZE
        invariant Valid() && sz1 + sz2 == n && 0 <= sz1 <= n && readPtr == old(readPtr) + sz1
        invariant data == Part(contents, at, sz1)
        invariant (readNr + if more then 0 else 1) * BLOCKSIZE == at + sz1
        invariant !more ==> readNr + 1 == |chain.held|
        invariant sz2 > 0 || sz1 == 0
      {
        var block := Take(0, BLOCKSIZE, at + sz1);
        Adjacent(contents, at, sz1, BLOCKSIZE);
        data := data + block;
        sz1 := sz1 + BLOCKSIZE;
        sz2 := sz2 - BLOCKSIZE;
        more := NextBlock();
      }
      if more {
        var block := Take(0, sz2, at + sz1);
        Adjacent(contents, at, sz1, sz2);
        data := data + block;
      }
    }

    /** A read of bytes that are there: what it moves. */
    method ReadSome(sz: nat) returns (data: bytes)
      requires Valid() && 0 < sz && readPtr + sz <= writePtr
      modifies this`readPtr, this`currentRead, this`readNr
      ensures Valid() && readPtr == old(readPtr) + sz
      ensures var pos := old(readNr * BLOCKSIZE + readPtr % BLOCKSIZE); data == Part(contents, pos, sz)
      ensures readNr == old(readNr) + Moved(old(readPtr) % BLOCKSIZE, sz, |chain.held| - old(readNr))
    {
      hide Valid, Part;
      var p := readPtr % BLOCKSIZE;
      ghost var pos := readNr * BLOCKSIZE + p;
      if p + sz < BLOCKSIZE {
        data := Take(p, sz, pos);
      } else {
        var sz1 := BLOCKSIZE - p;
        data := Take(p, sz1, pos);
        var rest := TakeOn(sz - sz1);
        Adjacent(contents, pos, sz1, sz - sz1);
        data := data + rest;
      }
    }

    /** A read within what there is, and its effect on the file. */
    method ReadPresent(sz: nat) returns (data: bytes)
      requires Valid() && 0 < sz && readPtr + sz <= writePtr
      modifies this`readPtr, this`currentRead, this`readNr
      ensures Valid() && data == Data(old(State()), sz) && State() == AfterRead(old(State()), sz)
    {
      hide Valid, Moved;
      MovedOrBehind(readPtr, readNr, sz, |chain.held|);
      data := ReadSome(sz);
    }

    method Read(n: nat) returns (data: bytes)
      requires Valid()
      modifies this
      ensures Valid()
      ensures data == Data(old(State()), n) && State() == AfterRead(old(State()), n)
    {
      hide Valid, Data, AfterRead;
      AfterClipped(State(), n);
      var sz := n;
      var available := writePtr - readPtr;
      if sz > available {
        sz := available;
        SetEof();
      }
      if sz == 0 {
        return [];
      }
      data := ReadPresent(sz);
    }

    method SetEof()
      requires Valid()
      modifies this`readCausedEof
      ensures Valid() && readCausedEof
    {
      readCausedEof := true;
    }

    method ResetRead()
      requires Valid()
      modifies this
      ensures Valid() && State() == Rewound(old(State()))
    {
      readPtr := 0;
      currentRead := chain.base;
      readNr := 0;
    }
  }

  datatype Op = Write(s: bytes) | Read(n: nat) | Rewind

  datatype Answer = Answer(data: bytes, eof: bool)

  function Next(f: File, op: Op): (g: File)
    requires Ok(f)
    ensures Ok(g)
  {
    match op
    case Write(s) => Written(f, s)
    case Read(n) => AfterRead(f, n)
    case Rewind => Rewound(f)
  }

  function AnswerTo(f: File, op: Op): Answer
    requires Ok(f)
  {
    Answer(if op.Read? then Data(f, op.n) else [], Next(f, op).eof)
  }

  /** What a run of operations gives back. */
  function Answers(f: File, ops: seq<Op>): (answers: seq<Answer>)
    requires Ok(f)
    decreases |ops|
  {
    if ops == [] then [] else [AnswerTo(f, ops[0])] + Answers(Next(f, ops[0]), ops[1..])
  }

  /** A plain array of bytes with a read position. */
  datatype Plain = Plain(contents: bytes, at: nat, eof: bool)

  function PlainNext(p: Plain, op: Op): (r: Plain)
    requires p.at <= |p.contents|
    ensures r.at <= |r.contents|
  {
    match op
    case Write(s) => p.(contents := p.contents + s)
    case Rewind => p.(at := 0)
    case Read(n) =>
      if n > |p.contents| - p.at then p.(at := |p.contents|, eof := true) else p.(at := p.at + n)
  }

  function PlainAnswers(p: Plain, ops: seq<Op>): seq<Answer>
    requires p.at <= |p.contents|
    decreases |ops|
  {
    if ops == [] then []
    else
      var next := PlainNext(p, ops[0]);
      [Answer(if ops[0].Read? then p.contents[p.at..next.at] else [], next.eof)] + PlainAnswers(next, ops[1..])
  }

  /** A read no longer than a block, a rewind, or a write that finds the reader elsewhere than at the
      end of a file of whole blocks. */
  /** No file of whole blocks is written to at its end, and no read ends at a border of blocks
      after another one, but at the end of the file. */
  predicate CarefulOp(p: Plain, op: Op) {
    match op
    case Write(s) => s == [] || !AtFullEnd(p)
    case Rewind => true
    case Read(n) =>
      var end := if p.at + n < |p.contents| then p.at + n else |p.contents|;
      !(Crosses(p.at, end) && end % BLOCKSIZE == 0 && end < |p.contents|)
  }

  /** A border of blocks lies inside a read. */
  predicate Crosses(at: nat, end: nat) { (at / BLOCKSIZE + 1) * BLOCKSIZE < end }

  /** A read of any length leaves the reader a block further behind exactly if it ends at a border and
      either crosses another one or ends where the blocks end; otherwise not further than it was. */
  lemma FallsBehindIff(f: File, n: nat)
    requires Ok(f)
    ensures var end, g := f.readPtr + Count(f, n), AfterRead(f, n);
      && (g.lag == f.lag || g.lag == f.lag + BLOCKSIZE)
      && (g.lag > f.lag <==>
          (f.readPtr < end && end % BLOCKSIZE == 0
           && (Crosses(f.readPtr, end) || end - f.lag == f.blocks * BLOCKSIZE)))
  {
    var p := f.readPtr % BLOCKSIZE;
    assert f.readPtr == f.readPtr / BLOCKSIZE * BLOCKSIZE + p;
  }

  predicate Careful(p: Plain, ops: seq<Op>)
    requires p.at <= |p.contents|
    decreases |ops|
  {
    ops == [] || (CarefulOp(p, ops[0]) && Careful(PlainNext(p, ops[0]), ops[1..]))
  }

  predicate AtFullEnd(p: Plain) { p.at == |p.contents| > 0 && p.at % BLOCKSIZE == 0 }

  function AsPlain(f: File): Plain { Plain(f.contents, f.readPtr, f.eof) }

  /** Reads no longer than a block fall behind at the end of a file of whole blocks only. */
  lemma ShortReadsFallBehindAtFullEnd(f: File, n: nat)
    requires Ok(f) && f.lag == 0 && n <= BLOCKSIZE
    ensures var g := AfterRead(f, n);
      g.lag != 0 <==> f.readPtr < g.readPtr == |f.contents| == f.blocks * BLOCKSIZE
  {
    var p := f.readPtr % BLOCKSIZE;
    var m := Count(f, n);
    if m > 0 && (f.readPtr + m) % BLOCKSIZE == 0 {
      assert (p + m) % BLOCKSIZE == 0;
      assert p + m == BLOCKSIZE;
    }
  }

  lemma CarefulStep(f: File, op: Op)
    requires Ok(f) && (f.lag == 0 || AtFullEnd(AsPlain(f))) && CarefulOp(AsPlain(f), op)
    ensures var g := Next(f, op);
      && AsPlain(g) == PlainNext(AsPlain(f), op) && (g.lag == 0 || AtFullEnd(AsPlain(g)))
      && AnswerTo(f, op) == Answer(if op.Read? then f.contents[f.readPtr..g.readPtr] else [], g.eof)
  {
    match op {
      case Write(s) =>
        assert s == [] ==> f.contents + s == f.contents;
      case Rewind =>
      case Read(n) =>
        if f.lag == 0 {
          FallsBehindIff(f, n);
        }
    }
  }

  /** A careful run is a run of a plain array. */
  lemma {:induction false} CarefulRunsArePlain(f: File, ops: seq<Op>)
    requires Ok(f) && (f.lag == 0 || AtFullEnd(AsPlain(f))) && Careful(AsPlain(f), ops)
    ensures Answers(f, ops) == PlainAnswers(AsPlain(f), ops)
    decreases |ops|
  {
    hide Next, AnswerTo, CarefulOp, PlainNext, AtFullEnd;
    if ops != [] {
      CarefulStep(f, ops[0]);
      CarefulRunsArePlain(Next(f, ops[0]), ops[1..]);
    }
  }

  /** Whatever is written next, reads give the bytes at the read position. */
  ghost predicate ReadsOn(f: File)
    requires Ok(f)
  {
    forall s: bytes, n: nat ::
      Data(Written(f, s), n) == (f.contents + s)[f.readPtr..f.readPtr + Count(Written(f, s), n)]
  }

  /** Once behind, the reader sees old bytes again until it is rewound. */
  lemma ReadsOnIffInStep(f: File)
    requires Ok(f)
    ensures ReadsOn(f) <==> f.lag == 0
  {
    if f.lag != 0 {
      var w := |f.contents|;
      var other: byte := if f.contents[w - f.lag] == 0 then 1 else 0;
      var g := Written(f, [other]);
      var n := w - f.readPtr + 1;
      assert Count(g, n) == n;
      assert Data(g, n)[n - 1] == g.contents[w - f.lag] == f.contents[w - f.lag];
      assert g.contents[f.readPtr..f.readPtr + n][n - 1] == other;
    }
  }

  /** A read of two whole blocks gives the right bytes, and the next one the second block again. */
  lemma LongReadFallsBehind(contents: bytes)
    requires |contents| == 3 * BLOCKSIZE
    ensures var f := File(contents, 0, 0, 3, false);
      && Ok(f) && Data(f, 2 * BLOCKSIZE) == contents[..2 * BLOCKSIZE]
      && Data(AfterRead(f, 2 * BLOCKSIZE), BLOCKSIZE) == contents[BLOCKSIZE..2 * BLOCKSIZE]
  {
  }

  function Size(ops: seq<Op>): nat {
    if ops == [] then 0 else (if ops[0].Write? then |ops[0].s| else 0) + Size(ops[1..])
  }

  lemma SizeOfNext(f: File, ops: seq<Op>)
    requires Ok(f) && ops != []
    ensures |Next(f, ops[0]).contents| + Size(ops[1..]) == |f.contents| + Size(ops)
  {
  }

  method Do(file: MemFile, op: Op) returns (answer: Answer)
    requires file.Valid() && |file.contents| <= INT_MAX
    modifies file, file.chain, file.chain.Repr
    ensures file.Valid() && fresh(file.chain.Repr - old(file.chain.Repr))
    ensures file.State() == Next(old(file.State()), op)
    ensures answer == AnswerTo(old(file.State()), op)
  {
    hide Data, AfterRead, Written;
    var data := [];
    match op {
      case Write(s) => file.Write(s);
      case Read(n) => data := file.Read(n);
      case Rewind => file.ResetRead();
    }
    answer := Answer(data, file.readCausedEof);
  }

  /** Any run of a file no larger than an int can count. */
  method Run(ops: seq<Op>) returns (answers: seq<Answer>)
    requires Size(ops) <= INT_MAX
    ensures answers == Answers(EMPTY, ops)
  {
    hide Next, AnswerTo, Size, MemFile.Valid;
    var file := new MemFile();
    answers := [];
    for i := 0 to |ops|
      invariant file.Valid() && fresh(file) && fresh(file.chain) && fresh(file.chain.Repr)
      invariant |file.State().contents| + Size(ops[i..]) <= INT_MAX
      invariant answers + Answers(file.State(), ops[i..]) == Answers(EMPTY, ops)
    {
      assert ops[i..][1..] == ops[i + 1..];
      SizeOfNext(file.State(), ops[i..]);
      var answer := Do(file, ops[i]);
      answers := answers + [answer];
    }
  }
}
