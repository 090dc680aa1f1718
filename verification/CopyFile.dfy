/** misc.c: copying a file up, blocks of zeros becoming holes. */
module CopyFile {
  import opened Names
  import opened Util

  const EINTR: int := 4
  const EAGAIN: int := 11

  /** How a lower read or write goes: it moves at most n bytes (and at least one), is interrupted,
      or fails. */
  datatype Io = Moves(n: nat) | Again | Intr | Fails

  predicate Zeros(s: seq<Byte>) {
    forall i :: 0 <= i < |s| ==> s[i] == 0
  }

  function ZeroSeq(n: nat): (r: seq<Byte>)
    ensures |r| == n && Zeros(r)
  {
    seq(n, _ => 0)
  }

  /** Writing at or behind the end of a file: the gap reads as zeros. */
  function Written(content: seq<Byte>, pos: nat, data: seq<Byte>): seq<Byte>
    requires |content| <= pos
  {
    content + ZeroSeq(pos - |content|) + data
  }

  /** What is in the destination, and the hole behind it, are the source's bytes up to pos. */
  ghost predicate Copied(content: seq<Byte>, src: seq<Byte>, pos: nat) {
    |content| <= pos <= |src| && content == src[..|content|] && Zeros(src[|content|..pos])
  }

  lemma {:induction false} WriteCopies(content: seq<Byte>, src: seq<Byte>, pos: nat, data: seq<Byte>)
    requires Copied(content, src, pos) && pos + |data| <= |src| && data == src[pos..pos + |data|]
    ensures Copied(Written(content, pos, data), src, pos + |data|)
    ensures |Written(content, pos, data)| == pos + |data|
  {
    assert src[|content|..pos] == ZeroSeq(pos - |content|);
    assert src[..pos + |data|] == src[..|content|] + src[|content|..pos] + src[pos..pos + |data|];
  }

  lemma {:induction false} SkipCopies(content: seq<Byte>, src: seq<Byte>, pos: nat, n: nat)
    requires Copied(content, src, pos) && pos + n <= |src| && Zeros(src[pos..pos + n])
    ensures Copied(content, src, pos + n)
  {
    assert src[|content|..pos + n] == src[|content|..pos] + src[pos..pos + n];
  }

  function Min(a: nat, b: nat): nat {
    if a < b then a else b
  }

  ghost predicate NoFailure(sched: seq<Io>) {
    forall i :: 0 <= i < |sched| ==> !sched[i].Fails?
  }

  /** What a call that asks for max bytes comes to when it is made again while interrupted, and
      what is in store after it. With nothing in store it moves them all. */
  function NextIo(sched: seq<Io>, max: nat): (r: (int, seq<Io>))
    requires max > 0
    ensures (r.0 == -EIO || 1 <= r.0 <= max) && |r.1| <= |sched|
    ensures NoFailure(sched) ==> r.0 > 0 && NoFailure(r.1)
  {
    if sched == [] then (max, [])
    else
      match sched[0]
      case Moves(n) => (if n == 0 then 1 else Min(n, max), sched[1..])
      case Fails => (-EIO, sched[1..])
      case _ => NextIo(sched[1..], max)
  }

  /** The size of the last read when len bytes are read in blocks: what decides whether the last
      block can be a hole. Negative when a read fails. */
  function LastRead(sched: seq<Io>, len: nat, blksize: nat): (r: int)
    requires blksize > 0
    ensures r <= Min(len, blksize) && (NoFailure(sched) && len > 0 ==> r > 0)
    decreases len
  {
    if len == 0 then 0
    else
      var (r, rest) := NextIo(sched, Min(len, blksize));
      if r < 0 || r == len then r else LastRead(rest, len - r, blksize)
  }

  /** How many of n bytes are not written: a failed write ends the writing of a block. */
  function Loss(sched: seq<Io>, n: nat): (r: (nat, seq<Io>))
    ensures r.0 <= n && (NoFailure(sched) ==> r.0 == 0 && NoFailure(r.1))
    decreases n
  {
    if n == 0 then (0, sched)
    else
      var (r, rest) := NextIo(sched, n);
      if r < 0 then (n, rest) else Loss(rest, n - r)
  }

  lemma {:induction false} LossStep(sched: seq<Io>, n: nat)
    ensures n == 0 ==> Loss(sched, n) == (0, sched)
    ensures n > 0 ==> var (r, rest) := NextIo(sched, n); Loss(sched, n) == if r < 0 then (n, rest) else Loss(rest, n - r)
  {
  }

  lemma {:induction false} SliceOf(src: seq<Byte>, q: nat, buf: seq<Byte>, p: nat, b: nat)
    requires q + |buf| <= |src| && buf == src[q..q + |buf|] && p + b <= |buf|
    ensures buf[p..p + b] == src[q + p..q + p + b]
  {
    var s, t := buf[p..p + b], src[q + p..q + p + b];
    forall j | 0 <= j < b ensures s[j] == t[j] {
      assert buf[p + j] == src[q..q + |buf|][p + j];
    }
  }

  lemma {:induction false} WrittenSize(content: seq<Byte>, pos: nat, data: seq<Byte>)
    requires |content| <= pos
    ensures |Written(content, pos, data)| == pos + |data|
  {
  }

  /** How many bytes a whole copy loses to failed writes, which nobody reports. */
  ghost function LostBytes(src: seq<Byte>, pos: nat, len: nat, blksize: nat, rs: seq<Io>, ws: seq<Io>): (n: nat)
    requires blksize > 0 && pos + len <= |src|
    ensures NoFailure(ws) ==> n == 0
    decreases len
  {
    if len == 0 then 0
    else
      var (r, rest) := NextIo(rs, Min(len, blksize));
      if r < 0 then 0
      else if r == blksize && Zeros(src[pos..pos + r]) then LostBytes(src, pos + r, len - r, blksize, rest, ws)
      else
        var (l, ws') := Loss(ws, r);
        l + LostBytes(src, pos + r, len - r, blksize, rest, ws')
  }

  /** The lower file system's outcomes in store. */
  class Lower {
    var sched: seq<Io>

    constructor (sched: seq<Io>)
      ensures this.sched == sched
    {
      this.sched := sched;
    }

    /** The result of one call that asks for max bytes. */
    method Call(max: nat) returns (r: int)
      requires max > 0
      modifies this
      ensures r == -EAGAIN || r == -EINTR ==> NextIo(old(sched), max) == NextIo(sched, max) && |sched| < |old(sched)|
      ensures r != -EAGAIN && r != -EINTR ==> (r, sched) == NextIo(old(sched), max)
    {
      if sched == [] {
        return max;
      }
      var io := sched[0];
      sched := sched[1..];
      match io
      case Moves(n) => r := if n == 0 then 1 else Min(n, max);
      case Again => r := -EAGAIN;
      case Intr => r := -EINTR;
      case Fails => r := -EIO;
    }
  }

  class File {
    var content: seq<Byte>
    var pos: nat

    constructor (content: seq<Byte>)
      ensures this.content == content && pos == 0
    {
      this.content := content;
      pos := 0;
    }
  }

  /** The read of one block, tried again while interrupted. */
  method ReadBlock(src: File, sz: nat, io: Lower) returns (err: int, buf: seq<Byte>)
    requires 0 < sz <= |src.content| - src.pos
    modifies src`pos, io
    ensures (err, io.sched) == NextIo(old(io.sched), sz)
    ensures err > 0 ==> |buf| == err && src.pos == old(src.pos) + err && buf == src.content[old(src.pos)..src.pos]
    ensures err < 0 ==> src.pos == old(src.pos)
  {
    buf := [];
    err := 0;
    var again := true;
    while again
      invariant src.pos == old(src.pos)
      invariant if again then NextIo(io.sched, sz) == NextIo(old(io.sched), sz) else (err, io.sched) == NextIo(old(io.sched), sz)
      decreases |io.sched|, again
    {
      err := io.Call(sz);
      again := err == -EAGAIN || err == -EINTR;
    }
    if err > 0 {
      buf := src.content[src.pos..src.pos + err];
      src.pos := src.pos + err;
    }
  }

  /** The scan of a full block for a byte that is not zero. */
  method AllZero(buf: seq<Byte>) returns (allZero: bool)
    ensures allZero <==> Zeros(buf)
  {
    allZero := true;
    var i := 0;
    while allZero && i < |buf|
      invariant 0 <= i <= |buf| && (allZero ==> forall k :: 0 <= k < i ==> buf[k] == 0)
      invariant !allZero ==> !Zeros(buf)
    {
      allZero := buf[i] == 0;
      i := i + 1;
    }
  }

  /** vfs_write. */
  method Store(dst: File, data: seq<Byte>)
    requires |dst.content| <= dst.pos
    modifies dst
    ensures dst.content == old(Written(dst.content, dst.pos, data)) && dst.pos == old(dst.pos) + |data|
  {
    dst.content := Written(dst.content, dst.pos, data);
    dst.pos := dst.pos + |data|;
  }

  /** The write of what was read, short writes and interrupts and all. If so far everything is
      where it belongs (intact) and no write fails, it stays so; a failed write ends the block. */
  method WriteBlock(dst: File, buf: seq<Byte>, ghost src: seq<Byte>, ghost intact: bool, io: Lower) returns (ghost lost: nat)
    requires buf != [] && |dst.content| <= dst.pos
    requires intact ==>
               Copied(dst.content, src, dst.pos) && dst.pos + |buf| <= |src| && buf == src[dst.pos..dst.pos + |buf|]
    modifies dst, io
    ensures (lost, io.sched) == Loss(old(io.sched), |buf|)
    ensures |dst.content| <= dst.pos == old(dst.pos) + |buf| - lost
    ensures intact && lost == 0 ==> |dst.content| == dst.pos && Copied(dst.content, src, dst.pos)
  {
    hide Copied, Loss, NextIo, Written, NoFailure;
    var p := 0;
    LossStep(io.sched, |buf|);
    lost := |buf|;
    while p < |buf|
      invariant 0 <= p <= |buf| && |dst.content| <= dst.pos == old(dst.pos) + p
      invariant Loss(old(io.sched), |buf|) == Loss(io.sched, |buf| - p)
      invariant intact ==> Copied(dst.content, src, dst.pos) && (p > 0 ==> |dst.content| == dst.pos)
      decreases |buf| - p, |io.sched|
    {
      ghost var pos := dst.pos;
      LossStep(io.sched, |buf| - p);
      var b := io.Call(|buf| - p);
      if b == -EAGAIN || b == -EINTR {
        LossStep(io.sched, |buf| - p);
        continue;
      }
      if b < 0 {
        lost := |buf| - p;
        return;
      }
      var data := buf[p..p + b];
      if intact {
        SliceOf(src, old(dst.pos), buf, p, b);
        WriteCopies(dst.content, src, pos, data);
      }
      WrittenSize(dst.content, pos, data);
      Store(dst, data);
      p := p + b;
    }
    LossStep(io.sched, 0);
    lost := 0;
  }

  /** The state between two blocks: done bytes are copied, and hole says that the last block was
      skipped, so that the file ends before them. */
  ghost predicate Between(content: seq<Byte>, src: seq<Byte>, done: nat, hole: bool) {
    Copied(content, src, done) && (!hole ==> |content| == done)
  }

  /** One turn of the loop of au_copy_file, what a failed write lost being ignored. */
  method CopyBlock(dst: File, src: File, len: nat, blksize: nat, rio: Lower, wio: Lower, hole0: bool, ghost lost0: nat)
    returns (err: int, hole: bool, ghost lost: nat)
    requires 0 < blksize && 0 < len <= |src.content| - src.pos && |dst.content| <= dst.pos && src.pos == dst.pos + lost0
    requires dst != src && rio != wio && (lost0 == 0 ==> Between(dst.content, src.content, dst.pos, hole0))
    modifies dst, src`pos, rio, wio
    ensures (err, rio.sched) == NextIo(old(rio.sched), Min(len, blksize))
    ensures err > 0 ==> src.pos == old(src.pos) + err == dst.pos + lost && |dst.content| <= dst.pos && lost >= lost0
    ensures err > 0 && lost == 0 ==> Between(dst.content, src.content, dst.pos, hole)
    ensures err > 0 ==> (hole <==> err == blksize && Zeros(src.content[old(src.pos)..src.pos]))
    ensures err > 0 ==> (lost - lost0, wio.sched) == if hole then (0, old(wio.sched)) else Loss(old(wio.sched), err)
  {
    hide Copied, NextIo, Loss;
    var sz := if len < blksize then len else blksize;
    var buf;
    lost := lost0;
    err, buf := ReadBlock(src, sz, rio);
    hole := hole0;
    if err < 0 {
      return;
    }
    hole := false;
    if |buf| == blksize {
      hole := AllZero(buf);
    }
    if !hole {
      ghost var l := WriteBlock(dst, buf, src.content, lost0 == 0, wio);
      lost := lost0 + l;
    } else {
      if lost0 == 0 {
        SkipCopies(dst.content, src.content, dst.pos, |buf|);
      }
      dst.pos := dst.pos + |buf|;
    }
  }

  /** The last block read became a hole: the read was a whole block, and all zeros. */
  ghost predicate LastHole(src: seq<Byte>, len: nat, blksize: nat, rs: seq<Io>) {
    LastZero(src, len, blksize) && LastRead(rs, len, blksize) == blksize
  }

  /** The last blksize bytes are zeros. */
  ghost predicate LastZero(src: seq<Byte>, len: nat, blksize: nat) {
    0 < blksize <= len <= |src| && Zeros(src[len - blksize..len])
  }

  /** au_copy_file into an empty file. What it leaves is known from what the lower calls have in
      store: if no write fails, the source's first len bytes, and one zero byte more exactly when
      the last block became a hole; if one fails, less than that, and no error. */
  method CopyFile(dst: File, src: File, len0: nat, blksize: nat, rio: Lower, wio: Lower) returns (err: int)
    requires 0 < blksize && len0 <= |src.content| && dst.content == [] && dst != src && rio != wio
    modifies dst, src, rio, wio
    ensures src.content == old(src.content)
    ensures LastRead(old(rio.sched), len0, blksize) < 0 ==> err == -EIO
    ensures !FAULTS && LastRead(old(rio.sched), len0, blksize) >= 0 ==>
              NoFailure(old(wio.sched)) || !LastHole(src.content, len0, blksize, old(rio.sched)) ==> err == 0
    ensures err == 0 && LostBytes(src.content, 0, len0, blksize, old(rio.sched), old(wio.sched)) == 0 ==>
              dst.content == src.content[..len0] + if LastHole(src.content, len0, blksize, old(rio.sched)) then [0] else []
    ensures err == 0 ==>
              |dst.content| <= len0 - LostBytes(src.content, 0, len0, blksize, old(rio.sched), old(wio.sched))
                               + if LastHole(src.content, len0, blksize, old(rio.sched)) then 1 else 0
  {
    hide Copied, NextIo, Loss, LastRead, LostBytes, LastZero, Written;
    dst.pos, src.pos := 0, 0;
    Nothing(src.content);
    NoBlock(src.content, len0, blksize, rio.sched);
    var len, allZero := len0, false;
    err := 0;
    ghost var last: int, lost: nat := 0, 0;
    ghost var rs, ws := rio.sched, wio.sched;
    while len > 0
      invariant 0 <= len <= len0 && src.pos == len0 - len == dst.pos + lost && |dst.content| <= dst.pos && err == 0
      invariant src.content == old(src.content) && (lost == 0 ==> Between(dst.content, src.content, dst.pos, allZero))
      invariant LastRead(rs, len0, blksize) == if len == 0 then last else LastRead(rio.sched, len, blksize)
      invariant len == 0 ==> (allZero <==> LastZero(src.content, len0, blksize) && last == blksize)
      invariant LostBytes(src.content, 0, len0, blksize, rs, ws)
             == lost + LostBytes(src.content, src.pos, len, blksize, rio.sched, wio.sched)
      invariant NoFailure(ws) ==> NoFailure(wio.sched)
      decreases len
    {
      BlockStep(src.content, src.pos, len, len0, blksize, rio.sched, wio.sched);
      err, allZero, lost := CopyBlock(dst, src, len, blksize, rio, wio, allZero, lost);
      if err < 0 {
        return;
      }
      last := err;
      len := len - err;
      err := 0;
    }
    NoBlock(src.content, len0, blksize, rio.sched);
    WrittenSize(dst.content, dst.pos, [0]);
    if allZero {
      // the last block may be a hole
      if lost == 0 {
        FillHole(dst.content, src.content, len0);
      }
      err := WriteLast(dst, wio);
      if err == 1 {
        // vfs_notify_change to the position behind it
        err := LowerFault();
      }
    } else if lost == 0 {
      WholeCopy(dst.content, src.content, len0);
    }
  }

  /** What one block does to the size of the last read and to the bytes lost. */
  lemma {:induction false} BlockStep(src: seq<Byte>, pos: nat, len: nat, len0: nat, blksize: nat, rs: seq<Io>, ws: seq<Io>)
    requires blksize > 0 && 0 < len <= len0 <= |src| && pos + len == len0
    ensures var (r, rest) := NextIo(rs, Min(len, blksize));
            && (r < 0 ==> LastRead(rs, len, blksize) == r)
            && (r > 0 ==>
                  var hole, (l, ws') := r == blksize && Zeros(src[pos..pos + r]), Loss(ws, r);
                  && LastRead(rs, len, blksize) == (if r == len then r else LastRead(rest, len - r, blksize))
                  && LostBytes(src, pos, len, blksize, rs, ws)
                  == (if hole then LostBytes(src, pos + r, len - r, blksize, rest, ws)
                      else l + LostBytes(src, pos + r, len - r, blksize, rest, ws'))
                  && (r == len ==> (hole <==> LastZero(src, len0, blksize) && r == blksize)))
    ensures NoFailure(ws) ==> forall r :: r > 0 ==> NoFailure(Loss(ws, r).1)
  {
    hide NextIo, Loss;
  }

  lemma {:induction false} NoBlock(src: seq<Byte>, len: nat, blksize: nat, rs: seq<Io>)
    requires blksize > 0 && len <= |src|
    ensures LastRead(rs, 0, blksize) == 0 && (len == 0 ==> !LastZero(src, len, blksize))
    ensures Between([], src, 0, false)
    ensures forall pos: nat, ws :: pos <= |src| ==> LostBytes(src, pos, 0, blksize, rs, ws) == 0
  {
    Nothing(src);
  }

  /** The one byte behind a hole. */
  method WriteLast(dst: File, io: Lower) returns (err: int)
    requires |dst.content| <= dst.pos
    modifies dst, io
    ensures err == 1 || err == -EIO
    ensures NoFailure(old(io.sched)) ==> err == 1
    ensures dst.content == if err == 1 then old(Written(dst.content, dst.pos, [0])) else old(dst.content)
  {
    var again := true;
    err := 0;
    while again
      invariant dst.content == old(dst.content) && dst.pos == old(dst.pos)
      invariant if again then NextIo(io.sched, 1) == NextIo(old(io.sched), 1) else err == NextIo(old(io.sched), 1).0
      decreases |io.sched|, again
    {
      err := io.Call(1);
      again := err == -EAGAIN || err == -EINTR;
    }
    if err == 1 {
      Store(dst, [0]);
    }
  }

  lemma {:induction false} Nothing(src: seq<Byte>)
    ensures Copied([], src, 0)
  {
    assert src[..0] == [];
  }

  lemma {:induction false} WholeCopy(content: seq<Byte>, src: seq<Byte>, len: nat)
    requires Copied(content, src, len) && |content| == len
    ensures content == src[..len]
  {
  }

  /** The byte written behind a hole makes the hole part of the file. */
  lemma {:induction false} FillHole(content: seq<Byte>, src: seq<Byte>, len: nat)
    requires Copied(content, src, len)
    ensures |content| <= len && Written(content, len, [0]) == src[..len] + [0]
  {
    assert src[|content|..len] == ZeroSeq(len - |content|);
    assert src[..len] == src[..|content|] + src[|content|..len];
  }

  /** n bytes are whole blocks. */
  ghost predicate WholeBlocks(n: nat, blksize: nat)
    requires 0 < blksize
  {
    n == 0 || (blksize <= n && WholeBlocks(n - blksize, blksize))
  }

  /** With whole transfers the last read is a whole block exactly when the length is a multiple
      of the block size. */
  lemma {:induction false} WholeReads(len: nat, blksize: nat)
    requires 0 < blksize && 0 < len
    ensures LastRead([], len, blksize) == blksize <==> WholeBlocks(len, blksize)
    decreases len
  {
    if len > blksize {
      WholeReads(len - blksize, blksize);
    } else if len == blksize {
      assert WholeBlocks(0, blksize);
    }
  }

  /** Byte by byte, and then one whole block. */
  function SingleBytes(n: nat): (s: seq<Io>)
    ensures NoFailure(s)
  {
    if n == 0 then [] else [Moves(1)] + SingleBytes(n - 1)
  }

  lemma {:induction false} SingleThenWhole(len: nat, blksize: nat)
    requires 0 < blksize <= len
    ensures LastRead(SingleBytes(len - blksize), len, blksize) == blksize
    decreases len
  {
    if len > blksize {
      SingleThenWhole(len - 1, blksize);
      var s := SingleBytes(len - blksize);
      assert s[1..] == SingleBytes(len - 1 - blksize);
      assert NextIo(s, Min(len, blksize)) == (1, s[1..]);
    }
  }

  /** The caller's form: some schedule of reads that do not fail makes the copy too long exactly
      when the last blksize bytes of the source are zeros. */
  lemma {:induction false} TooLongSomehow(src: seq<Byte>, len: nat, blksize: nat)
    requires 0 < blksize && len <= |src|
    ensures (exists rs :: NoFailure(rs) && LastHole(src, len, blksize, rs)) <==> LastZero(src, len, blksize)
  {
    if LastZero(src, len, blksize) {
      SingleThenWhole(len, blksize);
      assert LastHole(src, len, blksize, SingleBytes(len - blksize));
    }
  }

  /** So a copy can be one byte longer than its source: zero bytes in blocks of two, two of them,
      or three of them after one short read. */
  lemma {:induction false} OneTooLong()
    ensures LastHole([0, 0], 2, 2, []) && LastHole([0, 0, 0], 3, 2, [Moves(1)])
  {
    assert LastRead([Moves(1)], 3, 2) == LastRead([], 2, 2);
  }

  /** And a write that fails is not reported: both bytes are lost. */
  lemma {:induction false} DroppedWrite()
    ensures LostBytes([1, 1], 0, 2, 2, [], [Fails]) == 2
  {
    var src: seq<Byte> := [1, 1];
    assert src[0..2][0] == 1;
    assert [Fails][1..] == [];
    assert NextIo([Fails], 2) == (-EIO, []);
  }
}
